/** Vocabulary shared by the other modules: optional values and status codes. */
module Common {

  /** A pointer that may be NULL, or a value that may be absent. */
  datatype Option<+T> = None | Some(value: T)

  /** The outcome of an operation: a value with KSI_OK, or an error code. */
  datatype Result<+T> = Ok(value: T) | Err(code: int)

  type Byte = b: int | 0 <= b < 256

  // Status codes (src/ksi/ksi.h).
  const KSI_OK := 0
  const KSI_INVALID_ARGUMENT := 0x100
  const KSI_INVALID_FORMAT := 0x101
  const KSI_UNAVAILABLE_HASH_ALGORITHM := 0x103
  const KSI_INVALID_STATE := 0x10a
  const KSI_OUT_OF_MEMORY := 0x200
  const KSI_NETWORK_SEND_TIMEOUT := 0x204
  const KSI_NETWORK_RECIEVE_TIMEOUT := 0x205
  const KSI_INCOMPATIBLE_HASH_CHAIN := 0x213
  const KSI_ASYNC_CONNECTION_CLOSED := 0x604
  const KSI_ASYNC_REQUEST_CACHE_FULL := 0x607

  /** A status code other than KSI_OK. */
  type ErrorCode = c: int | c != KSI_OK witness 1
}
