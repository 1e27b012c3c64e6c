/** Table-driven CRC-32 (src/ksi/crc32.c), compared with the bit-at-a-time definition of section 8 of RFC 1952. */
module Crc32 {

  // ----- the table, sixteen entries to a row -----

  function Row0(low: bv8): bv32 {
    match low
      case 0 => 0x00000000 case 1 => 0x77073096 case 2 => 0xee0e612c case 3 => 0x990951ba
      case 4 => 0x076dc419 case 5 => 0x706af48f case 6 => 0xe963a535 case 7 => 0x9e6495a3
      case 8 => 0x0edb8832 case 9 => 0x79dcb8a4 case 10 => 0xe0d5e91e case 11 => 0x97d2d988
      case 12 => 0x09b64c2b case 13 => 0x7eb17cbd case 14 => 0xe7b82d07 case 15 => 0x90bf1d91
      case _ => 0
  }

  function Row1(low: bv8): bv32 {
    match low
      case 0 => 0x1db71064 case 1 => 0x6ab020f2 case 2 => 0xf3b97148 case 3 => 0x84be41de
      case 4 => 0x1adad47d case 5 => 0x6ddde4eb case 6 => 0xf4d4b551 case 7 => 0x83d385c7
      case 8 => 0x136c9856 case 9 => 0x646ba8c0 case 10 => 0xfd62f97a case 11 => 0x8a65c9ec
      case 12 => 0x14015c4f case 13 => 0x63066cd9 case 14 => 0xfa0f3d63 case 15 => 0x8d080df5
      case _ => 0
  }

  function Row2(low: bv8): bv32 {
    match low
      case 0 => 0x3b6e20c8 case 1 => 0x4c69105e case 2 => 0xd56041e4 case 3 => 0xa2677172
      case 4 => 0x3c03e4d1 case 5 => 0x4b04d447 case 6 => 0xd20d85fd case 7 => 0xa50ab56b
      case 8 => 0x35b5a8fa case 9 => 0x42b2986c case 10 => 0xdbbbc9d6 case 11 => 0xacbcf940
      case 12 => 0x32d86ce3 case 13 => 0x45df5c75 case 14 => 0xdcd60dcf case 15 => 0xabd13d59
      case _ => 0
  }

  function Row3(low: bv8): bv32 {
    match low
      case 0 => 0x26d930ac case 1 => 0x51de003a case 2 => 0xc8d75180 case 3 => 0xbfd06116
      case 4 => 0x21b4f4b5 case 5 => 0x56b3c423 case 6 => 0xcfba9599 case 7 => 0xb8bda50f
      case 8 => 0x2802b89e case 9 => 0x5f058808 case 10 => 0xc60cd9b2 case 11 => 0xb10be924
      case 12 => 0x2f6f7c87 case 13 => 0x58684c11 case 14 => 0xc1611dab case 15 => 0xb6662d3d
      case _ => 0
  }

  function Row4(low: bv8): bv32 {
    match low
      case 0 => 0x76dc4190 case 1 => 0x01db7106 case 2 => 0x98d220bc case 3 => 0xefd5102a
      case 4 => 0x71b18589 case 5 => 0x06b6b51f case 6 => 0x9fbfe4a5 case 7 => 0xe8b8d433
      case 8 => 0x7807c9a2 case 9 => 0x0f00f934 case 10 => 0x9609a88e case 11 => 0xe10e9818
      case 12 => 0x7f6a0dbb case 13 => 0x086d3d2d case 14 => 0x91646c97 case 15 => 0xe6635c01
      case _ => 0
  }

  function Row5(low: bv8): bv32 {
    match low
      case 0 => 0x6b6b51f4 case 1 => 0x1c6c6162 case 2 => 0x856530d8 case 3 => 0xf262004e
      case 4 => 0x6c0695ed case 5 => 0x1b01a57b case 6 => 0x8208f4c1 case 7 => 0xf50fc457
      case 8 => 0x65b0d9c6 case 9 => 0x12b7e950 case 10 => 0x8bbeb8ea case 11 => 0xfcb9887c
      case 12 => 0x62dd1ddf case 13 => 0x15da2d49 case 14 => 0x8cd37cf3 case 15 => 0xfbd44c65
      case _ => 0
  }

  function Row6(low: bv8): bv32 {
    match low
      case 0 => 0x4db26158 case 1 => 0x3ab551ce case 2 => 0xa3bc0074 case 3 => 0xd4bb30e2
      case 4 => 0x4adfa541 case 5 => 0x3dd895d7 case 6 => 0xa4d1c46d case 7 => 0xd3d6f4fb
      case 8 => 0x4369e96a case 9 => 0x346ed9fc case 10 => 0xad678846 case 11 => 0xda60b8d0
      case 12 => 0x44042d73 case 13 => 0x33031de5 case 14 => 0xaa0a4c5f case 15 => 0xdd0d7cc9
      case _ => 0
  }

  function Row7(low: bv8): bv32 {
    match low
      case 0 => 0x5005713c case 1 => 0x270241aa case 2 => 0xbe0b1010 case 3 => 0xc90c2086
      case 4 => 0x5768b525 case 5 => 0x206f85b3 case 6 => 0xb966d409 case 7 => 0xce61e49f
      case 8 => 0x5edef90e case 9 => 0x29d9c998 case 10 => 0xb0d09822 case 11 => 0xc7d7a8b4
      case 12 => 0x59b33d17 case 13 => 0x2eb40d81 case 14 => 0xb7bd5c3b case 15 => 0xc0ba6cad
      case _ => 0
  }

  function Row8(low: bv8): bv32 {
    match low
      case 0 => 0xedb88320 case 1 => 0x9abfb3b6 case 2 => 0x03b6e20c case 3 => 0x74b1d29a
      case 4 => 0xead54739 case 5 => 0x9dd277af case 6 => 0x04db2615 case 7 => 0x73dc1683
      case 8 => 0xe3630b12 case 9 => 0x94643b84 case 10 => 0x0d6d6a3e case 11 => 0x7a6a5aa8
      case 12 => 0xe40ecf0b case 13 => 0x9309ff9d case 14 => 0x0a00ae27 case 15 => 0x7d079eb1
      case _ => 0
  }

  function Row9(low: bv8): bv32 {
    match low
      case 0 => 0xf00f9344 case 1 => 0x8708a3d2 case 2 => 0x1e01f268 case 3 => 0x6906c2fe
      case 4 => 0xf762575d case 5 => 0x806567cb case 6 => 0x196c3671 case 7 => 0x6e6b06e7
      case 8 => 0xfed41b76 case 9 => 0x89d32be0 case 10 => 0x10da7a5a case 11 => 0x67dd4acc
      case 12 => 0xf9b9df6f case 13 => 0x8ebeeff9 case 14 => 0x17b7be43 case 15 => 0x60b08ed5
      case _ => 0
  }

  function RowA(low: bv8): bv32 {
    match low
      case 0 => 0xd6d6a3e8 case 1 => 0xa1d1937e case 2 => 0x38d8c2c4 case 3 => 0x4fdff252
      case 4 => 0xd1bb67f1 case 5 => 0xa6bc5767 case 6 => 0x3fb506dd case 7 => 0x48b2364b
      case 8 => 0xd80d2bda case 9 => 0xaf0a1b4c case 10 => 0x36034af6 case 11 => 0x41047a60
      case 12 => 0xdf60efc3 case 13 => 0xa867df55 case 14 => 0x316e8eef case 15 => 0x4669be79
      case _ => 0
  }

  function RowB(low: bv8): bv32 {
    match low
      case 0 => 0xcb61b38c case 1 => 0xbc66831a case 2 => 0x256fd2a0 case 3 => 0x5268e236
      case 4 => 0xcc0c7795 case 5 => 0xbb0b4703 case 6 => 0x220216b9 case 7 => 0x5505262f
      case 8 => 0xc5ba3bbe case 9 => 0xb2bd0b28 case 10 => 0x2bb45a92 case 11 => 0x5cb36a04
      case 12 => 0xc2d7ffa7 case 13 => 0xb5d0cf31 case 14 => 0x2cd99e8b case 15 => 0x5bdeae1d
      case _ => 0
  }

  function RowC(low: bv8): bv32 {
    match low
      case 0 => 0x9b64c2b0 case 1 => 0xec63f226 case 2 => 0x756aa39c case 3 => 0x026d930a
      case 4 => 0x9c0906a9 case 5 => 0xeb0e363f case 6 => 0x72076785 case 7 => 0x05005713
      case 8 => 0x95bf4a82 case 9 => 0xe2b87a14 case 10 => 0x7bb12bae case 11 => 0x0cb61b38
      case 12 => 0x92d28e9b case 13 => 0xe5d5be0d case 14 => 0x7cdcefb7 case 15 => 0x0bdbdf21
      case _ => 0
  }

  function RowD(low: bv8): bv32 {
    match low
      case 0 => 0x86d3d2d4 case 1 => 0xf1d4e242 case 2 => 0x68ddb3f8 case 3 => 0x1fda836e
      case 4 => 0x81be16cd case 5 => 0xf6b9265b case 6 => 0x6fb077e1 case 7 => 0x18b74777
      case 8 => 0x88085ae6 case 9 => 0xff0f6a70 case 10 => 0x66063bca case 11 => 0x11010b5c
      case 12 => 0x8f659eff case 13 => 0xf862ae69 case 14 => 0x616bffd3 case 15 => 0x166ccf45
      case _ => 0
  }

  function RowE(low: bv8): bv32 {
    match low
      case 0 => 0xa00ae278 case 1 => 0xd70dd2ee case 2 => 0x4e048354 case 3 => 0x3903b3c2
      case 4 => 0xa7672661 case 5 => 0xd06016f7 case 6 => 0x4969474d case 7 => 0x3e6e77db
      case 8 => 0xaed16a4a case 9 => 0xd9d65adc case 10 => 0x40df0b66 case 11 => 0x37d83bf0
      case 12 => 0xa9bcae53 case 13 => 0xdebb9ec5 case 14 => 0x47b2cf7f case 15 => 0x30b5ffe9
      case _ => 0
  }

  function RowF(low: bv8): bv32 {
    match low
      case 0 => 0xbdbdf21c case 1 => 0xcabac28a case 2 => 0x53b39330 case 3 => 0x24b4a3a6
      case 4 => 0xbad03605 case 5 => 0xcdd70693 case 6 => 0x54de5729 case 7 => 0x23d967bf
      case 8 => 0xb3667a2e case 9 => 0xc4614ab8 case 10 => 0x5d681b02 case 11 => 0x2a6f2b94
      case 12 => 0xb40bbe37 case 13 => 0xc30c8ea1 case 14 => 0x5a05df1b case 15 => 0x2d02ef8d
      case _ => 0
  }

  /** crc32_table. */
  function CrcTable(i: bv8): bv32 {
    var low := i & 0x0f;
    match i >> 4
    case 0 => Row0(low)
    case 1 => Row1(low)
    case 2 => Row2(low)
    case 3 => Row3(low)
    case 4 => Row4(low)
    case 5 => Row5(low)
    case 6 => Row6(low)
    case 7 => Row7(low)
    case 8 => Row8(low)
    case 9 => Row9(low)
    case 10 => RowA(low)
    case 11 => RowB(low)
    case 12 => RowC(low)
    case 13 => RowD(low)
    case 14 => RowE(low)
    case 15 => RowF(low)
    case _ => 0
  }

  // ----- the definition -----

  // The word operations have names so that proofs about their composition can treat them as symbols.

  function Xor(a: bv32, b: bv32): bv32 { a ^ b }

  function Half(c: bv32): bv32 { c >> 1 }

  predicate Odd(c: bv32) { c & 1 == 1 }

  function Word(b: bv8): bv32 { b as bv32 }

  /** The polynomial, lowest coefficient in the highest bit. */
  function Polynomial(): bv32 { 0xedb88320 }

  /** One bit of the polynomial division. */
  function BitStep(c: bv32): bv32 { if Odd(c) then Xor(Half(c), Polynomial()) else Half(c) }

  function EightBits(c: bv32): bv32 {
    BitStep(BitStep(BitStep(BitStep(BitStep(BitStep(BitStep(BitStep(c))))))))
  }

  // ----- the table is right -----

  /** The entry for a byte, from the entries for its bits. */
  function Linear(i: bv8): bv32 {
    (if i & 0x01 != 0 then 0x77073096 else 0) ^
    (if i & 0x02 != 0 then 0xee0e612c else 0) ^
    (if i & 0x04 != 0 then 0x076dc419 else 0) ^
    (if i & 0x08 != 0 then 0x0edb8832 else 0) ^
    (if i & 0x10 != 0 then 0x1db71064 else 0) ^
    (if i & 0x20 != 0 then 0x3b6e20c8 else 0) ^
    (if i & 0x40 != 0 then 0x76dc4190 else 0) ^
    (if i & 0x80 != 0 then 0xedb88320 else 0)
  }

  lemma Row0IsLinear(low: bv8)
    requires low < 16
    ensures Row0(low) == Linear(0 + low)
  {
  }

  lemma Row1IsLinear(low: bv8)
    requires low < 16
    ensures Row1(low) == Linear(16 + low)
  {
  }

  lemma Row2IsLinear(low: bv8)
    requires low < 16
    ensures Row2(low) == Linear(32 + low)
  {
  }

  lemma Row3IsLinear(low: bv8)
    requires low < 16
    ensures Row3(low) == Linear(48 + low)
  {
  }

  lemma Row4IsLinear(low: bv8)
    requires low < 16
    ensures Row4(low) == Linear(64 + low)
  {
  }

  lemma Row5IsLinear(low: bv8)
    requires low < 16
    ensures Row5(low) == Linear(80 + low)
  {
  }

  lemma Row6IsLinear(low: bv8)
    requires low < 16
    ensures Row6(low) == Linear(96 + low)
  {
  }

  lemma Row7IsLinear(low: bv8)
    requires low < 16
    ensures Row7(low) == Linear(112 + low)
  {
  }

  lemma Row8IsLinear(low: bv8)
    requires low < 16
    ensures Row8(low) == Linear(128 + low)
  {
  }

  lemma Row9IsLinear(low: bv8)
    requires low < 16
    ensures Row9(low) == Linear(144 + low)
  {
  }

  lemma RowAIsLinear(low: bv8)
    requires low < 16
    ensures RowA(low) == Linear(160 + low)
  {
  }

  lemma RowBIsLinear(low: bv8)
    requires low < 16
    ensures RowB(low) == Linear(176 + low)
  {
  }

  lemma RowCIsLinear(low: bv8)
    requires low < 16
    ensures RowC(low) == Linear(192 + low)
  {
  }

  lemma RowDIsLinear(low: bv8)
    requires low < 16
    ensures RowD(low) == Linear(208 + low)
  {
  }

  lemma RowEIsLinear(low: bv8)
    requires low < 16
    ensures RowE(low) == Linear(224 + low)
  {
  }

  lemma RowFIsLinear(low: bv8)
    requires low < 16
    ensures RowF(low) == Linear(240 + low)
  {
  }

  lemma TableIsLinear(i: bv8)
    ensures CrcTable(i) == Linear(i)
  {
    var low := i & 0x0f;
    match i >> 4
    case 0 => Row0IsLinear(low);
    case 1 => Row1IsLinear(low);
    case 2 => Row2IsLinear(low);
    case 3 => Row3IsLinear(low);
    case 4 => Row4IsLinear(low);
    case 5 => Row5IsLinear(low);
    case 6 => Row6IsLinear(low);
    case 7 => Row7IsLinear(low);
    case 8 => Row8IsLinear(low);
    case 9 => Row9IsLinear(low);
    case 10 => RowAIsLinear(low);
    case 11 => RowBIsLinear(low);
    case 12 => RowCIsLinear(low);
    case 13 => RowDIsLinear(low);
    case 14 => RowEIsLinear(low);
    case 15 => RowFIsLinear(low);
  }

  lemma XorParts(a: bv32, b: bv32)
    ensures Half(Xor(a, b)) == Xor(Half(a), Half(b))
    ensures Odd(Xor(a, b)) <==> Odd(a) != Odd(b)
  {
  }

  lemma XorAssociates(p: bv32, q: bv32, c: bv32)
    ensures Xor(p, Xor(q, c)) == Xor(Xor(p, q), c)
  {
  }

  lemma XorCommutes(p: bv32, q: bv32)
    ensures Xor(p, q) == Xor(q, p)
  {
  }

  lemma XorInverse(p: bv32, c: bv32)
    ensures Xor(Xor(p, c), c) == p
  {
  }

  lemma XorCancels(p: bv32, q: bv32, c: bv32)
    ensures Xor(Xor(p, c), Xor(q, c)) == Xor(p, q)
    ensures Xor(Xor(p, c), q) == Xor(Xor(p, q), c)
    ensures Xor(p, Xor(q, c)) == Xor(Xor(p, q), c)
  {
    hide Xor;
    XorAssociates(p, q, c);
    XorAssociates(q, p, c);
    XorCommutes(p, q);
    XorCommutes(Xor(p, c), q);
    XorAssociates(Xor(p, c), q, c);
    XorInverse(Xor(p, q), c);
  }

  lemma BitStepIsLinear(a: bv32, b: bv32)
    ensures BitStep(Xor(a, b)) == Xor(BitStep(a), BitStep(b))
  {
    hide Xor, Half, Odd, Polynomial;
    XorParts(a, b);
    XorCancels(Half(a), Half(b), Polynomial());
  }

  lemma EightBitsIsLinear(a: bv32, b: bv32)
    ensures EightBits(Xor(a, b)) == Xor(EightBits(a), EightBits(b))
  {
    hide Xor, BitStep;
    var a1, b1 := BitStep(a), BitStep(b);
    var a2, b2 := BitStep(a1), BitStep(b1);
    var a3, b3 := BitStep(a2), BitStep(b2);
    var a4, b4 := BitStep(a3), BitStep(b3);
    var a5, b5 := BitStep(a4), BitStep(b4);
    var a6, b6 := BitStep(a5), BitStep(b5);
    var a7, b7 := BitStep(a6), BitStep(b6);
    BitStepIsLinear(a, b);
    BitStepIsLinear(a1, b1);
    BitStepIsLinear(a2, b2);
    BitStepIsLinear(a3, b3);
    BitStepIsLinear(a4, b4);
    BitStepIsLinear(a5, b5);
    BitStepIsLinear(a6, b6);
    BitStepIsLinear(a7, b7);
  }

  /** The n lowest bits are zero, for n up to eight. */
  predicate LowZero(c: bv32, n: nat) {
    match n
    case 1 => c & 0x01 == 0
    case 2 => c & 0x03 == 0
    case 3 => c & 0x07 == 0
    case 4 => c & 0x0f == 0
    case 5 => c & 0x1f == 0
    case 6 => c & 0x3f == 0
    case 7 => c & 0x7f == 0
    case 8 => c & 0xff == 0
    case _ => true
  }

  lemma ZeroBitShifts(c: bv32, n: nat)
    requires 1 <= n <= 8 && LowZero(c, n)
    ensures BitStep(c) == Half(c) && LowZero(Half(c), n - 1)
  {
  }

  function ByteDown(c: bv32): bv32 { c >> 8 }

  lemma EightHalves(c: bv32)
    ensures Half(Half(Half(Half(Half(Half(Half(Half(c)))))))) == ByteDown(c)
  {
  }

  /** Bits above the lowest byte are only shifted down. */
  lemma HighBytesShift(c: bv32)
    requires LowZero(c, 8)
    ensures EightBits(c) == ByteDown(c)
  {
    hide BitStep, LowZero, Half, ByteDown;
    var c1 := Half(c);
    var c2 := Half(c1);
    var c3 := Half(c2);
    var c4 := Half(c3);
    var c5 := Half(c4);
    var c6 := Half(c5);
    var c7 := Half(c6);
    ZeroBitShifts(c, 8);
    ZeroBitShifts(c1, 7);
    ZeroBitShifts(c2, 6);
    ZeroBitShifts(c3, 5);
    ZeroBitShifts(c4, 4);
    ZeroBitShifts(c5, 3);
    ZeroBitShifts(c6, 2);
    ZeroBitShifts(c7, 1);
    EightHalves(c);
  }

  lemma BitEntries()
    ensures EightBits(0) == 0
    ensures EightBits(0x01) == 0x77073096 && EightBits(0x02) == 0xee0e612c
    ensures EightBits(0x04) == 0x076dc419 && EightBits(0x08) == 0x0edb8832
    ensures EightBits(0x10) == 0x1db71064 && EightBits(0x20) == 0x3b6e20c8
    ensures EightBits(0x40) == 0x76dc4190 && EightBits(0x80) == 0xedb88320
  {
  }

  /** The word that has only the bits of i under the mask. */
  function Masked(i: bv8, mask: bv8): bv32 { (i & mask) as bv32 }

  /** The entry for a single bit. */
  function BitEntry(i: bv8, mask: bv8): bv32 {
    if i & mask == 0 then 0
    else
      match mask
      case 0x01 => 0x77073096 case 0x02 => 0xee0e612c case 0x04 => 0x076dc419 case 0x08 => 0x0edb8832
      case 0x10 => 0x1db71064 case 0x20 => 0x3b6e20c8 case 0x40 => 0x76dc4190 case 0x80 => 0xedb88320
      case _ => 0
  }

  predicate SingleBit(mask: bv8) {
    mask == 1 || mask == 2 || mask == 4 || mask == 8 || mask == 16 || mask == 32 || mask == 64 || mask == 128
  }

  lemma OneBit(i: bv8, mask: bv8)
    requires SingleBit(mask)
    ensures EightBits(Masked(i, mask)) == BitEntry(i, mask)
  {
    BitEntries();
    hide EightBits;
    assert i & mask == 0 || i & mask == mask;
  }

  lemma BitsOfByte(i: bv8)
    ensures Word(i) == Xor(Xor(Xor(Xor(Xor(Xor(Xor(Masked(i, 1), Masked(i, 2)), Masked(i, 4)), Masked(i, 8)),
                       Masked(i, 16)), Masked(i, 32)), Masked(i, 64)), Masked(i, 128))
    ensures Linear(i) == Xor(Xor(Xor(Xor(Xor(Xor(Xor(BitEntry(i, 1), BitEntry(i, 2)), BitEntry(i, 4)), BitEntry(i, 8)),
                         BitEntry(i, 16)), BitEntry(i, 32)), BitEntry(i, 64)), BitEntry(i, 128))
  {
  }

  /** The division of a byte is put together from the divisions of its bits. */
  lemma EightBitsOfByte(i: bv8)
    ensures EightBits(Word(i)) == Linear(i)
  {
    hide EightBits, Xor, Masked, BitEntry, Word, Linear;
    BitsOfByte(i);
    OneBit(i, 1); OneBit(i, 2); OneBit(i, 4); OneBit(i, 8); OneBit(i, 16); OneBit(i, 32); OneBit(i, 64); OneBit(i, 128);
    var s1 := Xor(Masked(i, 1), Masked(i, 2));
    var s2 := Xor(s1, Masked(i, 4));
    var s3 := Xor(s2, Masked(i, 8));
    var s4 := Xor(s3, Masked(i, 16));
    var s5 := Xor(s4, Masked(i, 32));
    var s6 := Xor(s5, Masked(i, 64));
    EightBitsIsLinear(Masked(i, 1), Masked(i, 2));
    EightBitsIsLinear(s1, Masked(i, 4));
    EightBitsIsLinear(s2, Masked(i, 8));
    EightBitsIsLinear(s3, Masked(i, 16));
    EightBitsIsLinear(s4, Masked(i, 32));
    EightBitsIsLinear(s5, Masked(i, 64));
    EightBitsIsLinear(s6, Masked(i, 128));
  }

  /** Every entry of the table is the division of its index, bit by bit. */
  lemma TableIsRight(i: bv8)
    ensures CrcTable(i) == EightBits(Word(i))
  {
    hide CrcTable, EightBits, Word, Linear;
    TableIsLinear(i);
    EightBitsOfByte(i);
  }

  // ----- messages -----

  /** The register after one more byte. */
  function ByteStep(c: bv32, b: bv8): bv32 { EightBits(Xor(c, Word(b))) }

  /** The register after a message. */
  function Divide(c: bv32, data: seq<bv8>): bv32 {
    if data == [] then c else ByteStep(Divide(c, data[..|data| - 1]), data[|data| - 1])
  }

  function Invert(c: bv32): bv32 { c ^ 0xffff_ffff }

  /** CRC-32 of a message that continues one with the checksum `ival`. */
  function Crc(data: seq<bv8>, ival: bv32): bv32 { Invert(Divide(Invert(ival), data)) }

  function LowByte(c: bv32): bv8 { (c & 0xff) as bv8 }

  function HighBytes(c: bv32): bv32 { c & 0xffff_ff00 }

  lemma SplitLow(x: bv32)
    ensures x == Xor(Word(LowByte(x)), HighBytes(x))
  {
  }

  lemma HighBytesLowZero(x: bv32)
    ensures LowZero(HighBytes(x), 8)
  {
  }

  lemma HighBytesUntouched(c: bv32, b: bv8)
    ensures ByteDown(HighBytes(Xor(c, Word(b)))) == ByteDown(c)
  {
  }

  /** One turn of the table-driven loop does what eight single bits do. */
  lemma TableStep(c: bv32, b: bv8)
    ensures Xor(CrcTable(LowByte(Xor(c, Word(b)))), ByteDown(c)) == ByteStep(c, b)
  {
    hide EightBits, CrcTable, Xor, Word, LowByte, HighBytes, ByteDown, LowZero;
    var x := Xor(c, Word(b));
    SplitLow(x);
    HighBytesLowZero(x);
    HighBytesUntouched(c, b);
    TableIsRight(LowByte(x));
    HighBytesShift(HighBytes(x));
    EightBitsIsLinear(Word(LowByte(x)), HighBytes(x));
  }

  /** The body of the loop, in a 64-bit unsigned long. */
  function Turn(retval: bv64, b: bv8): bv64 {
    (CrcTable(((retval ^ (b as bv64)) & 0xff) as bv8) as bv64) ^ (retval >> 8)
  }

  function Long(c: bv32): bv64 { c as bv64 }

  function InvertLong(c: bv64): bv64 { c ^ 0xffff_ffff }

  lemma TurnParts(c: bv32, b: bv8)
    ensures ((Long(c) ^ (b as bv64)) & 0xff) as bv8 == LowByte(Xor(c, Word(b)))
  {
  }

  lemma TurnCombines(t: bv32, c: bv32)
    ensures (t as bv64) ^ (Long(c) >> 8) == Long(Xor(t, ByteDown(c)))
  {
  }

  lemma TurnIsByteStep(c: bv32, b: bv8)
    ensures Turn(Long(c), b) == Long(ByteStep(c, b))
  {
    TurnParts(c, b);
    var t := CrcTable(LowByte(Xor(c, Word(b))));
    TurnCombines(t, c);
    TableStep(c, b);
    hide CrcTable, ByteStep, LowByte, Xor, Word, ByteDown, Long;
  }

  lemma InvertParts(c: bv32)
    ensures InvertLong(Long(c)) == Long(Invert(c)) && Invert(Invert(c)) == c
  {
  }

  lemma DivideStep(c: bv32, data: seq<bv8>, i: nat)
    requires i < |data|
    ensures Divide(c, data[..i + 1]) == ByteStep(Divide(c, data[..i]), data[i])
    ensures Divide(c, []) == c
  {
    hide ByteStep;
    assert data[..i + 1][..i] == data[..i];
  }

  function Narrow(c: bv64): bv32 { (c & 0xffff_ffff) as bv32 }

  predicate IsWord(c: bv64) { c <= 0xffff_ffff }

  lemma NarrowWord(c: bv64)
    requires IsWord(c)
    ensures Long(Narrow(c)) == c
  {
  }

  /** KSI_crc32: for every message and every 32-bit start value, the table-driven loop computes the CRC-32. */
  method Crc32(data: seq<bv8>, ival: bv64) returns (r: bv64)
    ensures IsWord(ival) ==> r == Long(Crc(data, Narrow(ival)))
  {
    hide Turn, Divide, ByteStep, InvertLong, Invert, Long, IsWord, Narrow;
    var retval := InvertLong(ival);
    ghost var start := Invert(Narrow(ival));
    if IsWord(ival) {
      NarrowWord(ival);
    }
    InvertParts(Narrow(ival));
    NothingDivided(start);
    for i := 0 to |data|
      invariant IsWord(ival) ==> retval == Long(Divide(start, data[..i]))
    {
      DivideStep(start, data, i);
      TurnIsByteStep(Divide(start, data[..i]), data[i]);
      retval := Turn(retval, data[i]);
    }
    assert data[..|data|] == data;
    InvertParts(Divide(start, data));
    r := InvertLong(retval);
  }

  lemma NothingDivided(c: bv32)
    ensures Divide(c, []) == c
  {
  }

  lemma {:induction false} DivideConcat(c: bv32, a: seq<bv8>, b: seq<bv8>)
    ensures Divide(c, a + b) == Divide(Divide(c, a), b)
  {
    hide ByteStep;
    if b == [] {
      assert a + b == a;
    } else {
      var n := |b| - 1;
      DivideConcat(c, a, b[..n]);
      assert (a + b)[..|a| + n] == a + b[..n];
    }
  }

  /** The checksum of the first part is the start value for the second, as documented. */
  lemma CrcConcat(a: seq<bv8>, b: seq<bv8>, ival: bv32)
    ensures Crc(a + b, ival) == Crc(b, Crc(a, ival))
  {
    hide Divide, Invert;
    DivideConcat(Invert(ival), a, b);
    InvertParts(Divide(Invert(ival), a));
  }

  // ----- what the checksum detects -----

  lemma BitStepIsInjective(a: bv32, b: bv32)
    requires BitStep(a) == BitStep(b)
    ensures a == b
  {
  }

  lemma EightBitsIsInjective(a: bv32, b: bv32)
    requires EightBits(a) == EightBits(b)
    ensures a == b
  {
    hide BitStep;
    var a1, b1 := BitStep(a), BitStep(b);
    var a2, b2 := BitStep(a1), BitStep(b1);
    var a3, b3 := BitStep(a2), BitStep(b2);
    var a4, b4 := BitStep(a3), BitStep(b3);
    var a5, b5 := BitStep(a4), BitStep(b4);
    var a6, b6 := BitStep(a5), BitStep(b5);
    var a7, b7 := BitStep(a6), BitStep(b6);
    BitStepIsInjective(a7, b7);
    BitStepIsInjective(a6, b6);
    BitStepIsInjective(a5, b5);
    BitStepIsInjective(a4, b4);
    BitStepIsInjective(a3, b3);
    BitStepIsInjective(a2, b2);
    BitStepIsInjective(a1, b1);
    BitStepIsInjective(a, b);
  }

  lemma XorIsInjective(c: bv32, d: bv32, x: bv8, y: bv8)
    ensures Xor(c, Word(x)) == Xor(d, Word(x)) ==> c == d
    ensures Xor(c, Word(x)) == Xor(c, Word(y)) ==> x == y
  {
  }

  /** Two registers that differ still differ after any message. */
  lemma {:induction false} DivideIsInjective(c: bv32, d: bv32, data: seq<bv8>)
    requires Divide(c, data) == Divide(d, data)
    ensures c == d
  {
    hide EightBits, Xor, Word;
    if data != [] {
      var n := |data| - 1;
      var c', d' := Divide(c, data[..n]), Divide(d, data[..n]);
      EightBitsIsInjective(Xor(c', Word(data[n])), Xor(d', Word(data[n])));
      XorIsInjective(c', d', data[n], data[n]);
      DivideIsInjective(c, d, data[..n]);
    }
  }

  lemma InvertIsInjective(c: bv32, d: bv32)
    ensures Invert(c) == Invert(d) ==> c == d
  {
  }

  /** A change of one byte, anywhere in a message of any length, changes the checksum. */
  lemma OneByteIsDetected(a: seq<bv8>, x: bv8, y: bv8, b: seq<bv8>, ival: bv32)
    requires x != y
    ensures Crc(a + [x] + b, ival) != Crc(a + [y] + b, ival)
  {
    hide EightBits, Xor, Word, Invert;
    var c := Divide(Invert(ival), a);
    DivideConcat(Invert(ival), a, [x]);
    DivideConcat(Invert(ival), a, [y]);
    DivideConcat(Invert(ival), a + [x], b);
    DivideConcat(Invert(ival), a + [y], b);
    DivideOne(c, x);
    DivideOne(c, y);
    if Crc(a + [x] + b, ival) == Crc(a + [y] + b, ival) {
      InvertIsInjective(Divide(Invert(ival), a + [x] + b), Divide(Invert(ival), a + [y] + b));
      DivideIsInjective(ByteStep(c, x), ByteStep(c, y), b);
      EightBitsIsInjective(Xor(c, Word(x)), Xor(c, Word(y)));
      XorIsInjective(c, c, x, y);
    }
  }

  lemma DivideOne(c: bv32, x: bv8)
    ensures Divide(c, [x]) == ByteStep(c, x)
  {
    hide ByteStep;
    assert [x][..0] == [];
  }

  /** The register starts with ones: a zero byte in front of a message changes its checksum. */
  lemma LeadingZeroIsDetected(data: seq<bv8>)
    ensures Crc([0] + data, 0) != Crc(data, 0)
  {
    DivideConcat(Invert(0), [0], data);
    DivideOne(Invert(0), 0);
    ZeroByteChanges();
    hide EightBits, Xor, Word, Invert, ByteStep;
    if Crc([0] + data, 0) == Crc(data, 0) {
      InvertIsInjective(Divide(Invert(0), [0] + data), Divide(Invert(0), data));
      DivideIsInjective(ByteStep(Invert(0), 0), Invert(0), data);
    }
  }

  lemma ZeroByteChanges()
    ensures ByteStep(Invert(0), 0) != Invert(0)
  {
    assert Invert(0) == 0xffff_ffff;
    assert Xor(0xffff_ffff, Word(0)) == 0xffff_ffff;
    OnesDivided();
  }

  lemma OnesDivided()
    ensures EightBits(0xffff_ffff) == 0x2dfd_1072
  {
  }

  /** The CRC-32 of the one-letter message "a". */
  lemma LetterA()
    ensures Crc([0x61], 0) == 0xe8b7_be43
  {
    DivideOne(Invert(0), 0x61);
    assert Invert(0) == 0xffff_ffff;
    assert Xor(0xffff_ffff, Word(0x61)) == 0xffff_ff9e;
    ADivided();
  }

  lemma ADivided()
    ensures EightBits(0xffff_ff9e) == 0x1748_41bc
  {
  }
}
