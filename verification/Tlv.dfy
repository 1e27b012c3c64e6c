/** TLV headers and the tiling of a byte stream into TLVs (src/ksi/fast_tlv.c). */
module Tlv {
  import opened Common

  const TLV_MAX_SIZE := 0xffff + 4     // KSI_TLV_MAX_SIZE

  /** KSI_FTLV. */
  datatype Ftlv = Ftlv(off: nat, hdrLen: nat, datLen: nat, tag: nat, isNc: bool, isFwd: bool)

  const ZERO_FTLV := Ftlv(0, 0, 0, 0, false, false)

  /** A TLV16 header has four bytes, a TLV8 header two (KSI_TLV_MASK_TLV16 is 0x80). */
  function HeaderLength(first: Byte): nat { if first >= 0x80 then 4 else 2 }

  /** The length of the TLV at the start of s, once its header is there. */
  function TlvLength(s: seq<Byte>): nat
    requires s != [] && |s| >= HeaderLength(s[0])
  {
    if s[0] >= 0x80 then 4 + s[2] as int * 0x100 + s[3] as int else 2 + s[1] as int
  }

  /** Does s start with a whole TLV? */
  predicate Complete(s: seq<Byte>) { s != [] && |s| >= HeaderLength(s[0]) && |s| >= TlvLength(s) }

  /** parseHdr: reads as much of the header as there is. */
  method ParseHdr(hdr: seq<Byte>, t0: Ftlv) returns (res: int, t: Ftlv)
    ensures res == KSI_OK <==> hdr != [] && |hdr| >= HeaderLength(hdr[0])
    ensures res != KSI_OK ==> res == KSI_INVALID_FORMAT
    ensures hdr == [] ==> t == t0
    ensures hdr != [] ==> t.off == t0.off && t.hdrLen == HeaderLength(hdr[0])
                          && t.isNc == (hdr[0] / 0x40 % 2 == 1) && t.isFwd == (hdr[0] / 0x20 % 2 == 1)
    ensures hdr != [] && |hdr| < HeaderLength(hdr[0]) ==>
              && t.tag == (if |hdr| > 1 then hdr[0] as int % 0x20 * 0x100 + hdr[1] as int else hdr[0] % 0x20)
              && t.datLen == (if |hdr| > 2 then hdr[2] as int * 0x100 else t0.datLen)
    ensures res == KSI_OK ==> t.hdrLen + t.datLen == TlvLength(hdr)
                              && t.tag == if hdr[0] >= 0x80 then hdr[0] as int % 0x20 * 0x100 + hdr[1] as int
                                          else hdr[0] % 0x20
  {
    res, t := KSI_INVALID_FORMAT, t0;
    if |hdr| == 0 {
      return;
    }
    t := t.(tag := hdr[0] % 0x20, isNc := hdr[0] / 0x40 % 2 == 1, isFwd := hdr[0] / 0x20 % 2 == 1);
    if hdr[0] >= 0x80 {
      t := t.(hdrLen := 4);
      if |hdr| > 1 { t := t.(tag := t.tag * 0x100 + hdr[1]); } else { return; }
      if |hdr| > 2 { t := t.(datLen := hdr[2] as int * 0x100); } else { return; }
      if |hdr| > 3 { t := t.(datLen := t.datLen + hdr[3]); } else { return; }
    } else {
      t := t.(hdrLen := 2);
      if |hdr| > 1 { t := t.(datLen := hdr[1]); } else { return; }
    }
    res := KSI_OK;
  }

  /** KSI_FTLV_memRead on a non-empty buffer and a cleared structure. */
  method MemRead(m: seq<Byte>) returns (res: int, t: Ftlv)
    requires m != []
    ensures res == KSI_OK <==> Complete(m)
    ensures res != KSI_OK ==> res == KSI_INVALID_FORMAT
    ensures t.off == 0 && t.hdrLen == HeaderLength(m[0])
    ensures t.isNc == (m[0] / 0x40 % 2 == 1) && t.isFwd == (m[0] / 0x20 % 2 == 1)
    ensures res == KSI_OK ==> t.tag == if m[0] >= 0x80 then m[0] as int % 0x20 * 0x100 + m[1] as int else m[0] % 0x20
    ensures |m| >= HeaderLength(m[0]) ==> t.hdrLen + t.datLen == TlvLength(m)
    ensures res == KSI_OK ==> t.hdrLen + t.datLen == TlvLength(m)
    ensures |m| < HeaderLength(m[0]) ==> |m| < t.hdrLen + t.datLen
  {
    res, t := ParseHdr(m, ZERO_FTLV);
    if res != KSI_OK {
      return;
    }
    if |m| < t.hdrLen + t.datLen {
      res := KSI_INVALID_FORMAT;
    }
  }

  // ----- tilings -----

  /** The TLVs at the start of a stream, and what is left. */
  datatype Tiling = Tiling(pdus: seq<seq<Byte>>, rest: seq<Byte>)

  function Prepend(p: seq<Byte>, t: Tiling): Tiling { Tiling([p] + t.pdus, t.rest) }

  function Tile(s: seq<Byte>): Tiling
    decreases |s|
  {
    if Complete(s) then Prepend(s[..TlvLength(s)], Tile(s[TlvLength(s)..])) else Tiling([], s)
  }

  lemma TileStep(s: seq<Byte>)
    ensures Complete(s) ==> 2 <= TlvLength(s) <= |s|
    ensures Complete(s) ==> Tile(s) == Prepend(s[..TlvLength(s)], Tile(s[TlvLength(s)..]))
    ensures !Complete(s) ==> Tile(s) == Tiling([], s)
    ensures s == [] ==> !Complete(s)
  {
  }

  function Flatten(pdus: seq<seq<Byte>>): seq<Byte> { if pdus == [] then [] else pdus[0] + Flatten(pdus[1..]) }

  /** The stream a tiling stands for. */
  function Stream(t: Tiling): seq<Byte> { Flatten(t.pdus) + t.rest }

  lemma StreamPrepend(p: seq<Byte>, t: Tiling)
    ensures Stream(Prepend(p, t)) == p + Stream(t)
  {
    assert ([p] + t.pdus)[1..] == t.pdus;
  }

  /** Exactly one TLV. */
  predicate IsTlv(p: seq<Byte>) { Complete(p) && TlvLength(p) == |p| }

  /** Nothing is lost or added. */
  lemma {:induction false} TileConserves(s: seq<Byte>)
    ensures Stream(Tile(s)) == s
    decreases |s|
  {
    TileStep(s);
    if Complete(s) {
      var n := TlvLength(s);
      TileConserves(s[n..]);
      StreamPrepend(s[..n], Tile(s[n..]));
      SplitJoin(s, n);
    } else {
      NoPdus(s);
    }
    hide Complete, TlvLength, Tile, Stream, Prepend;
  }

  lemma SplitJoin(s: seq<Byte>, n: nat)
    requires n <= |s|
    ensures s[..n] + s[n..] == s
  {
  }

  lemma NoPdus(s: seq<Byte>)
    ensures Stream(Tiling([], s)) == s
  {
    assert [] + s == s;
  }

  /** The PDUs are TLVs. */
  lemma {:induction false} TilesAreTlvs(s: seq<Byte>)
    ensures forall i :: 0 <= i < |Tile(s).pdus| ==> IsTlv(Tile(s).pdus[i])
    decreases |s|
  {
    if Complete(s) {
      var n := TlvLength(s);
      assert IsTlv(s[..n]);
      TilesAreTlvs(s[n..]);
    }
  }

  /** What is left is the start of at most one TLV, so that another TLV of any size fits behind it into the buffer. */
  lemma {:induction false} RestIsShort(s: seq<Byte>)
    ensures !Complete(Tile(s).rest)
    ensures |Tile(s).rest| < TLV_MAX_SIZE
    decreases |s|
  {
    if Complete(s) {
      RestIsShort(s[TlvLength(s)..]);
    }
  }

  lemma TlvPrefix(p: seq<Byte>, s: seq<Byte>)
    requires IsTlv(p)
    ensures Complete(p + s) && TlvLength(p + s) == |p| && (p + s)[..|p|] == p && (p + s)[|p|..] == s
  {
  }

  predicate AllTlvs(pdus: seq<seq<Byte>>) { forall i :: 0 <= i < |pdus| ==> IsTlv(pdus[i]) }

  /** The tiling is the only way to cut the stream into TLVs and a rest that does not start with one. */
  lemma {:induction false} TilingIsUnique(pdus: seq<seq<Byte>>, rest: seq<Byte>)
    requires AllTlvs(pdus) && !Complete(rest)
    ensures Tile(Stream(Tiling(pdus, rest))) == Tiling(pdus, rest)
    decreases |pdus|
  {
    if pdus == [] {
      NoPdus(rest);
      TileStep(rest);
    } else {
      var t := Tiling(pdus[1..], rest);
      Uncons(pdus, rest);
      StreamPrepend(pdus[0], t);
      TlvPrefix(pdus[0], Stream(t));
      TileStep(pdus[0] + Stream(t));
      TilingIsUnique(pdus[1..], rest);
    }
    hide Complete, TlvLength, Tile, Stream, Prepend, IsTlv;
  }

  lemma Uncons(pdus: seq<seq<Byte>>, rest: seq<Byte>)
    requires pdus != [] && AllTlvs(pdus)
    ensures Prepend(pdus[0], Tiling(pdus[1..], rest)) == Tiling(pdus, rest)
    ensures IsTlv(pdus[0]) && AllTlvs(pdus[1..])
  {
    assert [pdus[0]] + pdus[1..] == pdus;
  }

  lemma CompleteStays(a: seq<Byte>, b: seq<Byte>)
    requires Complete(a)
    ensures Complete(a + b) && TlvLength(a + b) == TlvLength(a)
    ensures (a + b)[..TlvLength(a)] == a[..TlvLength(a)]
    ensures (a + b)[TlvLength(a)..] == a[TlvLength(a)..] + b
  {
  }

  /** What a receiver has after one more chunk: it tiles what it kept together with the new bytes. */
  function Receive(t: Tiling, chunk: seq<Byte>): Tiling {
    var u := Tile(t.rest + chunk);
    Tiling(t.pdus + u.pdus, u.rest)
  }

  lemma ReceivePrepend(p: seq<Byte>, t: Tiling, chunk: seq<Byte>)
    ensures Receive(Prepend(p, t), chunk) == Prepend(p, Receive(t, chunk))
  {
    hide Tile;
    var u := Tile(t.rest + chunk);
    assert ([p] + t.pdus) + u.pdus == [p] + (t.pdus + u.pdus);
  }

  lemma ReceiveFirst(rest: seq<Byte>, chunk: seq<Byte>)
    ensures Receive(Tiling([], rest), chunk) == Tile(rest + chunk)
  {
    hide Tile;
    assert [] + Tile(rest + chunk).pdus == Tile(rest + chunk).pdus;
  }

  /** More bytes never change the PDUs already found: tiling can go on from the rest. */
  lemma {:induction false} TileAppend(a: seq<Byte>, b: seq<Byte>)
    ensures Tile(a + b) == Receive(Tile(a), b)
    decreases |a|
  {
    TileStep(a);
    if Complete(a) {
      var n := TlvLength(a);
      CompleteStays(a, b);
      TileStep(a + b);
      TileAppend(a[n..], b);
      ReceivePrepend(a[..n], Tile(a[n..]), b);
    } else {
      ReceiveFirst(a, b);
    }
    hide Complete, TlvLength, Tile, Receive, Prepend;
  }

  // ----- chunks -----

  function ReceiveAll(chunks: seq<seq<Byte>>): Tiling {
    if chunks == [] then Tiling([], []) else Receive(ReceiveAll(chunks[..|chunks| - 1]), chunks[|chunks| - 1])
  }

  function Join(chunks: seq<seq<Byte>>): seq<Byte> {
    if chunks == [] then [] else Join(chunks[..|chunks| - 1]) + chunks[|chunks| - 1]
  }

  /** However the stream is cut into chunks, the receiver ends with the tiling of the whole stream. */
  lemma {:induction false} ChunksDoNotMatter(chunks: seq<seq<Byte>>)
    ensures ReceiveAll(chunks) == Tile(Join(chunks))
  {
    TileStep([]);
    hide Tile;
    if chunks != [] {
      var n := |chunks| - 1;
      ChunksDoNotMatter(chunks[..n]);
      TileAppend(Join(chunks[..n]), chunks[n]);
    }
  }

  // ----- memReadN -----

  function TotalLength(pdus: seq<seq<Byte>>): nat {
    if pdus == [] then 0 else TotalLength(pdus[..|pdus| - 1]) + |pdus[|pdus| - 1]|
  }

  /** Where each of the PDUs starts. */
  function Offsets(pdus: seq<seq<Byte>>): seq<nat> {
    if pdus == [] then [] else Offsets(pdus[..|pdus| - 1]) + [TotalLength(pdus[..|pdus| - 1])]
  }

  /**
   * KSI_FTLV_memReadN without a limit on the count (`arr == NULL, arr_len == 0`) or with one: succeeds exactly if the
   * part of the buffer it looks at is tiled by TLVs, and returns where they start.
   */
  method MemReadN(buf: seq<Byte>, limit: nat) returns (res: int, offs: seq<nat>)
    ensures buf == [] ==> res == KSI_INVALID_ARGUMENT
    ensures var t := Tile(buf);
            buf != [] ==>
              && (res == KSI_OK <==> t.rest == [] || 0 < limit <= |t.pdus|)
              && (res == KSI_OK ==> offs == Offsets(if 0 < limit <= |t.pdus| then t.pdus[..limit] else t.pdus))
              && (res != KSI_OK ==> res == KSI_INVALID_FORMAT)
  {
    if buf == [] {
      return KSI_INVALID_ARGUMENT, [];
    }
    ghost var done, left;
    res, offs, done, left := ReadTlvs(buf, limit);
    StoppedAt(done, left);
    TileStep([]);
    if limit > 0 && |done| == limit {
      assert Tile(buf).pdus[..limit] == done;
    }
    hide Tile, Complete, TlvLength, Offsets;
  }

  /** The loop of KSI_FTLV_memReadN: `done` are the TLVs read and `left` the bytes behind them. */
  method ReadTlvs(buf: seq<Byte>, limit: nat)
    returns (res: int, offs: seq<nat>, ghost done: seq<seq<Byte>>, ghost left: seq<Byte>)
    ensures Tile(buf) == After(done, Tile(left)) && (limit == 0 || |done| <= limit)
    ensures res == KSI_OK ==> offs == Offsets(done) && (left == [] || (limit > 0 && |done| == limit))
    ensures res != KSI_OK ==>
              res == KSI_INVALID_FORMAT && left != [] && !Complete(left) && (limit == 0 || |done| < limit)
  {
    hide *;
    offs, done, left := [], [], buf;
    var off := 0;
    NothingRead(buf);
    while (limit == 0 || |offs| < limit) && off < |buf|
      invariant 0 <= off <= |buf| && left == buf[off..] && (limit == 0 || |offs| <= limit)
      invariant |done| == |offs| && offs == Offsets(done) && off == TotalLength(done)
      invariant Tile(buf) == After(done, Tile(left))
      decreases |buf| - off
    {
      TileStep(left);
      var target;
      res, target := MemRead(buf[off..]);
      if res != KSI_OK {
        return;
      }
      var n := target.hdrLen + target.datLen;
      ReadOne(buf, off, n, done);
      offs := offs + [off];
      done := done + [left[..n]];
      off := off + n;
      left := buf[off..];
    }
    res := KSI_OK;
  }

  /** The PDUs read so far, followed by the rest of the tiling. */
  ghost function After(done: seq<seq<Byte>>, t: Tiling): Tiling { Tiling(done + t.pdus, t.rest) }

  lemma NothingRead(buf: seq<Byte>)
    ensures Tile(buf) == After([], Tile(buf[0..])) && Offsets([]) == [] && TotalLength([]) == 0
  {
    hide Tile;
    assert buf[0..] == buf && [] + Tile(buf).pdus == Tile(buf).pdus;
  }

  lemma ReadOne(buf: seq<Byte>, off: nat, n: nat, done: seq<seq<Byte>>)
    requires off <= |buf| && n <= |buf[off..]| && Tile(buf[off..]) == Prepend(buf[off..][..n], Tile(buf[off..][n..]))
    ensures var more := done + [buf[off..][..n]];
            && After(done, Tile(buf[off..])) == After(more, Tile(buf[off + n..]))
            && Offsets(more) == Offsets(done) + [TotalLength(done)]
            && TotalLength(more) == TotalLength(done) + n
  {
    hide Tile;
    var p := buf[off..][..n];
    assert buf[off..][n..] == buf[off + n..];
    assert (done + [p])[..|done|] == done;
    var u := Tile(buf[off + n..]);
    assert done + ([p] + u.pdus) == (done + [p]) + u.pdus;
  }

  lemma StoppedAt(done: seq<seq<Byte>>, s: seq<Byte>)
    ensures var t := After(done, Tile(s));
            && |t.pdus| >= |done| && t.pdus[..|done|] == done
            && (!Complete(s) ==> t == Tiling(done, s))
  {
    TileStep(s);
    hide Tile, Complete;
    assert (done + Tile(s).pdus)[..|done|] == done;
    assert done + [] == done;
  }

  // ----- written TLVs -----

  /** A TLV element as it is written (src/ksi/tlv_element.c:258-293): the tag has 13 bits, the length 16. */
  datatype Element = Element(tag: nat, isNc: bool, isFwd: bool, payload: seq<Byte>)

  predicate Writable(e: Element) { e.tag < 0x2000 && |e.payload| < 0x1_0000 }

  /** The flag bits of the first byte. */
  function Flags(e: Element): nat { (if e.isNc then 0x40 else 0) + if e.isFwd then 0x20 else 0 }

  /** The header: two bytes if tag and length are small, and else four, most significant bytes first. */
  function Header(e: Element): seq<Byte>
    requires Writable(e)
  {
    var len := |e.payload|;
    if e.tag > 0x1f || len > 0xff then [0x80 + Flags(e) + e.tag / 0x100, e.tag % 0x100, len / 0x100, len % 0x100]
    else [Flags(e) + e.tag, len]
  }

  function Serialized(e: Element): seq<Byte>
    requires Writable(e)
  {
    Header(e) + e.payload
  }

  /** A written element is one TLV. */
  lemma SerializedIsTlv(e: Element)
    requires Writable(e)
    ensures IsTlv(Serialized(e)) && HeaderLength(Serialized(e)[0]) == |Header(e)|
    ensures |Header(e)| == 2 <==> e.tag <= 0x1f && |e.payload| <= 0xff
  {
  }

  /** Reading back what was written gives the tag, the flags and the length, whatever follows. */
  method ReadBack(e: Element, more: seq<Byte>) returns (t: Ftlv)
    requires Writable(e)
    ensures t == Ftlv(0, |Header(e)|, |e.payload|, e.tag, e.isNc, e.isFwd)
  {
    var s := Serialized(e) + more;
    SerializedIsTlv(e);
    TlvPrefix(Serialized(e), more);
    var first: int := s[0];
    assert first == Header(e)[0];
    assert first % 0x80 == Flags(e) + first % 0x20;
    var res;
    res, t := MemRead(s);
  }

  function SerializeAll(es: seq<Element>): seq<seq<Byte>>
    requires forall i :: 0 <= i < |es| ==> Writable(es[i])
  {
    seq(|es|, i requires 0 <= i < |es| => Serialized(es[i]))
  }

  /** A stream of written elements is cut into exactly these elements. */
  lemma WrittenStreamIsTiled(es: seq<Element>)
    requires forall i :: 0 <= i < |es| ==> Writable(es[i])
    ensures Tile(Flatten(SerializeAll(es))) == Tiling(SerializeAll(es), [])
  {
    hide Serialized, IsTlv;
    forall i | 0 <= i < |es|
      ensures IsTlv(SerializeAll(es)[i])
    {
      SerializedIsTlv(es[i]);
    }
    TilingIsUnique(SerializeAll(es), []);
    assert Stream(Tiling(SerializeAll(es), [])) == Flatten(SerializeAll(es));
  }
}
