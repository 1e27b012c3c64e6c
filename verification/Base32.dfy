/** Base32 with grouping (src/ksi/base32.c; the alphabet and padding of section 6 of RFC 4648). */
module Base32 {
  import opened Common

  // ----- bits -----

  /** Bit j of a byte, from the most significant one. */
  predicate BitOf(b: bv8, j: nat) {
    match j
    case 0 => b & 0x80 != 0
    case 1 => b & 0x40 != 0
    case 2 => b & 0x20 != 0
    case 3 => b & 0x10 != 0
    case 4 => b & 0x08 != 0
    case 5 => b & 0x04 != 0
    case 6 => b & 0x02 != 0
    case 7 => b & 0x01 != 0
    case _ => false
  }

  /** Bit i of a byte string; zero behind its end. */
  predicate Bit(s: seq<bv8>, i: nat) { i / 8 < |s| && BitOf(s[i / 8], i % 8) }

  /** Bit j of a five-bit symbol. */
  predicate SymbolBit(v: bv8, j: nat) { j < 5 && BitOf(v, j + 3) }

  lemma SameBits(a: bv8, b: bv8)
    requires forall j: nat :: j < 8 ==> BitOf(a, j) == BitOf(b, j)
    ensures a == b
  {
    assert BitOf(a, 0) == BitOf(b, 0) && BitOf(a, 1) == BitOf(b, 1) && BitOf(a, 2) == BitOf(b, 2)
           && BitOf(a, 3) == BitOf(b, 3);
    assert BitOf(a, 4) == BitOf(b, 4) && BitOf(a, 5) == BitOf(b, 5) && BitOf(a, 6) == BitOf(b, 6)
           && BitOf(a, 7) == BitOf(b, 7);
  }

  /** makeMask. */
  function Mask(count: nat): bv8 { if count == 0 then 0 else (Mask(count - 1) << 1) | 1 }

  lemma Masks()
    ensures Mask(0) == 0 && Mask(1) == 1 && Mask(2) == 3 && Mask(3) == 7 && Mask(4) == 15 && Mask(5) == 31
  {
    assert Mask(0) == 0;
    assert Mask(1) == 1;
    assert Mask(2) == 3;
    assert Mask(3) == 7;
    assert Mask(4) == 15;
    assert Mask(5) == 31;
  }

  // ----- reading five bits -----

  /** The shifts and masks of readNextBits: five bits from offset o of `high`, continued in `low`. */
  function FiveBits(high: bv8, low: bv8, o: nat): bv8
    requires o < 8
  {
    var first := if 8 - o > 5 then 5 else 8 - o;
    var shift := 8 - o - first;
    var ret := (high & (Mask(first) << shift)) >> shift;
    if first == 5 then ret
    else
      var second := 5 - first;
      (ret << second) | ((low & (Mask(second) << (8 - second))) >> (8 - second))
  }

  lemma FiveBitsAre(high: bv8, low: bv8, o: nat, j: nat)
    requires o < 8 && j < 5
    ensures SymbolBit(FiveBits(high, low, o), j) == if o + j < 8 then BitOf(high, o + j) else BitOf(low, o + j - 8)
    ensures FiveBits(high, low, o) < 32
  {
    Masks();
    hide Mask;
    match o
    case 0 => case 1 => case 2 => case 3 => case 4 => case 5 => case 6 => case 7 =>
  }

  /** readNextBits; None stands for -1. Behind the last byte there are zero bits. */
  function ReadNextBits(data: seq<bv8>, bitsRead: nat): Option<bv8> {
    var byteToRead := bitsRead / 8;
    if byteToRead >= |data| then None
    else
      Some(FiveBits(data[byteToRead], if byteToRead + 1 < |data| then data[byteToRead + 1] else 0, bitsRead % 8))
  }

  lemma NoBits(j: nat)
    ensures !BitOf(0, j)
  {
  }

  lemma ReadsFive(data: seq<bv8>, bitsRead: nat, j: nat)
    requires bitsRead / 8 < |data| && j < 5
    ensures SymbolBit(ReadNextBits(data, bitsRead).value, j) == Bit(data, bitsRead + j)
    ensures ReadNextBits(data, bitsRead).value < 32
  {
    var b, o := bitsRead / 8, bitsRead % 8;
    hide FiveBits, SymbolBit, BitOf;
    FiveBitsAre(data[b], if b + 1 < |data| then data[b + 1] else 0, o, j);
    BitPlace(bitsRead, j);
    NoBits(if o + j < 8 then 0 else o + j - 8);
  }

  /** The byte and the place in it of a bit that is less than a byte away. */
  lemma BitPlace(i: nat, j: nat)
    requires j < 8
    ensures (i + j) / 8 == i / 8 + (if i % 8 + j < 8 then 0 else 1)
    ensures (i + j) % 8 == i % 8 + j - (if i % 8 + j < 8 then 0 else 8)
  {
    assert i + j == 8 * (i / 8) + (i % 8 + j);
  }

  // ----- adding five bits -----

  /** All bits from o on are zero. */
  predicate ZeroFrom(b: bv8, o: nat) {
    match o
    case 0 => b == 0
    case 1 => b & 0x7f == 0
    case 2 => b & 0x3f == 0
    case 3 => b & 0x1f == 0
    case 4 => b & 0x0f == 0
    case 5 => b & 0x07 == 0
    case 6 => b & 0x03 == 0
    case 7 => b & 0x01 == 0
    case _ => true
  }

  /** addBits for the first byte it touches: the bits of v that still fit behind offset o. */
  function AddFirst(was: bv8, v: bv8, o: nat): bv8
    requires o < 8
  {
    var first := if 8 - o > 5 then 5 else 8 - o;
    var shift := 8 - first - o;
    was | (((v & (Mask(first) << (5 - first))) >> (5 - first)) << shift)
  }

  /** addBits for the second byte: the bits of v that did not fit. */
  function AddSecond(was: bv8, v: bv8, o: nat): bv8
    requires 3 < o < 8
  {
    var second := 5 - (8 - o);
    was | ((v & ((Mask(second) << (5 - second)) >> (5 - second))) << (8 - second))
  }

  lemma AddFirstBits(was: bv8, v: bv8, o: nat, j: nat)
    requires o < 8 && j < 8 && ZeroFrom(was, o)
    ensures BitOf(AddFirst(was, v, o), j) == if j < o then BitOf(was, j) else SymbolBit(v, j - o)
    ensures ZeroFrom(AddFirst(was, v, o), o + 5)
  {
    hide AddFirst, BitOf, SymbolBit, ZeroFrom;
    if o < 4 {
      AddFirstWhole(was, v, o, j);
    } else if o < 6 {
      AddFirstMost(was, v, o, j);
    } else {
      AddFirstFew(was, v, o, j);
    }
  }

  lemma AddFirstWhole(was: bv8, v: bv8, o: nat, j: nat)
    requires o < 4 && j < 8 && ZeroFrom(was, o)
    ensures BitOf(AddFirst(was, v, o), j) == if j < o then BitOf(was, j) else SymbolBit(v, j - o)
    ensures ZeroFrom(AddFirst(was, v, o), o + 5)
  {
    Masks();
    hide Mask;
    match o
    case 0 => case 1 => case 2 => case 3 =>
  }

  lemma AddFirstMost(was: bv8, v: bv8, o: nat, j: nat)
    requires 4 <= o < 6 && j < 8 && ZeroFrom(was, o)
    ensures BitOf(AddFirst(was, v, o), j) == if j < o then BitOf(was, j) else SymbolBit(v, j - o)
    ensures ZeroFrom(AddFirst(was, v, o), o + 5)
  {
    Masks();
    hide Mask;
    match o
    case 4 => case 5 =>
  }

  lemma AddFirstFew(was: bv8, v: bv8, o: nat, j: nat)
    requires 6 <= o < 8 && j < 8 && ZeroFrom(was, o)
    ensures BitOf(AddFirst(was, v, o), j) == if j < o then BitOf(was, j) else SymbolBit(v, j - o)
    ensures ZeroFrom(AddFirst(was, v, o), o + 5)
  {
    Masks();
    hide Mask;
    match o
    case 6 => case 7 =>
  }

  lemma AddSecondBits(v: bv8, o: nat, j: nat)
    requires 3 < o < 8 && j < 8
    ensures BitOf(AddSecond(0, v, o), j) == SymbolBit(v, 8 - o + j)
    ensures ZeroFrom(AddSecond(0, v, o), o - 3)
  {
    Masks();
    hide Mask;
    match o
    case 4 => case 5 => case 6 => case 7 =>
  }

  /** Bit i of a sequence of symbols. */
  predicate StreamBit(vs: seq<bv8>, i: nat) { i / 5 < |vs| && SymbolBit(vs[i / 5], i % 5) }

  /** The first bits of the buffer are those of the symbols, and the rest of the buffer is still clear. */
  ghost predicate Holds(buf: seq<bv8>, vs: seq<bv8>) {
    && (forall i: nat :: i < 8 * |buf| ==> Bit(buf, i) == StreamBit(vs, i))
    && (5 * |vs| / 8 < |buf| ==> ZeroFrom(buf[5 * |vs| / 8], 5 * |vs| % 8))
    && (forall k :: 5 * |vs| / 8 < k < |buf| ==> buf[k] == 0)
  }

  /** addBits: the bits of v go behind those already in the buffer. */
  method AddBits(buf: array<bv8>, bitsDecoded: nat, v: bv8, ghost vs: seq<bv8>) returns (bitsDecoded': nat)
    requires bitsDecoded == 5 * |vs| && bitsDecoded / 8 + 1 < buf.Length && Holds(buf[..], vs)
    modifies buf
    ensures bitsDecoded' == bitsDecoded + 5 && Holds(buf[..], vs + [v])
  {
    var o, k := bitsDecoded % 8, bitsDecoded / 8;
    ghost var before := buf[..];
    buf[k] := AddFirst(buf[k], v, o);
    if o > 3 {
      buf[k + 1] := AddSecond(buf[k + 1], v, o);
    }
    bitsDecoded' := bitsDecoded + 5;
    AddBitsHolds(before, buf[..], vs, v);
  }

  lemma AddBitsHolds(before: seq<bv8>, after: seq<bv8>, vs: seq<bv8>, v: bv8)
    requires Holds(before, vs) && 5 * |vs| / 8 + 1 < |before|
    requires var o, k := 5 * |vs| % 8, 5 * |vs| / 8;
             after == if o > 3 then before[k := AddFirst(before[k], v, o)][k + 1 := AddSecond(before[k + 1], v, o)]
                      else before[k := AddFirst(before[k], v, o)]
    ensures Holds(after, vs + [v])
  {
    var o, k := 5 * |vs| % 8, 5 * |vs| / 8;
    hide BitOf, SymbolBit, AddFirst, AddSecond, ZeroFrom;
    forall i: nat | i < 8 * |after|
      ensures Bit(after, i) == StreamBit(vs + [v], i)
    {
      AddBitsAt(before, after, vs, v, i);
    }
    AddFirstBits(before[k], v, o, 0);
    if o > 3 {
      AddSecondBits(v, o, 0);
    }
  }

  lemma AddBitsAt(before: seq<bv8>, after: seq<bv8>, vs: seq<bv8>, v: bv8, i: nat)
    requires Holds(before, vs) && 5 * |vs| / 8 + 1 < |before| && i < 8 * |before|
    requires var o, k := 5 * |vs| % 8, 5 * |vs| / 8;
             after == if o > 3 then before[k := AddFirst(before[k], v, o)][k + 1 := AddSecond(before[k + 1], v, o)]
                      else before[k := AddFirst(before[k], v, o)]
    ensures Bit(after, i) == StreamBit(vs + [v], i)
  {
    var o, k := 5 * |vs| % 8, 5 * |vs| / 8;
    hide BitOf, SymbolBit, AddFirst, AddSecond, ZeroFrom;
    assert Bit(before, i) == StreamBit(vs, i);
    StreamOneMore(vs, v, i);
    hide StreamBit;
    if i / 8 == k {
      AddFirstBits(before[k], v, o, i % 8);
      assert i == 8 * k + i % 8 && 5 * |vs| == 8 * k + o;
    } else if o > 3 && i / 8 == k + 1 {
      AddSecondBits(v, o, i % 8);
      assert i == 8 * k + 8 + i % 8 && 5 * |vs| == 8 * k + o;
    }
  }

  lemma StreamOneMore(vs: seq<bv8>, v: bv8, i: nat)
    ensures StreamBit(vs + [v], i) == if i < 5 * |vs| then StreamBit(vs, i) else SymbolBit(v, i - 5 * |vs|)
    ensures i >= 5 * |vs| ==> !StreamBit(vs, i)
  {
    hide BitOf;
    var n := |vs|;
    if i < 5 * n {
      assert i / 5 < n;
      assert (vs + [v])[i / 5] == vs[i / 5];
    } else if i < 5 * n + 5 {
      assert i / 5 == n && i % 5 == i - 5 * n;
    } else {
      assert i / 5 > n;
    }
  }

  // ----- decoding -----

  /** What one character of the text means to the decoder. */
  datatype Token = Stop | Skip | Value(v: bv8) | Bad

  /** toupper in the C locale. */
  function Upper(c: char): char { if 'a' <= c <= 'z' then c - ('a' - 'A') else c }

  /** The value of a character; the digits 0, 1, 8 and 9 have the unsigned table entry 255 and are not refused. */
  function Number(u: char): Option<nat>
    ensures Number(u).Some? ==> Number(u).value < 256
  {
    if '2' <= u <= '7' then Some(u as int - '2' as int + 26)
    else if '0' <= u <= '9' then Some(255)
    else if 'A' <= u <= 'Z' then Some(u as int - 'A' as int)
    else None
  }

  function Classify(c: char): Token {
    var u := Upper(c);
    if u == '=' then Stop
    else if u == '-' then Skip
    else
      match Number(u)
      case Some(v) => Value(v as bv8)
      case None => Bad
  }

  /** How far the decoder is: still reading, past the first '=', or at a character it refuses. */
  datatype Reading = Open(vs: seq<bv8>) | Closed(vs: seq<bv8>) | Refused

  function Advance(r: Reading, c: char): Reading {
    match r
    case Open(vs) =>
      (match Classify(c)
       case Stop => Closed(vs)
       case Skip => r
       case Value(v) => Open(vs + [v])
       case Bad => Refused)
    case _ => r
  }

  function Read(s: string): Reading { if s == [] then Open([]) else Advance(Read(s[..|s| - 1]), s[|s| - 1]) }

  /** After '=' or a refused character the rest of the text does not matter. */
  lemma {:induction false} EndedIsFinal(s: string, i: nat)
    requires i <= |s| && !Read(s[..i]).Open?
    ensures Read(s) == Read(s[..i])
  {
    if i == |s| {
      assert s[..i] == s;
    } else {
      assert s[..|s| - 1][..i] == s[..i];
      EndedIsFinal(s[..|s| - 1], i);
    }
  }

  lemma ReadNext(s: string, i: nat)
    requires i < |s|
    ensures Read(s[..i + 1]) == Advance(Read(s[..i]), s[i])
  {
    assert s[..i + 1][..i] == s[..i];
  }

  lemma ReadNothing()
    ensures Read("") == Open([])
  {
  }

  function Digit(b: bool, weight: bv8): bv8 { if b then weight else 0 }

  /** Byte k of a bit stream. */
  function PackByte(vs: seq<bv8>, k: nat): bv8 {
    Digit(StreamBit(vs, 8 * k), 0x80) | Digit(StreamBit(vs, 8 * k + 1), 0x40)
    | Digit(StreamBit(vs, 8 * k + 2), 0x20) | Digit(StreamBit(vs, 8 * k + 3), 0x10)
    | Digit(StreamBit(vs, 8 * k + 4), 0x08) | Digit(StreamBit(vs, 8 * k + 5), 0x04)
    | Digit(StreamBit(vs, 8 * k + 6), 0x02) | Digit(StreamBit(vs, 8 * k + 7), 0x01)
  }

  /** The whole bytes of a stream of five-bit symbols; a last incomplete byte is dropped. */
  function Pack(vs: seq<bv8>): seq<bv8> { seq(5 * |vs| / 8, k requires 0 <= k => PackByte(vs, k)) }

  lemma PackByteBits(vs: seq<bv8>, k: nat, j: nat)
    requires j < 8
    ensures BitOf(PackByte(vs, k), j) == StreamBit(vs, 8 * k + j)
  {
    hide StreamBit;
  }

  /** Only one byte string of that length has the bits of the stream. */
  lemma PackIsUnique(vs: seq<bv8>, r: seq<bv8>)
    requires |r| == 5 * |vs| / 8
    requires forall i: nat :: i < 8 * |r| ==> Bit(r, i) == StreamBit(vs, i)
    ensures r == Pack(vs)
  {
    hide BitOf, PackByte, StreamBit;
    forall k: nat | k < |r|
      ensures r[k] == PackByte(vs, k)
    {
      forall j: nat | j < 8
        ensures BitOf(r[k], j) == BitOf(PackByte(vs, k), j)
      {
        PackByteBits(vs, k, j);
        assert (8 * k + j) / 8 == k && (8 * k + j) % 8 == j;
        assert Bit(r, 8 * k + j) == StreamBit(vs, 8 * k + j);
      }
      SameBits(r[k], PackByte(vs, k));
    }
  }

  lemma NothingHeld(buf: seq<bv8>)
    requires forall k :: 0 <= k < |buf| ==> buf[k] == 0
    ensures Holds(buf, [])
  {
    hide BitOf, SymbolBit;
    forall i: nat | i < 8 * |buf|
      ensures !Bit(buf, i)
    {
      NoBits(i % 8);
    }
  }

  lemma TakeHeld(buf: seq<bv8>, vs: seq<bv8>)
    requires Holds(buf, vs) && 5 * |vs| / 8 <= |buf|
    ensures buf[..5 * |vs| / 8] == Pack(vs)
  {
    hide BitOf, SymbolBit, StreamBit, ZeroFrom, PackByte;
    var r := buf[..5 * |vs| / 8];
    forall i: nat | i < 8 * |r|
      ensures Bit(r, i) == StreamBit(vs, i)
    {
      assert Bit(buf, i) == StreamBit(vs, i);
    }
    PackIsUnique(vs, r);
  }

  /** The size of the decoder's buffer. */
  function DecodeBufLen(n: nat): nat { n * 5 / 8 + 2 }

  lemma Room(read: nat, n: nat)
    requires read <= n
    ensures 5 * read / 8 <= DecodeBufLen(n)
    ensures read < n ==> 5 * read / 8 + 1 < DecodeBufLen(n)
  {
  }

  /** KSI_base32Decode: the decoded bytes are the bit stream of the symbols before the first '='. */
  method Decode(s: string) returns (r: Result<seq<bv8>>)
    ensures r == if Read(s).Refused? then Err(KSI_INVALID_FORMAT) else Ok(Pack(Read(s).vs))
  {
    hide Holds, Classify, Pack, Read, DecodeBufLen, Bit, BitOf, StreamBit, SymbolBit, ZeroFrom, PackByte;
    var buf := new bv8[DecodeBufLen(|s|)](_ => 0);
    var bitsDecoded := 0;
    ghost var vs: seq<bv8> := [];
    NothingHeld(buf[..]);
    ReadNothing();
    assert s[..0] == "";
    var i := 0;
    while i < |s|
      invariant i <= |s| && |vs| <= i && bitsDecoded == 5 * |vs|
      invariant Read(s[..i]) == Open(vs) && Holds(buf[..], vs)
    {
      ReadNext(s, i);
      match Classify(s[i]) {
        case Stop =>
          EndedIsFinal(s, i + 1);
          break;
        case Skip =>
        case Value(v) =>
          Room(|vs|, |s|);
          bitsDecoded := AddBits(buf, bitsDecoded, v, vs);
          vs := vs + [v];
        case Bad =>
          EndedIsFinal(s, i + 1);
          return Err(KSI_INVALID_FORMAT);
      }
      i := i + 1;
    }
    assert s[..|s|] == s;
    Room(|vs|, |s|);
    TakeHeld(buf[..], vs);
    return Ok(buf[..bitsDecoded / 8]);
  }

  // ----- encoding -----

  /** base32EncodeTable. */
  function TableChar(v: nat): char {
    match v
    case 0 => 'A'
    case 1 => 'B'
    case 2 => 'C'
    case 3 => 'D'
    case 4 => 'E'
    case 5 => 'F'
    case 6 => 'G'
    case 7 => 'H'
    case 8 => 'I'
    case 9 => 'J'
    case 10 => 'K'
    case 11 => 'L'
    case 12 => 'M'
    case 13 => 'N'
    case 14 => 'O'
    case 15 => 'P'
    case 16 => 'Q'
    case 17 => 'R'
    case 18 => 'S'
    case 19 => 'T'
    case 20 => 'U'
    case 21 => 'V'
    case 22 => 'W'
    case 23 => 'X'
    case 24 => 'Y'
    case 25 => 'Z'
    case 26 => '2'
    case 27 => '3'
    case 28 => '4'
    case 29 => '5'
    case 30 => '6'
    case 31 => '7'
    case _ => '?'
  }

  function EncodeSymbol(v: bv8): char { TableChar(v as int) }

  lemma TableRoundTrip(v: nat)
    requires v < 32
    ensures Number(TableChar(v)) == Some(v) && Upper(TableChar(v)) == TableChar(v)
    ensures TableChar(v) != '=' && TableChar(v) != '-'
  {
  }

  lemma AlphabetRoundTrip(v: bv8)
    requires v < 32
    ensures Classify(EncodeSymbol(v)) == Value(v)
  {
    TableRoundTrip(v as int);
    hide TableChar, Number, Upper;
  }

  /** The number of symbols that carry data. */
  function SymbolCount(n: nat): nat { (8 * n + 4) / 5 }

  /** The number of characters with padding, without the group separators. */
  function PaddedCount(n: nat): nat { (n * 8 + 39) / 40 * 8 }

  /** The five data bits of symbol k. */
  function Symbol(data: seq<bv8>, k: nat): bv8
    requires k < SymbolCount(|data|)
  {
    ReadNextBits(data, 5 * k).value
  }

  /** The text without separators: the data, then '='. */
  function PlainChar(data: seq<bv8>, k: nat): char {
    if k < SymbolCount(|data|) then EncodeSymbol(Symbol(data, k)) else '='
  }

  /** Is a text of that length at the end of a group? */
  predicate GroupEnds(length: nat, g: nat) { length % (g + 1) == g }

  /** Does a group separator follow character k - 1, once the text has that length? */
  predicate Dash(n: nat, g: nat, k: nat, length: nat) {
    GroupEnds(length, g) && if k <= SymbolCount(n) then g > 0 && 5 * k < 8 * n else k % 8 != 0
  }

  /** The text after k characters that are not separators. */
  function Text(data: seq<bv8>, g: nat, k: nat): string {
    if k == 0 then ""
    else
      var t := Text(data, g, k - 1) + [PlainChar(data, k - 1)];
      if Dash(|data|, g, k, |t|) then t + ['-'] else t
  }

  /** The encoding of a byte string. */
  function EncodedText(data: seq<bv8>, g: nat): string { Text(data, g, PaddedCount(|data|)) }

  /** The computed buf_len. */
  function BufLen(n: nat, g: nat): nat
    requires n > 0
  {
    PaddedCount(n) + (if g > 0 then (PaddedCount(n) - 1) / g else 0) + 1
  }

  /** The separators written so far take no more room than buf_len reserves for them. */
  predicate Grouped(length: nat, k: nat, g: nat) { k <= length && g * (length - k) + length % (g + 1) <= k }

  lemma CharKeepsGrouped(length: nat, k: nat, g: nat)
    requires Grouped(length, k, g)
    ensures Grouped(length + 1, k + 1, g)
  {
    assert length + 1 - (k + 1) == length - k;
    NextMod(length, g + 1);
  }

  lemma DashKeepsGrouped(length: nat, k: nat, g: nat)
    requires Grouped(length, k, g) && length % (g + 1) == g
    ensures Grouped(length + 1, k, g)
  {
    NextMod(length, g + 1);
    assert g * (length + 1 - k) == g * (length - k) + g;
  }

  lemma NextMod(a: nat, m: nat)
    requires m > 0
    ensures (a + 1) % m == if a % m == m - 1 then 0 else a % m + 1
  {
    var p, q := a / m, (a + 1) / m;
    var x, y := a % m, (a + 1) % m;
    Quotients(m, p, q, x, y);
  }

  lemma Quotients(m: nat, p: nat, q: nat, x: nat, y: nat)
    requires x < m && y < m && m * p + x + 1 == m * q + y
    ensures y == if x == m - 1 then 0 else x + 1
  {
    Multiples(m, q, p);
    Multiples(m, p, q);
    if q == p + 1 {
      assert m * q == m * p + m;
    }
  }

  /** Multiples grow in steps of m. */
  lemma {:induction false} Multiples(m: nat, a: nat, b: nat)
    ensures a > b ==> m * a >= m * b + m
    ensures a > b + 1 ==> m * a >= m * b + 2 * m
  {
    if a > b {
      assert m * a == m * (a - 1) + m;
      Multiples(m, a - 1, b);
    }
  }

  lemma {:induction false} TextIsGrouped(data: seq<bv8>, g: nat, k: nat)
    ensures Grouped(|Text(data, g, k)|, k, g)
  {
    hide PlainChar;
    if k > 0 {
      TextIsGrouped(data, g, k - 1);
      var length := |Text(data, g, k - 1)|;
      CharKeepsGrouped(length, k - 1, g);
      if Dash(|data|, g, k, length + 1) {
        DashKeepsGrouped(length + 1, k, g);
      }
    }
  }

  lemma DashMeansMore(n: nat, g: nat, k: nat, length: nat)
    requires 0 < k <= PaddedCount(n) && Dash(n, g, k, length)
    ensures k < PaddedCount(n)
  {
  }

  lemma SeparatorsFit(d: nat, g: nat, t: nat)
    requires g > 0 && t > 0 && g * d <= t - 1
    ensures d <= (t - 1) / g
  {
    var q := (t - 1) / g;
    assert t - 1 < g * q + g;
    Multiples(g, d, q);
  }

  /** With groups, the text so far and its NUL fit into the buffer. */
  lemma GroupedTextFits(data: seq<bv8>, g: nat, k: nat)
    requires g > 0 && |data| > 0 && k <= PaddedCount(|data|)
    ensures |Text(data, g, k)| < BufLen(|data|, g)
  {
    hide PlainChar, Dash, PaddedCount;
    TextIsGrouped(data, g, k);
    var total := PaddedCount(|data|);
    assert total > 0 by { BlocksArePositive(|data|); }
    if k > 0 {
      var length := |Text(data, g, k - 1)|;
      TextIsGrouped(data, g, k - 1);
      if Dash(|data|, g, k, length + 1) {
        DashMeansMore(|data|, g, k, length + 1);
        SeparatorsFit(length + 2 - k, g, total);
      } else {
        SeparatorsFit(length - (k - 1), g, total);
      }
    }
  }

  lemma BlocksArePositive(n: nat)
    requires n > 0
    ensures PaddedCount(n) > 0 && PaddedCount(n) % 8 == 0
    ensures SymbolCount(n) <= PaddedCount(n) < SymbolCount(n) + 8
  {
    hide PaddedCount, SymbolCount;
    Counts(n);
  }

  lemma EveryEnd()
    ensures forall length :: GroupEnds(length, 0)
  {
  }

  /** Without groups: one separator behind every '=' but the last. */
  lemma {:induction false} UngroupedLength(data: seq<bv8>, k: nat)
    requires |data| > 0 && k <= PaddedCount(|data|)
    ensures var n := SymbolCount(|data|);
            |Text(data, 0, k)| == if k <= n then k else if k < PaddedCount(|data|) then 2 * k - n else 2 * k - n - 1
  {
    hide PlainChar, SymbolCount, PaddedCount, GroupEnds;
    assert forall length :: GroupEnds(length, 0) by { EveryEnd(); }
    if k > 0 {
      UngroupedLength(data, k - 1);
      BlocksArePositive(|data|);
      assert k > SymbolCount(|data|) ==> (k % 8 != 0 <==> k < PaddedCount(|data|));
    }
  }

  lemma Counts(n: nat)
    ensures SymbolCount(n) == 8 * (n / 5) + (8 * (n % 5) + 4) / 5
    ensures PaddedCount(n) == 8 * (n / 5) + if n % 5 == 0 then 0 else 8
  {
    var q, r := n / 5, n % 5;
    assert 8 * n + 4 == 40 * q + (8 * r + 4);
    assert 8 * n + 39 == 40 * q + (8 * r + 39);
  }

  lemma PaddingIs(n: nat)
    ensures PaddedCount(n) <= SymbolCount(n) + 1 <==> n % 5 == 0 || n % 5 == 4
  {
    hide PaddedCount, SymbolCount;
    Counts(n);
  }

  /**
   * The padding loop does not test for group length 0: only then, and only with two or more '=', the text overflows.
   */
  lemma EncodingFitsIff(data: seq<bv8>, g: nat)
    requires |data| > 0
    ensures |EncodedText(data, g)| + 1 <= BufLen(|data|, g) <==> g > 0 || |data| % 5 == 0 || |data| % 5 == 4
  {
    hide Text, PaddedCount, SymbolCount;
    var total := PaddedCount(|data|);
    PaddingIs(|data|);
    BlocksArePositive(|data|);
    if g > 0 {
      GroupedTextFits(data, g, total);
    } else {
      UngroupedLength(data, total);
    }
  }

  /** A single byte without groups already does not fit. */
  lemma OneByteOverruns(b: bv8)
    ensures |EncodedText([b], 0)| + 1 > BufLen(1, 0)
  {
    EncodingFitsIff([b], 0);
  }

  /** The symbols with their separators fit in any case: only the padding can overflow. */
  lemma SymbolsFit(data: seq<bv8>, g: nat, k: nat)
    requires |data| > 0 && k <= SymbolCount(|data|)
    ensures |Text(data, g, k)| < BufLen(|data|, g)
  {
    hide Text, PaddedCount, SymbolCount;
    BlocksArePositive(|data|);
    if g > 0 {
      GroupedTextFits(data, g, k);
    } else {
      UngroupedLength(data, k);
    }
  }

  lemma {:induction false} TextGrows(data: seq<bv8>, g: nat, j: nat, k: nat)
    requires j <= k
    ensures |Text(data, g, j)| <= |Text(data, g, k)|
  {
    hide PlainChar, Dash;
    if j < k {
      TextGrows(data, g, j, k - 1);
    }
  }

  /** One character goes behind the text written so far. */
  method Put(buf: array<char>, length: nat, c: char, ghost t: string) returns (length': nat)
    requires length < buf.Length && buf[..length] == t
    modifies buf
    ensures length' == length + 1 && buf[..length'] == t + [c]
  {
    buf[length] := c;
    length' := length + 1;
  }

  /** The first loop ends when the symbols do. */
  lemma MoreSymbols(data: seq<bv8>, k: nat)
    ensures ReadNextBits(data, 5 * k).Some? <==> k < SymbolCount(|data|)
  {
    hide FiveBits;
  }

  /** The second loop ends at the padded length. */
  lemma MorePadding(n: nat, k: nat)
    requires n > 0 && SymbolCount(n) <= k <= PaddedCount(n)
    ensures 5 * k % 40 != 0 <==> k < PaddedCount(n)
    ensures 5 * k % 40 == 35 <==> (k + 1) % 8 == 0
  {
    hide PaddedCount, SymbolCount;
    BlocksArePositive(n);
    var a, b := k / 8, k % 8;
    assert 5 * k == 40 * a + 5 * b && 0 <= 5 * b < 40;
    assert 5 * k % 40 == 5 * b;
  }

  /** What the encoder does: a text, an error code, or a write behind the end of its buffer. */
  datatype Encoding = Encoded(text: string) | Rejected(code: int) | Overrun

  /** KSI_base32Encode. Exactly with group length 0 and two or more '=' it writes behind its buffer. */
  method Encode(data: seq<bv8>, g: nat) returns (r: Encoding)
    ensures data == [] ==> r == Rejected(KSI_INVALID_ARGUMENT)
    ensures data != [] && (g > 0 || |data| % 5 == 0 || |data| % 5 == 4) ==> r == Encoded(EncodedText(data, g))
    ensures data != [] && !(g > 0 || |data| % 5 == 0 || |data| % 5 == 4) ==> r == Overrun
  {
    if |data| == 0 {
      return Rejected(KSI_INVALID_ARGUMENT);
    }
    var bufLen := (|data| * 8 + 39) / 40 * 8;
    if g > 0 {
      bufLen := bufLen + (bufLen - 1) / g;
    }
    bufLen := bufLen + 1;
    assert bufLen == BufLen(|data|, g);
    EncodingFitsIff(data, g);
    hide BufLen, Text;
    var buf := new char[bufLen](_ => '\0');
    var length, bitsRead := PutSymbols(data, g, buf);
    var overrun;
    length, overrun := PutPadding(data, g, buf, length, bitsRead);
    if overrun || length == buf.Length {
      return Overrun;
    }
    buf[length] := '\0';
    return Encoded(buf[..length]);
  }

  lemma TextStart(data: seq<bv8>, g: nat)
    ensures Text(data, g, 0) == ""
  {
  }

  lemma TextNext(data: seq<bv8>, g: nat, k: nat)
    ensures var t := Text(data, g, k) + [PlainChar(data, k)];
            Text(data, g, k + 1) == if Dash(|data|, g, k + 1, |t|) then t + ['-'] else t
  {
    hide PlainChar, Dash;
  }

  /** The loop over the data. */
  method PutSymbols(data: seq<bv8>, g: nat, buf: array<char>) returns (length: nat, bitsRead: nat)
    requires |data| > 0 && buf.Length == BufLen(|data|, g)
    modifies buf
    ensures bitsRead == 5 * SymbolCount(|data|)
    ensures length < buf.Length && buf[..length] == Text(data, g, SymbolCount(|data|))
  {
    hide PaddedCount, SymbolCount, BufLen, ReadNextBits, EncodeSymbol, Text, GroupEnds;
    BlocksArePositive(|data|);
    TextStart(data, g);
    length, bitsRead := 0, 0;
    ghost var k := 0;
    var nextBits := ReadNextBits(data, bitsRead);
    MoreSymbols(data, k);
    while nextBits.Some?
      invariant bitsRead == 5 * k && k <= SymbolCount(|data|)
      invariant nextBits == ReadNextBits(data, 5 * k) && (nextBits.Some? <==> k < SymbolCount(|data|))
      invariant length <= buf.Length && buf[..length] == Text(data, g, k)
      decreases SymbolCount(|data|) - k
    {
      ghost var t := Text(data, g, k);
      SymbolsFit(data, g, k + 1);
      TextNext(data, g, k);
      length := Put(buf, length, EncodeSymbol(nextBits.value), t);
      if g > 0 && GroupEnds(length, g) && bitsRead + 5 < |data| * 8 {
        length := Put(buf, length, '-', t + [PlainChar(data, k)]);
      }
      bitsRead, k := bitsRead + 5, k + 1;
      nextBits := ReadNextBits(data, bitsRead);
      MoreSymbols(data, k);
    }
    SymbolsFit(data, g, k);
  }

  /** The padding loop; it stops where it would write behind the end of the buffer. */
  method PutPadding(data: seq<bv8>, g: nat, buf: array<char>, start: nat, startBits: nat)
    returns (length: nat, overrun: bool)
    requires |data| > 0 && startBits == 5 * SymbolCount(|data|)
    requires start <= buf.Length && buf[..start] == Text(data, g, SymbolCount(|data|))
    modifies buf
    ensures overrun ==> |EncodedText(data, g)| > buf.Length
    ensures !overrun ==> length <= buf.Length && buf[..length] == EncodedText(data, g)
  {
    hide PaddedCount, SymbolCount, BufLen, Text, GroupEnds;
    BlocksArePositive(|data|);
    length, overrun := start, false;
    var bitsRead := startBits;
    ghost var k := SymbolCount(|data|);
    MorePadding(|data|, k);
    while bitsRead % 40 != 0
      invariant bitsRead == 5 * k && SymbolCount(|data|) <= k <= PaddedCount(|data|)
      invariant bitsRead % 40 != 0 <==> k < PaddedCount(|data|)
      invariant length <= buf.Length && buf[..length] == Text(data, g, k)
      decreases PaddedCount(|data|) - k
    {
      ghost var t := Text(data, g, k);
      TextGrows(data, g, k + 1, PaddedCount(|data|));
      TextNext(data, g, k);
      MorePadding(|data|, k);
      if length == buf.Length {
        return length, true;
      }
      length := Put(buf, length, '=', t);
      if GroupEnds(length, g) && bitsRead % 40 != 35 {
        if length == buf.Length {
          return length, true;
        }
        length := Put(buf, length, '-', t + ['=']);
      }
      bitsRead, k := bitsRead + 5, k + 1;
      MorePadding(|data|, k);
    }
  }

  // ----- the round trip -----

  /** The five-bit groups of the data. */
  function Symbols(data: seq<bv8>): seq<bv8> {
    seq(SymbolCount(|data|), k requires 0 <= k < SymbolCount(|data|) => Symbol(data, k))
  }

  lemma ReadOneMore(t: string, c: char)
    ensures Read(t + [c]) == Advance(Read(t), c)
  {
    assert (t + [c])[..|t|] == t;
  }

  /** What the decoder has collected after k characters of the encoding. */
  lemma {:induction false} ReadsText(data: seq<bv8>, g: nat, k: nat)
    ensures Read(Text(data, g, k)) ==
            if k <= SymbolCount(|data|) then Open(Symbols(data)[..k]) else Closed(Symbols(data))
  {
    hide Classify, Read, Dash, Symbol, EncodeSymbol, SymbolCount, ReadNextBits;
    if k == 0 {
      assert Read("") == Open([]) by { ReadNothing(); }
    } else {
      ReadsText(data, g, k - 1);
      var before := Text(data, g, k - 1);
      var t := before + [PlainChar(data, k - 1)];
      ReadOneMore(before, PlainChar(data, k - 1));
      ReadOneMore(t, '-');
      Marks();
      if k <= SymbolCount(|data|) {
        SymbolIsSmall(data, k - 1);
        AlphabetRoundTrip(Symbol(data, k - 1));
        assert Symbols(data)[..k] == Symbols(data)[..k - 1] + [Symbol(data, k - 1)];
      } else {
        assert Symbols(data)[..SymbolCount(|data|)] == Symbols(data);
      }
    }
  }

  lemma Marks()
    ensures Classify('-') == Skip && Classify('=') == Stop
  {
  }

  lemma SymbolIsSmall(data: seq<bv8>, k: nat)
    requires k < SymbolCount(|data|)
    ensures Symbol(data, k) < 32
    ensures forall j: nat :: j < 5 ==> SymbolBit(Symbol(data, k), j) == Bit(data, 5 * k + j)
  {
    hide Bit, SymbolBit, ReadNextBits;
    assert 5 * k / 8 < |data|;
    ReadsFive(data, 5 * k, 0);
    forall j: nat | j < 5
      ensures SymbolBit(Symbol(data, k), j) == Bit(data, 5 * k + j)
    {
      ReadsFive(data, 5 * k, j);
    }
  }

  lemma PackSymbols(data: seq<bv8>)
    ensures Pack(Symbols(data)) == data
  {
    hide Bit, SymbolBit, Symbol;
    forall i: nat | i < 8 * |data|
      ensures Bit(data, i) == StreamBit(Symbols(data), i)
    {
      assert i / 5 < SymbolCount(|data|);
      SymbolIsSmall(data, i / 5);
      assert i == 5 * (i / 5) + i % 5;
    }
    PackIsUnique(Symbols(data), data);
  }

  /** Decoding the encoding gives the bytes back, for every group length. */
  lemma RoundTrip(data: seq<bv8>, g: nat)
    requires data != []
    ensures !Read(EncodedText(data, g)).Refused? && Pack(Read(EncodedText(data, g)).vs) == data
  {
    hide Pack, Read, Text, Symbol, PaddedCount, SymbolCount;
    ReadsText(data, g, PaddedCount(|data|));
    BlocksArePositive(|data|);
    PackSymbols(data);
    assert Symbols(data)[..SymbolCount(|data|)] == Symbols(data);
  }

  /** The text without its separators. */
  function Undashed(s: string): string {
    if s == [] then "" else Undashed(s[..|s| - 1]) + if s[|s| - 1] == '-' then "" else [s[|s| - 1]]
  }

  /** The RFC 4648 text: the symbols, and '=' up to a multiple of eight characters. */
  function Plain(data: seq<bv8>, k: nat): string { seq(k, i requires 0 <= i => PlainChar(data, i)) }

  lemma UndashedOneMore(t: string, c: char)
    ensures Undashed(t + [c]) == if c == '-' then Undashed(t) else Undashed(t) + [c]
  {
    assert (t + [c])[..|t|] == t;
  }

  /** Grouping only inserts separators: without them the text is the same for every group length. */
  lemma {:induction false} GroupingOnlyInserts(data: seq<bv8>, g: nat, k: nat)
    ensures Undashed(Text(data, g, k)) == Plain(data, k)
  {
    hide Undashed, Dash, PlainChar;
    if k == 0 {
      assert Undashed("") == "" by { UndashedNothing(); }
    } else {
      GroupingOnlyInserts(data, g, k - 1);
      var c := PlainChar(data, k - 1);
      var t := Text(data, g, k - 1);
      UndashedOneMore(t, c);
      UndashedOneMore(t + [c], '-');
      PlainIsNoDash(data, k - 1);
      assert Plain(data, k) == Plain(data, k - 1) + [c];
    }
  }

  lemma UndashedNothing()
    ensures Undashed("") == ""
  {
  }

  lemma PlainIsNoDash(data: seq<bv8>, k: nat)
    ensures PlainChar(data, k) != '-'
  {
    if k < SymbolCount(|data|) {
      SymbolIsSmall(data, k);
      hide Symbol, TableChar;
      TableRoundTrip(Symbol(data, k) as int);
    }
  }

  // ----- where the separators are -----

  /**
   * With groups, a character of the text is a separator if and only if it stands behind a full group of g characters,
   * except that none is put directly behind the last symbol.
   */
  lemma {:induction false} SeparatorsAre(data: seq<bv8>, g: nat, k: nat, i: nat)
    requires g > 0 && k <= PaddedCount(|data|) && i < |Text(data, g, k)|
    ensures Text(data, g, k)[i] == '-' <==>
            i % (g + 1) == g && i != |Text(data, g, SymbolCount(|data|))|
    decreases k
  {
    hide PlainChar, PaddedCount, SymbolCount;
    var last := SymbolCount(|data|);
    var before := Text(data, g, k - 1);
    var length := |before|;
    PlainIsNoDash(data, k - 1);
    TextNext(data, g, k - 1);
    if i < length {
      SeparatorsAre(data, g, k - 1, i);
    } else if i == length {
      NoFullGroup(data, g, k - 1);
    } else {
      SymbolTextLength(data, g, k, last);
    }
  }

  /** Where a character goes, no separator is due, except directly behind the last symbol. */
  lemma NoFullGroup(data: seq<bv8>, g: nat, k: nat)
    requires g > 0 && k < PaddedCount(|data|)
    ensures |Text(data, g, k)| % (g + 1) == g ==> k == SymbolCount(|data|)
  {
    hide PlainChar, Text;
    if k == 0 {
      TextStart(data, g);
    } else {
      TextNext(data, g, k - 1);
      var t := Text(data, g, k - 1) + [PlainChar(data, k - 1)];
      NextMod(|t|, g + 1);
      MoreToCome(|data|, k);
    }
  }

  /** Between the first symbol and the last padding a separator is due behind every full group but the last symbol's. */
  lemma MoreToCome(n: nat, k: nat)
    requires 0 < k < PaddedCount(n)
    ensures k < SymbolCount(n) ==> 5 * k < 8 * n
    ensures k > SymbolCount(n) ==> k % 8 != 0
  {
    if k > SymbolCount(n) {
      Counts(n);
    }
  }

  /** Text for more characters is longer. */
  lemma SymbolTextLength(data: seq<bv8>, g: nat, k: nat, last: nat)
    requires k > 0 && Dash(|data|, g, k, |Text(data, g, k - 1)| + 1) && last == SymbolCount(|data|)
    ensures |Text(data, g, k - 1)| + 1 != |Text(data, g, last)|
  {
    hide PlainChar, SymbolCount;
    if last >= k {
      TextGrows(data, g, k, last);
    } else {
      TextGrows(data, g, last, k - 1);
    }
  }

  // ----- what the decoder takes -----

  /** The alphabet in either case, '-', '=', the four other digits, and nothing else. */
  lemma DecoderAlphabet(c: char)
    ensures 'A' <= c <= 'Z' ==> Classify(c) == Value((c as int - 65) as bv8)
    ensures 'a' <= c <= 'z' ==> Classify(c) == Value((c as int - 97) as bv8)
    ensures '2' <= c <= '7' ==> Classify(c) == Value((c as int - 24) as bv8)
    ensures c == '0' || c == '1' || c == '8' || c == '9' ==> Classify(c) == Value(255)
    ensures c == '-' <==> Classify(c) == Skip
    ensures c == '=' <==> Classify(c) == Stop
    ensures Classify(c) == Bad <==>
            !('A' <= c <= 'Z' || 'a' <= c <= 'z' || '0' <= c <= '9' || c == '-' || c == '=')
  {
  }
}
