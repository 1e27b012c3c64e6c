/**
 * The time encoded in the shape of a calendar hash chain (src/ksi/hashchain.c:39-47, 306-360). A chain with
 * publication time P is a path in a tree with the P + 1 leaves 0..P; its left and right links say where the path ends.
 */
module CalendarTime {
  import opened Common
  import opened Powers

  // ----- highBit -----

  /** n >> k for a non-negative n. */
  function Shr(n: nat, k: nat): nat { if k == 0 then n else Shr(n / 2, k - 1) }

  /** a | b for non-negative a and b. */
  function Or(a: nat, b: nat): nat {
    if a == 0 && b == 0 then 0 else 2 * Or(a / 2, b / 2) + (if a % 2 == 1 || b % 2 == 1 then 1 else 0)
  }

  /** n |= (n >> k) */
  function Smear(n: nat, k: nat): nat { Or(n, Shr(n, k)) }

  function Smeared(n: nat): nat { Smear(Smear(Smear(Smear(Smear(Smear(n, 1), 2), 4), 8), 16), 32) }

  /** highBit, as the code computes it. */
  function HighBit(n: nat): int { Smeared(n) - Shr(Smeared(n), 1) }

  /** The largest power of two that is not above n. */
  function Top(n: nat): nat
    requires n > 0
  {
    if n == 1 then 1 else 2 * Top(n / 2)
  }

  ghost predicate IsPowerOfTwo(p: int) { p == 1 || (p > 1 && p % 2 == 0 && IsPowerOfTwo(p / 2)) }

  lemma {:induction false} TopBounds(n: nat)
    requires n > 0
    ensures IsPowerOfTwo(Top(n)) && Top(n) <= n < 2 * Top(n)
  {
    if n > 1 {
      TopBounds(n / 2);
    }
  }

  /** Is one of the `w` lowest bits of n set? */
  predicate AnyBit(n: nat, w: nat) { w > 0 && (n % 2 == 1 || AnyBit(n / 2, w - 1)) }

  lemma {:induction false} SomeBitBelow(n: nat, w: nat)
    requires 0 < n < Pow2(w)
    ensures AnyBit(n, w)
  {
    if n % 2 == 0 {
      SomeBitBelow(n / 2, w - 1);
    }
  }

  lemma {:induction false} AnyBitSplit(n: nat, v: nat, w: nat)
    ensures AnyBit(n, v + w) <==> AnyBit(n, v) || AnyBit(Shr(n, v), w)
  {
    if v > 0 {
      AnyBitSplit(n / 2, v - 1, w);
    }
  }

  lemma {:induction false} ShrStep(n: nat, k: nat)
    ensures Shr(n, k) / 2 == Shr(n / 2, k)
  {
    if k > 0 {
      ShrStep(n / 2, k - 1);
    }
  }

  lemma HalfOr(a: nat, b: nat)
    ensures Or(a, b) / 2 == Or(a / 2, b / 2)
    ensures Or(a, b) % 2 == 1 <==> a % 2 == 1 || b % 2 == 1
  {
  }

  ghost predicate Halves(f: nat -> nat, n: nat) { f(n) / 2 == f(n / 2) }

  ghost predicate LowBitCovers(f: nat -> nat, w: nat, n: nat) { f(n) % 2 == 1 <==> AnyBit(n, w) }

  /** f is a smear that covers `w` bits: it commutes with halving, and its lowest bit tells whether a bit is set. */
  ghost predicate Covers(f: nat -> nat, w: nat) { forall n: nat :: Halves(f, n) && LowBitCovers(f, w, n) }

  lemma {:induction false} CoversShr(f: nat -> nat, w: nat, n: nat, k: nat)
    requires Covers(f, w)
    ensures Shr(f(n), k) == f(Shr(n, k))
  {
    if k > 0 {
      assert Halves(f, n);
      CoversShr(f, w, n / 2, k - 1);
    }
  }

  /** A smear by `w` doubles the number of bits covered. */
  lemma SmearDoubles(f: nat -> nat, w: nat, g: nat -> nat)
    requires Covers(f, w) && forall n: nat :: g(n) == Smear(f(n), w)
    ensures Covers(g, 2 * w)
  {
    forall n: nat
      ensures Halves(g, n) && LowBitCovers(g, 2 * w, n)
    {
      SmearDoublesAt(f, w, g, n);
    }
  }

  lemma SmearDoublesAt(f: nat -> nat, w: nat, g: nat -> nat, n: nat)
    requires Covers(f, w) && g(n) == Smear(f(n), w) && g(n / 2) == Smear(f(n / 2), w)
    ensures Halves(g, n) && LowBitCovers(g, 2 * w, n)
  {
    hide Or, Shr, AnyBit;
    HalfOr(f(n), Shr(f(n), w));
    ShrStep(f(n), w);
    CoversShr(f, w, n, w);
    AnyBitSplit(n, w, w);
    assert Halves(f, n) && LowBitCovers(f, w, n) && LowBitCovers(f, w, Shr(n, w));
  }

  lemma SmearedCovers()
    ensures Covers(Smeared, 64)
  {
    var f0: nat -> nat := n => n;
    assert Covers(f0, 1) by {
      forall n: nat
        ensures Halves(f0, n) && LowBitCovers(f0, 1, n)
      {
        assert AnyBit(n, 1) <==> n % 2 == 1 || AnyBit(n / 2, 0);
      }
    }
    hide Covers, Smear;
    var f1: nat -> nat := n => Smear(f0(n), 1);
    SmearDoubles(f0, 1, f1);
    var f2: nat -> nat := n => Smear(f1(n), 2);
    SmearDoubles(f1, 2, f2);
    var f3: nat -> nat := n => Smear(f2(n), 4);
    SmearDoubles(f2, 4, f3);
    var f4: nat -> nat := n => Smear(f3(n), 8);
    SmearDoubles(f3, 8, f4);
    var f5: nat -> nat := n => Smear(f4(n), 16);
    SmearDoubles(f4, 16, f5);
    SmearDoubles(f5, 32, Smeared);
  }

  /** The bit-smearing highBit is the largest power of two not above its argument. */
  lemma {:induction false} HighBitIsTop(n: nat)
    requires 0 < n < TWO_64
    ensures HighBit(n) == Top(n)
  {
    SmearedCovers();
    Pow2Is64();
    SomeBitBelow(n, 64);
    hide Smeared, Pow2, AnyBit;
    assert Halves(Smeared, n) && LowBitCovers(Smeared, 64, n);
    assert Smeared(n) == 2 * Smeared(n / 2) + 1;
    assert Shr(Smeared(n), 1) == Shr(Smeared(n) / 2, 0) == Smeared(n / 2);
    if n > 1 {
      HighBitIsTop(n / 2);
      SomeBitBelow(n / 2, 64);
      assert Halves(Smeared, n / 2) && LowBitCovers(Smeared, 64, n / 2);
      assert Shr(Smeared(n / 2), 1) == Shr(Smeared(n / 2) / 2, 0);
    } else {
      NoBits();
    }
  }

  lemma NoBits()
    ensures Smeared(0) == 0
  {
    assert Shr(0, 0) == 0;
    ShrZero(1); ShrZero(2); ShrZero(4); ShrZero(8); ShrZero(16); ShrZero(32);
  }

  lemma {:induction false} ShrZero(k: nat)
    ensures Shr(0, k) == 0
  {
    if k > 0 {
      ShrZero(k - 1);
    }
  }

  // ----- shapes and times -----

  /** A shape lists, from the input hash to the root, whether each link is a left link. */
  type Shape = seq<bool>

  function Plus(t: nat, rest: Option<nat>): Option<nat> { if rest.Some? then Some(t + rest.value) else None }

  /** The time that the first m links of a shape stand for in a tree with the leaves 0..r, if they lead to a leaf. */
  function TimeAt(shape: Shape, m: nat, r: int): Option<nat>
    requires m <= |shape|
  {
    if m == 0 then (if r == 0 then Some(0) else None)
    else if r <= 0 then None
    else if shape[m - 1] then TimeAt(shape, m - 1, Top(r) - 1)
    else Plus(Top(r), TimeAt(shape, m - 1, r - Top(r)))
  }

  function TimeOf(shape: Shape, r: int): Option<nat> { TimeAt(shape, |shape|, r) }

  lemma {:induction false} TimeAtPrefix(shape: Shape, more: Shape, m: nat, r: int)
    requires m <= |shape|
    ensures TimeAt(shape + more, m, r) == TimeAt(shape, m, r)
  {
    if m > 0 && r > 0 {
      hide Top;
      if shape[m - 1] {
        TimeAtPrefix(shape, more, m - 1, Top(r) - 1);
      } else {
        TimeAtPrefix(shape, more, m - 1, r - Top(r));
      }
    }
  }

  /** The path to leaf t. */
  function ShapeOf(t: nat, r: nat): Shape
    requires t <= r
    decreases r
  {
    if r == 0 then []
    else
      TopBounds(r);
      if t < Top(r) then ShapeOf(t, Top(r) - 1) + [true] else ShapeOf(t - Top(r), r - Top(r)) + [false]
  }

  function BitLength(n: nat): nat { if n == 0 then 0 else 1 + BitLength(n / 2) }

  lemma {:induction false} BitLengthMonotone(m: nat, n: nat)
    requires m <= n
    ensures BitLength(m) <= BitLength(n)
  {
    if m > 0 {
      BitLengthMonotone(m / 2, n / 2);
    }
  }

  lemma {:induction false} BitLengthBelowTop(m: nat, n: nat)
    requires n > 0 && m < Top(n)
    ensures BitLength(m) < BitLength(n)
  {
    if n == 1 {
    } else if m > 0 {
      BitLengthBelowTop(m / 2, n / 2);
    }
  }

  /** Every time has a path that decodes back to it, with at most bitlength(r) links. */
  lemma {:induction false} TimeOfShape(t: nat, r: nat)
    requires t <= r
    ensures TimeOf(ShapeOf(t, r), r) == Some(t)
    ensures |ShapeOf(t, r)| <= BitLength(r)
    decreases r
  {
    if r > 0 {
      TopBounds(r);
      if t < Top(r) {
        var s := ShapeOf(t, Top(r) - 1);
        TimeOfShape(t, Top(r) - 1);
        BitLengthBelowTop(Top(r) - 1, r);
        TimeAtPrefix(s, [true], |s|, Top(r) - 1);
      } else {
        var s := ShapeOf(t - Top(r), r - Top(r));
        TimeOfShape(t - Top(r), r - Top(r));
        BitLengthBelowTop(r - Top(r), r);
        TimeAtPrefix(s, [false], |s|, r - Top(r));
      }
    }
  }

  /** Every accepted shape is the path to its time, and that time lies in 0..r. */
  lemma {:induction false} ShapeOfTime(shape: Shape, m: nat, r: nat)
    requires m <= |shape| && TimeAt(shape, m, r).Some?
    ensures TimeAt(shape, m, r).value <= r
    ensures shape[..m] == ShapeOf(TimeAt(shape, m, r).value, r)
  {
    if m > 0 {
      TopBounds(r);
      assert shape[..m] == shape[..m - 1] + [shape[m - 1]];
      if shape[m - 1] {
        ShapeOfTime(shape, m - 1, Top(r) - 1);
      } else {
        ShapeOfTime(shape, m - 1, r - Top(r));
      }
    }
  }

  /** One-to-one: two accepted shapes under one publication time are equal exactly when their times are. */
  lemma TimesAreUnique(s1: Shape, s2: Shape, r: nat)
    requires TimeOf(s1, r).Some? && TimeOf(s2, r).Some?
    ensures s1 == s2 <==> TimeOf(s1, r) == TimeOf(s2, r)
  {
    ShapeOfTime(s1, |s1|, r);
    ShapeOfTime(s2, |s2|, r);
    assert s1[..|s1|] == s1 && s2[..|s2|] == s2;
  }

  // ----- the tree behind the arithmetic -----

  datatype Tree = Leaf(time: nat) | Node(left: Tree, right: Tree)

  /** The calendar tree over lo..lo+r: a perfect tree on the left, the rest on the right. */
  function CalendarTree(lo: nat, r: nat): Tree
    decreases r
  {
    if r == 0 then Leaf(lo)
    else
      TopBounds(r);
      Node(CalendarTree(lo, Top(r) - 1), CalendarTree(lo + Top(r), r - Top(r)))
  }

  function Leaves(t: Tree): seq<nat> {
    match t
    case Leaf(time) => [time]
    case Node(left, right) => Leaves(left) + Leaves(right)
  }

  /** Walk down from the root along the first m links: a left link has the path on its left. */
  function Walk(t: Tree, shape: Shape, m: nat): Option<nat>
    requires m <= |shape|
  {
    if m == 0 then (if t.Leaf? then Some(t.time) else None)
    else if t.Leaf? then None
    else Walk(if shape[m - 1] then t.left else t.right, shape, m - 1)
  }

  lemma {:induction false} LeavesAreTimes(lo: nat, r: nat)
    ensures |Leaves(CalendarTree(lo, r))| == r + 1
    ensures forall i :: 0 <= i <= r ==> Leaves(CalendarTree(lo, r))[i] == lo + i
    decreases r
  {
    if r > 0 {
      TopBounds(r);
      hide Top, IsPowerOfTwo;
      LeavesAreTimes(lo, Top(r) - 1);
      LeavesAreTimes(lo + Top(r), r - Top(r));
    }
  }

  /** The decoded time is the leaf the shape leads to. */
  lemma {:induction false} TimeIsLeaf(shape: Shape, m: nat, lo: nat, r: nat)
    requires m <= |shape|
    ensures Walk(CalendarTree(lo, r), shape, m) == Plus(lo, TimeAt(shape, m, r))
  {
    if m > 0 && r > 0 {
      TopBounds(r);
      if shape[m - 1] {
        TimeIsLeaf(shape, m - 1, lo, Top(r) - 1);
      } else {
        TimeIsLeaf(shape, m - 1, lo + Top(r), r - Top(r));
      }
    }
  }

  // ----- right links -----

  /** The number of right links among the first m. */
  function Rights(shape: Shape, m: nat): nat
    requires m <= |shape|
  {
    if m == 0 then 0 else Rights(shape, m - 1) + if shape[m - 1] then 0 else 1
  }

  function Popcount(n: nat): nat { if n == 0 then 0 else Popcount(n / 2) + n % 2 }

  lemma {:induction false} PopcountAboveTop(p: nat, t: nat)
    requires IsPowerOfTwo(p) && t < p
    ensures Popcount(p + t) == 1 + Popcount(t)
  {
    if p > 1 {
      PopcountAboveTop(p / 2, t / 2);
      assert (p + t) / 2 == p / 2 + t / 2;
    }
  }

  /** The right links of an accepted shape are the one bits of its time, whatever the publication time. */
  lemma {:induction false} RightsAreOneBits(shape: Shape, m: nat, r: nat)
    requires m <= |shape| && TimeAt(shape, m, r).Some?
    ensures Rights(shape, m) == Popcount(TimeAt(shape, m, r).value)
  {
    hide Top, IsPowerOfTwo;
    if m > 0 {
      TopBounds(r);
      if shape[m - 1] {
        RightsAreOneBits(shape, m - 1, Top(r) - 1);
      } else {
        RightsAreOneBits(shape, m - 1, r - Top(r));
        ShapeOfTime(shape, m - 1, r - Top(r));
        PopcountAboveTop(Top(r), TimeAt(shape, m - 1, r - Top(r)).value);
      }
    }
  }

  /** What the right links add to the time, from the root down. */
  function Contributions(shape: Shape, m: nat, r: nat): seq<nat>
    requires m <= |shape|
  {
    if m == 0 || r == 0 then []
    else
      TopBounds(r);
      if shape[m - 1] then Contributions(shape, m - 1, Top(r) - 1)
      else [Top(r)] + Contributions(shape, m - 1, r - Top(r))
  }

  function Sum(s: seq<nat>): nat { if s == [] then 0 else s[0] + Sum(s[1..]) }

  ghost predicate Expansion(s: seq<nat>, bound: nat) {
    && (forall i :: 0 <= i < |s| ==> IsPowerOfTwo(s[i]) && s[i] <= bound)
    && (forall i, j :: 0 <= i < j < |s| ==> s[i] > s[j])
  }

  /** The right links of an accepted shape are strictly decreasing powers of two: the binary expansion of the time. */
  lemma {:induction false} RightsAreBinaryExpansion(shape: Shape, m: nat, r: nat)
    requires m <= |shape| && TimeAt(shape, m, r).Some?
    ensures Expansion(Contributions(shape, m, r), r)
    ensures Sum(Contributions(shape, m, r)) == TimeAt(shape, m, r).value
    ensures |Contributions(shape, m, r)| == Rights(shape, m)
  {
    hide Top, IsPowerOfTwo;
    if m > 0 {
      TopBounds(r);
      if shape[m - 1] {
        RightsAreBinaryExpansion(shape, m - 1, Top(r) - 1);
      } else {
        RightsAreBinaryExpansion(shape, m - 1, r - Top(r));
      }
    }
  }

  // ----- the loop -----

  /** (long long) of a 64-bit unsigned value. */
  function ToSigned(n: nat): int
    requires n < TWO_64
  {
    if n < TWO_63 then n else n - TWO_64
  }

  /** calculateCalendarAggregationTime. */
  method CalculateAggregationTime(shape: Shape, pubTime: nat) returns (res: Result<nat>)
    requires pubTime < TWO_64
    ensures res.Ok? <==> 1 <= pubTime < TWO_63 && TimeOf(shape, pubTime).Some?
    ensures res.Ok? ==> Some(res.value) == TimeOf(shape, pubTime) && res.value <= pubTime
    ensures res.Err? ==> res.code == KSI_INVALID_FORMAT
  {
    if |shape| == 0 {
      return Err(KSI_INVALID_FORMAT);
    }
    hide HighBit, Top, IsPowerOfTwo, TimeAt;
    var r, t := ToSigned(pubTime), 0;
    var n := |shape|;
    for i := 0 to n
      invariant r < TWO_63 && t >= 0
      invariant TimeOf(shape, ToSigned(pubTime)) == Plus(t, TimeAt(shape, n - i, r))
    {
      DescendStep(shape, n - i, r, t);
      if r <= 0 {
        return Err(KSI_INVALID_FORMAT);
      }
      HighBitIsTop(r);
      if shape[n - i - 1] {
        r := HighBit(r) - 1;
      } else {
        t := t + HighBit(r);
        r := r - HighBit(r);
      }
    }
    NoLinks(shape, r);
    if r != 0 {
      return Err(KSI_INVALID_FORMAT);
    }
    ShapeOfTime(shape, n, pubTime);
    return Ok(t);
  }

  lemma NoLinks(shape: Shape, r: int)
    ensures TimeAt(shape, 0, r) == if r == 0 then Some(0) else None
  {
  }

  lemma DescendStep(shape: Shape, m: nat, r: int, t: nat)
    requires 0 < m <= |shape| && r < TWO_63
    ensures r <= 0 ==> TimeAt(shape, m, r) == None
    ensures r > 0 ==> 1 <= Top(r) <= r
    ensures r > 0 ==> Plus(t, TimeAt(shape, m, r)) ==
                      if shape[m - 1] then Plus(t, TimeAt(shape, m - 1, Top(r) - 1))
                      else Plus(t + Top(r), TimeAt(shape, m - 1, r - Top(r)))
  {
    if r > 0 {
      TopBounds(r);
    }
  }
}
