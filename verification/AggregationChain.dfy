/**
 * The aggregation hash chain object (src/ksi/hashchain.c:1011-1096): a chain that remembers its last result, and the
 * number that encodes its shape.
 */
module AggregationChain {
  import opened Common
  import opened HashChain
  import opened Powers

  /** What a chain object is made of; absent parts are NULL. */
  datatype Content = Content(chain: Option<seq<Link>>, inputHash: Option<Imprint>, aggrHashId: Option<int>)

  predicate IsWhole(x: Content) { x.chain.Some? && x.inputHash.Some? && x.aggrHashId.Some? }

  /** What a computation that remembers nothing returns. */
  function Fresh(c: Crypto, x: Content, level: int): Result<Aggregate>
    requires Sound(c)
  {
    if !ValidLevel(level) then Err(KSI_INVALID_ARGUMENT)
    else if !IsWhole(x) then Err(KSI_INVALID_STATE)
    else AggregateFresh(c, Chain(x.chain.value, x.inputHash.value, x.aggrHashId.value), level)
  }

  /** Nothing is missing, every link has one sibling, the algorithm is supported, and the level stays in range. */
  predicate CanAggregate(c: Crypto, x: Content, level: int) {
    && IsWhole(x)
    && (x.chain.value != [] ==>
          x.aggrHashId.value in c.supported && SingleSiblings(x.chain.value) && !Overflows(x.chain.value, level))
  }

  lemma FreshIffCanAggregate(c: Crypto, x: Content, level: int)
    requires Sound(c) && ValidLevel(level)
    ensures Fresh(c, x, level).Ok? <==> CanAggregate(c, x, level)
  {
    hide Steps, Overflows, SingleSiblings;
    if IsWhole(x) {
      var p, links := Progress(level, x.aggrHashId.value, x.inputHash.value), x.chain.value;
      if links == [] {
        NoLinksNoStep(c, p);
      } else if Steps(c, p, links, false).Ok? {
        SuccessIsWellFormed(c, p, links);
        FailsIffOverflows(c, p, links);
      } else if x.aggrHashId.value in c.supported && SingleSiblings(links) {
        FailsIffOverflows(c, p, links);
      }
    }
  }

  lemma NoLinksNoStep(c: Crypto, p: Progress)
    requires Sound(c)
    ensures Steps(c, p, [], false) == Ok(p)
  {
  }

  class AggregationHashChain {
    var chain: Option<seq<Link>>
    var inputHash: Option<Imprint>
    var aggrHashId: Option<int>
    var outputHash: Option<Imprint>
    var outputLevel: int
    var inputLevel: int

    /** The remembered hash was released by a recomputation that then failed: the pointer must not be used again. */
    ghost var dangling: bool

    constructor (chain: Option<seq<Link>>, inputHash: Option<Imprint>, aggrHashId: Option<int>)
      ensures View() == Content(chain, inputHash, aggrHashId) && outputHash.None? && !dangling
    {
      this.chain, this.inputHash, this.aggrHashId := chain, inputHash, aggrHashId;
      outputHash, outputLevel, inputLevel, dangling := None, -1, 0x1ff, false;
    }

    function View(): Content
      reads this
    {
      Content(chain, inputHash, aggrHashId)
    }

    /** What is remembered is what a fresh computation would give. */
    ghost predicate Valid(c: Crypto)
      requires Sound(c)
      reads this
    {
      outputHash.Some? ==> Fresh(c, View(), inputLevel) == Ok(Aggregate(outputLevel, outputHash))
    }

    // The setters leave the memo alone: afterwards it is right exactly if it is right for the new content.

    method SetChain(chain: Option<seq<Link>>)
      modifies this`chain
      ensures View() == old(View()).(chain := chain)
    {
      this.chain := chain;
    }

    method SetInputHash(inputHash: Option<Imprint>)
      modifies this`inputHash
      ensures View() == old(View()).(inputHash := inputHash)
    {
      this.inputHash := inputHash;
    }

    method SetAggrHashId(aggrHashId: Option<int>)
      modifies this`aggrHashId
      ensures View() == old(View()).(aggrHashId := aggrHashId)
    {
      this.aggrHashId := aggrHashId;
    }

    /**
     * KSI_AggregationHashChain_aggregate: at the level of the last success the remembered result, and else the fresh
     * one. So it is the fresh one for every sequence of start levels, unless the memo was made stale by a setter.
     */
    method AggregateMemo(c: Crypto, startLevel: int) returns (r: Result<Aggregate>)
      requires Sound(c) && !dangling
      modifies this`outputHash, this`outputLevel, this`inputLevel, this`dangling
      ensures r == Fresh(c, View(), startLevel) <==>
              old(Valid(c)) || old(outputHash).None? || startLevel != old(inputLevel) || !ValidLevel(startLevel)
      ensures old(Valid(c)) ==> Valid(c)
      ensures r.Ok? ==> inputLevel == startLevel && Aggregate(outputLevel, outputHash) == r.value
      ensures r.Err? ==> unchanged(`inputLevel) && unchanged(`outputLevel) && unchanged(`outputHash)
      ensures startLevel == old(inputLevel) && old(outputHash).Some? && ValidLevel(startLevel) ==>
                r == Ok(Aggregate(old(outputLevel), old(outputHash)))
      ensures dangling <==>
              && old(outputHash).Some? && ValidLevel(startLevel) && startLevel != old(inputLevel)
              && !CanAggregate(c, View(), startLevel)
      ensures dangling ==> r.Err?
      ensures startLevel < 0 || startLevel > 0xff ==> r == Err(KSI_INVALID_ARGUMENT)
      ensures 0 <= startLevel <= 0xff && CanAggregate(c, View(), startLevel) ==> r.Ok?
    {
      if !ValidLevel(startLevel) {
        return Err(KSI_INVALID_ARGUMENT);
      }
      FreshIffCanAggregate(c, View(), startLevel);
      hide CanAggregate;
      if outputHash.None? || startLevel != inputLevel {
        dangling := outputHash.Some?;
        if aggrHashId.None? || chain.None? || inputHash.None? {
          return Err(KSI_INVALID_STATE);
        }
        r := AggregateChain(c, chain.value, inputHash.value, startLevel, aggrHashId.value, false);
        if r.Err? {
          return;
        }
        outputHash, outputLevel, inputLevel, dangling := r.value.output, r.value.level, startLevel, false;
      }
      return Ok(Aggregate(outputLevel, outputHash));
    }

    /** Another input hash always makes the memo stale, unless a collision of the hash function is found. */
    lemma NewInputIsStale(c: Crypto, was: Imprint) returns (k: Collision)
      requires Sound(c) && Valid(c) && outputHash.Some? && inputHash.Some? && inputHash.value != was
      requires Fresh(c, View().(inputHash := Some(was)), inputLevel) == Ok(Aggregate(outputLevel, outputHash))
      ensures Collides(c, k)
    {
      hide Steps, Collides;
      var p := Progress(inputLevel, aggrHashId.value, inputHash.value);
      AlgorithmFollowsHash(c, p, chain.value, false);
      AlgorithmFollowsHash(c, p.(hash := was), chain.value, false);
      k := InputIsBound(c, p, was, chain.value);
    }
  }

  /** One well-formed link, aggregated at level 0 and then at the highest level: the memo points to a released hash. */
  method MemoIsLost(c: Crypto, input: Imprint, sibling: Imprint, algorithm: int) returns (chain: AggregationHashChain)
    requires Sound(c) && algorithm in c.supported
    ensures fresh(chain) && chain.dangling && chain.outputHash.Some?
  {
    var link := Link(true, Some(sibling), None, None, 0);
    OneLinkAggregates(c, input, sibling, algorithm);
    hide CanAggregate;
    chain := new AggregationHashChain(Some([link]), Some(input), Some(algorithm));
    var first := chain.AggregateMemo(c, 0);
    var second := chain.AggregateMemo(c, 0xff);
  }

  lemma OneLinkAggregates(c: Crypto, input: Imprint, sibling: Imprint, algorithm: int)
    requires Sound(c) && algorithm in c.supported
    ensures var x := Content(Some([Link(true, Some(sibling), None, None, 0)]), Some(input), Some(algorithm));
            && Fresh(c, x, 0).Ok? && Fresh(c, x, 0).value.output.Some? && !CanAggregate(c, x, 0xff)
  {
    var link := Link(true, Some(sibling), None, None, 0);
    var x := Content(Some([link]), Some(input), Some(algorithm));
    assert NextLevel(0, link) == 1 && NextLevel(0xff, link) == 0x100;
    assert [link][1..] == [] && Sibling(link).Some?;
    assert !Overflows([link], 0) && Overflows([link], 0xff);
    FreshIffCanAggregate(c, x, 0);
  }

  /** The links are taken away after an aggregation: the object still returns the root, a fresh computation fails. */
  method MemoIsStale(c: Crypto, input: Imprint, sibling: Imprint, algorithm: int) returns (r: Result<Aggregate>)
    requires Sound(c) && algorithm in c.supported
    ensures r.Ok? && Fresh(c, Content(None, Some(input), Some(algorithm)), 0).Err?
  {
    var link := Link(true, Some(sibling), None, None, 0);
    OneLinkAggregates(c, input, sibling, algorithm);
    hide CanAggregate;
    var chain := new AggregationHashChain(Some([link]), Some(input), Some(algorithm));
    var first := chain.AggregateMemo(c, 0);
    chain.SetChain(None);
    r := chain.AggregateMemo(c, 0);
  }

  // ----- lists of chains -----

  /** KSI_AggregationHashChainList_aggregate without memos, as a function of the remaining chains. */
  function ListFresh(c: Crypto, xs: seq<Content>, level: int): Result<Aggregate>
    requires Sound(c)
    decreases |xs|
  {
    if xs == [] then Ok(Aggregate(level, None))
    else
      var first := Fresh(c, xs[0], level);
      if first.Err? || |xs| == 1 then first else ListFresh(c, xs[1..], first.value.level)
  }

  /**
   * KSI_AggregationHashChainList_aggregate: with memos that are right, the result is that of fresh computations on the
   * contents `xs` of the chains, which stay the same.
   */
  method AggregateList(c: Crypto, chains: seq<AggregationHashChain>, ghost xs: seq<Content>, level: int)
    returns (r: Result<Aggregate>)
    requires Sound(c) && |xs| == |chains|
    requires forall i :: 0 <= i < |chains| ==> chains[i].Valid(c) && !chains[i].dangling && chains[i].View() == xs[i]
    modifies chains
    ensures r == if !ValidLevel(level) then Err(KSI_INVALID_ARGUMENT) else ListFresh(c, xs, level)
    ensures forall i :: 0 <= i < |chains| ==> chains[i].Valid(c) && chains[i].View() == xs[i]
  {
    if !ValidLevel(level) {
      return Err(KSI_INVALID_ARGUMENT);
    }
    hide Fresh, CanAggregate;
    var lvl := level;
    var hsh: Option<Imprint> := None;
    assert xs[0..] == xs;
    for i := 0 to |chains|
      invariant forall j :: 0 <= j < |chains| ==>
                  chains[j].Valid(c) && !chains[j].dangling && chains[j].View() == xs[j]
      invariant i < |chains| ==> ListFresh(c, xs, level) == ListFresh(c, xs[i..], lvl)
      invariant i == 0 ==> hsh.None? && lvl == level
      invariant i == |chains| ==> ListFresh(c, xs, level) == Ok(Aggregate(lvl, hsh))
    {
      assert xs[i..][1..] == xs[i + 1..];
      var one := chains[i].AggregateMemo(c, lvl);
      if one.Err? {
        return one;
      }
      lvl, hsh := one.value.level, one.value.output;
    }
    return Ok(Aggregate(lvl, hsh));
  }

  /** For whole chains this is the list fold over their values. */
  lemma {:induction false} ListFreshIsListSpec(c: Crypto, xs: seq<Content>, chains: seq<Chain>, level: int)
    requires Sound(c) && |xs| == |chains|
    requires forall i :: 0 <= i < |xs| ==>
               xs[i] == Content(Some(chains[i].links), Some(chains[i].input), Some(chains[i].algorithm))
    ensures ListFresh(c, xs, level) == ListSpec(c, chains, level)
    decreases |xs|
  {
    hide AggregateFresh;
    if xs != [] {
      FreshOfWhole(c, xs[0], chains[0], level);
      hide Fresh;
      if |xs| > 1 && Fresh(c, xs[0], level).Ok? {
        ListFreshIsListSpec(c, xs[1..], chains[1..], Fresh(c, xs[0], level).value.level);
      }
    }
  }

  lemma FreshOfWhole(c: Crypto, x: Content, chain: Chain, level: int)
    requires Sound(c) && x == Content(Some(chain.links), Some(chain.input), Some(chain.algorithm))
    ensures Fresh(c, x, level) == AggregateFresh(c, chain, level)
  {
  }

  // ----- the shape number -----

  /** The links as binary digits under a leading one, the first link last. */
  function ShapeNumber(lefts: seq<bool>): (n: nat)
    ensures n >= 1
  {
    if lefts == [] then 1 else 2 * ShapeNumber(lefts[1..]) + (if lefts[0] then 1 else 0)
  }

  /** Reads the digits below the leading one. */
  function ReadShape(n: nat): seq<bool> { if n <= 1 then [] else [n % 2 == 1] + ReadShape(n / 2) }

  /** KSI_AggregationHashChain_calculateShape: shifts the digits into a 64-bit word. */
  method CalculateShape(lefts: seq<bool>) returns (r: Result<nat>)
    ensures |lefts| > 65 ==> r == Err(KSI_INVALID_STATE)
    ensures |lefts| <= 65 ==> r == Ok(ShapeNumber(lefts) % TWO_64)
  {
    var tmp, i := 1, |lefts|;
    if i > 65 {
      return Err(KSI_INVALID_STATE);
    }
    while i > 0
      invariant 0 <= i <= |lefts|
      invariant 0 <= tmp < TWO_64 && tmp == ShapeNumber(lefts[i..]) % TWO_64
    {
      assert lefts[i - 1..][1..] == lefts[i..];
      ShiftIn(ShapeNumber(lefts[i..]), lefts[i - 1]);
      tmp := tmp * 2 % TWO_64;
      if lefts[i - 1] {
        tmp := tmp + 1;       // tmp |= 1: the lowest bit is free after the shift
      }
      i := i - 1;
    }
    assert lefts[0..] == lefts;
    return Ok(tmp);
  }

  lemma ShiftIn(n: nat, left: bool)
    ensures (2 * n + (if left then 1 else 0)) % TWO_64 == n % TWO_64 * 2 % TWO_64 + (if left then 1 else 0) < TWO_64
  {
    var q, r, b := n / TWO_64, n % TWO_64, if left then 1 else 0;
    var twice := if 2 * r < TWO_64 then 2 * r else 2 * r - TWO_64;
    var q' := if 2 * r < TWO_64 then 2 * q else 2 * q + 1;
    assert 2 * n + b == TWO_64 * q' + (twice + b) && 0 <= twice + b < TWO_64;
    Remainder(q', twice + b);
    assert 2 * r == TWO_64 * (if 2 * r < TWO_64 then 0 else 1) + twice;
    Remainder(if 2 * r < TWO_64 then 0 else 1, twice);
  }

  lemma Remainder(q: nat, r: nat)
    requires r < TWO_64
    ensures (TWO_64 * q + r) % TWO_64 == r
  {
  }

  lemma {:induction false} ReadShapeNumber(lefts: seq<bool>)
    ensures ReadShape(ShapeNumber(lefts)) == lefts
    ensures Pow2(|lefts|) <= ShapeNumber(lefts) < 2 * Pow2(|lefts|)
  {
    if lefts != [] {
      ReadShapeNumber(lefts[1..]);
      assert lefts == [lefts[0]] + lefts[1..];
    }
  }

  lemma {:induction false} ReadShapeIsShort(n: nat, k: nat)
    requires n < Pow2(k) && k > 0
    ensures |ReadShape(n)| < k
  {
    if n > 1 {
      ReadShapeIsShort(n / 2, k - 1);
    }
  }

  lemma ShortShapeFits(lefts: seq<bool>)
    requires |lefts| <= 63
    ensures ShapeNumber(lefts) < TWO_64
  {
    ReadShapeNumber(lefts);
    Pow2Monotone(|lefts|, 63);
    Pow2Is64();
    assert 2 * Pow2(63) == Pow2(64);
  }

  lemma WordHoldsShortShape(n: nat)
    requires n < TWO_64
    ensures |ReadShape(n)| < 64
  {
    Pow2Is64();
    ReadShapeIsShort(n, 64);
  }

  /** The shape number decodes back to the left/right sequence if and only if there are at most 63 links. */
  lemma ShapeRoundTripIff(lefts: seq<bool>)
    ensures ReadShape(ShapeNumber(lefts) % TWO_64) == lefts <==> |lefts| <= 63
  {
    hide ReadShape, ShapeNumber;
    var n := ShapeNumber(lefts);
    if |lefts| <= 63 {
      ShortShapeFits(lefts);
      ReadShapeNumber(lefts);
      assert n % TWO_64 == n;
    } else {
      WordHoldsShortShape(n % TWO_64);
    }
  }

  /** A chain of 64 left links is accepted, and its number is that of another shape. */
  lemma SixtyFourLinksAreLost()
    ensures var lefts := seq(64, _ => true); ReadShape(ShapeNumber(lefts) % TWO_64) != lefts
  {
    ShapeRoundTripIff(seq(64, _ => true));
  }

  /** Up to 63 links, different shapes have different numbers. */
  lemma ShapeInjective(a: seq<bool>, b: seq<bool>)
    requires |a| <= 63 && |b| <= 63 && ShapeNumber(a) % TWO_64 == ShapeNumber(b) % TWO_64
    ensures a == b
  {
    ShapeRoundTripIff(a);
    ShapeRoundTripIff(b);
  }
}
