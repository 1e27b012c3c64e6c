/**
 * Calendar hash chains (src/ksi/hashchain.c:306-360, 1330-1439): when two of them are compatible, and what a
 * published root commits to.
 */
module CalendarChain {
  import opened Common
  import opened HashChain
  import opened CalendarTime

  datatype Calendar = Calendar(publicationTime: Option<nat>, aggregationTime: Option<nat>,
                               inputHash: Option<Imprint>, links: seq<Link>)

  function ShapeOfLinks(links: seq<Link>): Shape { seq(|links|, i requires 0 <= i < |links| => links[i].isLeft) }

  /** KSI_DataHash_equals: NULL equals nothing. */
  predicate HashEquals(x: Option<Imprint>, y: Option<Imprint>) { x.Some? && y.Some? && x == y }

  /** The imprints of the right links, in order. */
  function RightImprints(links: seq<Link>): seq<Option<Imprint>> {
    if links == [] then []
    else
      var last := links[|links| - 1];
      RightImprints(links[..|links| - 1]) + if last.isLeft then [] else [last.imprint]
  }

  predicate AllEqual(xs: seq<Option<Imprint>>, ys: seq<Option<Imprint>>) {
    |xs| == |ys| && forall i :: 0 <= i < |xs| ==> HashEquals(xs[i], ys[i])
  }

  /** The links against which the right links of another chain are really compared: a trailing left link is one more. */
  function Candidates(links: seq<Link>): seq<Option<Imprint>> {
    RightImprints(links) + if links != [] && links[|links| - 1].isLeft then [links[|links| - 1].imprint] else []
  }

  /** What the two-pointer loop accepts. */
  predicate LoopAccepts(a: seq<Link>, b: seq<Link>) {
    var rights := RightImprints(a);
    AllEqual(rights, RightImprints(b)) || AllEqual(rights, Candidates(b))
  }

  lemma RightsStep(links: seq<Link>, i: nat)
    requires i < |links|
    ensures RightImprints(links[..i + 1]) ==
            RightImprints(links[..i]) + if links[i].isLeft then [] else [links[i].imprint]
  {
    assert links[..i + 1][..i] == links[..i];
  }

  lemma {:induction false} RightsPrefix(links: seq<Link>, i: nat)
    requires i <= |links|
    ensures RightImprints(links[..i]) <= RightImprints(links)
    ensures |RightImprints(links[..i])| <= i
  {
    if i == |links| {
      assert links[..i] == links;
      if i > 0 { RightsPrefix(links[..i - 1], i - 1); assert links[..i - 1][..i - 1] == links[..i - 1]; }
    } else {
      var n := |links| - 1;
      RightsPrefix(links[..n], i);
      assert links[..n][..i] == links[..i];
    }
  }

  /** The inner loop: the next right link of b from `start` on; if there is none, the last link looked at. */
  method NextRight(b: seq<Link>, start: nat) returns (link: Option<Link>, bi: nat)
    requires start <= |b|
    ensures start <= bi <= |b|
    ensures link.None? <==> start == |b|
    ensures link.None? ==> bi == |b|
    ensures link.Some? ==> start < bi && link.value == b[bi - 1]
    ensures link.Some? && !link.value.isLeft ==>
              RightImprints(b[..bi]) == RightImprints(b[..start]) + [link.value.imprint]
    ensures link.Some? && link.value.isLeft ==> bi == |b| && RightImprints(b) == RightImprints(b[..start])
  {
    bi, link := start, None;
    while bi < |b|
      invariant start <= bi <= |b|
      invariant link.None? <==> bi == start
      invariant link.Some? ==> link.value == b[bi - 1] && link.value.isLeft
      invariant RightImprints(b[..bi]) == RightImprints(b[..start])
    {
      link := Some(b[bi]);
      RightsStep(b, bi);
      bi := bi + 1;
      if !link.value.isLeft {
        return;
      }
    }
    assert b[..|b|] == b;
  }

  /** The right links of a[..ai] have been matched, and b[..bi] was used up for that. */
  ghost predicate Matched(a: seq<Link>, ai: nat, b: seq<Link>, bi: nat) {
    && ai <= |a| && bi <= |b|
    && var k := |RightImprints(a[..ai])|;
       && k <= |Candidates(b)| && k <= |RightImprints(a)|
       && (forall i :: 0 <= i < k ==> HashEquals(RightImprints(a)[i], Candidates(b)[i]))
       && ((k <= |RightImprints(b)| && RightImprints(b[..bi]) == RightImprints(b)[..k])
           || (k == |RightImprints(b)| + 1 && bi == |b|))
  }

  /** A right link of a is compared with the next candidate. */
  lemma MatchStep(a: seq<Link>, ai: nat, b: seq<Link>, bi: nat, link: Link, next: nat)
    requires Matched(a, ai, b, bi) && ai < |a| && !a[ai].isLeft
    requires bi < next <= |b| && link == b[next - 1]
    requires !link.isLeft ==> RightImprints(b[..next]) == RightImprints(b[..bi]) + [link.imprint]
    requires link.isLeft ==> next == |b| && RightImprints(b) == RightImprints(b[..bi])
    ensures HashEquals(a[ai].imprint, link.imprint) ==> Matched(a, ai + 1, b, next)
    ensures !HashEquals(a[ai].imprint, link.imprint) ==> !LoopAccepts(a, b)
  {
    hide RightImprints, HashEquals;
    var k := |RightImprints(a[..ai])|;
    RightsStep(a, ai);
    RightsPrefix(a, ai + 1);
    RightsPrefix(b, next);
    RightsPrefix(b, bi);
    assert RightImprints(a)[k] == a[ai].imprint;
    assert Candidates(b)[k] == link.imprint;
  }

  /** There is no candidate left for a right link of a. */
  lemma MatchFails(a: seq<Link>, ai: nat, b: seq<Link>)
    requires Matched(a, ai, b, |b|) && ai < |a| && !a[ai].isLeft
    requires b == [] || !b[|b| - 1].isLeft || |RightImprints(a[..ai])| > |RightImprints(b)|
    ensures !LoopAccepts(a, b)
  {
    RightsStep(a, ai);
    RightsPrefix(a, ai + 1);
    assert b[..|b|] == b;
  }

  /** The loop has looked at all of b without leaving a trailing left link for later. */
  ghost predicate Exhausted(a: seq<Link>, ai: nat, b: seq<Link>, bi: nat)
    requires ai <= |a|
  {
    bi == |b| ==> b == [] || !b[|b| - 1].isLeft || |RightImprints(a[..ai])| > |RightImprints(b)|
  }

  /** ksi_CalendarHashChain_verifyRightLinkCompatibility, and exactly what it accepts. */
  method VerifyRightLinks(a: seq<Link>, b: seq<Link>) returns (res: int)
    ensures res == if LoopAccepts(a, b) then KSI_OK else KSI_INCOMPATIBLE_HASH_CHAIN
  {
    var bi := 0;
    hide RightImprints, LoopAccepts;
    NothingMatched(a, b);
    for ai := 0 to |a|
      invariant Matched(a, ai, b, bi) && Exhausted(a, ai, b, bi)
    {
      RightsStep(a, ai);
      if a[ai].isLeft {
        continue;
      }
      var link, next := NextRight(b, bi);
      if link.None? {
        MatchFails(a, ai, b);
        return KSI_INCOMPATIBLE_HASH_CHAIN;
      }
      MatchStep(a, ai, b, bi, link.value, next);
      if !HashEquals(a[ai].imprint, link.value.imprint) {
        return KSI_INCOMPATIBLE_HASH_CHAIN;
      }
      bi := next;
    }
    MatchEnds(a, b, bi);
    ghost var from := bi;
    while bi < |b|
      invariant from <= bi <= |b|
      invariant RightImprints(b[..bi]) == RightImprints(b[..from])
    {
      RightsStep(b, bi);
      RightsPrefix(b, bi + 1);
      if !b[bi].isLeft {
        return KSI_INCOMPATIBLE_HASH_CHAIN;
      }
      bi := bi + 1;
    }
    assert b[..|b|] == b;
    return KSI_OK;
  }

  lemma NothingMatched(a: seq<Link>, b: seq<Link>)
    ensures Matched(a, 0, b, 0) && Exhausted(a, 0, b, 0)
  {
  }

  /** All right links of a are matched: the chains are accepted exactly if b has no further right link. */
  lemma MatchEnds(a: seq<Link>, b: seq<Link>, bi: nat)
    requires Matched(a, |a|, b, bi)
    ensures LoopAccepts(a, b) <==> bi == |b| || RightImprints(b[..bi]) == RightImprints(b)
  {
    assert a[..|a|] == a && b[..|b|] == b;
  }

  /** extractAggregationTime: the publication time is the default. */
  function AggregationTime(c: Calendar): Result<nat> {
    if c.aggregationTime.Some? then Ok(c.aggregationTime.value)
    else if c.publicationTime.Some? then Ok(c.publicationTime.value)
    else Err(KSI_INVALID_STATE)
  }

  /** Apart from the times: both have the same input hash, and the loop over the right links accepts. */
  predicate Agree(a: Calendar, b: Calendar) {
    a.inputHash.Some? && a.inputHash == b.inputHash && LoopAccepts(a.links, b.links)
  }

  /** KSI_CalendarHashChain_verifyCompatibilityTo. */
  method VerifyCompatibilityTo(a: Calendar, b: Calendar) returns (res: int)
    ensures res == KSI_OK <==>
            && AggregationTime(a).Ok? && AggregationTime(b) == AggregationTime(a)
            && Agree(a, b)
    ensures res == KSI_OK || res == KSI_INVALID_STATE || res == KSI_INCOMPATIBLE_HASH_CHAIN
    ensures res == KSI_INVALID_STATE <==>
            (a.aggregationTime.None? && a.publicationTime.None?) || (b.aggregationTime.None? && b.publicationTime.None?)
    ensures a.aggregationTime.Some? && b.aggregationTime.Some? ==>
              (res == KSI_OK <==> a.aggregationTime == b.aggregationTime && Agree(a, b))
    ensures a.aggregationTime.Some? && b.aggregationTime.None? ==>
              (res == KSI_OK <==> a.aggregationTime == b.publicationTime && Agree(a, b))
    ensures a.aggregationTime.None? && b.aggregationTime.Some? ==>
              (res == KSI_OK <==> a.publicationTime == b.aggregationTime && Agree(a, b))
    ensures a.aggregationTime.None? && b.aggregationTime.None? ==>
              (res == KSI_OK <==> a.publicationTime.Some? && a.publicationTime == b.publicationTime && Agree(a, b))
  {
    var ta, tb := AggregationTime(a), AggregationTime(b);
    if ta.Err? {
      return ta.code;
    }
    if tb.Err? {
      return tb.code;
    }
    if ta.value != tb.value || !HashEquals(a.inputHash, b.inputHash) {
      return KSI_INCOMPATIBLE_HASH_CHAIN;
    }
    res := VerifyRightLinks(a.links, b.links);
  }

  /** Two hashes are equal if and only if both exist and are the same bytes. */
  lemma EqualHashesExist(x: Option<Imprint>, y: Option<Imprint>)
    ensures HashEquals(x, y) <==> exists z: Imprint :: x == Some(z) && y == Some(z)
  {
    if HashEquals(x, y) {
      var z: Imprint := x.value;
      assert x == Some(z) && y == Some(z);
    }
  }

  /** Every right link has a hash. */
  predicate RightsHaveHashes(links: seq<Link>) {
    forall i :: 0 <= i < |links| && !links[i].isLeft ==> links[i].imprint.Some?
  }

  lemma {:induction false} RightImprintsExist(links: seq<Link>)
    requires RightsHaveHashes(links)
    ensures forall i :: 0 <= i < |RightImprints(links)| ==> RightImprints(links)[i].Some?
  {
    if links != [] {
      RightImprintsExist(links[..|links| - 1]);
    }
  }

  /** A chain is compatible with itself, and if it has an aggregation time also under any other publication time. */
  method VerifyExtension(c: Calendar, publicationTime: Option<nat>) returns (res: int)
    requires c.inputHash.Some? && c.aggregationTime.Some? && RightsHaveHashes(c.links)
    ensures res == KSI_OK
  {
    RightImprintsExist(c.links);
    res := VerifyCompatibilityTo(c, c.(publicationTime := publicationTime));
  }

  /** The stored time of a chain is the one its shape encodes. */
  predicate TimeMatchesShape(c: Calendar) {
    && c.publicationTime.Some? && AggregationTime(c).Ok?
    && TimeOf(ShapeOfLinks(c.links), c.publicationTime.value) == Some(AggregationTime(c).value)
  }

  lemma {:induction false} RightImprintCount(links: seq<Link>, m: nat)
    requires m <= |links|
    ensures |RightImprints(links[..m])| == Rights(ShapeOfLinks(links), m)
  {
    if m > 0 {
      RightImprintCount(links, m - 1);
      RightsStep(links, m - 1);
    } else {
      assert links[..0] == [];
    }
  }

  /** Chains for the same time have the same number of right links, even if they lead to different publications. */
  lemma SameTimeSameRights(a: Calendar, b: Calendar)
    requires TimeMatchesShape(a) && TimeMatchesShape(b) && AggregationTime(a) == AggregationTime(b)
    ensures |RightImprints(a.links)| == |RightImprints(b.links)|
  {
    RightsAreOneBits(ShapeOfLinks(a.links), |a.links|, a.publicationTime.value);
    RightsAreOneBits(ShapeOfLinks(b.links), |b.links|, b.publicationTime.value);
    RightImprintCount(a.links, |a.links|);
    RightImprintCount(b.links, |b.links|);
    assert a.links[..|a.links|] == a.links && b.links[..|b.links|] == b.links;
  }

  /**
   * For chains whose stored time is the one their shape encodes, the two-pointer loop accepts exactly the pairs of
   * chains with the same right imprints.
   */
  lemma CompatibilityIsExact(a: Calendar, b: Calendar)
    requires TimeMatchesShape(a) && TimeMatchesShape(b) && AggregationTime(a) == AggregationTime(b)
    ensures LoopAccepts(a.links, b.links) <==> AllEqual(RightImprints(a.links), RightImprints(b.links))
  {
    SameTimeSameRights(a, b);
  }

  /**
   * Without that premise, a right link is accepted in exchange for a trailing left link, and not the other way round.
   */
  lemma LooseWithoutTheShape(x: Imprint)
    ensures var right, left := Link(false, Some(x), None, None, 0), Link(true, Some(x), None, None, 0);
            && LoopAccepts([right], [left])
            && !LoopAccepts([left], [right])
            && !AllEqual(RightImprints([right]), RightImprints([left]))
  {
    var right, left := Link(false, Some(x), None, None, 0), Link(true, Some(x), None, None, 0);
    assert [right][..0] == [] && [left][..0] == [];
    assert RightImprints([right]) == [Some(x)] && RightImprints([left]) == [];
    assert Candidates([left]) == [Some(x)] && Candidates([right]) == [Some(x)];
  }

  /** For any two chains: the loop accepts more than it should exactly in the case of the trailing left link. */
  lemma AcceptsTooMuchIff(a: seq<Link>, b: seq<Link>)
    ensures LoopAccepts(a, b) && !AllEqual(RightImprints(a), RightImprints(b)) <==>
            && b != [] && b[|b| - 1].isLeft
            && AllEqual(RightImprints(a), RightImprints(b) + [b[|b| - 1].imprint])
  {
    assert RightImprints(b) + [] == RightImprints(b);
  }

  // ----- what a root commits to -----

  predicate ImprintOnly(link: Link) { link.imprint.Some? && link.legacyId.None? && link.metaData.None? }

  predicate ImprintLinks(links: seq<Link>) { forall i :: 0 <= i < |links| ==> ImprintOnly(links[i]) }

  /** The message that is hashed at a link of a calendar chain. */
  function Message(hash: Imprint, link: Link): seq<Byte>
    requires link.imprint.Some?
  {
    (if link.isLeft then hash + link.imprint.value else link.imprint.value + hash) + [0xff]
  }

  /** Both siblings can be read back from the message. */
  lemma MessageDetermines(x: Imprint, y: Imprint, l: Link, m: Link)
    requires l.imprint.Some? && m.imprint.Some? && l.isLeft == m.isLeft && Message(x, l) == Message(y, m)
    ensures x == y && l.imprint == m.imprint
  {
    var s, t := l.imprint.value, m.imprint.value;
    if l.isLeft {
      assert Message(x, l) == x + (s + [0xff]) && Message(y, m) == y + (t + [0xff]);
      ImprintsSelfDelimiting(x, y, s + [0xff], t + [0xff]);
      ImprintsSelfDelimiting(s, t, [0xff], [0xff]);
    } else {
      assert Message(x, l) == s + (x + [0xff]) && Message(y, m) == t + (y + [0xff]);
      ImprintsSelfDelimiting(s, t, x + [0xff], y + [0xff]);
      ImprintsSelfDelimiting(x, y, [0xff], [0xff]);
    }
  }

  predicate SameImprints(a: seq<Link>, b: seq<Link>) {
    |a| == |b| && forall i :: 0 <= i < |a| ==> a[i].imprint == b[i].imprint
  }

  /** The state of a calendar aggregation that has reached `hash`. */
  function At(hash: Imprint): Progress { Progress(0xff, hash[0], hash) }

  lemma StepHashesMessage(c: Crypto, hash: Imprint, link: Link)
    requires Sound(c) && ImprintOnly(link) && Step(c, At(hash), link, true).Ok?
    ensures var next := Step(c, At(hash), link, true).value;
            && next == At(next.hash) && next.algorithm in c.supported
            && next.hash == Hash(c, next.algorithm, Message(hash, link))
  {
  }

  /**
   * Binding: two calendar chains of the same shape that end in the same hash started from the same hash and have the
   * same sibling hashes, or else `k` is a collision of a supported hash function.
   */
  lemma {:induction false} SameRootSameChain(c: Crypto, x: Imprint, y: Imprint, a: seq<Link>, b: seq<Link>)
    returns (k: Collision)
    requires Sound(c) && ImprintLinks(a) && ImprintLinks(b) && ShapeOfLinks(a) == ShapeOfLinks(b)
    requires Steps(c, At(x), a, true).Ok? && Steps(c, At(x), a, true) == Steps(c, At(y), b, true)
    ensures (x == y && SameImprints(a, b)) || Collides(c, k)
    decreases |a|
  {
    k := Collision(0, [], []);
    assert |a| == |ShapeOfLinks(a)| == |ShapeOfLinks(b)| == |b|;
    if a != [] {
      assert a[0].isLeft == ShapeOfLinks(a)[0] == ShapeOfLinks(b)[0] == b[0].isLeft;
      StepHashesMessage(c, x, a[0]);
      StepHashesMessage(c, y, b[0]);
      var p, q := Step(c, At(x), a[0], true).value, Step(c, At(y), b[0], true).value;
      assert ShapeOfLinks(a[1..]) == ShapeOfLinks(a)[1..] == ShapeOfLinks(b)[1..] == ShapeOfLinks(b[1..]);
      k := SameRootSameChain(c, p.hash, q.hash, a[1..], b[1..]);
      hide Step, Steps, Sound;
      if !Collides(c, k) {
        if Message(x, a[0]) == Message(y, b[0]) {
          MessageDetermines(x, y, a[0], b[0]);
          SameTail(a, b);
        } else {
          k := Collision(p.algorithm, Message(x, a[0]), Message(y, b[0]));
        }
      }
    }
  }

  lemma SameTail(a: seq<Link>, b: seq<Link>)
    requires a != [] && b != [] && a[0].imprint == b[0].imprint && SameImprints(a[1..], b[1..])
    ensures SameImprints(a, b)
  {
    assert forall i :: 1 <= i < |a| ==> a[i] == a[1..][i - 1];
    assert forall i :: 1 <= i < |b| ==> b[i] == b[1..][i - 1];
  }

  /** A calendar chain of imprints that decodes to time t under publication time r and aggregates to `root`. */
  ghost predicate Proves(c: Crypto, links: seq<Link>, input: Imprint, t: nat, r: nat, root: Imprint)
    requires Sound(c)
  {
    && ImprintLinks(links)
    && TimeOf(ShapeOfLinks(links), r) == Some(t)
    && AggregateSpec(c, links, input, 0xff, -1, true) == Ok(Aggregate(0xff, Some(root)))
  }

  /**
   * A publication (r, root) commits to at most one input hash for each time: two chains that both lead from time t to
   * it are the same chain for the same input, unless a hash collision is found.
   */
  lemma PublicationBindsTime(c: Crypto, a: seq<Link>, b: seq<Link>, x: Imprint, y: Imprint, t: nat, r: nat,
                             root: Imprint)
    returns (k: Collision)
    requires Sound(c) && Proves(c, a, x, t, r, root) && Proves(c, b, y, t, r, root)
    ensures (x == y && SameImprints(a, b)) || Collides(c, k)
  {
    TimesAreUnique(ShapeOfLinks(a), ShapeOfLinks(b), r);
    StateFollowsHash(c, x, a);
    StateFollowsHash(c, y, b);
    k := SameRootSameChain(c, x, y, a, b);
  }

  lemma {:induction false} StateFollowsHash(c: Crypto, x: Imprint, links: seq<Link>)
    requires Sound(c) && ImprintLinks(links) && Steps(c, At(x), links, true).Ok?
    ensures Steps(c, At(x), links, true).value == At(Steps(c, At(x), links, true).value.hash)
    decreases |links|
  {
    if links != [] {
      StepHashesMessage(c, x, links[0]);
      var p := Step(c, At(x), links[0], true).value;
      hide Step, Sound;
      StateFollowsHash(c, p.hash, links[1..]);
    }
  }

  // ----- the root of a calendar chain -----

  /** Hashing message after message, each under the algorithm of its right hash; None if one is not supported. */
  function CalendarRoot(c: Crypto, hash: Imprint, links: seq<Link>): Option<Imprint>
    requires Sound(c) && ImprintLinks(links)
    decreases |links|
  {
    if links == [] then Some(hash)
    else
      var algorithm := if links[0].isLeft then links[0].imprint.value[0] else hash[0];
      if algorithm !in c.supported then None
      else CalendarRoot(c, Hash(c, algorithm, Message(hash, links[0])), links[1..])
  }

  lemma {:induction false} StepsGiveCalendarRoot(c: Crypto, hash: Imprint, links: seq<Link>)
    requires Sound(c) && ImprintLinks(links)
    ensures var r := Steps(c, At(hash), links, true);
            && (r.Ok? <==> CalendarRoot(c, hash, links).Some?)
            && (r.Ok? ==> r.value == At(CalendarRoot(c, hash, links).value))
    decreases |links|
  {
    if links != [] {
      var link := links[0];
      hide Hash, Message;
      CalendarStep(c, hash, link);
      hide Step;
      if Step(c, At(hash), link, true).Ok? {
        StepsGiveCalendarRoot(c, Step(c, At(hash), link, true).value.hash, links[1..]);
      }
    }
  }

  lemma CalendarStep(c: Crypto, hash: Imprint, link: Link)
    requires Sound(c) && ImprintOnly(link)
    ensures var algorithm := if link.isLeft then link.imprint.value[0] else hash[0];
            && (Step(c, At(hash), link, true).Ok? <==> algorithm in c.supported)
            && (algorithm in c.supported ==>
                  Step(c, At(hash), link, true) == Ok(At(Hash(c, algorithm, Message(hash, link)))))
  {
    if Step(c, At(hash), link, true).Ok? {
      StepHashesMessage(c, hash, link);
    }
  }

  /** KSI_HashChain_aggregateCalendar on links with imprints: every level byte is 0xff. */
  method AggregateCalendar(c: Crypto, links: seq<Link>, input: Imprint) returns (r: Result<Aggregate>)
    requires Sound(c) && ImprintLinks(links)
    ensures r.Ok? <==> CalendarRoot(c, input, links).Some?
    ensures r.Ok? && links != [] ==> r.value.output == CalendarRoot(c, input, links)
  {
    StepsGiveCalendarRoot(c, input, links);
    hide Steps, CalendarRoot;
    r := AggregateChain(c, links, input, 0xff, -1, true);
  }
}
