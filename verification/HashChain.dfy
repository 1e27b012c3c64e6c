/**
 * Imprints (src/ksi/hash.c) and the aggregation of hash chains (src/ksi/hashchain.c:161-301). Hashing is a
 * parameter: any function from an algorithm and bytes to a digest of the length the algorithm table gives.
 */
module HashChain {
  import opened Common

  /** KSI_hashAlgorithmInfo: the digest length in bytes, 0 for ids that are not valid. */
  function HashLength(algorithm: int): nat {
    match algorithm
    case 0x00 => 20
    case 0x01 => 32
    case 0x02 => 20
    case 0x04 => 48
    case 0x05 => 64
    case 0x07 => 28
    case 0x08 => 32
    case 0x09 => 48
    case 0x0a => 64
    case 0x0b => 32
    case _ => 0
  }

  predicate IsImprint(s: seq<Byte>) { s != [] && HashLength(s[0]) > 0 && |s| == 1 + HashLength(s[0]) }

  /** The bytes of a KSI_DataHash. */
  type Imprint = s: seq<Byte> | IsImprint(s)
    witness [0, 0,0,0,0,0,0,0,0,0,0, 0,0,0,0,0,0,0,0,0,0]

  /** KSI_DataHash_fromDigest: a data hash exists exactly for the digests that fit their algorithm. */
  function FromDigest(algorithm: int, digest: seq<Byte>): (r: Result<Imprint>)
    ensures r.Ok? <==> HashLength(algorithm) > 0 && |digest| == HashLength(algorithm)
    ensures r.Ok? ==> r.value[0] == algorithm && r.value[1..] == digest
    ensures digest != [] && HashLength(algorithm) == 0 <==> r == Err(KSI_UNAVAILABLE_HASH_ALGORITHM)
    ensures digest == [] <==> r == Err(KSI_INVALID_ARGUMENT)
  {
    if digest == [] then Err(KSI_INVALID_ARGUMENT)
    else if HashLength(algorithm) == 0 then Err(KSI_UNAVAILABLE_HASH_ALGORITHM)
    else if HashLength(algorithm) != |digest| then Err(KSI_INVALID_FORMAT)
    else
      var imprint: seq<Byte> := [algorithm] + digest;
      Ok(imprint)
  }

  /** Imprints are self-delimiting: no imprint is a proper prefix of another. */
  lemma ImprintsSelfDelimiting(x: Imprint, y: Imprint, s: seq<Byte>, t: seq<Byte>)
    requires x + s == y + t
    ensures x == y && s == t
  {
    assert x[0] == (x + s)[0] == (y + t)[0] == y[0];
    assert x == (x + s)[..|x|] == (y + t)[..|y|] == y;
    assert s == (x + s)[|x|..] == (y + t)[|y|..] == t;
  }

  /** The cryptographic library: its digests and the algorithms it supports. */
  datatype Crypto = Crypto(digest: (int, seq<Byte>) -> seq<Byte>, supported: set<int>)

  ghost predicate Sound(c: Crypto) {
    && (forall a :: a in c.supported ==> HashLength(a) > 0)
    && (forall a, m :: a in c.supported ==> |c.digest(a, m)| == HashLength(a))
  }

  /** KSI_DataHasher_close. */
  function Hash(c: Crypto, algorithm: int, message: seq<Byte>): (r: Imprint)
    requires Sound(c) && algorithm in c.supported
    ensures r[0] == algorithm && r[1..] == c.digest(algorithm, message)
  {
    var d := c.digest(algorithm, message);
    var imprint: seq<Byte> := [algorithm] + d;
    imprint
  }

  /** KSI_HashChainLink: exactly one of the three siblings should be set. */
  datatype Link = Link(isLeft: bool, imprint: Option<Imprint>, legacyId: Option<seq<Byte>>,
                       metaData: Option<seq<Byte>>, levelCorrection: nat)

  /** dataHasher_addLinkImprint: the bytes of the sibling. */
  function Sibling(link: Link): Option<seq<Byte>> {
    match (link.imprint, link.legacyId, link.metaData)
    case (Some(i), None, None) => Some(i)
    case (None, Some(id), None) => Some(id)
    case (None, None, Some(data)) => Some(data)
    case _ => None
  }

  /** Two's complement truncation to a C int. */
  function ToInt32(n: int): (r: int)
    ensures -0x8000_0000 <= r < 0x8000_0000 && (r - n) % 0x1_0000_0000 == 0
  {
    var m := n % 0x1_0000_0000;
    if m < 0x8000_0000 then m else m - 0x1_0000_0000
  }

  /** The loop variables of aggregateChain: level, algo_id and the hash so far. */
  datatype Progress = Progress(level: int, algorithm: int, hash: Imprint)

  /** The level after a link: `level += (int)levelCorrection + 1`. The range test before it has no effect. */
  function NextLevel(level: int, link: Link): int { ToInt32(level + ToInt32(link.levelCorrection) + 1) }

  /** One turn of the loop. */
  function Step(c: Crypto, p: Progress, link: Link, calendar: bool): Result<Progress>
    requires Sound(c)
  {
    if calendar && link.isLeft && link.imprint.None? then Err(KSI_INVALID_ARGUMENT)
    else
      var algorithm := if calendar && link.isLeft then link.imprint.value[0] else p.algorithm;
      var level := if calendar then p.level else NextLevel(p.level, link);
      if algorithm !in c.supported then Err(KSI_UNAVAILABLE_HASH_ALGORITHM)
      else if Sibling(link).None? || level > 0xff then Err(KSI_INVALID_FORMAT)
      else
        var sibling := Sibling(link).value;
        var message := (if link.isLeft then p.hash + sibling else sibling + p.hash) + [level % 256];
        Ok(Progress(level, algorithm, Hash(c, algorithm, message)))
  }

  function Steps(c: Crypto, p: Progress, links: seq<Link>, calendar: bool): Result<Progress>
    requires Sound(c)
    decreases |links|
  {
    if links == [] then Ok(p)
    else
      var q := Step(c, p, links[0], calendar);
      if q.Err? then q else Steps(c, q.value, links[1..], calendar)
  }

  datatype Aggregate = Aggregate(level: int, output: Option<Imprint>)

  /** aggregateChain as a whole: an empty chain has no output hash. */
  function AggregateSpec(c: Crypto, links: seq<Link>, input: Imprint, level: int, algorithm: int, calendar: bool)
    : Result<Aggregate>
    requires Sound(c)
  {
    var p := Steps(c, Progress(level, if calendar then input[0] else algorithm, input), links, calendar);
    if p.Err? then Err(p.code)
    else Ok(Aggregate(p.value.level, if links == [] then None else Some(p.value.hash)))
  }

  lemma {:induction false} StepsConcat(c: Crypto, p: Progress, a: seq<Link>, b: seq<Link>, calendar: bool)
    requires Sound(c)
    ensures var q := Steps(c, p, a, calendar);
            Steps(c, p, a + b, calendar) == if q.Err? then q else Steps(c, q.value, b, calendar)
    decreases |a|
  {
    if a == [] {
      assert a + b == b;
    } else {
      assert (a + b)[1..] == a[1..] + b;
      var q := Step(c, p, a[0], calendar);
      if q.Ok? {
        hide Step, Sound;
        StepsConcat(c, q.value, a[1..], b, calendar);
      }
    }
  }

  /** One turn of the loop of aggregateChain, with the hasher that is opened, replaced or reset on the way. */
  method Turn(c: Crypto, p: Progress, link: Link, calendar: bool, hasher: Option<int>)
    returns (r: Result<Progress>, hasher': Option<int>)
    requires Sound(c) && (hasher.Some? ==> hasher.value == p.algorithm && p.algorithm in c.supported)
    ensures r == Step(c, p, link, calendar)
    ensures r.Ok? ==> hasher' == Some(r.value.algorithm) && r.value.algorithm in c.supported
  {
    var level, algorithm := p.level, p.algorithm;
    hasher' := hasher;
    if !calendar {
      level := ToInt32(level + ToInt32(link.levelCorrection) + 1);
    } else if link.isLeft {
      if link.imprint.None? {
        return Err(KSI_INVALID_ARGUMENT), hasher';
      }
      if link.imprint.value[0] != algorithm {
        algorithm := link.imprint.value[0];
        if algorithm !in c.supported {
          return Err(KSI_UNAVAILABLE_HASH_ALGORITHM), None;
        }
        hasher' := Some(algorithm);
      }
    }
    if hasher'.None? {
      if algorithm !in c.supported {
        return Err(KSI_UNAVAILABLE_HASH_ALGORITHM), None;
      }
      hasher' := Some(algorithm);
    }
    var sibling := Sibling(link);
    if sibling.None? || level > 0xff {
      return Err(KSI_INVALID_FORMAT), hasher';
    }
    var data := if link.isLeft then p.hash + sibling.value else sibling.value + p.hash;
    data := data + [level % 256];
    return Ok(Progress(level, algorithm, Hash(c, hasher'.value, data))), hasher';
  }

  /** aggregateChain (src/ksi/hashchain.c:161-301). */
  method AggregateChain(c: Crypto, links: seq<Link>, input: Imprint, startLevel: int, aggrAlgorithm: int,
                        calendar: bool)
    returns (r: Result<Aggregate>)
    requires Sound(c)
    ensures r == AggregateSpec(c, links, input, startLevel, aggrAlgorithm, calendar)
  {
    var p := Progress(startLevel, if calendar then input[0] else aggrAlgorithm, input);
    ghost var start := p;
    var hasher: Option<int> := None;       // the algorithm of the open hasher
    for i := 0 to |links|
      invariant hasher.Some? ==> hasher.value == p.algorithm && p.algorithm in c.supported
      invariant Steps(c, start, links, calendar) == Steps(c, p, links[i..], calendar)
    {
      assert links[i..][1..] == links[i + 1..];
      var q;
      q, hasher := Turn(c, p, links[i], calendar, hasher);
      if q.Err? {
        return Err(q.code);
      }
      p := q.value;
    }
    return Ok(Aggregate(p.level, if |links| == 0 then None else Some(p.hash)));
  }

  // ----- laws of the fold -----

  /** Aggregating a concatenation is aggregating the second part from where the first part ended. */
  lemma AggregateConcat(c: Crypto, a: seq<Link>, b: seq<Link>, input: Imprint, level: int, algorithm: int,
                        calendar: bool)
    requires Sound(c)
    ensures var first := AggregateSpec(c, a, input, level, algorithm, calendar);
            var whole := AggregateSpec(c, a + b, input, level, algorithm, calendar);
            if first.Err? then whole == first
            else
              var from := if first.value.output.None? then input else first.value.output.value;
              var second := AggregateSpec(c, b, from, first.value.level, algorithm, calendar);
              if second.Err? then whole == second
              else
                var output := if b == [] then first.value.output else second.value.output;
                whole == Ok(Aggregate(second.value.level, output))
  {
    var p := Progress(level, if calendar then input[0] else algorithm, input);
    StepsConcat(c, p, a, b, calendar);
    AlgorithmFollowsHash(c, p, a, calendar);
  }

  /** In a calendar chain the current algorithm is always that of the current hash; elsewhere it never changes. */
  lemma {:induction false} AlgorithmFollowsHash(c: Crypto, p: Progress, links: seq<Link>, calendar: bool)
    requires Sound(c) && (calendar ==> p.hash[0] == p.algorithm)
    ensures var q := Steps(c, p, links, calendar);
            q.Ok? ==> (if calendar then q.value.hash[0] == q.value.algorithm else q.value.algorithm == p.algorithm)
    decreases |links|
  {
    if links != [] {
      var q := Step(c, p, links[0], calendar);
      if q.Ok? {
        AlgorithmFollowsHash(c, q.value, links[1..], calendar);
      }
    }
  }

  /** The sum of correction + 1 over the links. */
  function LevelSum(links: seq<Link>): nat
    decreases |links|
  {
    if links == [] then 0 else links[0].levelCorrection + 1 + LevelSum(links[1..])
  }

  predicate SmallCorrections(links: seq<Link>) { forall i :: 0 <= i < |links| ==> links[i].levelCorrection <= 0xff }

  lemma NextLevelExact(level: int, link: Link)
    requires 0 <= level <= 0xff && link.levelCorrection <= 0xff
    ensures NextLevel(level, link) == level + link.levelCorrection + 1
  {
  }

  lemma {:induction false} LevelAfter(c: Crypto, p: Progress, links: seq<Link>)
    requires Sound(c) && 0 <= p.level <= 0xff && SmallCorrections(links)
    ensures var q := Steps(c, p, links, false); q.Ok? ==> q.value.level == p.level + LevelSum(links) <= 0xff
    decreases |links|
  {
    if links != [] {
      var q := Step(c, p, links[0], false);
      if q.Ok? {
        NextLevelExact(p.level, links[0]);
        hide Step, NextLevel, ToInt32, Sound;
        LevelAfter(c, q.value, links[1..]);
      }
    }
  }

  lemma NextLevelBounds(level: int, link: Link)
    requires -0x8000_0000 <= level <= 0xff && NextLevel(level, link) <= 0xff
    ensures -0x8000_0000 <= NextLevel(level, link) <= level + link.levelCorrection + 1
    ensures NextLevel(level, link) == level + link.levelCorrection + 1 && 0 <= level ==> link.levelCorrection <= 0xff
  {
  }

  /** A correction that does not fit a byte always leaves the level below the sum. */
  lemma {:induction false} LevelFallsShort(c: Crypto, p: Progress, links: seq<Link>)
    requires Sound(c) && -0x8000_0000 <= p.level <= 0xff
    ensures var q := Steps(c, p, links, false);
            q.Ok? ==> q.value.level <= 0xff && q.value.level <= p.level + LevelSum(links)
    ensures var q := Steps(c, p, links, false);
            q.Ok? && 0 <= p.level && q.value.level == p.level + LevelSum(links) ==> SmallCorrections(links)
    decreases |links|
  {
    if links != [] {
      var q := Step(c, p, links[0], false);
      if q.Ok? {
        NextLevelBounds(p.level, links[0]);
        hide Step, NextLevel, ToInt32, Sound;
        LevelFallsShort(c, q.value, links[1..]);
      }
    }
  }

  /** On success the end level is the start level plus all steps if and only if every correction fits into a byte. */
  lemma EndLevelIff(c: Crypto, links: seq<Link>, input: Imprint, level: int, algorithm: int)
    requires Sound(c) && 0 <= level <= 0xff && AggregateSpec(c, links, input, level, algorithm, false).Ok?
    ensures var end := AggregateSpec(c, links, input, level, algorithm, false).value.level;
            end <= 0xff && (end == level + LevelSum(links) <==> SmallCorrections(links))
  {
    var p := Progress(level, algorithm, input);
    LevelFallsShort(c, p, links);
    if SmallCorrections(links) {
      LevelAfter(c, p, links);
    }
  }

  /** Well-formed links: each has exactly one sibling. */
  predicate SingleSiblings(links: seq<Link>) { forall i :: 0 <= i < |links| ==> Sibling(links[i]).Some? }

  /** With byte-sized corrections, a well-formed chain aggregates exactly if its end level still fits into a byte. */
  lemma {:induction false} SucceedsIffLevelFits(c: Crypto, p: Progress, links: seq<Link>)
    requires Sound(c) && p.algorithm in c.supported && 0 <= p.level <= 0xff
    requires SmallCorrections(links) && SingleSiblings(links)
    ensures Steps(c, p, links, false).Ok? <==> p.level + LevelSum(links) <= 0xff
    decreases |links|
  {
    if links != [] {
      var q := Step(c, p, links[0], false);
      NextLevelExact(p.level, links[0]);
      hide NextLevel, ToInt32;
      if q.Ok? {
        hide Sound;
        SucceedsIffLevelFits(c, q.value, links[1..]);
      }
    }
  }

  /** Does the level leave the byte range somewhere along the links? */
  predicate Overflows(links: seq<Link>, level: int)
    decreases |links|
  {
    links != [] && (NextLevel(level, links[0]) > 0xff || Overflows(links[1..], NextLevel(level, links[0])))
  }

  /** With byte-sized corrections: exactly if the end level is beyond a byte. */
  lemma {:induction false} OverflowsIffSum(links: seq<Link>, level: int)
    requires 0 <= level <= 0xff && SmallCorrections(links)
    ensures Overflows(links, level) <==> level + LevelSum(links) > 0xff
    decreases |links|
  {
    if links != [] {
      NextLevelExact(level, links[0]);
      hide NextLevel;
      if NextLevel(level, links[0]) <= 0xff {
        OverflowsIffSum(links[1..], NextLevel(level, links[0]));
      }
    }
  }

  /** A non-empty chain that aggregates has a supported algorithm and well-formed links. */
  lemma {:induction false} SuccessIsWellFormed(c: Crypto, p: Progress, links: seq<Link>)
    requires Sound(c) && links != [] && Steps(c, p, links, false).Ok?
    ensures p.algorithm in c.supported && SingleSiblings(links)
    decreases |links|
  {
    hide NextLevel, Hash;
    if |links| > 1 {
      SuccessIsWellFormed(c, Step(c, p, links[0], false).value, links[1..]);
      assert forall i :: 1 <= i < |links| ==> links[i] == links[1..][i - 1];
    }
  }

  /** With whatever corrections, a well-formed chain fails exactly if its level overflows. */
  lemma {:induction false} FailsIffOverflows(c: Crypto, p: Progress, links: seq<Link>)
    requires Sound(c) && p.algorithm in c.supported && SingleSiblings(links)
    ensures Steps(c, p, links, false).Err? <==> Overflows(links, p.level)
    decreases |links|
  {
    hide NextLevel, Hash;
    if links != [] {
      var q := Step(c, p, links[0], false);
      if q.Ok? {
        FailsIffOverflows(c, q.value, links[1..]);
      }
    }
  }

  /** A correction of 2^64 - 1 is flagged as out of range, but the chain aggregates and the level stands still. */
  lemma HugeCorrectionIsAccepted(c: Crypto, input: Imprint, sibling: Imprint, algorithm: int)
    requires Sound(c) && algorithm in c.supported
    ensures var link := Link(false, Some(sibling), None, None, 0xffff_ffff_ffff_ffff);
            var r := AggregateSpec(c, [link], input, 3, algorithm, false);
            r.Ok? && r.value.level == 3
  {
    var link := Link(false, Some(sibling), None, None, 0xffff_ffff_ffff_ffff);
    var p := Progress(3, algorithm, input);
    assert NextLevel(3, link) == 3;
    assert [link][1..] == [];
    assert Step(c, p, link, false).Ok?;
    assert Steps(c, p, [link], false) == Step(c, p, link, false);
  }

  // ----- the input hash -----

  /** Two different messages with one digest under one supported algorithm. */
  datatype Collision = Collision(algorithm: int, first: seq<Byte>, second: seq<Byte>)

  predicate Collides(c: Crypto, k: Collision) {
    && k.algorithm in c.supported && k.first != k.second
    && c.digest(k.algorithm, k.first) == c.digest(k.algorithm, k.second)
  }

  lemma SameInFront(x: seq<Byte>, y: seq<Byte>, s: seq<Byte>, t: seq<Byte>)
    requires x + s + t == y + s + t
    ensures x == y
  {
    assert |x + s + t| == |x| + |s| + |t| && |y + s + t| == |y| + |s| + |t|;
    assert x == (x + s + t)[..|x|] && y == (y + s + t)[..|y|];
  }

  lemma SameBehind(x: seq<Byte>, y: seq<Byte>, s: seq<Byte>, t: seq<Byte>)
    requires s + x + t == s + y + t
    ensures x == y
  {
    assert |s + x + t| == |s| + |x| + |t| && |s + y + t| == |s| + |y| + |t|;
    assert x == (s + x + t)[|s|..|s| + |x|] && y == (s + y + t)[|s|..|s| + |y|];
  }

  /** The message that is hashed at a link. */
  function LinkMessage(hash: Imprint, link: Link, level: int): seq<Byte>
    requires Sibling(link).Some?
  {
    (if link.isLeft then hash + Sibling(link).value else Sibling(link).value + hash) + [level % 256]
  }

  lemma LinkMessageDetermines(x: Imprint, y: Imprint, link: Link, level: int)
    requires Sibling(link).Some? && LinkMessage(x, link, level) == LinkMessage(y, link, level)
    ensures x == y
  {
    if link.isLeft {
      SameInFront(x, y, Sibling(link).value, [level % 256]);
    } else {
      SameBehind(x, y, Sibling(link).value, [level % 256]);
    }
  }

  lemma StepHashes(c: Crypto, p: Progress, link: Link)
    requires Sound(c) && Step(c, p, link, false).Ok?
    ensures p.algorithm in c.supported && Sibling(link).Some?
    ensures var level := NextLevel(p.level, link);
            Step(c, p, link, false).value ==
            Progress(level, p.algorithm, Hash(c, p.algorithm, LinkMessage(p.hash, link, level)))
  {
    hide NextLevel, Hash;
  }

  /** A chain that leads from two different hashes to one shows a collision. */
  lemma {:induction false} InputIsBound(c: Crypto, p: Progress, y: Imprint, links: seq<Link>) returns (k: Collision)
    requires Sound(c) && p.hash != y && links != []
    requires Steps(c, p, links, false).Ok? && Steps(c, p, links, false) == Steps(c, p.(hash := y), links, false)
    ensures Collides(c, k)
    decreases |links|
  {
    hide Step, NextLevel, Hash, LinkMessage;
    var link, p' := links[0], p.(hash := y);
    StepHashes(c, p, link);
    StepHashes(c, p', link);
    var q, q' := Step(c, p, link, false).value, Step(c, p', link, false).value;
    if |links| == 1 {
      assert Steps(c, q, [], false) == Ok(q) && Steps(c, q', [], false) == Ok(q');
      assert links[1..] == [];
    }
    if q.hash == q'.hash {
      var m, m' := LinkMessage(p.hash, link, q.level), LinkMessage(y, link, q.level);
      if m == m' {
        LinkMessageDetermines(p.hash, y, link, q.level);
      }
      SameHash(c, p.algorithm, m, m');
      k := Collision(p.algorithm, m, m');
    } else {
      k := InputIsBound(c, q, q'.hash, links[1..]);
    }
  }

  lemma SameHash(c: Crypto, algorithm: int, m: seq<Byte>, m': seq<Byte>)
    requires Sound(c) && algorithm in c.supported && Hash(c, algorithm, m) == Hash(c, algorithm, m')
    ensures c.digest(algorithm, m) == c.digest(algorithm, m')
  {
    assert Hash(c, algorithm, m)[1..] == Hash(c, algorithm, m')[1..];
  }

  // ----- the links -----

  /** Do two links have the same kind of sibling? */
  predicate SameKind(l: Link, m: Link) {
    && l.imprint.Some? == m.imprint.Some?
    && l.legacyId.Some? == m.legacyId.Some?
    && l.metaData.Some? == m.metaData.Some?
  }

  predicate SameSibling(l: Link, m: Link) {
    l.imprint == m.imprint && l.legacyId == m.legacyId && l.metaData == m.metaData
  }

  /** A link can be hashed exactly if one sibling is set, and then its bytes tell it from every other of its kind. */
  lemma SiblingFields(l: Link, m: Link)
    ensures Sibling(l).Some? <==>
            || (l.imprint.Some? && l.legacyId.None? && l.metaData.None?)
            || (l.imprint.None? && l.legacyId.Some? && l.metaData.None?)
            || (l.imprint.None? && l.legacyId.None? && l.metaData.Some?)
    ensures Sibling(l).Some? && SameKind(l, m) ==> (Sibling(l) == Sibling(m) <==> SameSibling(l, m))
  {
  }

  /** Hash, sibling and level byte can be read back from a message, if the length of the hash is known. */
  lemma MessageParts(x: Imprint, y: Imprint, l: Link, m: Link, level: int, level': int)
    requires Sibling(l).Some? && Sibling(m).Some? && l.isLeft == m.isLeft && |x| == |y|
    requires LinkMessage(x, l, level) == LinkMessage(y, m, level')
    ensures x == y && Sibling(l) == Sibling(m) && level % 256 == level' % 256
  {
    var s, s' := Sibling(l).value, Sibling(m).value;
    var front, front' := if l.isLeft then x + s else s + x, if m.isLeft then y + s' else s' + y;
    assert LinkMessage(x, l, level) == front + [level % 256] && LinkMessage(y, m, level') == front' + [level' % 256];
    SplitEnd(front, front', [level % 256], [level' % 256]);
    if l.isLeft {
      SplitFront(x, y, s, s');
    } else {
      SplitEnd(s, s', x, y);
    }
  }

  lemma SplitFront(x: seq<Byte>, y: seq<Byte>, s: seq<Byte>, t: seq<Byte>)
    requires |x| == |y| && x + s == y + t
    ensures x == y && s == t
  {
    assert x == (x + s)[..|x|] && y == (y + t)[..|y|] && s == (x + s)[|x|..] && t == (y + t)[|y|..];
  }

  lemma SplitEnd(x: seq<Byte>, y: seq<Byte>, s: seq<Byte>, t: seq<Byte>)
    requires |s| == |t| && x + s == y + t
    ensures x == y && s == t
  {
    assert |x| + |s| == |x + s| == |y + t| == |y| + |t|;
    SplitFront(x, y, s, t);
  }

  /** The level bytes that are hashed along two chains. */
  predicate SameLevelBytes(a: seq<Link>, level: int, b: seq<Link>, level': int)
    requires |a| == |b|
    decreases |a|
  {
    a == [] ||
    (var l, l' := NextLevel(level, a[0]), NextLevel(level', b[0]);
     l % 256 == l' % 256 && SameLevelBytes(a[1..], l, b[1..], l'))
  }

  /**
   * Binding of aggregation chains: two chains of the same directions that lead from hashes of the same length to one
   * root start from the same hash and have the same sibling bytes and level bytes, or a collision is found.
   */
  lemma {:induction false} ChainIsBound(c: Crypto, p: Progress, q: Progress, a: seq<Link>, b: seq<Link>)
    returns (k: Collision)
    requires Sound(c) && p.algorithm == q.algorithm && |p.hash| == |q.hash| && |a| == |b|
    requires forall i :: 0 <= i < |a| ==> a[i].isLeft == b[i].isLeft
    requires Steps(c, p, a, false).Ok? && Steps(c, q, b, false).Ok?
    requires Steps(c, p, a, false).value.hash == Steps(c, q, b, false).value.hash
    ensures Collides(c, k) ||
            (p.hash == q.hash && SameLevelBytes(a, p.level, b, q.level)
             && forall i :: 0 <= i < |a| ==> Sibling(a[i]) == Sibling(b[i]))
    decreases |a|
  {
    k := Collision(0, [], []);
    if a != [] {
      hide Step, NextLevel, Hash, LinkMessage, Collides;
      StepHashes(c, p, a[0]);
      StepHashes(c, q, b[0]);
      var p1, q1 := Step(c, p, a[0], false).value, Step(c, q, b[0], false).value;
      var m, m' := LinkMessage(p.hash, a[0], p1.level), LinkMessage(q.hash, b[0], q1.level);
      SameLength(c, p.algorithm, m, m');
      k := ChainIsBound(c, p1, q1, a[1..], b[1..]);
      if !Collides(c, k) {
        if m == m' {
          MessageParts(p.hash, q.hash, a[0], b[0], p1.level, q1.level);
          SameSiblings(a, b);
        } else {
          k := Collision(p.algorithm, m, m');
          SameHash(c, p.algorithm, m, m');
          IsCollision(c, k);
        }
      }
    }
  }

  lemma SameLength(c: Crypto, algorithm: int, m: seq<Byte>, m': seq<Byte>)
    requires Sound(c) && algorithm in c.supported
    ensures |Hash(c, algorithm, m)| == |Hash(c, algorithm, m')|
  {
  }

  lemma IsCollision(c: Crypto, k: Collision)
    requires k.algorithm in c.supported && k.first != k.second
    requires c.digest(k.algorithm, k.first) == c.digest(k.algorithm, k.second)
    ensures Collides(c, k)
  {
  }

  lemma SameSiblings(a: seq<Link>, b: seq<Link>)
    requires a != [] && |a| == |b| && Sibling(a[0]) == Sibling(b[0])
    requires forall i :: 0 <= i < |a[1..]| ==> Sibling(a[1..][i]) == Sibling(b[1..][i])
    ensures forall i :: 0 <= i < |a| ==> Sibling(a[i]) == Sibling(b[i])
  {
    hide Sibling;
    forall i | 0 <= i < |a|
      ensures Sibling(a[i]) == Sibling(b[i])
    {
      if i > 0 {
        assert a[i] == a[1..][i - 1] && b[i] == b[1..][i - 1];
      }
    }
  }

  /** So the root commits to the imprint, the legacy id and the metadata of every link. */
  lemma LinkFieldsAreBound(c: Crypto, p: Progress, a: seq<Link>, b: seq<Link>) returns (k: Collision)
    requires Sound(c) && |a| == |b|
    requires forall i :: 0 <= i < |a| ==> a[i].isLeft == b[i].isLeft && SameKind(a[i], b[i])
    requires Steps(c, p, a, false).Ok? && Steps(c, p, b, false).Ok?
    requires Steps(c, p, a, false).value.hash == Steps(c, p, b, false).value.hash
    ensures Collides(c, k) || forall i :: 0 <= i < |a| ==> SameSibling(a[i], b[i])
  {
    hide Steps, Collides, SameKind, SameSibling, Sibling;
    k := ChainIsBound(c, p, p, a, b);
    if !Collides(c, k) {
      if a != [] {
        SuccessIsWellFormed(c, p, a);
      }
      forall i | 0 <= i < |a|
        ensures SameSibling(a[i], b[i])
      {
        SiblingFields(a[i], b[i]);
      }
    }
  }

  /** It does not commit to the kind: an imprint and metadata with the same bytes have the same root. */
  lemma KindIsNotBound(c: Crypto, p: Progress, x: Imprint, isLeft: bool, correction: nat)
    requires Sound(c)
    ensures Step(c, p, Link(isLeft, Some(x), None, None, correction), false) ==
            Step(c, p, Link(isLeft, None, None, Some(x), correction), false)
  {
    hide Hash;
  }

  /** The digest lengths, in bits, of the algorithms that may be used. */
  lemma DigestSizes()
    ensures 8 * HashLength(0x00) == 160                                    // SHA-1
    ensures 8 * HashLength(0x01) == 256                                    // SHA2-256
    ensures 8 * HashLength(0x02) == 160                                    // RIPEMD-160
    ensures 8 * HashLength(0x04) == 384 && 8 * HashLength(0x05) == 512     // SHA2-384, SHA2-512
    ensures 8 * HashLength(0x07) == 224 && 8 * HashLength(0x08) == 256     // SHA3-224, SHA3-256
    ensures 8 * HashLength(0x09) == 384 && 8 * HashLength(0x0a) == 512     // SHA3-384, SHA3-512
    ensures 8 * HashLength(0x0b) == 256                                    // SM3
    ensures forall a :: a < 0 || a == 0x03 || a == 0x06 || a > 0x0b ==> HashLength(a) == 0
    ensures forall s: Imprint :: |s| == 21 || |s| == 29 || |s| == 33 || |s| == 49 || |s| == 65
  {
  }

  // ----- lists of chains -----

  /** KSI_AggregationHashChain without its memo. */
  datatype Chain = Chain(links: seq<Link>, input: Imprint, algorithm: int)

  predicate ValidLevel(level: int) { 0 <= level <= 0xff }

  /** KSI_AggregationHashChain_aggregate, computed afresh. */
  function AggregateFresh(c: Crypto, chain: Chain, level: int): Result<Aggregate>
    requires Sound(c)
  {
    if !ValidLevel(level) then Err(KSI_INVALID_ARGUMENT)
    else AggregateSpec(c, chain.links, chain.input, level, chain.algorithm, false)
  }

  /** Each chain continues where the one before it ended: same algorithm, and its input hash is the output so far. */
  predicate Linked(c: Crypto, chains: seq<Chain>, level: int)
    requires Sound(c)
    decreases |chains|
  {
    |chains| > 1 ==>
      var first := AggregateFresh(c, chains[0], level);
      && chains[1].algorithm == chains[0].algorithm
      && (first.Ok? ==> first.value.output == Some(chains[1].input) && Linked(c, chains[1..], first.value.level))
  }

  /** KSI_AggregationHashChainList_aggregate, as a function of the remaining chains. */
  function ListSpec(c: Crypto, chains: seq<Chain>, level: int): Result<Aggregate>
    requires Sound(c)
    decreases |chains|
  {
    if chains == [] then Ok(Aggregate(level, None))
    else
      var first := AggregateFresh(c, chains[0], level);
      if first.Err? || |chains| == 1 then first else ListSpec(c, chains[1..], first.value.level)
  }

  function Concat(chains: seq<Chain>): seq<Link>
    decreases |chains|
  {
    if chains == [] then [] else chains[0].links + Concat(chains[1..])
  }

  /**
   * A list of chains linked output to input, with one algorithm, has the root of the concatenated chain: whenever
   * the list aggregates, the concatenation gives the same level and hash; with byte-sized corrections they agree
   * in all cases. (The last chain must not be empty: an empty chain has no output hash.)
   */
  lemma {:induction false} ListIsConcatenation(c: Crypto, chains: seq<Chain>, level: int)
    requires Sound(c) && chains != [] && chains[|chains| - 1].links != [] && ValidLevel(level)
             && Linked(c, chains, level)
    ensures var whole := AggregateSpec(c, Concat(chains), chains[0].input, level, chains[0].algorithm, false);
            && (ListSpec(c, chains, level).Ok? ==> whole == ListSpec(c, chains, level))
            && (SmallCorrections(Concat(chains)) ==> whole == ListSpec(c, chains, level))
    decreases |chains|
  {
    var first := AggregateFresh(c, chains[0], level);
    var rest := chains[1..];
    if rest == [] {
      assert Concat(chains) == chains[0].links;
    } else {
      AggregateConcat(c, chains[0].links, Concat(rest), chains[0].input, level, chains[0].algorithm, false);
      ConcatNonEmpty(rest);
      SmallConcat(chains[0].links, Concat(rest));
      if first.Ok? {
        if SmallCorrections(chains[0].links) {
          EndLevelIff(c, chains[0].links, chains[0].input, level, chains[0].algorithm);
        }
        if ValidLevel(first.value.level) {
          ListIsConcatenation(c, rest, first.value.level);
        }
      }
    }
  }

  lemma {:induction false} ConcatNonEmpty(chains: seq<Chain>)
    requires chains != [] && chains[|chains| - 1].links != []
    ensures Concat(chains) != []
    decreases |chains|
  {
    if |chains| > 1 {
      ConcatNonEmpty(chains[1..]);
    }
  }

  lemma SmallConcat(a: seq<Link>, b: seq<Link>)
    ensures SmallCorrections(a + b) <==> SmallCorrections(a) && SmallCorrections(b)
  {
    if SmallCorrections(a + b) {
      assert forall i :: 0 <= i < |a| ==> a[i] == (a + b)[i];
      assert forall i :: 0 <= i < |b| ==> b[i] == (a + b)[|a| + i];
    }
  }
}
