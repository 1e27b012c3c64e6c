/**
 * The request cache of an async client as a state machine over values (src/ksi/net_async.c).
 * `Ring` is everything `KSI_AsyncClient_st` knows about its requests, together with the history a
 * proof needs. `Apply` is one event; a run is any sequence of enabled events.
 */
module RequestRing {
  import opened Common

  const ID_OFFSET := 0x1_0000_0000      // 1 << KSI_ASYNC_REQUEST_ID_OFFSET
  const ID_OFFSET_MAX := 0xff           // KSI_ASYNC_REQUEST_ID_OFFSET_MAX
  const CACHE_START_POS := 1            // KSI_ASYNC_CACHE_START_POS

  datatype State = Undefined | WaitingForDispatch | WaitingForResponse | ResponseReceived | Error

  /** The fields of KSI_AsyncHandle_st the engine works with; `key` is the identity of the object. */
  datatype Handle = Handle(key: nat, id: nat, state: State, err: int, sndTime: int, parentId: nat)

  type Slot = Option<Handle>

  /** One successful slot allocation: who asked, during which turn of the ring, and where. */
  datatype Allocation = Allocation(key: nat, wraps: nat, slot: nat)

  datatype Ring = Ring(
    endpoint: nat,               // options[KSI_ASYNC_PRIVOPT_ENDPOINT_ID]
    cache: seq<Slot>,
    pending: int,                // size_t; never below zero in a run, see `Accounted`
    received: int,
    requestCount: nat,
    requestCountOffset: nat,
    tail: nat,
    wraps: nat,                  // how often requestCount went round
    history: seq<Allocation>,    // every allocation, oldest first
    owner: seq<nat>,             // the allocation that filled each slot last
    returned: set<nat>)          // the allocations whose handle went back to the user

  datatype Event =
    | Add(slot: nat, handle: Handle, accepted: bool)
    | Sent(slot: nat, time: int)
    | SendFailed(slot: nat, err: int)
    | Answer(id: nat, status: int)
    | FailWaiting(err: int)
    | Return(slot: nat, clock: nat -> int, timeout: nat)     // clock(i): the time when slot i is looked at
    | Grow(size: nat)

  // ----- counting -----

  predicate IsReceived(s: Slot) { s.Some? && s.value.state == ResponseReceived }

  predicate IsPending(s: Slot) { s.Some? && s.value.state != ResponseReceived }

  ghost function ReceivedCount(cache: seq<Slot>): nat {
    if cache == [] then 0
    else ReceivedCount(cache[..|cache| - 1]) + (if IsReceived(cache[|cache| - 1]) then 1 else 0)
  }

  ghost function PendingCount(cache: seq<Slot>): nat {
    if cache == [] then 0
    else PendingCount(cache[..|cache| - 1]) + (if IsPending(cache[|cache| - 1]) then 1 else 0)
  }

  /** The handle `key` sits in the cache: it still has to be returned. */
  ghost predicate Owes(cache: seq<Slot>, key: nat) {
    exists i :: 0 <= i < |cache| && cache[i].Some? && cache[i].value.key == key
  }

  ghost predicate DistinctKeys(cache: seq<Slot>) {
    forall i, j :: 0 <= i < j < |cache| && cache[i].Some? && cache[j].Some? ==> cache[i].value.key != cache[j].value.key
  }

  lemma {:induction false} UpdateCounts(cache: seq<Slot>, i: nat, s: Slot)
    requires i < |cache|
    ensures ReceivedCount(cache[i := s]) + (if IsReceived(cache[i]) then 1 else 0)
         == ReceivedCount(cache) + (if IsReceived(s) then 1 else 0)
    ensures PendingCount(cache[i := s]) + (if IsPending(cache[i]) then 1 else 0)
         == PendingCount(cache) + (if IsPending(s) then 1 else 0)
  {
    var n := |cache| - 1;
    if i == n {
      assert cache[i := s][..n] == cache[..n];
    } else {
      assert cache[i := s][..n] == cache[..n][i := s];
      UpdateCounts(cache[..n], i, s);
    }
  }

  /** The sum of the counters is zero exactly when nothing is cached, and `|cache|` exactly when no slot is free. */
  lemma {:induction false} CountExtremes(cache: seq<Slot>)
    ensures 0 <= PendingCount(cache) + ReceivedCount(cache) <= |cache|
    ensures PendingCount(cache) + ReceivedCount(cache) == |cache| <==> forall i :: 0 <= i < |cache| ==> cache[i].Some?
    ensures PendingCount(cache) + ReceivedCount(cache) == 0 <==> forall i :: 0 <= i < |cache| ==> cache[i].None?
  {
    if cache != [] {
      var n := |cache| - 1;
      CountExtremes(cache[..n]);
      assert forall i :: 0 <= i < n ==> cache[..n][i] == cache[i];
    }
  }

  /** The reserved slot 0 adds nothing to the counts. */
  lemma {:induction false} HeadIsFree(cache: seq<Slot>)
    requires cache != [] && cache[0].None?
    ensures PendingCount(cache[1..]) == PendingCount(cache)
    ensures ReceivedCount(cache[1..]) == ReceivedCount(cache)
  {
    var n := |cache| - 1;
    if n > 0 {
      HeadIsFree(cache[..n]);
      assert cache[..n][1..] == cache[1..][..n - 1];
    } else {
      assert cache[..0] == [];
    }
  }

  lemma {:induction false} GrowCounts(cache: seq<Slot>, extra: nat)
    ensures ReceivedCount(cache + seq(extra, _ => None)) == ReceivedCount(cache)
    ensures PendingCount(cache + seq(extra, _ => None)) == PendingCount(cache)
  {
    var grown := cache + seq(extra, _ => None);
    if extra == 0 {
      assert grown == cache;
    } else {
      GrowCounts(cache, extra - 1);
      assert grown[..|grown| - 1] == cache + seq(extra - 1, _ => None);
    }
  }

  // ----- the events -----

  /** Request id built from the turn counter and the slot (src/ksi/net_async.c:734). */
  function RequestId(offset: nat, slot: nat): nat { offset * ID_OFFSET + slot }

  /** Is `j` passed when stepping cyclically through 1..n-1 from `start` (inclusive) to `stop` (exclusive)? */
  predicate Passed(start: nat, stop: nat, j: nat) {
    if start <= stop then start <= j < stop else start <= j || j < stop
  }

  /** The next free slot after `start` in cyclic order over 1..n-1. */
  predicate IsNextFree(cache: seq<Slot>, start: nat, slot: nat) {
    && CACHE_START_POS <= slot < |cache|
    && cache[slot].None?
    && forall j :: CACHE_START_POS <= j < |cache| && cache[j].None? && j != slot ==> !Skipped(start, slot, j)
  }

  /** Does the allocator step over `j` on its way from `start` (exclusive) to `slot` (exclusive)? */
  predicate Skipped(start: nat, slot: nat, j: nat) {
    if start < slot then start < j < slot else start < j || j < slot
  }

  predicate TimedOut(h: Handle, now: int, timeout: nat) {
    timeout == 0 || now - h.sndTime > timeout
  }

  /** May asyncClient_finalizeRequest hand this slot to the user? */
  predicate Finished(s: Slot, now: int, timeout: nat) {
    s.Some? && (s.value.state == ResponseReceived || s.value.state == Error
                || (s.value.state == WaitingForResponse && TimedOut(s.value, now, timeout)))
  }

  function Finalized(h: Handle): Handle {
    if h.state == WaitingForResponse then h.(state := Error, err := KSI_NETWORK_RECIEVE_TIMEOUT) else h
  }

  /** The slot that an answer with this id is for, if it is for any (src/ksi/net_async.c:945-953). */
  function Addressee(cache: seq<Slot>, id: nat): Option<nat> {
    var slot := id % ID_OFFSET;
    if slot < |cache| && cache[slot].Some? && cache[slot].value.id == id then Some(slot) else None
  }

  function FailIfWaiting(s: Slot, err: int): Slot {
    if s.Some? && s.value.state == WaitingForResponse then Some(s.value.(state := Error, err := err)) else s
  }

  /** asyncClient_setResponseError for the handles that wait for a response (src/ksi/net_async.c:898-918). */
  function FailAll(cache: seq<Slot>, err: int): seq<Slot> {
    seq(|cache|, i requires 0 <= i < |cache| => FailIfWaiting(cache[i], err))
  }

  /** Is there a request in the slot that waits for dispatch? */
  predicate Waits(cache: seq<Slot>, slot: nat) {
    slot < |cache| && cache[slot].Some? && cache[slot].value.state == WaitingForDispatch
  }

  ghost predicate Enabled(r: Ring, e: Event) {
    match e
    case Add(slot, handle, accepted) => 
      slot < |r.owner| && IsNextFree(r.cache, r.requestCount, slot) && !Owes(r.cache, handle.key)
    case Sent(slot, _) => Waits(r.cache, slot)
    case SendFailed(slot, _) => Waits(r.cache, slot)
    case Answer(_, _) => true
    case FailWaiting(_) => true
    case Return(slot, clock, timeout) =>
      && CACHE_START_POS <= slot < |r.cache|
      && slot < |r.owner|
      && Finished(r.cache[slot], clock(slot), timeout)
      && forall j :: CACHE_START_POS <= j < |r.cache| && Finished(r.cache[j], clock(j), timeout) ==>
                       !Passed(r.tail, slot, j)
    case Grow(size) => |r.cache| <= size <= ID_OFFSET
  }

  ghost function Apply(r: Ring, e: Event): Ring
    requires Enabled(r, e)
  {
    match e
    case Add(slot, handle, accepted) =>
      var wraps := if slot <= r.requestCount then r.wraps + 1 else r.wraps;
      var offset := if slot <= r.requestCount then (r.requestCountOffset + 1) % ID_OFFSET_MAX else r.requestCountOffset;
      var moved := r.(requestCount := slot, requestCountOffset := offset, wraps := wraps);
      if accepted then
        moved.(cache := r.cache[slot := Some(handle.(id := RequestId(offset, slot), state := WaitingForDispatch,
                                                     parentId := r.endpoint))],
               pending := r.pending + 1,
               history := r.history + [Allocation(handle.key, wraps, slot)],
               owner := r.owner[slot := |r.history|])
      else moved
    case Sent(slot, time) =>
      r.(cache := r.cache[slot := Some(r.cache[slot].value.(state := WaitingForResponse, sndTime := time))])
    case SendFailed(slot, err) =>
      r.(cache := r.cache[slot := Some(r.cache[slot].value.(state := Error, err := err))])
    case Answer(id, status) =>
      var to := Addressee(r.cache, id);
      if to.None? || r.cache[to.value].value.state != WaitingForResponse then r
      else
        var h := r.cache[to.value].value;
        if status != KSI_OK then r.(cache := r.cache[to.value := Some(h.(state := Error, err := status))])
        else
          r.(cache := r.cache[to.value := Some(h.(state := ResponseReceived))],
             pending := r.pending - 1, received := r.received + 1)
    case FailWaiting(err) =>
      r.(cache := FailAll(r.cache, err))
    case Return(slot, _, _) =>
      var rest := r.(cache := r.cache[slot := None], tail := slot, returned := r.returned + {r.owner[slot]});
      if r.cache[slot].value.state == ResponseReceived
      then rest.(received := r.received - 1)
      else rest.(pending := r.pending - 1)
    case Grow(size) =>
      r.(cache := r.cache + seq(size - |r.cache|, _ => None), owner := r.owner + seq(size - |r.cache|, _ => 0))
  }

  // ----- what every run keeps -----

  ghost predicate Accounted(r: Ring) {
    r.pending == PendingCount(r.cache) && r.received == ReceivedCount(r.cache)
  }

  ghost predicate Shaped(r: Ring) {
    && 2 <= |r.cache| <= ID_OFFSET
    && |r.owner| == |r.cache|
    && r.cache[0].None?
    && r.requestCount < |r.cache|
    && CACHE_START_POS <= r.tail < |r.cache|
    && r.requestCountOffset == r.wraps % ID_OFFSET_MAX
    && (forall i :: 0 <= i < |r.cache| && r.cache[i].Some? ==>
          r.cache[i].value.state != Undefined && r.cache[i].value.parentId == r.endpoint)
    && DistinctKeys(r.cache)
  }

  predicate Earlier(a: Allocation, b: Allocation) {
    a.wraps < b.wraps || (a.wraps == b.wraps && a.slot < b.slot)
  }

  /** Allocations move strictly forward round the ring, and none is ahead of the allocator. */
  ghost predicate Ordered(r: Ring) {
    && (forall i, j :: 0 <= i < j < |r.history| ==> Earlier(r.history[i], r.history[j]))
    && (forall i :: 0 <= i < |r.history| ==>
          && CACHE_START_POS <= r.history[i].slot < |r.cache|
          && !Earlier(Allocation(0, r.wraps, r.requestCount), r.history[i])
          && r.history[i].slot < |r.owner|
          && i <= r.owner[r.history[i].slot])
  }

  /** Allocation `a` is in the cache, in its own slot, under its own id. */
  ghost predicate Live(r: Ring, a: nat)
    requires a < |r.history|
  {
    var slot := r.history[a].slot;
    slot < |r.cache| && slot < |r.owner| && r.cache[slot].Some? && r.owner[slot] == a
  }

  /** The occupant of slot `i` is the handle its allocation put there, under the id of that allocation. */
  ghost predicate Identified(r: Ring, i: nat)
    requires i < |r.cache| && i < |r.owner|
  {
    r.cache[i].Some? ==>
      && r.owner[i] < |r.history|
      && r.history[r.owner[i]].slot == i
      && r.history[r.owner[i]].key == r.cache[i].value.key
      && r.cache[i].value.id == RequestId(r.history[r.owner[i]].wraps % ID_OFFSET_MAX, i)
  }

  /** Every allocation is either in the cache or was returned, never both. */
  ghost predicate Traced(r: Ring) {
    && (forall i :: 0 <= i < |r.cache| && i < |r.owner| ==> Identified(r, i))
    && (forall a :: a in r.returned ==> a < |r.history|)
    && (forall a :: 0 <= a < |r.history| ==> (a in r.returned <==> !Live(r, a)))
  }

  ghost predicate Inv(r: Ring) { Accounted(r) && Shaped(r) && Ordered(r) && Traced(r) }

  /** A freshly created client with a cache of `size` usable slots (src/ksi/net_async.c:1643-1692). */
  function Initial(size: nat, endpoint: nat): Ring
    requires 1 <= size < ID_OFFSET
  {
    Ring(endpoint, seq(size + 1, _ => None), 0, 0, 0, 0, CACHE_START_POS, 0, [], seq(size + 1, _ => 0), {})
  }

  lemma InitialKeepsInv(size: nat, endpoint: nat)
    requires 1 <= size < ID_OFFSET
    ensures Inv(Initial(size, endpoint))
  {
    var r := Initial(size, endpoint);
    assert Accounted(r) by {
      GrowCounts([], size + 1);
      assert [] + seq(size + 1, _ => None) == r.cache;
    }
    hide Accounted, ReceivedCount, PendingCount;
    assert Shaped(r) && Ordered(r) && Traced(r);
  }

  /** `es` is a run from `r`: every event is enabled in the state the earlier ones lead to. */
  ghost predicate Runs(r: Ring, es: seq<Event>)
    decreases |es|
  {
    es == [] || (Enabled(r, es[0]) && Runs(Apply(r, es[0]), es[1..]))
  }

  ghost function Exec(r: Ring, es: seq<Event>): Ring
    requires Runs(r, es)
    decreases |es|
  {
    if es == [] then r else Exec(Apply(r, es[0]), es[1..])
  }

  lemma {:induction false} RunsConcat(r: Ring, es: seq<Event>, fs: seq<Event>)
    requires Runs(r, es) && Runs(Exec(r, es), fs)
    ensures Runs(r, es + fs) && Exec(r, es + fs) == Exec(Exec(r, es), fs)
    decreases |es|
  {
    if es == [] {
      assert es + fs == fs;
    } else {
      assert (es + fs)[1..] == es[1..] + fs;
      RunsConcat(Apply(r, es[0]), es[1..], fs);
    }
  }

  lemma SingleRun(r: Ring, e: Event)
    requires Enabled(r, e)
    ensures Runs(r, [e]) && Exec(r, [e]) == Apply(r, e)
  {
    assert [e][1..] == [];
  }

  // ----- each event keeps the invariant -----

  lemma {:induction false} FailAllCounts(cache: seq<Slot>, err: int)
    ensures ReceivedCount(FailAll(cache, err)) == ReceivedCount(cache)
    ensures PendingCount(FailAll(cache, err)) == PendingCount(cache)
  {
    if cache != [] {
      var n := |cache| - 1;
      FailAllCounts(cache[..n], err);
      assert FailAll(cache, err)[..n] == FailAll(cache[..n], err);
    }
  }

  /** The counters stay exact. */
  lemma StepKeepsAccounts(r: Ring, e: Event)
    requires Accounted(r) && Enabled(r, e)
    ensures Accounted(Apply(r, e))
  {
    var r' := Apply(r, e);
    match e
    case Add(slot, handle, accepted) => UpdateCounts(r.cache, slot, r'.cache[slot]);
    case Sent(slot, _) => UpdateCounts(r.cache, slot, r'.cache[slot]);
    case SendFailed(slot, _) => UpdateCounts(r.cache, slot, r'.cache[slot]);
    case Answer(id, _) =>
      var to := Addressee(r.cache, id);
      if to.Some? {
        UpdateCounts(r.cache, to.value, r'.cache[to.value]);
        assert r.cache[to.value := r'.cache[to.value]] == r'.cache;
      }
    case FailWaiting(err) => FailAllCounts(r.cache, err);
    case Return(slot, _, _) => UpdateCounts(r.cache, slot, None);
    case Grow(size) => GrowCounts(r.cache, size - |r.cache|);
  }

  /** Only an accepted request or a returned handle changes which handles are owed. */
  lemma StepKeepsOwed(r: Ring, e: Event, key: nat)
    requires Enabled(r, e) && DistinctKeys(r.cache)
    ensures Owes(Apply(r, e).cache, key) <==>
            match e
            case Add(_, h, true) => key == h.key || Owes(r.cache, key)
            case Return(slot, _, _) => key != r.cache[slot].value.key && Owes(r.cache, key)
            case _ => Owes(r.cache, key)
  {
    hide Passed, Skipped;
    var r' := Apply(r, e);
    if (e.Add? && e.accepted) || e.Return? {
      OwesAfterUpdate(r.cache, e.slot, r'.cache[e.slot], key);
    } else {
      hide DistinctKeys;
      OwesSameKeys(r.cache, r'.cache, key);
    }
  }

  lemma OwesAfterUpdate(cache: seq<Slot>, i: nat, s: Slot, key: nat)
    requires i < |cache| && DistinctKeys(cache)
    requires s.Some? ==> cache[i].None?
    ensures Owes(cache[i := s], key) <==>
            (s.Some? && s.value.key == key) || (Owes(cache, key) && !(cache[i].Some? && cache[i].value.key == key))
  {
    var cache' := cache[i := s];
    if Owes(cache', key) {
      var j :| 0 <= j < |cache'| && cache'[j].Some? && cache'[j].value.key == key;
      assert j != i ==> cache[j] == cache'[j];
    }
    if Owes(cache, key) {
      var j :| 0 <= j < |cache| && cache[j].Some? && cache[j].value.key == key;
      assert j != i ==> cache[j] == cache'[j];
    }
    if s.Some? {
      assert cache'[i] == s;
    }
  }

  lemma OwesSameKeys(cache: seq<Slot>, cache': seq<Slot>, key: nat)
    requires |cache| <= |cache'|
    requires forall i :: 0 <= i < |cache| ==> (cache'[i].Some? <==> cache[i].Some?)
    requires forall i :: 0 <= i < |cache| && cache[i].Some? ==> cache'[i].value.key == cache[i].value.key
    requires forall i :: |cache| <= i < |cache'| ==> cache'[i].None?
    ensures Owes(cache', key) <==> Owes(cache, key)
  {
    if Owes(cache, key) {
      var j :| 0 <= j < |cache| && cache[j].Some? && cache[j].value.key == key;
      assert cache'[j].Some?;
    }
  }

  lemma NextTurn(wraps: nat)
    ensures (wraps % ID_OFFSET_MAX + 1) % ID_OFFSET_MAX == (wraps + 1) % ID_OFFSET_MAX
  {
  }

  lemma StepKeepsShape(r: Ring, e: Event)
    requires Shaped(r) && Enabled(r, e)
    ensures Shaped(Apply(r, e))
  {
    StepKeepsKeysDistinct(r, e);
    NextTurn(r.wraps);
    hide DistinctKeys, Skipped, Passed, Finished, Owes;
    var r' := Apply(r, e);
    forall i | 0 <= i < |r'.cache| && r'.cache[i].Some?
      ensures r'.cache[i].value.state != Undefined && r'.cache[i].value.parentId == r'.endpoint
    {
      if i < |r.cache| && r.cache[i].Some? {
        assert r.cache[i].value.state != Undefined && r.cache[i].value.parentId == r.endpoint;
      }
    }
  }

  lemma StepKeepsKeysDistinct(r: Ring, e: Event)
    requires DistinctKeys(r.cache) && Enabled(r, e)
    ensures DistinctKeys(Apply(r, e).cache)
  {
    hide Skipped, Passed, Finished;
  }

  lemma StepKeepsOrder(r: Ring, e: Event)
    requires Inv(r) && Enabled(r, e)
    ensures Ordered(Apply(r, e))
  {
    hide Accounted, Traced, DistinctKeys, Passed, Finished, Owes;
  }

  lemma StepKeepsIdentity(r: Ring, e: Event, i: nat)
    requires Inv(r) && Enabled(r, e) && i < |Apply(r, e).cache|
    ensures |Apply(r, e).owner| == |Apply(r, e).cache|
    ensures Identified(Apply(r, e), i)
  {
    hide Accounted, Ordered, DistinctKeys, Passed, Skipped, Finished, Owes;
    NextTurn(r.wraps);
    if i < |r.cache| {
      assert Identified(r, i);
    }
  }

  lemma StepKeepsReturned(r: Ring, e: Event, a: nat)
    requires Inv(r) && Enabled(r, e) && a < |Apply(r, e).history|
    ensures a in Apply(r, e).returned <==> !Live(Apply(r, e), a)
  {
    hide Accounted, DistinctKeys, Passed, Owes;
    if a < |r.history| {
      assert a in r.returned <==> !Live(r, a);
      if e.Return? {
        assert Identified(r, e.slot);
      }
    }
  }

  lemma StepKeepsTrace(r: Ring, e: Event)
    requires Inv(r) && Enabled(r, e)
    ensures Traced(Apply(r, e))
  {
    hide Accounted, Ordered, DistinctKeys, Passed, Owes, Live;
    forall i | 0 <= i < |Apply(r, e).cache| && i < |Apply(r, e).owner|
      ensures Identified(Apply(r, e), i)
    {
      StepKeepsIdentity(r, e, i);
    }
    forall a | 0 <= a < |Apply(r, e).history|
      ensures a in Apply(r, e).returned <==> !Live(Apply(r, e), a)
    {
      StepKeepsReturned(r, e, a);
    }
    forall a | a in Apply(r, e).returned
      ensures a < |Apply(r, e).history|
    {
      if e.Return? {
        assert Identified(r, e.slot);
      }
    }
  }

  lemma StepKeepsInv(r: Ring, e: Event)
    requires Inv(r) && Enabled(r, e)
    ensures Inv(Apply(r, e))
  {
    hide Accounted, Shaped, Ordered, Traced, Apply, Enabled;
    StepKeepsAccounts(r, e);
    StepKeepsShape(r, e);
    StepKeepsOrder(r, e);
    StepKeepsTrace(r, e);
  }

  /** Every run, from any state in which the books are right, leaves them right. */
  lemma {:induction false} RunKeepsInv(r: Ring, es: seq<Event>)
    requires Inv(r) && Runs(r, es)
    ensures Inv(Exec(r, es))
    decreases |es|
  {
    if es != [] {
      StepKeepsInv(r, es[0]);
      hide Inv, Enabled, Apply;
      RunKeepsInv(Apply(r, es[0]), es[1..]);
    }
  }

  // ----- timeouts and cyclic order -----

  /** A request that waits for its response is not finished `timeout` after it was sent, and finished any later. */
  lemma TimeoutIsExact(h: Handle, now: int, timeout: nat)
    requires h.state == WaitingForResponse
    ensures timeout > 0 && now <= h.sndTime + timeout ==> !Finished(Some(h), now, timeout)
    ensures timeout == 0 || now >= h.sndTime + timeout + 1 ==> Finished(Some(h), now, timeout)
    ensures Finalized(h) == h.(state := Error, err := KSI_NETWORK_RECIEVE_TIMEOUT)
  {
  }

  /** How many steps forward it is from slot a to slot b in a ring of n - 1 usable slots. */
  function Distance(a: nat, b: nat, n: nat): int { if a <= b then b - a else n - 1 - a + b }

  /** The scan passes exactly the slots that are nearer than its end; the allocator those that are neither end. */
  lemma PassedIsNearer(start: nat, stop: nat, j: nat, n: nat)
    requires CACHE_START_POS <= start < n && CACHE_START_POS <= stop < n && CACHE_START_POS <= j < n
    ensures Passed(start, stop, j) <==> Distance(start, j, n) < Distance(start, stop, n)
    ensures start != stop ==> (Skipped(start, stop, j) <==> 0 < Distance(start, j, n) < Distance(start, stop, n))
    ensures start == stop ==> (Skipped(start, stop, j) <==> j != start)
  {
  }

  // ----- the main results -----

  /**
   * After any run of a new client: the counters count exactly the slots they stand for, slot 0 stays empty, the
   * low bits of every cached id are its slot, every handle bears the id of the endpoint, and the accepted requests
   * are those returned plus those still counted.
   */
  lemma AccountingAfterAnyRun(size: nat, endpoint: nat, es: seq<Event>)
    requires 1 <= size < ID_OFFSET && Runs(Initial(size, endpoint), es)
    ensures var r := Exec(Initial(size, endpoint), es);
            && r.received == ReceivedCount(r.cache) >= 0
            && r.pending == PendingCount(r.cache) >= 0
            && r.cache != [] && r.cache[0].None?
            && (forall i :: 0 <= i < |r.cache| && r.cache[i].Some? ==>
                  r.cache[i].value.id % ID_OFFSET == i && r.cache[i].value.parentId == endpoint)
            && |r.history| == |r.returned| + r.pending + r.received
  {
    InitialKeepsInv(size, endpoint);
    RunKeepsInv(Initial(size, endpoint), es);
    RunConserves(Initial(size, endpoint), es);
    RunKeepsEndpoint(Initial(size, endpoint), es);
    var r := Exec(Initial(size, endpoint), es);
    assert Initial(size, endpoint).pending + Initial(size, endpoint).received == 0;
    forall i | 0 <= i < |r.cache| && r.cache[i].Some?
      ensures r.cache[i].value.id % ID_OFFSET == i
    {
      assert Identified(r, i);
      SlotOfId(r.history[r.owner[i]].wraps % ID_OFFSET_MAX, i);
    }
  }

  lemma SlotOfId(offset: nat, slot: nat)
    requires slot < ID_OFFSET
    ensures RequestId(offset, slot) % ID_OFFSET == slot
    ensures RequestId(offset, slot) / ID_OFFSET == offset
  {
  }

  ghost function Unaccounted(r: Ring): int { |r.history| - |r.returned| - r.pending - r.received }

  lemma ReturnIsFresh(r: Ring, slot: nat)
    requires Traced(r) && slot < |r.cache| && slot < |r.owner| && r.cache[slot].Some?
    ensures r.owner[slot] !in r.returned
  {
    assert Identified(r, slot);
    assert Live(r, r.owner[slot]);
  }

  lemma StepConserves(r: Ring, e: Event)
    requires Enabled(r, e) && (e.Return? ==> r.owner[e.slot] !in r.returned)
    ensures Unaccounted(Apply(r, e)) == Unaccounted(r)
  {
    hide IsNextFree, Passed, Owes;
  }

  lemma {:induction false} RunKeepsEndpoint(r: Ring, es: seq<Event>)
    requires Runs(r, es)
    ensures Exec(r, es).endpoint == r.endpoint
    decreases |es|
  {
    if es != [] {
      RunKeepsEndpoint(Apply(r, es[0]), es[1..]);
    }
  }

  lemma {:induction false} RunConserves(r: Ring, es: seq<Event>)
    requires Inv(r) && Runs(r, es)
    ensures Unaccounted(Exec(r, es)) == Unaccounted(r)
    decreases |es|
  {
    if es != [] {
      StepKeepsInv(r, es[0]);
      if es[0].Return? {
        ReturnIsFresh(r, es[0].slot);
      }
      StepConserves(r, es[0]);
      hide Inv, Enabled, Apply, Unaccounted;
      RunConserves(Apply(r, es[0]), es[1..]);
    }
  }

  /** The state a run has reached before its event number `i`. */
  ghost function StateAt(r: Ring, es: seq<Event>, i: nat): Ring
    requires Runs(r, es) && i <= |es|
    decreases i
  {
    if i == 0 then r else StateAt(Apply(r, es[0]), es[1..], i - 1)
  }

  lemma {:induction false} StateAtFacts(r: Ring, es: seq<Event>, i: nat)
    requires Inv(r) && Runs(r, es) && i < |es|
    ensures Inv(StateAt(r, es, i)) && Enabled(StateAt(r, es, i), es[i])
    ensures r.returned <= StateAt(r, es, i).returned
    ensures StateAt(r, es, i + 1) == Apply(StateAt(r, es, i), es[i])
    decreases i
  {
    if i > 0 {
      StepKeepsInv(r, es[0]);
      hide Inv, Enabled;
      StateAtFacts(Apply(r, es[0]), es[1..], i - 1);
    }
  }

  /** The allocation that event number `i` returns. */
  ghost function ReturnedBy(r: Ring, es: seq<Event>, i: nat): nat
    requires Inv(r) && Runs(r, es) && i < |es| && es[i].Return?
  {
    StateAtFacts(r, es, i);
    StateAt(r, es, i).owner[es[i].slot]
  }

  lemma FirstReturnIsRemembered(r: Ring, es: seq<Event>, j: nat)
    requires Inv(r) && Runs(r, es) && 0 < j < |es| && es[0].Return?
    ensures ReturnedBy(r, es, 0) in StateAt(r, es, j).returned
  {
    StepKeepsInv(r, es[0]);
    StateAtFacts(Apply(r, es[0]), es[1..], j - 1);
    assert r.owner[es[0].slot] in Apply(r, es[0]).returned;
  }

  lemma LaterReturnIsNew(r: Ring, es: seq<Event>, j: nat)
    requires Inv(r) && Runs(r, es) && j < |es| && es[j].Return?
    ensures ReturnedBy(r, es, j) !in StateAt(r, es, j).returned
  {
    StateAtFacts(r, es, j);
    ReturnIsFresh(StateAt(r, es, j), es[j].slot);
  }

  /** No allocation is handed to the user twice: two returns in one run never return the same allocation. */
  lemma {:induction false} ReturnedAtMostOnce(r: Ring, es: seq<Event>, i: nat, j: nat)
    requires Inv(r) && Runs(r, es) && i < j < |es| && es[i].Return? && es[j].Return?
    ensures ReturnedBy(r, es, i) != ReturnedBy(r, es, j)
    decreases i
  {
    if i == 0 {
      FirstReturnIsRemembered(r, es, j);
      LaterReturnIsNew(r, es, j);
    } else {
      StepKeepsInv(r, es[0]);
      hide Inv, Enabled, Apply;
      ReturnedAtMostOnce(Apply(r, es[0]), es[1..], i - 1, j - 1);
      assert StateAt(r, es, i) == StateAt(Apply(r, es[0]), es[1..], i - 1);
      assert StateAt(r, es, j) == StateAt(Apply(r, es[0]), es[1..], j - 1);
    }
  }

  /** The counter test of the allocator (src/ksi/net_async.c:589) is exact. */
  lemma CacheFullIsExact(r: Ring)
    requires Inv(r)
    ensures |r.cache| == r.pending + r.received + 1 <==>
            forall i :: CACHE_START_POS <= i < |r.cache| ==> r.cache[i].Some?
  {
    HeadIsFree(r.cache);
    CountExtremes(r.cache[1..]);
    assert forall i :: CACHE_START_POS <= i < |r.cache| ==> r.cache[i] == r.cache[1..][i - 1];
  }

  ghost function IdOf(a: Allocation): nat { RequestId(a.wraps % ID_OFFSET_MAX, a.slot) }

  /** Two allocations share a 64-bit id exactly when they share a slot a positive multiple of 255 turns apart. */
  lemma SameIdIsFarApart(r: Ring, a: nat, b: nat)
    requires Inv(r) && a < b < |r.history|
    ensures IdOf(r.history[a]) == IdOf(r.history[b]) <==>
            && r.history[a].slot == r.history[b].slot
            && r.history[b].wraps - r.history[a].wraps >= ID_OFFSET_MAX
            && (r.history[b].wraps - r.history[a].wraps) % ID_OFFSET_MAX == 0
  {
    hide Accounted, Traced;
    var x, y := r.history[a], r.history[b];
    assert Earlier(x, y);
    SlotOfId(x.wraps % ID_OFFSET_MAX, x.slot);
    SlotOfId(y.wraps % ID_OFFSET_MAX, y.slot);
    SameTurn(x.wraps, y.wraps);
  }

  /** The turn counter modulo 255 repeats exactly after multiples of 255. */
  lemma SameTurn(x: nat, y: nat)
    requires x <= y
    ensures x % ID_OFFSET_MAX == y % ID_OFFSET_MAX <==> (y - x) % ID_OFFSET_MAX == 0
    ensures x < y && (y - x) % ID_OFFSET_MAX == 0 ==> y - x >= ID_OFFSET_MAX
  {
  }

  /** An answer to a request that was returned already changes nothing for the next 254 turns of the ring. */
  lemma StaleAnswerIsIgnored(r: Ring, a: nat, status: int)
    requires Inv(r) && a in r.returned && r.wraps < r.history[a].wraps + ID_OFFSET_MAX
    ensures Apply(r, Answer(IdOf(r.history[a]), status)) == r
  {
    var id := IdOf(r.history[a]);
    var to := Addressee(r.cache, id);
    if to.Some? {
      assert Identified(r, to.value);
      var b := r.owner[to.value];
      SlotOfId(r.history[a].wraps % ID_OFFSET_MAX, r.history[a].slot);
      assert IdOf(r.history[b]) == id;
      assert Live(r, b);
      SameIdIsFarApart(r, a, b);
      assert false;
    }
  }

  /**
   * An answer reaches only the request it is for: the slot that changes holds a live allocation with that id, which
   * waits for a response, and no other slot changes. Any allocation with that id that is less than 255 turns old is
   * that very allocation.
   */
  lemma AnswerReachesItsRequest(r: Ring, id: nat, status: int, i: nat)
    requires Inv(r) && i < |r.cache| && Apply(r, Answer(id, status)).cache[i] != r.cache[i]
    ensures r.cache[i].Some? && r.cache[i].value.state == WaitingForResponse
    ensures var b := r.owner[i];
            && b < |r.history| && Live(r, b) && IdOf(r.history[b]) == id && r.cache[i].value.key == r.history[b].key
            && forall a :: 0 <= a < |r.history| && IdOf(r.history[a]) == id ==>
                 a == b || r.wraps >= r.history[a].wraps + ID_OFFSET_MAX
    ensures forall j :: 0 <= j < |r.cache| && j != i ==> Apply(r, Answer(id, status)).cache[j] == r.cache[j]
  {
    hide Accounted;
    assert Identified(r, i);
    var b := r.owner[i];
    assert Live(r, b);
    forall a | 0 <= a < |r.history| && IdOf(r.history[a]) == id && r.wraps < r.history[a].wraps + ID_OFFSET_MAX
      ensures a == b
    {
      if a < b {
        SameIdIsFarApart(r, a, b);
      } else if b < a {
        SameIdIsFarApart(r, b, a);
      }
    }
  }
}
