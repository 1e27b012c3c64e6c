/**
 * How the send loop of the TCP client acts on the request cache (src/ksi/net_tcp_async.c:371-451,
 * src/ksi/net_async.c:1416): the requests in its queue are handles of the cache, named by their slots.
 */
module TcpTransport {
  import opened Common
  import opened RequestRing
  import AC = AsyncClient
  import TO = TcpOutput

  /** The requests from number i on that wait for dispatch are handles of the cache that do, each another one. */
  ghost predicate Linked(cache: seq<Slot>, queue: seq<TO.Request>, i: nat) {
    && (forall j :: i <= j < |queue| && queue[j].state == TO.WaitingForDispatch ==> Waits(cache, queue[j].key))
    && (forall j, k :: i <= j < k < |queue| && queue[j].state == queue[k].state == TO.WaitingForDispatch ==>
                         queue[j].key != queue[k].key)
  }

  /** What leaving the queue means for the handle; nothing if it was only dropped from the queue. */
  function Effect(req: TO.Request, how: TO.Done): seq<AC.Transport> {
    match how
    case Dropped => []
    case TimedOut(_) => [AC.Dropped(req.key, KSI_NETWORK_SEND_TIMEOUT)]
    case Dispatched(time) => [AC.Written(req.key, time)]
  }

  function Effects(queue: seq<TO.Request>, finished: seq<TO.Done>, i: nat): seq<AC.Transport>
    requires i <= |finished| <= |queue|
    decreases |finished| - i
  {
    if i == |finished| then [] else Effect(queue[i], finished[i]) + Effects(queue, finished, i + 1)
  }

  function Events(ts: seq<AC.Transport>): seq<Event> { seq(|ts|, i requires 0 <= i < |ts| => AC.SendEvent(ts[i])) }

  /** The handle in the cache is in the state in which the request left the queue. */
  predicate Agrees(cache: seq<Slot>, req: TO.Request, how: TO.Done) {
    how.Dropped? ||
    (req.key < |cache| && cache[req.key].Some? &&
     var h := cache[req.key].value;
     match how
     case TimedOut(_) => h.state == Error && h.err == TO.Departed(req, how).err
     case Dispatched(_) => h.state == WaitingForResponse && h.sndTime == TO.Departed(req, how).sndTime)
  }

  predicate OnlyWaiting(queue: seq<TO.Request>, finished: seq<TO.Done>) {
    |finished| <= |queue| &&
    forall j :: 0 <= j < |finished| && !finished[j].Dropped? ==> queue[j].state == TO.WaitingForDispatch
  }

  /** No request from number i on that did more than drop out of the queue has this slot. */
  ghost predicate NotMeant(queue: seq<TO.Request>, finished: seq<TO.Done>, i: nat, slot: nat)
    requires |finished| <= |queue|
  {
    forall j :: i <= j < |finished| && queue[j].key == slot ==> finished[j].Dropped?
  }

  /** Only the slots of requests from number i on that did not just drop out of the queue have changed. */
  ghost predicate Untouched(cache: seq<Slot>, cache': seq<Slot>, queue: seq<TO.Request>, finished: seq<TO.Done>, i: nat)
    requires |finished| <= |queue|
  {
    && |cache'| == |cache|
    && forall s: nat :: s < |cache| && NotMeant(queue, finished, i, s) ==> cache'[s] == cache[s]
  }

  /** The same for one request. */
  ghost predicate UntouchedBut(cache: seq<Slot>, cache': seq<Slot>, slot: nat, how: TO.Done) {
    |cache'| == |cache| && forall s: nat :: s < |cache| && (s != slot || how.Dropped?) ==> cache'[s] == cache[s]
  }

  lemma UntouchedByAll(cache: seq<Slot>, mid: seq<Slot>, after: seq<Slot>, queue: seq<TO.Request>,
                       finished: seq<TO.Done>, i: nat)
    requires i < |finished| <= |queue|
    requires UntouchedBut(cache, mid, queue[i].key, finished[i]) && Untouched(mid, after, queue, finished, i + 1)
    ensures Untouched(cache, after, queue, finished, i)
  {
  }

  lemma EffectIsEvent(cache: seq<Slot>, queue: seq<TO.Request>, finished: seq<TO.Done>, i: nat)
    requires OnlyWaiting(queue, finished) && i < |finished| && Linked(cache, queue, i)
    ensures var ts := Effect(queue[i], finished[i]);
            && AC.SendEvents(cache, ts) == Events(ts)
            && Linked(AC.AfterSends(cache, ts), queue, i + 1)
            && Agrees(AC.AfterSends(cache, ts), queue[i], finished[i])
            && UntouchedBut(cache, AC.AfterSends(cache, ts), queue[i].key, finished[i])
  {
    var ts := Effect(queue[i], finished[i]);
    if ts != [] {
      assert ts[1..] == [];
      assert AC.AfterSends(cache, ts) == AC.AfterSend(cache, ts[0]);
    }
  }

  /** Every effect of the send loop is one event of the ring, and afterwards cache and queue agree again. */
  lemma {:induction false} EffectsAreEvents(cache: seq<Slot>, queue: seq<TO.Request>, finished: seq<TO.Done>, i: nat)
    requires OnlyWaiting(queue, finished) && i <= |finished| <= |queue| && Linked(cache, queue, i)
    ensures var ts := Effects(queue, finished, i);
            && AC.SendEvents(cache, ts) == Events(ts)
            && Linked(AC.AfterSends(cache, ts), queue, |finished|)
            && Untouched(cache, AC.AfterSends(cache, ts), queue, finished, i)
            && (forall j :: i <= j < |finished| ==> Agrees(AC.AfterSends(cache, ts), queue[j], finished[j]))
    decreases |finished| - i
  {
    hide AC.AfterSends, AC.SendEvents, Events, Effect, Linked, Untouched, UntouchedBut, Agrees, OnlyWaiting;
    if i == |finished| {
      NoEffects(cache, queue, finished);
    } else {
      var ts, rest := Effect(queue[i], finished[i]), Effects(queue, finished, i + 1);
      EffectIsEvent(cache, queue, finished, i);
      var mid := AC.AfterSends(cache, ts);
      EffectsAreEvents(mid, queue, finished, i + 1);
      var after := AC.AfterSends(mid, rest);
      SendsConcat(cache, ts, rest);
      EventsConcat(ts, rest);
      StillAgrees(cache, mid, after, queue, finished, i);
      UntouchedByAll(cache, mid, after, queue, finished, i);
    }
  }

  lemma NoEffects(cache: seq<Slot>, queue: seq<TO.Request>, finished: seq<TO.Done>)
    requires |finished| <= |queue|
    ensures AC.AfterSends(cache, []) == cache && AC.SendEvents(cache, []) == Events([])
    ensures Untouched(cache, cache, queue, finished, |finished|)
  {
  }

  lemma EventsConcat(a: seq<AC.Transport>, b: seq<AC.Transport>)
    ensures Events(a + b) == Events(a) + Events(b)
  {
  }

  lemma StillAgrees(cache: seq<Slot>, mid: seq<Slot>, after: seq<Slot>, queue: seq<TO.Request>,
                    finished: seq<TO.Done>, i: nat)
    requires OnlyWaiting(queue, finished) && i < |finished| && Untouched(mid, after, queue, finished, i + 1)
    requires Linked(cache, queue, i) && Agrees(mid, queue[i], finished[i])
    ensures Agrees(after, queue[i], finished[i])
  {
    if !finished[i].Dropped? {
      assert after[queue[i].key] == mid[queue[i].key];
    }
  }

  lemma {:induction false} SendsConcat(cache: seq<Slot>, a: seq<AC.Transport>, b: seq<AC.Transport>)
    ensures AC.AfterSends(cache, a + b) == AC.AfterSends(AC.AfterSends(cache, a), b)
    ensures AC.SendEvents(cache, a + b) == AC.SendEvents(cache, a) + AC.SendEvents(AC.AfterSends(cache, a), b)
    decreases |a|
  {
    if a == [] {
      assert a + b == b;
    } else {
      assert (a + b)[1..] == a[1..] + b;
      SendsConcat(AC.AfterSend(cache, a[0]), a[1..], b);
    }
  }

  lemma SettledWereWaiting(queue: seq<TO.Request>, finished: seq<TO.Done>, left: seq<TO.Request>, turns: seq<TO.Turn>,
                           sndTimeout: nat)
    requires TO.Settled(queue, finished, left, turns, sndTimeout)
    ensures OnlyWaiting(queue, finished) && |finished| <= |queue|
  {
    hide TO.Write;
  }

  lemma RestIsLinked(cache: seq<Slot>, queue: seq<TO.Request>, n: nat, rest: seq<TO.Request>)
    requires n <= |queue| && |rest| == |queue| - n && Linked(cache, queue, n)
    requires forall j :: 0 <= j < |rest| ==> rest[j].key == queue[n + j].key && rest[j].state == queue[n + j].state
    ensures Linked(cache, rest, 0)
  {
  }

  /**
   * One dispatch of the TCP client: the send loop empties its queue, and the request cache takes exactly the `Sent` and
   * `SendFailed` events of the requests that left it, in their order. Afterwards every handle is in the state in which
   * its request left, and the rest of the queue is linked to the cache as before.
   */
  method Dispatch(client: AC.AsyncClient, out: TO.TcpOutput, turns: seq<TO.Turn>, round: AC.Round,
                  ghost before: Ring, ghost es: seq<Event>)
    returns (stop: TO.Stop, ghost finished: seq<TO.Done>, ghost fs: seq<Event>)
    requires client.Valid() && Inv(before) && client.Follows(before, es)
    requires out.Valid() && TO.Monotone(out.clock, turns) && Linked(client.reqCache, out.reqQueue, 0)
    modifies client`reqCache, client`responses
    modifies out`reqQueue, out`roundStartAt, out`roundCount, out`log, out`clock
    ensures client.Valid() && client.Follows(before, fs) && out.Valid()
    ensures |finished| <= |old(out.reqQueue)|
    ensures fs == es + Events(Effects(old(out.reqQueue), finished, 0))
    ensures forall j :: 0 <= j < |finished| ==> Agrees(client.reqCache, old(out.reqQueue)[j], finished[j])
    ensures Linked(client.reqCache, out.reqQueue, 0)
    ensures client.responses == old(client.responses) + round.arrivals
  {
    hide Inv, Effects, Agrees, Linked, Untouched, AC.AfterSends, AC.SendEvents, Events, OnlyWaiting;
    hide TO.Settled, TO.Logged, TO.RoundAfter, TO.Write, TO.Throttled, TO.Monotone;
    var queue := out.reqQueue;
    ghost var cache := client.reqCache;
    var done, left;
    stop, done, left := out.HandleOutput(turns);
    finished := done;
    SettledWereWaiting(queue, done, left, turns, out.sndTimeout);
    EffectsAreEvents(cache, queue, done, 0);
    fs := client.Dispatch(round.(transport := Effects(queue, done, 0)), before, es);
    RestIsLinked(client.reqCache, queue, |done|, out.reqQueue);
  }
}
