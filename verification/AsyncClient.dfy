/**
 * The async client itself (src/ksi/net_async.c): the object whose methods update the request cache. Every method is
 * proved to perform events of `RequestRing`, so whatever holds of every run there holds of every use of this object.
 * The transport, the clock and the server are parameters.
 */
module AsyncClient {
  import opened Common
  import opened RequestRing

  /** What the transport did to one request during a dispatch. */
  datatype Transport = Written(slot: nat, time: int) | Dropped(slot: nat, err: int)

  /** One PDU of the response queue, with the outcomes of the parsing and checking code it meets. */
  datatype Pdu =
    | Broken(code: ErrorCode)                                // could not be parsed or authenticated
    | ErrorPdu(status: int)                                  // convertStatusCode of the error payload
    | Response(id: nat, verified: int, status: int)          // resp_verifyWithRequest, convertStatusCode

  /** What the outside world contributes to one call of asyncClient_run. */
  datatype Round = Round(clock: nat -> int, transport: seq<Transport>, arrivals: seq<Pdu>, outcome: int)

  /** A request in the slot that waits for dispatch becomes a sent or a failed one; anything else stays as it is. */
  function AfterSend(cache: seq<Slot>, t: Transport): seq<Slot> {
    if !Waits(cache, t.slot) then cache
    else
      var h := cache[t.slot].value;
      match t
      case Written(slot, time) => cache[slot := Some(h.(state := WaitingForResponse, sndTime := time))]
      case Dropped(slot, err) => cache[slot := Some(h.(state := Error, err := err))]
  }

  function AfterSends(cache: seq<Slot>, ts: seq<Transport>): seq<Slot>
    decreases |ts|
  {
    if ts == [] then cache else AfterSends(AfterSend(cache, ts[0]), ts[1..])
  }

  function SendEvent(t: Transport): Event {
    match t
    case Written(slot, time) => Sent(slot, time)
    case Dropped(slot, err) => SendFailed(slot, err)
  }

  /** The events of the ring that a transport script stands for. */
  function SendEvents(cache: seq<Slot>, ts: seq<Transport>): seq<Event>
    decreases |ts|
  {
    if ts == [] then []
    else (if Waits(cache, ts[0].slot) then [SendEvent(ts[0])] else []) + SendEvents(AfterSend(cache, ts[0]), ts[1..])
  }

  /** Does the request with this id wait for its response? */
  predicate Awaited(cache: seq<Slot>, id: nat) {
    var to := Addressee(cache, id);
    to.Some? && cache[to.value].value.state == WaitingForResponse
  }

  ghost function Failing(r: Ring, err: int): Ring { r.(cache := FailAll(r.cache, err)) }

  /** The ring after the responses, and what the processing returns; `err` is the last error PDU so far. */
  ghost function Processed(r: Ring, pdus: seq<Pdu>, err: Option<int>): (Ring, int)
    decreases |pdus|
  {
    if pdus == [] then (if err.Some? then Failing(r, err.value) else r, KSI_OK)
    else
      match pdus[0]
      case Broken(code) => (r, code)
      case ErrorPdu(status) => Processed(r, pdus[1..], Some(status))
      case Response(id, verified, status) =>
        if Awaited(r.cache, id) && verified != KSI_OK then (r, verified)
        else Processed(Apply(r, Answer(id, status)), pdus[1..], err)
  }

  /** The ring after one round of the outside world, when the search for a finished handle begins. */
  ghost function Served(r: Ring, responses: seq<Pdu>, round: Round): Ring {
    var sent := r.(cache := AfterSends(r.cache, round.transport));
    var r1 := if round.outcome != KSI_OK && round.outcome != KSI_ASYNC_CONNECTION_CLOSED
              then Failing(sent, round.outcome) else sent;
    var (r2, res) := Processed(r1, responses + round.arrivals, None);
    var r3 := if res != KSI_OK then Failing(r2, res) else r2;
    if round.outcome == KSI_ASYNC_CONNECTION_CLOSED then Failing(r3, KSI_ASYNC_CONNECTION_CLOSED) else r3
  }

  // ----- requests that a round does not serve -----

  /** Nothing fails in the round, and no response is for the request in slot i, which waits for one. */
  ghost predicate Unserved(r: Ring, responses: seq<Pdu>, round: Round, i: nat) {
    && i < |r.cache| && r.cache[i].Some? && r.cache[i].value.state == WaitingForResponse
    && round.outcome == KSI_OK
    && var pdus := responses + round.arrivals;
       forall k :: 0 <= k < |pdus| ==> IsForOther(pdus[k], r.cache[i].value.id)
  }

  predicate IsForOther(pdu: Pdu, id: nat) { pdu.Response? && pdu.verified == KSI_OK && pdu.id != id }

  lemma {:induction false} SendsLeaveOthers(cache: seq<Slot>, ts: seq<Transport>, i: nat)
    requires i < |cache| && !Waits(cache, i)
    ensures |AfterSends(cache, ts)| == |cache| && AfterSends(cache, ts)[i] == cache[i]
    decreases |ts|
  {
    if ts != [] {
      SendsLeaveOthers(AfterSend(cache, ts[0]), ts[1..], i);
    }
  }

  lemma {:induction false} ResponsesLeaveOthers(r: Ring, pdus: seq<Pdu>, i: nat)
    requires i < |r.cache| && r.cache[i].Some?
    requires forall k :: 0 <= k < |pdus| ==> IsForOther(pdus[k], r.cache[i].value.id)
    ensures var (r', res) := Processed(r, pdus, None);
            res == KSI_OK && |r'.cache| == |r.cache| && r'.cache[i] == r.cache[i]
    decreases |pdus|
  {
    if pdus != [] {
      assert IsForOther(pdus[0], r.cache[i].value.id);
      var r' := Apply(r, Answer(pdus[0].id, pdus[0].status));
      assert r'.cache[i] == r.cache[i];
      ResponsesLeaveOthers(r', pdus[1..], i);
    }
  }

  // ----- the codes that errors leave -----

  /** The code of the last error PDU, or `err` if there is none. */
  function LastError(pdus: seq<Pdu>, err: Option<int>): Option<int>
    decreases |pdus|
  {
    if pdus == [] then err else LastError(pdus[1..], if pdus[0].ErrorPdu? then Some(pdus[0].status) else err)
  }

  /** What a code makes of a waiting request. */
  function FailedWith(h: Handle, code: Option<int>): Handle {
    if code.Some? then h.(state := Error, err := code.value) else h
  }

  /** A request that nothing is received for gets the code of the last error PDU, if there is one. */
  lemma {:induction false} ErrorPduLeavesItsCode(r: Ring, pdus: seq<Pdu>, err: Option<int>, i: nat)
    requires i < |r.cache| && r.cache[i].Some? && r.cache[i].value.state == WaitingForResponse
    requires forall k :: 0 <= k < |pdus| ==> pdus[k].ErrorPdu? || IsForOther(pdus[k], r.cache[i].value.id)
    ensures var (r', res) := Processed(r, pdus, err);
            && res == KSI_OK && |r'.cache| == |r.cache|
            && r'.cache[i] == Some(FailedWith(r.cache[i].value, LastError(pdus, err)))
    decreases |pdus|
  {
    if pdus != [] {
      var pdu := pdus[0];
      if pdu.ErrorPdu? {
        ErrorPduLeavesItsCode(r, pdus[1..], Some(pdu.status), i);
      } else {
        assert IsForOther(pdu, r.cache[i].value.id);
        var r' := Apply(r, Answer(pdu.id, pdu.status));
        assert r'.cache[i] == r.cache[i];
        ErrorPduLeavesItsCode(r', pdus[1..], err, i);
      }
    }
  }

  /** A request that does not wait for a response any more is left alone by whatever is received. */
  lemma {:induction false} FinishedIsKept(r: Ring, pdus: seq<Pdu>, err: Option<int>, i: nat)
    requires i < |r.cache| && r.cache[i].Some? && r.cache[i].value.state != WaitingForResponse
    ensures |Processed(r, pdus, err).0.cache| == |r.cache| && Processed(r, pdus, err).0.cache[i] == r.cache[i]
    decreases |pdus|
  {
    if pdus != [] {
      match pdus[0]
      case Broken(_) =>
      case ErrorPdu(status) => FinishedIsKept(r, pdus[1..], Some(status), i);
      case Response(id, verified, status) =>
        if !(Awaited(r.cache, id) && verified != KSI_OK) {
          var r' := Apply(r, Answer(id, status));
          assert r'.cache[i] == r.cache[i];
          FinishedIsKept(r', pdus[1..], err, i);
        }
    }
  }

  /** What a verified response with this status makes of the request it is for. */
  function AnsweredWith(h: Handle, status: int): Handle {
    if status == KSI_OK then h.(state := ResponseReceived) else h.(state := Error, err := status)
  }

  /** The first response for a request decides, with its own status, whatever else is received. */
  lemma {:induction false} FirstResponseDecides(r: Ring, before: seq<Pdu>, status: int, after: seq<Pdu>,
                                                err: Option<int>, i: nat)
    requires i < |r.cache| && r.cache[i].Some? && r.cache[i].value.state == WaitingForResponse
    requires i < ID_OFFSET && r.cache[i].value.id % ID_OFFSET == i
    requires forall k :: 0 <= k < |before| ==> before[k].ErrorPdu? || IsForOther(before[k], r.cache[i].value.id)
    ensures var pdus := before + [Response(r.cache[i].value.id, KSI_OK, status)] + after;
            var r' := Processed(r, pdus, err).0;
            |r'.cache| == |r.cache| && r'.cache[i] == Some(AnsweredWith(r.cache[i].value, status))
    decreases |before|
  {
    var h := r.cache[i].value;
    var pdus := before + [Response(h.id, KSI_OK, status)] + after;
    if before == [] {
      assert Addressee(r.cache, h.id) == Some(i);
      assert pdus[0] == Response(h.id, KSI_OK, status) && pdus[1..] == after;
      var r' := Apply(r, Answer(h.id, status));
      assert r'.cache[i] == Some(AnsweredWith(h, status));
      FinishedIsKept(r', after, err, i);
    } else {
      var pdu, rest := before[0], before[1..];
      assert pdus[0] == pdu && pdus[1..] == rest + [Response(h.id, KSI_OK, status)] + after;
      if pdu.ErrorPdu? {
        FirstResponseDecides(r, rest, status, after, Some(pdu.status), i);
      } else {
        assert IsForOther(pdu, h.id);
        var r' := Apply(r, Answer(pdu.id, pdu.status));
        assert r'.cache[i] == r.cache[i];
        FirstResponseDecides(r', rest, status, after, err, i);
      }
    }
  }

  /** What a round makes of a waiting request that no response is for: the transport's code, an error PDU's, or none. */
  function RoundCode(outcome: int, pdus: seq<Pdu>): Option<int> {
    if outcome != KSI_OK && outcome != KSI_ASYNC_CONNECTION_CLOSED then Some(outcome)
    else LastError(pdus, None)
  }

  lemma RoundLeavesItsCode(r: Ring, responses: seq<Pdu>, round: Round, i: nat)
    requires i < |r.cache| && r.cache[i].Some? && r.cache[i].value.state == WaitingForResponse
    requires var pdus := responses + round.arrivals;
             forall k :: 0 <= k < |pdus| ==> pdus[k].ErrorPdu? || IsForOther(pdus[k], r.cache[i].value.id)
    ensures var code := RoundCode(round.outcome, responses + round.arrivals);
            var closed := round.outcome == KSI_ASYNC_CONNECTION_CLOSED && code.None?;
            var r' := Served(r, responses, round);
            && |r'.cache| == |r.cache|
            && r'.cache[i] ==
               Some(FailedWith(r.cache[i].value, if closed then Some(KSI_ASYNC_CONNECTION_CLOSED) else code))
  {
    hide AfterSends, Processed, LastError;
    SendsLeaveOthers(r.cache, round.transport, i);
    var sent := r.(cache := AfterSends(r.cache, round.transport));
    var pdus := responses + round.arrivals;
    if round.outcome != KSI_OK && round.outcome != KSI_ASYNC_CONNECTION_CLOSED {
      FinishedIsKept(Failing(sent, round.outcome), pdus, None, i);
    } else {
      ErrorPduLeavesItsCode(sent, pdus, None, i);
    }
  }

  lemma UnservedIsKept(r: Ring, responses: seq<Pdu>, round: Round, i: nat)
    requires Unserved(r, responses, round, i)
    ensures |Served(r, responses, round).cache| == |r.cache| && Served(r, responses, round).cache[i] == r.cache[i]
  {
    hide AfterSends, Processed;
    SendsLeaveOthers(r.cache, round.transport, i);
    var sent := r.(cache := AfterSends(r.cache, round.transport));
    ResponsesLeaveOthers(sent, responses + round.arrivals, i);
  }

  class AsyncClient {
    var reqCache: seq<Slot>          // of length options[KSI_ASYNC_OPT_REQUEST_CACHE_SIZE]
    var pending: int
    var received: int
    var requestCount: nat
    var requestCountOffset: nat
    var tail: nat
    var rcvTimeout: nat              // options[KSI_ASYNC_OPT_RCV_TIMEOUT]
    const endpointId: nat            // options[KSI_ASYNC_PRIVOPT_ENDPOINT_ID]
    var responses: seq<Pdu>          // the transport's response queue

    ghost var wraps: nat
    ghost var history: seq<Allocation>
    ghost var owner: seq<nat>
    ghost var returned: set<nat>

    ghost function View(): Ring
      reads this
    {
      Ring(endpointId, reqCache, pending, received, requestCount, requestCountOffset, tail, wraps, history, owner,
           returned)
    }

    ghost predicate Valid()
      reads this
    {
      Inv(View())
    }

    /** `es` leads from `before` to the present state. */
    ghost predicate Follows(before: Ring, es: seq<Event>)
      reads this
    {
      Runs(before, es) && Exec(before, es) == View()
    }

    /** KSI_AbstractAsyncClient_new: one usable slot, ten seconds of patience. */
    constructor (endpointId: nat)
      ensures Valid() && View() == Initial(1, endpointId)
      ensures this.endpointId == endpointId && responses == [] && rcvTimeout == 10
    {
      reqCache := seq(2, _ => None);
      pending, received := 0, 0;
      requestCount, requestCountOffset, tail := 0, 0, CACHE_START_POS;
      rcvTimeout := 10;
      this.endpointId := endpointId;
      responses := [];
      wraps, history, owner, returned := 0, [], seq(2, _ => 0), {};
      new;
      InitialKeepsInv(1, endpointId);
      assert reqCache == Initial(1, endpointId).cache;
      assert owner == Initial(1, endpointId).owner;
    }

    /**
     * asyncClient_calculateRequestId: moves to the next free slot in cyclic order, counting turns of the ring, or
     * reports a full cache. `steps` is the number of slots it looked at.
     */
    method CalculateRequestId() returns (res: int, id: nat, offset: nat, ghost steps: nat)
      requires Valid()
      modifies this`requestCount, this`requestCountOffset, this`wraps
      ensures res == KSI_OK || res == KSI_ASYNC_REQUEST_CACHE_FULL
      ensures res == KSI_ASYNC_REQUEST_CACHE_FULL <==>
              forall i :: CACHE_START_POS <= i < |reqCache| ==> reqCache[i].Some?
      ensures res != KSI_OK ==> View() == old(View())
      ensures res == KSI_OK ==>
                && IsNextFree(reqCache, old(requestCount), id)
                && id == requestCount && offset == requestCountOffset
                && wraps == old(wraps) + (if id <= old(requestCount) then 1 else 0)
                && offset == wraps % ID_OFFSET_MAX
      ensures res == KSI_OK ==>
                && steps == (if old(requestCount) < id then id - old(requestCount)
                             else |reqCache| - 1 - old(requestCount) + id)
                && 1 <= steps <= |reqCache| - 1
    {
      CacheFullIsExact(View());
      assert Shaped(View());
      hide Inv;
      ghost var start := requestCount;
      ghost var turned := false;
      steps := 0;
      id, offset := 0, 0;
      while true
        invariant requestCount < |reqCache| && requestCountOffset == wraps % ID_OFFSET_MAX
        invariant !turned ==> start <= requestCount && wraps == old(wraps) && steps == requestCount - start
        invariant turned ==> 1 <= requestCount <= start && wraps == old(wraps) + 1
                             && steps == |reqCache| - 1 - start + requestCount
        invariant forall j :: CACHE_START_POS <= j < |reqCache| && reqCache[j].None? ==>
                    if turned then requestCount < j <= start else j <= start || requestCount < j
        invariant steps > 0 ==> !forall i :: CACHE_START_POS <= i < |reqCache| ==> reqCache[i].Some?
        invariant steps == 0 ==> requestCount == start && !turned && View() == old(View())
        decreases |reqCache| - steps
      {
        if |reqCache| == pending + received + 1 {
          return KSI_ASYNC_REQUEST_CACHE_FULL, 0, 0, steps;
        }
        requestCount := requestCount + 1;
        if requestCount == |reqCache| {
          NextTurn(wraps);
          requestCountOffset := (requestCountOffset + 1) % ID_OFFSET_MAX;
          requestCount := CACHE_START_POS;
          wraps, turned := wraps + 1, true;
        }
        steps := steps + 1;
        if reqCache[requestCount].None? {
          break;
        }
      }
      return KSI_OK, requestCount, requestCountOffset, steps;
    }

    /**
     * addRequest for a plain request (src/ksi/net_async.c:666-826). `prepared` is the status of building the PDU,
     * `queued` the status of the transport's addRequest; the handle must not be in the cache already.
     */
    method AddRequest(handle: Handle, prepared: int, queued: int) returns (res: int, ghost es: seq<Event>)
      requires Valid() && !Owes(reqCache, handle.key)
      modifies this
      ensures Valid() && Follows(old(View()), es)
      ensures unchanged(`rcvTimeout) && unchanged(`responses)
      ensures res == KSI_ASYNC_REQUEST_CACHE_FULL && es == [] <==>
              forall i :: CACHE_START_POS <= i < |old(reqCache)| ==> old(reqCache)[i].Some?
      ensures es != [] ==>
                && es == [Add(requestCount, handle, res == KSI_OK)]
                && res == (if prepared != KSI_OK then prepared else queued)
      ensures es == [] ==> View() == old(View()) && res == KSI_ASYNC_REQUEST_CACHE_FULL
      ensures es != [] ==> Enabled(old(View()), es[0]) && View() == Apply(old(View()), es[0])
      ensures forall k :: Owes(reqCache, k) <==> Owes(old(reqCache), k) || (res == KSI_OK && k == handle.key)
    {
      hide Ordered, Traced, Accounted, Runs, Exec, DistinctKeys, Owes, Skipped, Passed, Finished, FailAll, Addressee;
      ghost var before := View();
      var id, offset;
      ghost var steps;
      res, id, offset, steps := CalculateRequestId();
      if res != KSI_OK {
        EmptyRun();
        es := [];
        return;
      }
      res := if prepared != KSI_OK then prepared else queued;
      var h := handle.(parentId := endpointId);
      if res == KSI_OK {
        reqCache := reqCache[id := Some(h.(id := RequestId(offset, id), state := WaitingForDispatch))];
        pending := pending + 1;
        owner := owner[id := |history|];
        history := history + [Allocation(handle.key, wraps, id)];
      }
      es := [Add(id, handle, res == KSI_OK)];
      assert Enabled(before, es[0]);
      assert View() == Apply(before, es[0]);
      SingleRun(before, es[0]);
      StepKeepsInv(before, es[0]);
      forall k
        ensures Owes(reqCache, k) <==> Owes(before.cache, k) || (res == KSI_OK && k == handle.key)
      {
        StepKeepsOwed(before, es[0], k);
      }
    }

    /** One event extends a run. */
    ghost method Extend(before: Ring, es: seq<Event>, mid: Ring, e: Event) returns (fs: seq<Event>)
      requires Inv(before) && Runs(before, es) && Exec(before, es) == mid && Inv(mid)
      requires Enabled(mid, e) && View() == Apply(mid, e)
      ensures fs == es + [e] && Follows(before, fs) && Valid()
    {
      hide Inv, Enabled, Apply;
      fs := es + [e];
      SingleRun(mid, e);
      RunsConcat(before, es, [e]);
      StepKeepsInv(mid, e);
    }

    /** asyncClient_setResponseError with state KSI_ASYNC_STATE_WAITING_FOR_RESPONSE (src/ksi/net_async.c:898-918). */
    method SetResponseError(err: int, ghost before: Ring, ghost es: seq<Event>) returns (ghost fs: seq<Event>)
      requires Valid() && Inv(before) && Follows(before, es)
      modifies this`reqCache
      ensures reqCache == FailAll(old(reqCache), err)
      ensures Valid() && fs == es + [FailWaiting(err)] && Follows(before, fs)
    {
      hide Ordered, Traced, Accounted, Runs, Exec, DistinctKeys, Owes;
      ghost var mid := View();
      for i := CACHE_START_POS to |reqCache|
        invariant |reqCache| == |old(reqCache)|
        invariant forall j :: 0 <= j < i ==> reqCache[j] == FailIfWaiting(old(reqCache)[j], err)
        invariant forall j :: i <= j < |reqCache| ==> reqCache[j] == old(reqCache)[j]
      {
        if reqCache[i].Some? && reqCache[i].value.state == WaitingForResponse {
          reqCache := reqCache[i := Some(reqCache[i].value.(state := Error, err := err))];
        }
      }
      assert reqCache == FailAll(old(reqCache), err);
      fs := Extend(before, es, mid, FailWaiting(err));
    }

    /** handleResponse (src/ksi/net_async.c:920-1002): only the slot whose full id matches can change. */
    method HandleResponse(id: nat, verified: int, status: int, ghost before: Ring, ghost es: seq<Event>)
      returns (res: int, ghost fs: seq<Event>)
      requires Valid() && Inv(before) && Follows(before, es)
      modifies this`reqCache, this`pending, this`received
      ensures Valid() && Follows(before, fs)
      ensures var to := Addressee(old(reqCache), id);
              var awaited := to.Some? && old(reqCache)[to.value].value.state == WaitingForResponse;
              && res == (if awaited && verified != KSI_OK then verified else KSI_OK)
              && fs == (if awaited && verified != KSI_OK then es else es + [Answer(id, status)])
              && View() == (if awaited && verified != KSI_OK then old(View())
                            else Apply(old(View()), Answer(id, status)))
    {
      hide Inv, Runs, Exec;
      ghost var mid := View();
      var slot := id % ID_OFFSET;
      if |reqCache| <= slot || reqCache[slot].None? || reqCache[slot].value.id != id {
        fs := Extend(before, es, mid, Answer(id, status));
        return KSI_OK, fs;
      }
      var handle := reqCache[slot].value;
      if handle.state == WaitingForResponse {
        if verified != KSI_OK {
          return verified, es;
        }
        if status != KSI_OK {
          reqCache := reqCache[slot := Some(handle.(state := Error, err := status))];
        } else {
          reqCache := reqCache[slot := Some(handle.(state := ResponseReceived))];
          pending := pending - 1;
          received := received + 1;
        }
      }
      fs := Extend(before, es, mid, Answer(id, status));
      return KSI_OK, fs;
    }

    /**
     * processResponseQueue (src/ksi/net_async.c:1143-1286): takes the responses in order, keeps the last error PDU
     * for the end, and stops at the first response that is broken or does not match its request.
     */
    method ProcessResponseQueue(ghost before: Ring, ghost es: seq<Event>) returns (res: int, ghost fs: seq<Event>)
      requires Valid() && Inv(before) && Follows(before, es)
      modifies this`reqCache, this`pending, this`received, this`responses
      ensures Valid() && Follows(before, fs)
      ensures |responses| <= |old(responses)| && responses == old(responses)[|old(responses)| - |responses|..]
      ensures res == KSI_OK ==> responses == []
      ensures res == KSI_OK && (exists i :: 0 <= i < |old(responses)| && old(responses)[i].ErrorPdu?) ==>
                forall i :: 0 <= i < |reqCache| && reqCache[i].Some? ==> reqCache[i].value.state != WaitingForResponse
      ensures (View(), res) == Processed(old(View()), old(responses), None)
      ensures SameOwed(old(reqCache))
    {
      hide Inv, Runs, Exec, Apply, Enabled, Addressee, Owes;
      res, fs := KSI_OK, es;
      var errPdu: Option<int> := None;
      ghost var taken := 0;
      while responses != []
        invariant Valid() && Follows(before, fs) && SameOwed(old(reqCache)) && res == KSI_OK
        invariant taken <= |old(responses)| && responses == old(responses)[taken..]
        invariant errPdu.None? <==> forall i :: 0 <= i < taken ==> !old(responses)[i].ErrorPdu?
        invariant Processed(View(), responses, errPdu) == Processed(old(View()), old(responses), None)
        decreases |responses|
      {
        var pdu := responses[0];
        responses := responses[1..];
        taken := taken + 1;
        ghost var cache := reqCache;
        match pdu
        case Broken(code) =>
          return code, fs;
        case ErrorPdu(status) =>
          errPdu := Some(status);
          assert old(responses)[taken - 1].ErrorPdu?;
        case Response(id, verified, status) =>
          ghost var mid := View();
          res, fs := HandleResponse(id, verified, status, before, fs);
          if View() != mid {
            AnswerKeepsOwed(mid, id, status);
          }
          if res != KSI_OK {
            return;
          }
      }
      if errPdu.Some? {
        ghost var mid := View();
        fs := SetResponseError(errPdu.value, before, fs);
        FailKeepsOwed(mid, errPdu.value);
      }
    }

    /** The handles that are owed are those of `cache`. */
    ghost predicate SameOwed(cache: seq<Slot>)
      reads this
    {
      forall k :: Owes(reqCache, k) <==> Owes(cache, k)
    }

    lemma AnswerKeepsOwed(mid: Ring, id: nat, status: int)
      requires Inv(mid) && reqCache == Apply(mid, Answer(id, status)).cache
      ensures SameOwed(mid.cache)
    {
      forall k
        ensures Owes(reqCache, k) <==> Owes(mid.cache, k)
      {
        StepKeepsOwed(mid, Answer(id, status), k);
      }
    }

    lemma SentKeepsOwed(mid: Ring, e: Event)
      requires Inv(mid) && (e.Sent? || e.SendFailed?) && Enabled(mid, e) && reqCache == Apply(mid, e).cache
      ensures SameOwed(mid.cache)
    {
      forall k
        ensures Owes(reqCache, k) <==> Owes(mid.cache, k)
      {
        StepKeepsOwed(mid, e, k);
      }
    }

    lemma FailKeepsOwed(mid: Ring, err: int)
      requires Inv(mid) && reqCache == FailAll(mid.cache, err)
      ensures SameOwed(mid.cache)
    {
      forall k
        ensures Owes(reqCache, k) <==> Owes(mid.cache, k)
      {
        StepKeepsOwed(mid, FailWaiting(err), k);
      }
    }

    /** The transport moves requests out of its send queue: each is written to the socket or given up. */
    method Dispatch(round: Round, ghost before: Ring, ghost es: seq<Event>) returns (ghost fs: seq<Event>)
      requires Valid() && Inv(before) && Follows(before, es)
      modifies this`reqCache, this`responses
      ensures Valid() && Follows(before, fs)
      ensures fs == es + SendEvents(old(reqCache), round.transport)
      ensures reqCache == AfterSends(old(reqCache), round.transport)
      ensures responses == old(responses) + round.arrivals
      ensures SameOwed(old(reqCache))
    {
      hide Inv, Runs, Exec, Owes, AfterSend, Waits;
      fs := es;
      var ts := round.transport;
      assert ts[0..] == ts;
      for i := 0 to |ts|
        invariant Valid() && Follows(before, fs) && SameOwed(old(reqCache)) && responses == old(responses)
        invariant fs + SendEvents(reqCache, ts[i..]) == es + SendEvents(old(reqCache), ts)
        invariant AfterSends(reqCache, ts[i..]) == AfterSends(old(reqCache), ts)
      {
        assert ts[i..][1..] == ts[i + 1..];
        fs := SendOne(ts[i], before, fs);
      }
      responses := responses + round.arrivals;
    }

    /** One request is written or given up, if it still waits for that. */
    method SendOne(t: Transport, ghost before: Ring, ghost es: seq<Event>) returns (ghost fs: seq<Event>)
      requires Valid() && Inv(before) && Follows(before, es)
      modifies this`reqCache
      ensures Valid() && Follows(before, fs)
      ensures fs == es + (if Waits(old(reqCache), t.slot) then [SendEvent(t)] else [])
      ensures reqCache == AfterSend(old(reqCache), t)
      ensures SameOwed(old(reqCache))
    {
      hide Inv, Runs, Exec, Owes;
      fs := es;
      if Waits(reqCache, t.slot) {
        ghost var mid := View();
        reqCache := AfterSend(reqCache, t);
        fs := Extend(before, fs, mid, SendEvent(t));
        SentKeepsOwed(mid, SendEvent(t));
      }
    }

    /** asyncClient_finalizeRequest for the finished handle at `tail`; `mid` is the state in which the search began. */
    method TakeTail(clock: nat -> int, ghost mid: Ring, ghost before: Ring, ghost es: seq<Event>)
      returns (h: Handle, ghost fs: seq<Event>)
      requires Inv(before) && Runs(before, es) && Exec(before, es) == mid && Inv(mid)
      requires View() == mid.(tail := tail) && Enabled(mid, Return(tail, clock, rcvTimeout))
      modifies this`reqCache, this`pending, this`received, this`returned
      ensures Valid() && fs == es + [Return(tail, clock, rcvTimeout)] && Follows(before, fs)
      ensures h == Finalized(mid.cache[tail].value) && reqCache == mid.cache[tail := None]
      ensures forall k :: Owes(reqCache, k) <==> Owes(mid.cache, k) && k != h.key
    {
      hide Ordered, Traced, Accounted, Runs, Exec, Owes, Passed;
      h := Finalized(reqCache[tail].value);
      if h.state == ResponseReceived {
        received := received - 1;
      } else {
        pending := pending - 1;
      }
      reqCache := reqCache[tail := None];
      returned := returned + {owner[tail]};
      fs := Extend(before, es, mid, Return(tail, clock, rcvTimeout));
      forall k
        ensures Owes(reqCache, k) <==> Owes(mid.cache, k) && k != h.key
      {
        StepKeepsOwed(mid, Return(tail, clock, rcvTimeout), k);
      }
    }

    /**
     * asyncClient_findNextResponse with asyncClient_finalizeRequest (src/ksi/net_async.c:1318-1399): the first
     * finished handle in cyclic order from `tail`, or none if no handle is finished. `clock` says what time it is when
     * a slot is looked at.
     */
    method FindNextResponse(clock: nat -> int, ghost before: Ring, ghost es: seq<Event>)
      returns (handle: Option<Handle>, ghost fs: seq<Event>)
      requires Valid() && Inv(before) && Follows(before, es)
      modifies this`reqCache, this`tail, this`pending, this`received, this`returned
      ensures Valid() && Follows(before, fs)
      ensures handle.None? <==> forall i :: 0 <= i < |old(reqCache)| ==>
                !Finished(old(reqCache)[i], clock(i), rcvTimeout)
      ensures handle.None? ==> View() == old(View()) && fs == es
      ensures handle.Some? ==>
                && fs == es + [Return(tail, clock, rcvTimeout)]
                && tail < |old(reqCache)| && reqCache == old(reqCache)[tail := None]
                && old(reqCache)[tail].Some? && handle.value == Finalized(old(reqCache)[tail].value)
                && Finished(old(reqCache)[tail], clock(tail), rcvTimeout)
                && handle.value.parentId == endpointId
                && (handle.value.state == ResponseReceived || handle.value.state == Error)
                && Owes(old(reqCache), handle.value.key)
      ensures forall k :: Owes(reqCache, k) <==> Owes(old(reqCache), k) && (handle.Some? ==> k != handle.value.key)
    {
      hide Ordered, Traced, Accounted, Runs, Exec, DistinctKeys, Apply;
      ghost var mid := View();
      fs := es;
      if pending == 0 && received == 0 {
        NothingWaitingIffNothingCached();
        return None, fs;
      }
      var last := tail;
      ghost var first := true;
      while true
        invariant CACHE_START_POS <= tail < |reqCache| && View() == mid.(tail := tail)
        invariant first ==> tail == last
        invariant !first ==> tail != last
        invariant forall j :: CACHE_START_POS <= j < |reqCache| && Finished(reqCache[j], clock(j), rcvTimeout) ==>
                    !Passed(last, tail, j)
        decreases if tail >= last then |reqCache| - tail + last else last - tail
      {
        if Finished(reqCache[tail], clock(tail), rcvTimeout) {
          var h;
          h, fs := TakeTail(clock, mid, before, es);
          handle := Some(h);
          return;
        }
        tail := tail + 1;
        if tail == |reqCache| {
          tail := CACHE_START_POS;
        }
        first := false;
        if tail == last {
          break;
        }
      }
      handle := None;
    }

    /** asyncClient_run (src/ksi/net_async.c:1401-1458); `want` says whether the caller passed a handle pointer. */
    method Run(round: Round, want: bool) returns (handle: Option<Handle>, waiting: nat, ghost es: seq<Event>)
      requires Valid()
      modifies this`reqCache, this`responses, this`tail, this`pending, this`received, this`returned
      ensures Valid() && Follows(old(View()), es)
      ensures waiting == pending + received
      ensures waiting == 0 <==> forall i :: 0 <= i < |reqCache| ==> reqCache[i].None?
      ensures handle.Some? ==> want && Owes(old(reqCache), handle.value.key) && handle.value.parentId == endpointId
                               && (handle.value.state == ResponseReceived || handle.value.state == Error)
      ensures want && handle.None? ==> forall i :: 0 <= i < |reqCache| ==>
                !Finished(reqCache[i], round.clock(i), rcvTimeout)
      ensures forall k :: Owes(reqCache, k) <==> Owes(old(reqCache), k) && (handle.Some? ==> k != handle.value.key)
      ensures var mid := Served(old(View()), old(responses), round);
              && (handle.None? ==> View() == mid)
              && (handle.Some? ==>
                    && tail < |mid.cache| && mid.cache[tail].Some? && reqCache == mid.cache[tail := None]
                    && Finished(mid.cache[tail], round.clock(tail), rcvTimeout)
                    && handle.value == Finalized(mid.cache[tail].value))
              && (want ==> (handle.None? <==> forall i :: 0 <= i < |mid.cache| ==>
                              !Finished(mid.cache[i], round.clock(i), rcvTimeout)))
      ensures forall i :: 0 <= i < |old(reqCache)| && Unserved(old(View()), old(responses), round, i) ==>
                KeepsTime(old(reqCache), i, round.clock(i), want, handle)
    {
      hide Inv, Runs, Exec, Owes, Finished, Served;
      ghost var before := View();
      es := Serve(round);
      handle := None;
      if want {
        handle, es := FindNextResponse(round.clock, before, es);
      }
      forall i | 0 <= i < |old(reqCache)| && Unserved(before, old(responses), round, i)
        ensures KeepsTime(old(reqCache), i, round.clock(i), want, handle)
      {
        UnservedIsKept(before, old(responses), round, i);
        TimeoutIsExact(old(reqCache)[i].value, round.clock(i), rcvTimeout);
      }
      NothingWaitingIffNothingCached();
      waiting := pending + received;
    }

    /**
     * What a run does to a request in slot i that nothing was received for: up to `rcvTimeout` after it was sent it
     * stays where it is, and later some finished handle is returned; if it is this one, it has timed out.
     */
    ghost predicate KeepsTime(was: seq<Slot>, i: nat, now: int, want: bool, handle: Option<Handle>)
      requires i < |was| && was[i].Some?
      reads this
    {
      var h := was[i].value;
      && i < |reqCache|
      && (rcvTimeout > 0 && now <= h.sndTime + rcvTimeout ==> reqCache[i] == was[i])
      && (want && (rcvTimeout == 0 || now > h.sndTime + rcvTimeout) ==> handle.Some?)
      && (|| reqCache[i] == was[i]
          || (reqCache[i].None? && handle == Some(h.(state := Error, err := KSI_NETWORK_RECIEVE_TIMEOUT))))
    }

    /** The first part of a run: dispatch and the processing of responses. */
    method Serve(round: Round) returns (ghost es: seq<Event>)
      requires Valid()
      modifies this`reqCache, this`responses, this`pending, this`received
      ensures Valid() && Follows(old(View()), es) && SameOwed(old(reqCache))
      ensures View() == Served(old(View()), old(responses), round)
    {
      hide Inv, Runs, Exec, Owes, FailAll, AfterSends, SendEvents, Processed;
      ghost var before := View();
      EmptyRun();
      es := Dispatch(round, before, []);
      if round.outcome != KSI_OK && round.outcome != KSI_ASYNC_CONNECTION_CLOSED {
        es := FailWaitingHandles(round.outcome, before, es);
      }
      var res;
      res, es := ProcessResponseQueue(before, es);
      if res != KSI_OK {
        es := FailWaitingHandles(res, before, es);
      }
      if round.outcome == KSI_ASYNC_CONNECTION_CLOSED {
        es := FailWaitingHandles(KSI_ASYNC_CONNECTION_CLOSED, before, es);
      }
    }

    lemma EmptyRun()
      ensures Follows(View(), [])
    {
    }

    lemma NothingWaitingIffNothingCached()
      requires Valid()
      ensures 0 <= pending + received
      ensures pending + received == 0 <==> forall i :: 0 <= i < |reqCache| ==> reqCache[i].None?
    {
      CountExtremes(reqCache);
    }

    /** SetResponseError, with what it means for the handles owed. */
    method FailWaitingHandles(err: int, ghost before: Ring, ghost es: seq<Event>) returns (ghost fs: seq<Event>)
      requires Valid() && Inv(before) && Follows(before, es)
      modifies this`reqCache
      ensures Valid() && Follows(before, fs) && SameOwed(old(reqCache))
      ensures reqCache == FailAll(old(reqCache), err)
    {
      ghost var mid := View();
      fs := SetResponseError(err, before, es);
      FailKeepsOwed(mid, err);
    }

    /**
     * asyncClient_setOption for KSI_ASYNC_OPT_REQUEST_CACHE_SIZE (src/ksi/net_async.c:1501-1528): the cache never
     * shrinks, and growing keeps every handle in its slot. `granted` is the outcome of calloc. A cache of more than
     * 2^32 slots is outside the invariant: such a slot does not fit into the low bits of an id.
     */
    method SetCacheSize(size: nat, granted: bool) returns (res: int, ghost es: seq<Event>)
      requires Valid() && size < 0x1_0000_0000_0000_0000
      modifies this`reqCache, this`owner
      ensures Valid() <==> |reqCache| <= ID_OFFSET
      ensures |reqCache| <= ID_OFFSET ==> Follows(old(View()), es)
      ensures old(reqCache) <= reqCache && forall i :: |old(reqCache)| <= i < |reqCache| ==> reqCache[i].None?
      ensures res == KSI_OK ==> |reqCache| == size + 1
      ensures res != KSI_OK ==> View() == old(View())
      ensures res == KSI_INVALID_ARGUMENT <==> (size + 1) % 0x1_0000_0000_0000_0000 < |old(reqCache)|
      ensures res == KSI_OUT_OF_MEMORY <==> (size + 1) % 0x1_0000_0000_0000_0000 > |old(reqCache)| && !granted
      ensures res == KSI_OK || res == KSI_INVALID_ARGUMENT || res == KSI_OUT_OF_MEMORY
    {
      ghost var before := View();
      es := [];
      assert Exec(before, es) == before;
      var count := (CACHE_START_POS + size) % 0x1_0000_0000_0000_0000;
      if count < |reqCache| {
        return KSI_INVALID_ARGUMENT, es;
      }
      if count > |reqCache| {
        if !granted {
          return KSI_OUT_OF_MEMORY, es;
        }
        reqCache := reqCache + seq(count - |reqCache|, _ => None);
        owner := owner + seq(count - |owner|, _ => 0);
        if count <= ID_OFFSET {
          es := Extend(before, [], before, Grow(count));
        }
      }
      return KSI_OK, es;
    }
  }
}
