/**
 * The output side of the TCP client (src/ksi/net_tcp_async.c:371-451): requests are sent from the head of a queue, at
 * most so many in each round. Clock and socket are parameters.
 */
module TcpOutput {
  import opened Common

  // ----- what a throttled history looks like -----

  /** A completed send: when, and in which round (named by its start). */
  datatype Sent = Sent(time: int, round: int)

  function InRound(log: seq<Sent>, round: int): nat {
    if log == [] then 0 else InRound(log[..|log| - 1], round) + if log[|log| - 1].round == round then 1 else 0
  }

  /** Completed sends in the half-open window [from, from + width). */
  function InWindow(log: seq<Sent>, from: int, width: nat): nat {
    if log == [] then 0
    else
      var t := log[|log| - 1].time;
      InWindow(log[..|log| - 1], from, width) + if from <= t < from + width then 1 else 0
  }

  /** Every send lies in its round, and different rounds start at least a duration apart. */
  ghost predicate InRounds(log: seq<Sent>, duration: nat) {
    && (forall i :: 0 <= i < |log| ==> log[i].round <= log[i].time < log[i].round + duration)
    && (forall i, j :: 0 <= i < j < |log| ==>
          log[i].round == log[j].round || log[i].round + duration <= log[j].round)
  }

  ghost predicate RoundsLimited(log: seq<Sent>, max: nat) { forall round :: InRound(log, round) <= max }

  /** The sends in a window all belong to the rounds `r` and `s`. */
  ghost predicate OnlyRounds(log: seq<Sent>, from: int, width: nat, r: int, s: int) {
    forall i :: 0 <= i < |log| && from <= log[i].time < from + width ==> log[i].round == r || log[i].round == s
  }

  lemma {:induction false} WindowCount(log: seq<Sent>, from: int, width: nat, r: int, s: int)
    requires OnlyRounds(log, from, width, r, s)
    ensures InWindow(log, from, width) <= InRound(log, r) + InRound(log, s)
  {
    if log != [] {
      var n := |log| - 1;
      assert forall i :: 0 <= i < n ==> log[..n][i] == log[i];
      WindowCount(log[..n], from, width, r, s);
    }
  }

  /** A window as long as a round meets at most two rounds. */
  lemma TwoRounds(log: seq<Sent>, from: int, duration: nat) returns (r: int, s: int)
    requires InRounds(log, duration)
    ensures OnlyRounds(log, from, duration, r, s)
  {
    r, s := 0, 0;
    if i :| 0 <= i < |log| && from <= log[i].time < from + duration {
      r, s := log[i].round, log[i].round;
      if j :| 0 <= j < |log| && from <= log[j].time < from + duration && log[j].round != r {
        s := log[j].round;
      }
    }
  }

  /** Any window as long as a round contains at most twice the maximum of completed sends. */
  lemma WindowBound(log: seq<Sent>, from: int, duration: nat, max: nat)
    requires InRounds(log, duration) && RoundsLimited(log, max)
    ensures InWindow(log, from, duration) <= 2 * max
  {
    var r, s := TwoRounds(log, from, duration);
    WindowCount(log, from, duration, r, s);
  }

  /** With rounds as short as the clock can tell, a window is a round: the maximum itself is the bound. */
  lemma {:induction false} UnitWindow(log: seq<Sent>, from: int)
    requires InRounds(log, 1)
    ensures InWindow(log, from, 1) == InRound(log, from)
  {
    if log != [] {
      UnitWindow(log[..|log| - 1], from);
    }
  }

  function Repeat(n: nat, e: Sent): seq<Sent> { seq(n, _ => e) }

  /** A burst at the end of the first round and one at the start of the next. */
  function Burst(max: nat, duration: nat): seq<Sent> {
    Repeat(max, Sent(duration - 1, 0)) + Repeat(max, Sent(duration, duration))
  }

  lemma {:induction false} OneRound(log: seq<Sent>, more: nat, e: Sent, from: int, width: nat, round: int)
    ensures InRound(log + Repeat(more, e), round) == InRound(log, round) + if e.round == round then more else 0
    ensures from <= e.time < from + width ==>
              InWindow(log + Repeat(more, e), from, width) == InWindow(log, from, width) + more
  {
    var s := log + Repeat(more, e);
    if more == 0 {
      assert s == log;
    } else {
      OneRound(log, more - 1, e, from, width, round);
      assert s[..|s| - 1] == log + Repeat(more - 1, e);
    }
  }

  /** For longer rounds twice the maximum is sharp, for every maximum and every duration. */
  lemma WindowBoundIsTight(max: nat, duration: nat)
    requires duration >= 2
    ensures InRounds(Burst(max, duration), duration) && RoundsLimited(Burst(max, duration), max)
    ensures InWindow(Burst(max, duration), duration - 1, duration) == 2 * max
  {
    var first := Repeat(max, Sent(duration - 1, 0));
    assert [] + first == first;
    forall round
      ensures InRound(Burst(max, duration), round) <= max
    {
      OneRound([], max, Sent(duration - 1, 0), duration - 1, duration, round);
      OneRound(first, max, Sent(duration, duration), duration - 1, duration, round);
    }
    OneRound([], max, Sent(duration - 1, 0), duration - 1, duration, 0);
    OneRound(first, max, Sent(duration, duration), duration - 1, duration, 0);
  }

  /** The history together with the round that is running. */
  ghost predicate Throttled(log: seq<Sent>, start: int, count: nat, max: nat, duration: nat) {
    && InRounds(log, duration)
    && RoundsLimited(log, max)
    && InRound(log, start) == count <= max
    && (forall i :: 0 <= i < |log| ==> log[i].round == start || log[i].round + duration <= start)
  }

  lemma {:induction false} NothingInNewRound(log: seq<Sent>, now: int)
    requires forall i :: 0 <= i < |log| ==> log[i].round < now
    ensures InRound(log, now) == 0
  {
    if log != [] {
      NothingInNewRound(log[..|log| - 1], now);
    }
  }

  /** A round that is over may be followed by a new one. */
  lemma RestartKeepsThrottled(log: seq<Sent>, start: int, count: nat, max: nat, duration: nat, now: int)
    requires duration > 0 && Throttled(log, start, count, max, duration) && now - start >= duration
    ensures Throttled(log, now, 0, max, duration)
  {
    NothingInNewRound(log, now);
  }

  /** A send in the running round may be added while the count is below the maximum. */
  lemma SendKeepsThrottled(log: seq<Sent>, start: int, count: nat, max: nat, duration: nat, now: int)
    requires Throttled(log, start, count, max, duration) && count < max && start <= now < start + duration
    ensures Throttled(log + [Sent(now, start)], start, count + 1, max, duration)
  {
    hide InRound;
    var log' := log + [Sent(now, start)];
    forall round
      ensures InRound(log', round) == InRound(log, round) + if round == start then 1 else 0
    {
      InRoundAppend(log, Sent(now, start), round);
    }
    assert RoundsLimited(log', max);
  }

  lemma InRoundAppend(log: seq<Sent>, e: Sent, round: int)
    ensures InRound(log + [e], round) == InRound(log, round) + if e.round == round then 1 else 0
  {
    assert (log + [e])[..|log|] == log;
  }

  // ----- the send loop -----

  datatype State = WaitingForDispatch | WaitingForResponse | Error | Other

  /** The fields of a request handle that the loop uses. */
  datatype Request = Request(key: nat, state: State, err: int, len: nat, sentCount: nat, reqTime: int, sndTime: int)

  /** What send can return for one call. */
  datatype Send = Wrote(count: nat) | WouldBlock | Broken

  /** One turn of the loop: the clock, and the outcomes of the sends it makes. */
  datatype Turn = Turn(now: int, sends: seq<Send>)

  class TcpOutput {
    const maxCount: nat            // options[KSI_ASYNC_OPT_MAX_REQUEST_COUNT]
    const duration: nat            // options[KSI_ASYNC_PRIVOPT_ROUND_DURATION]
    const sndTimeout: nat          // options[KSI_ASYNC_OPT_SND_TIMEOUT]
    var reqQueue: seq<Request>
    var roundStartAt: int
    var roundCount: nat

    ghost var log: seq<Sent>       // all completed sends
    ghost var clock: int           // the last time seen

    ghost predicate Valid()
      reads this
    {
      && roundStartAt <= clock
      && roundCount <= maxCount
      && (duration > 0 ==> Throttled(log, roundStartAt, roundCount, maxCount, duration))
    }

    constructor (maxCount: nat, duration: nat, sndTimeout: nat)
      ensures Valid() && reqQueue == [] && log == [] && roundStartAt == 0 && roundCount == 0 && clock == 0
      ensures this.maxCount == maxCount && this.duration == duration && this.sndTimeout == sndTimeout
    {
      this.maxCount, this.duration, this.sndTimeout := maxCount, duration, sndTimeout;
      reqQueue, roundStartAt, roundCount := [], 0, 0;
      log, clock := [], 0;
    }

    /**
     * In every reachable state, any window as long as a round contains at most twice the maximum of completed sends.
     */
    lemma AnyWindow(from: int)
      requires Valid() && duration > 0
      ensures InWindow(log, from, duration) <= 2 * maxCount
      ensures duration == 1 ==> InWindow(log, from, duration) <= maxCount
      ensures forall round :: InRound(log, round) <= maxCount
    {
      WindowBound(log, from, duration, maxCount);
      if duration == 1 {
        UnitWindow(log, from);
      }
    }

    /** addToSendQueue. */
    method AddToSendQueue(request: Request, now: int)
      modifies this`reqQueue
      ensures reqQueue == old(reqQueue) + [request.(state := WaitingForDispatch, reqTime := now)]
    {
      reqQueue := reqQueue + [request.(state := WaitingForDispatch, reqTime := now)];
    }

    /** Restarts the count when a round is over. */
    method StartTurn(now: int)
      requires Valid() && clock <= now
      modifies this`roundStartAt, this`roundCount, this`clock
      ensures Valid() && clock == now && (duration > 0 ==> now < roundStartAt + duration)
      ensures roundStartAt == RoundAt(old(roundStartAt), now, duration)
    {
      if now - roundStartAt >= duration {
        if duration > 0 {
          RestartKeepsThrottled(log, roundStartAt, roundCount, maxCount, duration, now);
        }
        roundCount, roundStartAt := 0, now;
      }
      clock := now;
    }

    /** A completed send is counted in the present round. */
    method CountSend()
      requires Valid() && roundCount < maxCount && (duration > 0 ==> clock < roundStartAt + duration)
      modifies this`roundCount, this`log
      ensures Valid() && log == old(log) + [Sent(clock, roundStartAt)]
    {
      if duration > 0 {
        SendKeepsThrottled(log, roundStartAt, roundCount, maxCount, duration, clock);
      }
      roundCount := roundCount + 1;
      log := log + [Sent(clock, roundStartAt)];
    }

    /**
     * The output loop of dispatch. Requests leave the queue at its head, in order; `finished` says how, each of them
     * rightly so, and `left` is what they look like then. What was sent is logged with the time and the round of its
     * turn, and `Valid` keeps the log within the limits of the rounds.
     */
    method HandleOutput(turns: seq<Turn>) returns (stop: Stop, finished: seq<Done>, left: seq<Request>)
      requires Valid() && Monotone(clock, turns)
      modifies this`reqQueue, this`roundStartAt, this`roundCount, this`log, this`clock
      ensures Valid()
      ensures |finished| <= |turns| && Settled(old(reqQueue), finished, left, turns, sndTimeout)
      ensures log == old(log) + Logged(old(roundStartAt), turns, finished, |finished|, duration)
      ensures !stop.RoundFull? && !stop.Refused? ==>
                && reqQueue == old(reqQueue)[|finished|..]
                && roundStartAt == RoundAfter(old(roundStartAt), turns, |finished|, duration)
                && clock == (if |finished| == 0 then old(clock) else turns[|finished| - 1].now)
      ensures stop.RoundFull? || stop.Refused? ==>
                && |finished| < |turns| && |finished| < |old(reqQueue)|
                && roundStartAt == RoundAfter(old(roundStartAt), turns, |finished| + 1, duration)
                && clock == turns[|finished|].now
      ensures stop.Refused? ==>
                var req := old(reqQueue)[|finished|];
                var (sentCount, res) := Write(req.sentCount, req.len, turns[|finished|].sends);
                && stop.res == res && (sentCount < req.len || res != KSI_OK)
                && reqQueue == [req.(sentCount := sentCount)] + old(reqQueue)[|finished| + 1..]
      ensures stop.RoundFull? ==> reqQueue == old(reqQueue)[|finished|..] && roundCount == maxCount
      ensures stop.QueueEmpty? ==> reqQueue == []
      ensures stop.NoMoreTurns? ==> |finished| == |turns|
    {
      hide Throttled, Monotone, Write, RoundAfter, Logged, RoundAt;
      RoundBefore(roundStartAt, turns, duration);
      NothingLogged(roundStartAt, turns, duration);
      finished, left := [], [];
      assert turns[0..] == turns;
      var i := 0;
      while i < |turns| && |reqQueue| > 0
        invariant i <= |turns| && i == |finished| && Valid() && Monotone(clock, turns[i..])
        invariant Settled(old(reqQueue), finished, left, turns, sndTimeout)
        invariant reqQueue == old(reqQueue)[i..]
        invariant log == old(log) + Logged(old(roundStartAt), turns, finished, i, duration)
        invariant roundStartAt == RoundAfter(old(roundStartAt), turns, i, duration)
        invariant clock == if i == 0 then old(clock) else turns[i - 1].now
      {
        var turn, req := turns[i], reqQueue[0];
        NextTurn(clock, turns, i);
        RoundNext(old(roundStartAt), turns, i, duration);
        StartTurn(turn.now);
        if !(roundCount < maxCount) {
          return RoundFull, finished, left;
        }
        var how;
        if req.state != WaitingForDispatch {
          how := Dropped;
        } else if sndTimeout == 0 || turn.now - req.reqTime > sndTimeout {
          req := req.(state := Error, err := KSI_NETWORK_SEND_TIMEOUT);
          how := TimedOut(turn.now);
        } else {
          var sentCount, res := SendBytes(req, turn.sends);
          if res != KSI_OK || sentCount < req.len {
            reqQueue := [req.(sentCount := sentCount)] + reqQueue[1..];
            return Refused(res), finished, left;
          }
          CountSend();
          req := req.(len := 0, sentCount := 0, state := WaitingForResponse, sndTime := turn.now);
          how := Dispatched(turn.now);
        }
        LogOne(old(roundStartAt), turns, finished, how, duration);
        SettleOne(old(reqQueue), finished, left, how, req, turns, sndTimeout);
        finished, left := finished + [how], left + [req];
        reqQueue := reqQueue[1..];
        i := i + 1;
      }
      stop := if |reqQueue| == 0 then QueueEmpty else NoMoreTurns;
    }
  }

  /** Why the output loop came to its end. */
  datatype Stop = QueueEmpty | RoundFull | NoMoreTurns | Refused(res: int)

  /** How a request left the send queue. */
  datatype Done = Dropped | TimedOut(time: int) | Dispatched(time: int)

  predicate Justified(how: Done, req: Request, turn: Turn, sndTimeout: nat) {
    match how
    case Dropped => req.state != WaitingForDispatch
    case TimedOut(time) =>
      && time == turn.now && req.state == WaitingForDispatch
      && (sndTimeout == 0 || time - req.reqTime > sndTimeout)
    case Dispatched(time) =>
      && time == turn.now && req.state == WaitingForDispatch
      && sndTimeout != 0 && time - req.reqTime <= sndTimeout
      && var (sentCount, res) := Write(req.sentCount, req.len, turn.sends); sentCount >= req.len && res == KSI_OK
  }

  /** What the request looks like when it has left: its state, error, payload and send time. */
  function Departed(req: Request, how: Done): Request {
    match how
    case Dropped => req
    case TimedOut(_) => req.(state := Error, err := KSI_NETWORK_SEND_TIMEOUT)
    case Dispatched(time) => req.(state := WaitingForResponse, len := 0, sentCount := 0, sndTime := time)
  }

  /** The first requests of the queue have left, each for a good reason and in the state that goes with it. */
  ghost predicate Settled(queue: seq<Request>, finished: seq<Done>, left: seq<Request>, turns: seq<Turn>,
                          sndTimeout: nat) {
    && |left| == |finished| <= |queue| && |finished| <= |turns|
    && forall i :: 0 <= i < |finished| ==>
         Justified(finished[i], queue[i], turns[i], sndTimeout) && left[i] == Departed(queue[i], finished[i])
  }

  lemma SettleOne(queue: seq<Request>, finished: seq<Done>, left: seq<Request>, how: Done, req: Request,
                  turns: seq<Turn>, sndTimeout: nat)
    requires Settled(queue, finished, left, turns, sndTimeout) && |finished| < |queue| && |finished| < |turns|
    requires Justified(how, queue[|finished|], turns[|finished|], sndTimeout) && req == Departed(queue[|finished|], how)
    ensures Settled(queue, finished + [how], left + [req], turns, sndTimeout)
  {
    hide Justified, Departed;
  }

  /** The start of the round that the time `now` belongs to. */
  function RoundAt(start: int, now: int, duration: nat): int { if now - start >= duration then now else start }

  /** The same after the first n turns. */
  function RoundAfter(start: int, turns: seq<Turn>, n: nat, duration: nat): int
    requires n <= |turns|
  {
    if n == 0 then start else RoundAt(RoundAfter(start, turns, n - 1, duration), turns[n - 1].now, duration)
  }

  lemma RoundBefore(start: int, turns: seq<Turn>, duration: nat)
    ensures RoundAfter(start, turns, 0, duration) == start
  {
  }

  lemma RoundNext(start: int, turns: seq<Turn>, n: nat, duration: nat)
    requires n < |turns|
    ensures RoundAfter(start, turns, n + 1, duration) ==
              RoundAt(RoundAfter(start, turns, n, duration), turns[n].now, duration)
  {
  }

  /** The completed sends of the first n turns. */
  function Logged(start: int, turns: seq<Turn>, finished: seq<Done>, n: nat, duration: nat): seq<Sent>
    requires n <= |turns| && n <= |finished|
  {
    if n == 0 then []
    else
      Logged(start, turns, finished, n - 1, duration) +
      if finished[n - 1].Dispatched? then [Sent(turns[n - 1].now, RoundAfter(start, turns, n, duration))] else []
  }

  lemma {:induction false} LoggedPrefix(start: int, turns: seq<Turn>, finished: seq<Done>, more: seq<Done>, n: nat,
                                        duration: nat)
    requires n <= |turns| && n <= |finished|
    ensures Logged(start, turns, finished + more, n, duration) == Logged(start, turns, finished, n, duration)
  {
    if n > 0 {
      LoggedPrefix(start, turns, finished, more, n - 1, duration);
      assert (finished + more)[n - 1] == finished[n - 1];
    }
  }

  lemma NothingLogged(start: int, turns: seq<Turn>, duration: nat)
    ensures Logged(start, turns, [], 0, duration) == []
  {
  }

  lemma LogOne(start: int, turns: seq<Turn>, finished: seq<Done>, how: Done, duration: nat)
    requires |finished| < |turns|
    ensures var n := |finished|;
            Logged(start, turns, finished + [how], n + 1, duration) ==
            Logged(start, turns, finished, n, duration) +
            if how.Dispatched? then [Sent(turns[n].now, RoundAfter(start, turns, n + 1, duration))] else []
  {
    LoggedPrefix(start, turns, finished, [how], |finished|, duration);
    assert (finished + [how])[|finished|] == how;
  }

  /** The clock never goes back. */
  ghost predicate Monotone(clock: int, turns: seq<Turn>) {
    && (forall i :: 0 <= i < |turns| ==> clock <= turns[i].now)
    && (forall i, j :: 0 <= i < j < |turns| ==> turns[i].now <= turns[j].now)
  }

  lemma NextTurn(clock: int, turns: seq<Turn>, i: nat)
    requires i < |turns| && Monotone(clock, turns[i..])
    ensures clock <= turns[i].now && Monotone(turns[i].now, turns[i + 1..])
  {
    assert turns[i..][0] == turns[i];
    assert turns[i + 1..] == turns[i..][1..];
  }

  /** How far one request gets: until it is sent, or the socket refuses. */
  function Write(sentCount: nat, len: nat, sends: seq<Send>): (nat, int)
    decreases |sends|
  {
    if sentCount >= len || sends == [] then (sentCount, KSI_OK)
    else
      match sends[0]
      case Broken => (sentCount, KSI_ASYNC_CONNECTION_CLOSED)
      case WouldBlock => (sentCount, KSI_OK)
      case Wrote(count) =>
        Write(sentCount + if count <= len - sentCount then count else len - sentCount, len, sends[1..])
  }

  /** The innermost loop. A send never writes more than it was given. */
  method SendBytes(req: Request, sends: seq<Send>) returns (sentCount: nat, res: int)
    ensures (sentCount, res) == Write(req.sentCount, req.len, sends)
    ensures res == KSI_OK || res == KSI_ASYNC_CONNECTION_CLOSED
    ensures req.sentCount <= sentCount && (req.sentCount <= req.len ==> sentCount <= req.len)
  {
    sentCount, res := req.sentCount, KSI_OK;
    var i := 0;
    while sentCount < req.len && i < |sends|
      invariant i <= |sends|
      invariant req.sentCount <= sentCount && (req.sentCount <= req.len ==> sentCount <= req.len)
      invariant Write(req.sentCount, req.len, sends) == Write(sentCount, req.len, sends[i..])
      decreases |sends| - i
    {
      assert sends[i..][1..] == sends[i + 1..];
      match sends[i]
      case Broken => return sentCount, KSI_ASYNC_CONNECTION_CLOSED;
      case WouldBlock => return sentCount, KSI_OK;
      case Wrote(count) =>
        sentCount := sentCount + if count <= req.len - sentCount then count else req.len - sentCount;
        i := i + 1;
    }
  }

  // ----- a run that fills a window -----

  /** A request of one byte that may still be sent at the time `now`. */
  predicate Ready(req: Request, now: int, sndTimeout: nat) {
    && req.state == WaitingForDispatch && req.sentCount == 0 && req.len == 1
    && sndTimeout != 0 && now - req.reqTime <= sndTimeout
  }

  /** As many turns at one time, each of which writes one byte. */
  function Turns(now: int, n: nat): seq<Turn> { seq(n, _ => Turn(now, [Wrote(1)])) }

  lemma {:induction false} OneRoundForAll(start: int, now: int, n: nat, k: nat, duration: nat)
    requires duration > 0 && 1 <= k <= n
    ensures RoundAfter(start, Turns(now, n), k, duration) == RoundAt(start, now, duration)
  {
    if k > 1 {
      OneRoundForAll(start, now, n, k - 1, duration);
    }
  }

  lemma {:induction false} AllLogged(start: int, now: int, n: nat, finished: seq<Done>, k: nat, duration: nat)
    requires duration > 0 && k <= n && k <= |finished| && forall i :: 0 <= i < |finished| ==> finished[i].Dispatched?
    ensures Logged(start, Turns(now, n), finished, k, duration) == Repeat(k, Sent(now, RoundAt(start, now, duration)))
  {
    hide RoundAt;
    if k > 0 {
      AllLogged(start, now, n, finished, k - 1, duration);
      OneRoundForAll(start, now, n, k, duration);
    }
  }

  lemma ReadyIsDispatched(how: Done, req: Request, now: int, n: nat, i: nat, sndTimeout: nat)
    requires i < n && Ready(req, now, sndTimeout)
    ensures Justified(how, req, Turns(now, n)[i], sndTimeout) ==> how.Dispatched?
    ensures Write(req.sentCount, req.len, Turns(now, n)[i].sends) == (req.len, KSI_OK)
  {
    assert [Wrote(1)][1..] == [];
  }

  /** If a round can still take the maximum, then so many ready requests are all sent. */
  method SendBurst(o: TcpOutput, now: int)
    requires o.Valid() && o.duration > 0 && o.clock <= now && o.maxCount <= |o.reqQueue|
    requires forall i :: 0 <= i < o.maxCount ==> Ready(o.reqQueue[i], now, o.sndTimeout)
    requires InRound(o.log, RoundAt(o.roundStartAt, now, o.duration)) == 0
    modifies o
    ensures o.Valid() && o.clock <= now && o.reqQueue == old(o.reqQueue)[o.maxCount..]
    ensures o.log == old(o.log) + Repeat(o.maxCount, Sent(now, RoundAt(old(o.roundStartAt), now, o.duration)))
    ensures o.maxCount > 0 ==> o.roundStartAt == RoundAt(old(o.roundStartAt), now, o.duration)
    ensures o.maxCount == 0 ==> o.roundStartAt == old(o.roundStartAt)
  {
    hide Ready, Justified, Logged, RoundAfter, Write, RoundAt, Departed;
    ghost var queue, start, log := o.reqQueue, o.roundStartAt, o.log;
    var stop, finished, left := o.HandleOutput(Turns(now, o.maxCount));
    forall i | 0 <= i < |finished|
      ensures finished[i].Dispatched?
    {
      ReadyIsDispatched(finished[i], queue[i], now, o.maxCount, i, o.sndTimeout);
    }
    var k := |finished|;
    AllLogged(start, now, o.maxCount, finished, k, o.duration);
    ghost var round := RoundAt(start, now, o.duration);
    OneRound(log, k, Sent(now, round), 0, 0, round);
    if k < o.maxCount {
      ReadyIsDispatched(Dropped, queue[k], now, o.maxCount, k, o.sndTimeout);
      OneRoundForAll(start, now, o.maxCount, k + 1, o.duration);
    }
    assert k == o.maxCount;
    if k > 0 {
      OneRoundForAll(start, now, o.maxCount, k, o.duration);
    } else {
      RoundBefore(start, Turns(now, o.maxCount), o.duration);
    }
  }

  /** The send loop itself reaches twice the maximum in a window, for every maximum and every longer duration. */
  method BurstTwice(max: nat, duration: nat) returns (o: TcpOutput)
    requires duration >= 2
    ensures fresh(o) && o.Valid() && o.maxCount == max && o.duration == duration
    ensures o.log == Burst(max, duration) && InWindow(o.log, duration - 1, duration) == 2 * max
  {
    o := new TcpOutput(max, duration, 10);
    for i := 0 to 2 * max
      invariant o.Valid() && o.log == [] && o.roundStartAt == 0 && o.clock == 0 && |o.reqQueue| == i
      invariant forall j :: 0 <= j < i ==> Ready(o.reqQueue[j], duration - 1, 10) && Ready(o.reqQueue[j], duration, 10)
    {
      o.AddToSendQueue(Request(i, Other, KSI_OK, 1, 0, 0, 0), duration - 1);
    }
    SendBurst(o, duration - 1);
    OneRound([], max, Sent(duration - 1, 0), 0, 0, duration);
    assert o.log == [] + Repeat(max, Sent(duration - 1, 0));
    SendBurst(o, duration);
    WindowBoundIsTight(max, duration);
  }
}
