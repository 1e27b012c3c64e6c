/**
 * The high-availability service (src/ksi/net_ha.c): a request goes to every subservice, and the answers are merged
 * into one response queue. The object works on real async clients; its validity ties their caches, the
 * expected-answer counters and everything ever queued together.
 */
module HighAvailability {
  import opened Common
  import opened RequestRing
  import opened HaMerge
  import AC = AsyncClient

  /**
   * KSI_HighAvailabilityRequest together with the user's handle it wraps. Every call of addRequest makes a new one, so
   * its key names one addition: a handle that was given back and is added again gets another key.
   */
  datatype HaRequest = HaRequest(expected: int, state: HandleState)

  /** One element of the response queue; `key` is the request it is about. */
  datatype Queued = Queued(key: nat, item: Item)

  /** How a subservice reacts to a request: see `AsyncClient.AddRequest`. */
  datatype Reaction = Reaction(prepared: int, queued: int)

  ghost function ItemsOf(emitted: seq<Queued>, key: nat): seq<Item> {
    if emitted == [] then []
    else
      var last := emitted[|emitted| - 1];
      ItemsOf(emitted[..|emitted| - 1], key) + if last.key == key then [last.item] else []
  }

  lemma {:induction false} ItemsOfConcat(a: seq<Queued>, b: seq<Queued>, key: nat)
    ensures ItemsOf(a + b, key) == ItemsOf(a, key) + ItemsOf(b, key)
  {
    if b == [] {
      assert a + b == a;
    } else {
      ItemsOfConcat(a, b[..|b| - 1], key);
      assert (a + b)[..|a + b| - 1] == a + b[..|b| - 1];
    }
  }

  function Tagged(key: nat, items: seq<Item>): seq<Queued> {
    seq(|items|, i requires 0 <= i < |items| => Queued(key, items[i]))
  }

  lemma {:induction false} ItemsOfTagged(key: nat, items: seq<Item>, k: nat)
    ensures ItemsOf(Tagged(key, items), k) == if k == key then items else []
  {
    if items != [] {
      var n := |items| - 1;
      ItemsOfTagged(key, items[..n], k);
      assert Tagged(key, items)[..n] == Tagged(key, items[..n]);
      assert items == items[..n] + [items[n]];
    }
  }

  /** What one answer adds to the queue. */
  function NewItems(r: HaRequest, a: Answer): seq<Item> { Deliver(Merge(r.expected, r.state, []), a).items }

  lemma DeliverAppends(r: HaRequest, items: seq<Item>, a: Answer)
    ensures Deliver(Merge(r.expected, r.state, items), a)
         == Merge(Updated(r, a).expected, Updated(r, a).state, items + NewItems(r, a))
  {
    assert items + [] == items;
    if a.Failure? {
      var n := [Notice(a.code, a.origin)];
      assert [] + n + [Final] == n + [Final] && [] + n + [] == n && items + n + [Final] == items + (n + [Final]);
    }
  }

  /** The history of one request: how many took it, who still has to answer, the answers so far and who gave them. */
  datatype Ledger = Ledger(accepted: nat, owing: set<nat>, answers: seq<Answer>, from: seq<nat>)

  /** Everything the service knows about requests, with the history a proof needs. */
  datatype Books = Books(
    requests: map<nat, HaRequest>,
    ledger: map<nat, Ledger>,
    emitted: seq<Queued>)                // everything ever put into the queue

  /** Every answer is from another subservice, and none of them still owes one. */
  ghost predicate AnsweredOnce(l: Ledger) {
    && |l.from| == |l.answers|
    && (forall j :: 0 <= j < |l.from| ==> l.from[j] !in l.owing)
    && (forall j, k :: 0 <= j < k < |l.from| ==> l.from[j] != l.from[k])
  }

  /** The books for one request: counter, handle and queue are what merging its answers gives. */
  ghost predicate Merged(r: HaRequest, l: Ledger, items: seq<Item>) {
    && |l.answers| + |l.owing| == l.accepted >= 1 && AnsweredOnce(l)
    && MergeAll(l.accepted, l.answers) == Merge(r.expected, r.state, items)
  }

  /** The books are right for every request; only the first `n` subservices are ever waited for. */
  ghost predicate BooksValid(b: Books, n: nat) {
    && b.requests.Keys == b.ledger.Keys
    && (forall key, i :: key in b.ledger && i in b.ledger[key].owing ==> i < n)
    && (forall key :: key in b.requests ==> Merged(b.requests[key], b.ledger[key], ItemsOf(b.emitted, key)))
    && (forall i :: 0 <= i < |b.emitted| ==> b.emitted[i].key in b.requests)
  }

  /** Request `key` after answer `a` of subservice `i`. */
  function Answered(l: Ledger, i: nat, a: Answer): Ledger {
    l.(owing := l.owing - {i}, answers := l.answers + [a], from := l.from + [i])
  }

  function Updated(r: HaRequest, a: Answer): HaRequest {
    var m := Deliver(Merge(r.expected, r.state, []), a);
    HaRequest(m.expected, m.state)
  }

  ghost function Record(b: Books, i: nat, key: nat, a: Answer): Books
    requires key in b.requests && key in b.ledger
  {
    Books(b.requests[key := Updated(b.requests[key], a)],
          b.ledger[key := Answered(b.ledger[key], i, a)],
          b.emitted + Tagged(key, NewItems(b.requests[key], a)))
  }

  lemma AnswerKeepsMerged(r: HaRequest, l: Ledger, items: seq<Item>, i: nat, a: Answer)
    requires Merged(r, l, items) && i in l.owing
    ensures Merged(Updated(r, a), Answered(l, i, a), items + NewItems(r, a))
  {
    assert Answered(l, i, a).answers[..|l.answers|] == l.answers;
    DeliverAppends(r, items, a);
  }

  lemma RecordedItems(emitted: seq<Queued>, key: nat, items: seq<Item>, k: nat)
    ensures ItemsOf(emitted + Tagged(key, items), k) == ItemsOf(emitted, k) + if k == key then items else []
  {
    ItemsOfConcat(emitted, Tagged(key, items), k);
    ItemsOfTagged(key, items, k);
  }

  lemma RecordKeepsBooks(b: Books, n: nat, i: nat, key: nat, a: Answer)
    requires BooksValid(b, n) && key in b.requests && i in b.ledger[key].owing
    ensures BooksValid(Record(b, i, key, a), n)
  {
    var r := Record(b, i, key, a);
    forall k | k in r.requests
      ensures Merged(r.requests[k], r.ledger[k], ItemsOf(r.emitted, k))
    {
      RecordedItems(b.emitted, key, NewItems(b.requests[key], a), k);
      if k == key {
        AnswerKeepsMerged(b.requests[key], b.ledger[key], ItemsOf(b.emitted, key), i, a);
      } else {
        assert ItemsOf(b.emitted, k) + [] == ItemsOf(b.emitted, k);
      }
    }
  }

  /** A cache holds a handle for a request exactly if its subservice owes an answer to it. */
  ghost predicate OwedBy(cache: seq<Slot>, ledger: map<nat, Ledger>, i: nat) {
    forall key :: Owes(cache, key) <==> key in ledger && i in ledger[key].owing
  }

  lemma OwedIsBooked(cache: seq<Slot>, b: Books, n: nat, i: nat, key: nat)
    requires BooksValid(b, n) && OwedBy(cache, b.ledger, i) && Owes(cache, key)
    ensures key in b.requests && key in b.ledger && i in b.ledger[key].owing
  {
  }

  lemma SameOwedBy(cache: seq<Slot>, cache': seq<Slot>, ledger: map<nat, Ledger>, i: nat)
    requires OwedBy(cache, ledger, i) && forall k :: Owes(cache', k) <==> Owes(cache, k)
    ensures OwedBy(cache', ledger, i)
  {
  }

  /** When subservice `i` returns its handle for `key`, it owes one answer less; the others owe what they owed. */
  lemma OneAnswerLess(cache: seq<Slot>, cache': seq<Slot>, ledger: map<nat, Ledger>, i: nat, j: nat, key: nat,
                      a: Answer)
    requires key in ledger && OwedBy(cache, ledger, j)
    requires j != i ==> cache' == cache
    requires j == i ==> forall k :: Owes(cache', k) <==> Owes(cache, k) && k != key
    ensures OwedBy(cache', ledger[key := Answered(ledger[key], i, a)], j)
  {
  }

  /** The subservices in `takers` accepted the new request `key`. */
  ghost function Open(b: Books, key: nat, takers: set<nat>): Books {
    b.(requests := b.requests[key := HaRequest(|takers|, Waiting)],
       ledger := b.ledger[key := Ledger(|takers|, takers, [], [])])
  }

  lemma {:induction false} NothingAbout(emitted: seq<Queued>, key: nat)
    requires forall i :: 0 <= i < |emitted| ==> emitted[i].key != key
    ensures ItemsOf(emitted, key) == []
  {
    if emitted != [] {
      NothingAbout(emitted[..|emitted| - 1], key);
    }
  }

  lemma OpenKeepsBooks(b: Books, n: nat, key: nat, takers: set<nat>)
    requires BooksValid(b, n) && key !in b.requests && takers != {} && forall i :: i in takers ==> i < n
    ensures key !in b.ledger && BooksValid(Open(b, key, takers), n)
  {
    NothingAbout(b.emitted, key);
  }

  lemma NotBooked(b: Books, n: nat, key: nat)
    requires BooksValid(b, n) && key !in b.requests
    ensures key !in b.ledger
  {
  }

  /** Has every subservice that took the request answered it? */
  ghost predicate Settled(l: Ledger) { l.owing == {} }

  /**
   * The whole exactly-once claim about a request with these answers: the handle is among the items once, if it is due;
   * and if every error has a code, it is due, carries the first success or else the first error, and together with the
   * notices it shows exactly the errors that occurred.
   */
  ghost predicate ToldOnce(r: HaRequest, l: Ledger, items: seq<Item>) {
    && |l.answers| == l.accepted && AnsweredOnce(l)
    && Finals(items) == (if FinalDue(l.accepted, l.answers) then 1 else 0)
    && (Coded(l.answers) ==>
          && Finals(items) == 1
          && (HasSuccess(l.answers) ==> r.state.Received? && FirstSuccess(l.answers, r.state.origin))
          && (!HasSuccess(l.answers) ==>
                l.answers != [] && l.answers[0].Failure? && r.state == Failed(l.answers[0].code, l.answers[0].origin))
          && forall f :: Notices(items, f) + Held(r.state, f) == Failures(l.answers, f))
  }

  /** A request that all of its takers have answered was told to the user's queue exactly once. */
  lemma SettledIsToldOnce(b: Books, n: nat, key: nat)
    requires BooksValid(b, n) && key in b.ledger && Settled(b.ledger[key])
    ensures ToldOnce(b.requests[key], b.ledger[key], ItemsOf(b.emitted, key))
  {
    var r, l, items := b.requests[key], b.ledger[key], ItemsOf(b.emitted, key);
    assert Merged(r, l, items);
    FinalExactlyWhenDue(l.accepted, l.answers);
    if Coded(l.answers) {
      ExactlyOnce(l.accepted, l.answers);
      hide Notices, Held, Failures;
      forall f
        ensures Notices(items, f) + Held(r.state, f) == Failures(l.answers, f)
      {
        assert Visible(MergeAll(l.accepted, l.answers), f) == Failures(l.answers, f);
      }
    }
  }

  /** The clone of a request that is handed to a subservice. */
  function Clone(key: nat): Handle { Handle(key, 0, Undefined, 0, 0, 0) }

  /** Whether a subservice takes a request, and what that does to its ring. */
  ghost predicate Took(r: Ring, r': Ring, key: nat, reaction: Reaction, taken: bool) {
    if taken then
      && reaction.prepared == KSI_OK && reaction.queued == KSI_OK
      && Enabled(r, Add(r'.requestCount, Clone(key), true)) && r' == Apply(r, Add(r'.requestCount, Clone(key), true))
    else
      || reaction.prepared != KSI_OK || reaction.queued != KSI_OK
      || forall i :: CACHE_START_POS <= i < |r.cache| ==> r.cache[i].Some?
  }

  /** The client took the request or did not, and is otherwise as it was. */
  ghost predicate Handled(s: AC.AsyncClient, r: Ring, responses: seq<AC.Pdu>, timeout: nat, key: nat,
                          reaction: Reaction, taken: bool)
    reads s
  {
    Took(r, s.View(), key, reaction, taken) && s.responses == responses && s.rcvTimeout == timeout
  }

  /** What offering a request returns: a full cache comes first, then the preparation, then the transport's queue. */
  predicate OfferReturns(cache: seq<Slot>, reaction: Reaction, code: int) {
    if forall i :: CACHE_START_POS <= i < |cache| ==> cache[i].Some? then code == KSI_ASYNC_REQUEST_CACHE_FULL
    else code == if reaction.prepared != KSI_OK then reaction.prepared else reaction.queued
  }

  /** What a subservice gives back in a round: a finished handle, if there is one. */
  ghost predicate Gives(r: Ring, responses: seq<AC.Pdu>, timeout: nat, round: AC.Round, h: Option<Handle>) {
    var mid := AC.Served(r, responses, round);
    && (h.None? <==> forall i :: 0 <= i < |mid.cache| ==> !Finished(mid.cache[i], round.clock(i), timeout))
    && (h.Some? ==> exists i :: 0 <= i < |mid.cache| && mid.cache[i].Some? && h.value == Finalized(mid.cache[i].value))
  }

  /** The answer a returned subservice handle stands for. */
  function AnswerOf(h: Handle): Answer {
    if h.state == ResponseReceived then Success(h.parentId) else Failure(h.err, h.parentId)
  }

  /** The books after the first n subservices have given back `hs`. */
  ghost function RecordAll(b: Books, hs: seq<Option<Handle>>, n: nat): Books
    requires n <= |hs|
  {
    if n == 0 then b
    else
      var b' := RecordAll(b, hs, n - 1);
      if hs[n - 1].Some? && hs[n - 1].value.key in b'.requests && hs[n - 1].value.key in b'.ledger
      then Record(b', n - 1, hs[n - 1].value.key, AnswerOf(hs[n - 1].value)) else b'
  }

  lemma {:induction false} RecordAllPrefix(b: Books, hs: seq<Option<Handle>>, more: seq<Option<Handle>>, n: nat)
    requires n <= |hs|
    ensures RecordAll(b, hs + more, n) == RecordAll(b, hs, n)
  {
    if n > 0 {
      RecordAllPrefix(b, hs, more, n - 1);
      assert (hs + more)[n - 1] == hs[n - 1];
    }
  }

  ghost predicate SignedBy(services: seq<AC.AsyncClient>, l: Ledger) {
    && |l.from| == |l.answers|
    && forall j :: 0 <= j < |l.from| ==> l.from[j] < |services| && l.answers[j].origin == services[l.from[j]].endpointId
  }

  class HighAvailabilityService {
    var services: seq<AC.AsyncClient>
    var respQueue: seq<Queued>
    var requests: map<nat, HaRequest>

    ghost var ledger: map<nat, Ledger>
    ghost var emitted: seq<Queued>

    ghost function View(): Books
      reads this`requests, this`ledger, this`emitted
    {
      Books(requests, ledger, emitted)
    }

    ghost predicate DistinctServices()
      reads this`services
    {
      forall i, j :: 0 <= i < j < |services| ==> services[i] != services[j]
    }

    /** A subservice holds a handle for a request exactly if it owes an answer to it. */
    ghost predicate Owed(i: nat)
      requires i < |services|
      reads this`services, this`ledger, services
    {
      services[i].Valid() && OwedBy(services[i].reqCache, ledger, i)
    }

    ghost predicate AllOwed()
      reads this`services, this`ledger, services
    {
      forall i :: 0 <= i < |services| ==> Owed(i)
    }

    /** The queue is what was put there last; all before it was given to the user. */
    ghost predicate QueueIsTail()
      reads this`respQueue, this`emitted
    {
      |respQueue| <= |emitted| && respQueue == emitted[|emitted| - |respQueue|..]
    }

    /** Every answer bears the endpoint id of the subservice that gave it. */
    ghost predicate Signed()
      reads this`services, this`ledger
    {
      forall key :: key in ledger ==> SignedBy(services, ledger[key])
    }

    ghost predicate Valid()
      reads this, services
    {
      DistinctServices() && AllOwed() && BooksValid(View(), |services|) && Signed() && QueueIsTail()
    }

    /** What the user has been given so far. */
    ghost function Delivered(): seq<Queued>
      reads this`respQueue, this`emitted
    {
      if |respQueue| <= |emitted| then emitted[..|emitted| - |respQueue|] else []
    }

    constructor (clients: seq<AC.AsyncClient>)
      requires forall i, j :: 0 <= i < j < |clients| ==> clients[i] != clients[j]
      requires forall i :: 0 <= i < |clients| ==> clients[i].Valid() && forall k :: !Owes(clients[i].reqCache, k)
      ensures Valid() && services == clients && View() == Books(map[], map[], []) && respQueue == []
              && Delivered() == []
    {
      services, respQueue, requests := clients, [], map[];
      ledger, emitted := map[], [];
    }

    /** KSI_HighAvailabilityService_reportErrorNotice: refuses a notice without an error code. */
    method ReportErrorNotice(key: nat, code: int, origin: nat) returns (res: int)
      modifies this`respQueue, this`emitted
      ensures res == (if code == KSI_OK then KSI_INVALID_ARGUMENT else KSI_OK)
      ensures var added := if code == KSI_OK then [] else [Queued(key, Notice(code, origin))];
              respQueue == old(respQueue) + added && emitted == old(emitted) + added
    {
      if code == KSI_OK {
        return KSI_INVALID_ARGUMENT;
      }
      respQueue := respQueue + [Queued(key, Notice(code, origin))];
      emitted := emitted + [Queued(key, Notice(code, origin))];
      return KSI_OK;
    }

    method EnqueueFinal(key: nat)
      modifies this`respQueue, this`emitted
      ensures respQueue == old(respQueue) + [Queued(key, Final)] && emitted == old(emitted) + [Queued(key, Final)]
    {
      respQueue := respQueue + [Queued(key, Final)];
      emitted := emitted + [Queued(key, Final)];
    }

    /** handleReqResponse (src/ksi/net_ha.c:845-924). */
    method HandleReqResponse(key: nat, origin: nat)
      requires key in requests
      modifies this`requests, this`respQueue, this`emitted
      ensures requests == old(requests)[key := Updated(old(requests)[key], Success(origin))]
      ensures var added := Tagged(key, NewItems(old(requests)[key], Success(origin)));
              respQueue == old(respQueue) + added && emitted == old(emitted) + added
    {
      var req := requests[key].(expected := requests[key].expected - 1);
      requests := requests[key := req];
      if req.state.Failed? {
        var res := ReportErrorNotice(key, req.state.code, req.state.origin);
        if res != KSI_OK {
          return;
        }
      }
      if req.state.Waiting? || req.state.Failed? {
        requests := requests[key := req.(state := Received(origin))];
        EnqueueFinal(key);
      }
    }

    /** handleErrorResponse (src/ksi/net_ha.c:926-990). */
    method HandleErrorResponse(key: nat, code: int, origin: nat)
      requires key in requests
      modifies this`requests, this`respQueue, this`emitted
      ensures requests == old(requests)[key := Updated(old(requests)[key], Failure(code, origin))]
      ensures var added := Tagged(key, NewItems(old(requests)[key], Failure(code, origin)));
              respQueue == old(respQueue) + added && emitted == old(emitted) + added
    {
      var req := requests[key].(expected := requests[key].expected - 1);
      requests := requests[key := req];
      if req.state.Waiting? {
        req := req.(state := Failed(code, origin));
        requests := requests[key := req];
      } else {
        var res := ReportErrorNotice(key, code, origin);
        if res != KSI_OK {
          return;
        }
      }
      if req.state.Failed? && req.expected == 0 {
        EnqueueFinal(key);
      }
    }

    /** One answer of subservice `i` reaches the books. */
    method Absorb(i: nat, h: Handle)
      requires QueueIsTail() && h.key in requests && h.key in ledger
      requires h.state == ResponseReceived || h.state == Error
      modifies this`requests, this`respQueue, this`emitted, this`ledger
      ensures View() == Record(old(View()), i, h.key, AnswerOf(h))
      ensures QueueIsTail() && Delivered() == old(Delivered())
    {
      if h.state == ResponseReceived {
        HandleReqResponse(h.key, h.parentId);
      } else {
        HandleErrorResponse(h.key, h.err, h.parentId);
      }
      ledger := ledger[h.key := Answered(ledger[h.key], i, AnswerOf(h))];
    }

    /**
     * One turn of the loop in responseHandler: run subservice `i` and merge what it returns. At most one request gets
     * an answer, which it was owed by subservice `i` and which bears the id of that subservice.
     */
    method Poll(i: nat, round: AC.Round) returns (ghost h: Option<Handle>)
      requires Valid() && i < |services|
      modifies this`requests, this`respQueue, this`emitted, this`ledger, services[i]
      ensures Valid() && Delivered() == old(Delivered())
      ensures requests.Keys == old(requests.Keys)
      ensures Gives(old(services[i].View()), old(services[i].responses), old(services[i].rcvTimeout), round, h)
      ensures h.None? ==> View() == old(View())
      ensures h.Some? ==>
                var key := h.value.key;
                && key in old(requests) && key in old(ledger) && i in old(ledger)[key].owing
                && AnswerOf(h.value).origin == services[i].endpointId
                && View() == Record(old(View()), i, key, AnswerOf(h.value))
    {
      hide BooksValid, OwedBy, QueueIsTail, Delivered, Owes, AC.Served, Finished, Inv;
      assert Owed(i);
      ghost var books := View();
      var handle, waiting;
      ghost var es;
      handle, waiting, es := services[i].Run(round, true);
      h := handle;
      if handle.Some? {
        OwedIsBooked(old(services[i].reqCache), books, |services|, i, h.value.key);
        RecordKeepsBooks(books, |services|, i, h.value.key, AnswerOf(h.value));
        Absorb(i, handle.value);
      }
      forall j | 0 <= j < |services|
        ensures Owed(j)
      {
        assert old(Owed(j)) && services[j].Valid();
        if h.Some? {
          OneAnswerLess(old(services[j].reqCache), services[j].reqCache, old(ledger), i, j, h.value.key,
                        AnswerOf(h.value));
        } else {
          SameOwedBy(old(services[j].reqCache), services[j].reqCache, ledger, j);
        }
      }
    }

    /** responseHandler (src/ksi/net_ha.c:992-1054): runs every subservice once and merges what it returns. */
    method ResponseHandler(rounds: seq<AC.Round>) returns (ghost hs: seq<Option<Handle>>)
      requires Valid() && |rounds| == |services|
      modifies this`requests, this`respQueue, this`emitted, this`ledger, services
      ensures Valid() && Delivered() == old(Delivered())
      ensures requests.Keys == old(requests.Keys)
      ensures |hs| == |services| && View() == RecordAll(old(View()), hs, |hs|)
      ensures forall j :: 0 <= j < |hs| ==>
                Gives(old(services[j].View()), old(services[j].responses), old(services[j].rcvTimeout), rounds[j],
                      hs[j])
    {
      hide Delivered, Gives, Record, BooksValid, AllOwed, Signed, QueueIsTail;
      hs := [];
      for i := 0 to |services|
        invariant Valid() && Delivered() == old(Delivered())
        invariant requests.Keys == old(requests.Keys)
        invariant |hs| == i && View() == RecordAll(old(View()), hs, i)
        invariant forall j :: 0 <= j < i ==>
                    Gives(old(services[j].View()), old(services[j].responses), old(services[j].rcvTimeout),
                          rounds[j], hs[j])
        invariant forall j :: i <= j < |services| ==>
                    && services[j].View() == old(services[j].View())
                    && services[j].responses == old(services[j].responses)
                    && services[j].rcvTimeout == old(services[j].rcvTimeout)
      {
        ghost var h := Poll(i, rounds[i]);
        RecordAllPrefix(old(View()), hs, [h], i);
        hs := hs + [h];
      }
    }

    /** The state of subservice `j` while request `key` is handed round and `takers` have accepted it. */
    ghost predicate OwedWith(j: nat, key: nat, takers: set<nat>)
      requires j < |services|
      reads this`services, this`ledger, services
    {
      && services[j].Valid()
      && forall k :: Owes(services[j].reqCache, k) <==>
           (k in ledger && j in ledger[k].owing) || (k == key && j in takers)
    }

    /** One turn of the loop in addRequest: a clone of the request is offered to subservice `i`. */
    method Offer(i: nat, key: nat, reaction: Reaction, expected: nat, addRes: int, ghost takers: set<nat>)
      returns (expected': nat, addRes': int, ghost takers': set<nat>)
      requires i < |services| && key !in ledger && i !in takers
      requires DistinctServices()
      requires forall j :: 0 <= j < |services| ==> OwedWith(j, key, takers)
      requires expected == |takers| && (takers == {} ==> addRes != KSI_OK)
      modifies services[i]
      ensures forall j :: 0 <= j < |services| ==> OwedWith(j, key, takers')
      ensures expected' == |takers'| && (takers' == {} ==> addRes' != KSI_OK)
      ensures takers' == takers || takers' == takers + {i}
      ensures Handled(services[i], old(services[i].View()), old(services[i].responses), old(services[i].rcvTimeout),
                      key, reaction, i in takers')
      ensures OfferReturns(old(services[i].reqCache), reaction, addRes')
    {
      assert OwedWith(i, key, takers);
      ghost var es;
      addRes', es := services[i].AddRequest(Clone(key), reaction.prepared, reaction.queued);
      expected', takers' := expected, takers;
      if addRes' == KSI_OK {
        expected', takers' := expected + 1, takers + {i};
      }
      forall j | 0 <= j < |services|
        ensures OwedWith(j, key, takers')
      {
        assert old(OwedWith(j, key, takers));
      }
    }

    /**
     * KSI_HighAvailabilityService_addRequest (src/ksi/net_ha.c:79-223): every subservice is asked; the request
     * counts as accepted if one of them takes it. `key` is the new request object that wraps the handle.
     */
    method AddRequest(key: nat, reactions: seq<Reaction>) returns (res: int, ghost takers: set<nat>)
      requires Valid() && |reactions| == |services| && key !in requests
      modifies this`requests, this`ledger, services
      ensures Valid() && respQueue == old(respQueue) && emitted == old(emitted)
      ensures services == [] ==> res == KSI_INVALID_STATE
      ensures (res == KSI_OK <==> takers != {}) && forall j :: j in takers ==> j < |services|
      ensures var last := |services| - 1;
              services != [] && res != KSI_OK ==> OfferReturns(old(services[last].reqCache), reactions[last], res)
      ensures View() == if res == KSI_OK then Open(old(View()), key, takers) else old(View())
      ensures forall j :: 0 <= j < |services| ==> (j in takers <==> Owes(services[j].reqCache, key))
      ensures services != [] ==> forall j :: 0 <= j < |services| ==>
                Handled(services[j], old(services[j].View()), old(services[j].responses), old(services[j].rcvTimeout),
                        key, reactions[j], j in takers)
    {
      hide BooksValid, Owes, QueueIsTail, SignedBy, Handled, OfferReturns;
      NotBooked(View(), |services|, key);
      if services == [] {
        return KSI_INVALID_STATE, {};
      }
      var expected;
      expected, res, takers := OfferToAll(key, reactions);
      if expected > 0 {
        Accept(key, expected, takers);
        res := KSI_OK;
      } else {
        forall j | 0 <= j < |services|
          ensures Owed(j) && !Owes(services[j].reqCache, key)
        {
          assert OwedWith(j, key, takers);
        }
      }
    }

    lemma NobodyTookIt(key: nat)
      requires AllOwed() && key !in ledger
      ensures forall j :: 0 <= j < |services| ==> OwedWith(j, key, {})
    {
      hide Owes, Inv;
      forall j | 0 <= j < |services|
        ensures OwedWith(j, key, {})
      {
        assert Owed(j);
      }
    }

    /** The loop of addRequest. */
    method OfferToAll(key: nat, reactions: seq<Reaction>) returns (expected: nat, addRes: int, ghost takers: set<nat>)
      requires |reactions| == |services| && key !in ledger
      requires DistinctServices() && AllOwed()
      modifies services
      ensures expected == |takers| && (takers == {} ==> addRes != KSI_OK)
      ensures forall j :: j in takers ==> j < |services|
      ensures var last := |services| - 1;
              services != [] ==> OfferReturns(old(services[last].reqCache), reactions[last], addRes)
      ensures forall j :: 0 <= j < |services| ==> OwedWith(j, key, takers)
      ensures forall j :: 0 <= j < |services| ==>
                Handled(services[j], old(services[j].View()), old(services[j].responses), old(services[j].rcvTimeout),
                        key, reactions[j], j in takers)
    {
      hide Handled, OwedWith, Owes, Inv, AC.AsyncClient.View, AC.AsyncClient.Valid, OfferReturns;
      expected, addRes, takers := 0, KSI_INVALID_STATE, {};
      NobodyTookIt(key);
      for i := 0 to |services|
        invariant expected == |takers| && (takers == {} ==> addRes != KSI_OK)
        invariant forall j :: j in takers ==> j < i
        invariant forall j :: 0 <= j < |services| ==> OwedWith(j, key, takers)
        invariant i > 0 ==> OfferReturns(old(services[i - 1].reqCache), reactions[i - 1], addRes)
        invariant forall j :: 0 <= j < i ==>
                    Handled(services[j], old(services[j].View()), old(services[j].responses),
                            old(services[j].rcvTimeout), key, reactions[j], j in takers)
        invariant forall j :: i <= j < |services| ==> unchanged(services[j])
      {
        expected, addRes, takers := Offer(i, key, reactions[i], expected, addRes, takers);
      }
    }

    /** The request was taken by `takers`: from now on their answers are expected. */
    method Accept(key: nat, expected: nat, ghost takers: set<nat>)
      requires key !in requests && takers != {} && expected == |takers|
      requires forall j :: j in takers ==> j < |services|
      requires BooksValid(View(), |services|) && Signed()
      requires forall j :: 0 <= j < |services| ==> OwedWith(j, key, takers)
      modifies this`requests, this`ledger
      ensures View() == Open(old(View()), key, takers)
      ensures BooksValid(View(), |services|) && Signed()
      ensures AllOwed() && forall j :: 0 <= j < |services| ==> (j in takers <==> Owes(services[j].reqCache, key))
    {
      hide Owes, BooksValid;
      OpenKeepsBooks(View(), |services|, key, takers);
      requests := requests[key := HaRequest(expected, Waiting)];
      ledger := ledger[key := Ledger(expected, takers, [], [])];
      forall j | 0 <= j < |services|
        ensures Owed(j) && (j in takers <==> Owes(services[j].reqCache, key))
      {
        assert old(OwedWith(j, key, takers));
      }
    }

    /** KSI_HighAvailabilityService_getPendingCount (src/ksi/net_ha.c:604-643): the largest of the counts. */
    method GetPendingCount() returns (count: int)
      requires Valid()
      ensures forall i :: 0 <= i < |services| ==> services[i].pending <= count
      ensures count == 0 || exists i :: 0 <= i < |services| && services[i].pending == count
    {
      count := 0;
      for i := 0 to |services|
        invariant forall j :: 0 <= j < i ==> services[j].pending <= count
        invariant count == 0 || exists j :: 0 <= j < i && services[j].pending == count
      {
        if services[i].pending > count {
          count := services[i].pending;
        }
      }
    }

    /** KSI_HighAvailabilityService_getReceivedCount (src/ksi/net_ha.c:645-684): the largest count, plus the queue. */
    method GetReceivedCount() returns (count: int)
      requires Valid()
      ensures forall i :: 0 <= i < |services| ==> services[i].received + |respQueue| <= count
      ensures count == |respQueue| || exists i :: 0 <= i < |services| && services[i].received + |respQueue| == count
    {
      var largest := 0;
      for i := 0 to |services|
        invariant forall j :: 0 <= j < i ==> services[j].received <= largest
        invariant largest == 0 || exists j :: 0 <= j < i && services[j].received == largest
      {
        if services[i].received > largest {
          largest := services[i].received;
        }
      }
      count := largest + |respQueue|;
    }

    /** No subservice has a handle in its cache, and nothing is queued. */
    ghost predicate Drained()
      reads this, services
    {
      respQueue == [] && forall i :: 0 <= i < |services| ==> forall key :: !Owes(services[i].reqCache, key)
    }

    /** If all caches and the queue are empty, then every request ever accepted was settled and given back. */
    lemma DrainedMeansSettled(key: nat)
      requires Valid() && Drained() && key in requests
      ensures Settled(ledger[key])
      ensures Delivered() == emitted
    {
      forall i: nat
        ensures i !in ledger[key].owing
      {
        if i < |services| {
          assert Owed(i);
        }
      }
    }

    lemma NothingCached(i: nat)
      requires Valid() && i < |services|
      ensures services[i].pending >= 0 && services[i].received >= 0
      ensures services[i].pending + services[i].received == 0 <==> forall key :: !Owes(services[i].reqCache, key)
    {
      assert Owed(i);
      var cache := services[i].reqCache;
      CountExtremes(cache);
      if forall key :: !Owes(cache, key) {
        forall j | 0 <= j < |cache|
          ensures cache[j].None?
        {
          if cache[j].Some? {
            assert Owes(cache, cache[j].value.key);
          }
        }
      }
    }

    /** Request `key` was answered by all its takers, and the user has been told so exactly once. */
    ghost predicate GivenBack(key: nat)
      requires key in ledger && key in requests
      reads this`respQueue, this`emitted, this`ledger, this`requests
    {
      ToldOnce(requests[key], ledger[key], ItemsOf(Delivered(), key))
    }

    lemma DrainedMeansGivenBack()
      requires Valid() && Drained()
      ensures forall key :: key in requests ==> key in ledger && GivenBack(key)
    {
      forall key | key in requests
        ensures GivenBack(key)
      {
        DrainedMeansSettled(key);
        SettledIsToldOnce(View(), |services|, key);
      }
    }

    /** The head of the queue goes to the user. */
    method Pop() returns (handle: Option<Queued>)
      requires Valid()
      modifies this`respQueue
      ensures Valid()
      ensures old(respQueue) == [] ==> respQueue == []
      ensures handle.None? <==> old(respQueue) == []
      ensures Delivered() == old(Delivered()) + (if handle.Some? then [handle.value] else [])
    {
      hide AllOwed, BooksValid;
      handle := None;
      if |respQueue| > 0 {
        handle := Some(respQueue[0]);
        respQueue := respQueue[1..];
      }
    }

    /**
     * KSI_HighAvailabilityService_run (src/ksi/net_ha.c:1066-1113): `waiting` is zero exactly when nothing is left to
     * wait for, and then every request that was ever accepted has been given back as often as it was due: once, if
     * every error came with a code.
     */
    method Run(rounds: seq<AC.Round>, want: bool)
      returns (res: int, handle: Option<Queued>, waiting: int, ghost hs: seq<Option<Handle>>)
      requires Valid() && |rounds| == |services|
      modifies this`requests, this`respQueue, this`emitted, this`ledger, services
      ensures Valid() && requests.Keys == old(requests.Keys)
      ensures res == (if services == [] then KSI_INVALID_STATE else KSI_OK)
      ensures Delivered() == old(Delivered()) + (if handle.Some? then [handle.value] else [])
      ensures res == KSI_OK && want && handle.None? ==> respQueue == []
      ensures res == KSI_OK ==>
                && |hs| == |services| && View() == RecordAll(old(View()), hs, |hs|)
                && forall j :: 0 <= j < |hs| ==>
                     Gives(old(services[j].View()), old(services[j].responses), old(services[j].rcvTimeout),
                           rounds[j], hs[j])
      ensures res == KSI_OK ==> IsWaiting(waiting) && (waiting == 0 <==> Drained())
      ensures res == KSI_OK && waiting == 0 ==> forall key :: key in requests ==> key in ledger && GivenBack(key)
    {
      hide Valid, Delivered, Drained, GivenBack, Gives, RecordAll, IsWaiting;
      handle, waiting, hs := None, 0, [];
      if services == [] {
        return KSI_INVALID_STATE, None, 0, [];
      }
      hs := ResponseHandler(rounds);
      if want {
        handle := Pop();
      }
      waiting := CountWaiting();
      if waiting == 0 {
        DrainedMeansGivenBack();
      }
      res := KSI_OK;
    }

    /**
     * The waiting count counts slots: it is the largest number of unfinished handles in any cache, plus the largest
     * number of received ones in any cache, plus the length of the queue.
     */
    ghost predicate IsWaiting(waiting: int)
      reads this, services
    {
      && (forall i, j :: 0 <= i < |services| && 0 <= j < |services| ==>
            Counted(services[i].reqCache, services[j].reqCache) <= waiting)
      && (services == [] ==> waiting == |respQueue|)
      && (services != [] ==>
            exists i, j :: 0 <= i < |services| && 0 <= j < |services| &&
              Counted(services[i].reqCache, services[j].reqCache) == waiting)
    }

    ghost function Counted(a: seq<Slot>, b: seq<Slot>): int
      reads this`respQueue
    {
      PendingCount(a) + ReceivedCount(b) + |respQueue|
    }

    /** The waiting count of the service. */
    method CountWaiting() returns (waiting: int)
      requires Valid()
      ensures waiting == 0 <==> Drained()
      ensures IsWaiting(waiting)
    {
      var pending := GetPendingCount();
      var received := GetReceivedCount();
      waiting := pending + received;
      forall i | 0 <= i < |services|
        ensures services[i].pending >= 0 && services[i].received >= 0
        ensures services[i].pending + services[i].received == 0 <==> forall key :: !Owes(services[i].reqCache, key)
        ensures services[i].pending == PendingCount(services[i].reqCache)
        ensures services[i].received == ReceivedCount(services[i].reqCache)
      {
        NothingCached(i);
        assert Owed(i);
      }
      if services != [] {
        assert services[0].pending >= 0 && services[0].received >= 0;
        ghost var i :| 0 <= i < |services| && services[i].pending == pending;
        ghost var j :| 0 <= j < |services| && services[j].received + |respQueue| == received;
        assert Counted(services[i].reqCache, services[j].reqCache) == waiting;
      }
    }
  }

  // ----- a handle that is never given back -----

  /** The only request of a client, waiting in slot 1. */
  function OnlyRequest(key: nat, endpoint: nat): Handle { Handle(key, 1, WaitingForDispatch, 0, 0, endpoint) }

  lemma NewClientTakes(key: nat, endpoint: nat, r: Ring, taken: bool)
    requires Took(Initial(1, endpoint), r, key, Reaction(KSI_OK, KSI_OK), taken)
    ensures taken && r.cache == [None, Some(OnlyRequest(key, endpoint))]
  {
    var start := Initial(1, endpoint);
    assert start.cache[1].None?;
    assert taken && r.requestCount == 1;
  }

  /** The request is written at time 0, and one PDU comes back. */
  function OnePdu(pdu: AC.Pdu): AC.Round { AC.Round(_ => 0, [AC.Written(1, 0)], [pdu], KSI_OK) }

  lemma SentInFirstSlot(r: Ring, h: Handle)
    requires r.cache == [None, Some(h)] && h.state == WaitingForDispatch
    ensures AC.AfterSends(r.cache, [AC.Written(1, 0)]) == [None, Some(h.(state := WaitingForResponse, sndTime := 0))]
  {
    assert [AC.Written(1, 0)][1..] == [];
  }

  /** An error PDU with status 0 makes the handle an error without a code. */
  lemma GivesUncodedError(r: Ring, key: nat, endpoint: nat, h: Option<Handle>)
    requires r.cache == [None, Some(OnlyRequest(key, endpoint))]
    requires Gives(r, [], 10, OnePdu(AC.ErrorPdu(KSI_OK)), h)
    ensures h.Some? && h.value.key == key && AnswerOf(h.value) == Failure(KSI_OK, endpoint)
  {
    var sent := OnlyRequest(key, endpoint).(state := WaitingForResponse, sndTime := 0);
    SentInFirstSlot(r, OnlyRequest(key, endpoint));
    var r1 := r.(cache := [None, Some(sent)]);
    var pdu := AC.ErrorPdu(KSI_OK);
    assert [] + [pdu] == [pdu] && [pdu][1..] == [];
    assert AC.Processed(r1, [pdu], None) == AC.Processed(r1, [], Some(KSI_OK));
    var mid := AC.Served(r, [], OnePdu(pdu));
    assert mid.cache == FailAll([None, Some(sent)], KSI_OK);
    assert mid.cache == [None, Some(sent.(state := Error, err := KSI_OK))];
    assert Finished(mid.cache[1], 0, 10);
  }

  lemma GivesResponse(r: Ring, key: nat, endpoint: nat, h: Option<Handle>)
    requires r.cache == [None, Some(OnlyRequest(key, endpoint))]
    requires Gives(r, [], 10, OnePdu(AC.Response(1, KSI_OK, KSI_OK)), h)
    ensures h.Some? && h.value.key == key && AnswerOf(h.value) == Success(endpoint)
  {
    var sent := OnlyRequest(key, endpoint).(state := WaitingForResponse, sndTime := 0);
    SentInFirstSlot(r, OnlyRequest(key, endpoint));
    var r1 := r.(cache := [None, Some(sent)]);
    var pdu := AC.Response(1, KSI_OK, KSI_OK);
    assert [] + [pdu] == [pdu] && [pdu][1..] == [];
    assert Addressee(r1.cache, 1) == Some(1);
    assert AC.Processed(r1, [pdu], None) == AC.Processed(Apply(r1, Answer(1, KSI_OK)), [], None);
    var mid := AC.Served(r, [], OnePdu(pdu));
    assert mid.cache == [None, Some(sent.(state := ResponseReceived))];
    assert Finished(mid.cache[1], 0, 10);
  }

  const NO_BOOKS := Books(map[], map[], [])

  /** A service with two new subservices. */
  method NewPair() returns (ha: HighAvailabilityService)
    ensures fresh(ha) && fresh(ha.services) && ha.Valid() && ha.View() == NO_BOOKS && |ha.services| == 2
    ensures forall j :: 0 <= j < 2 ==>
              && ha.services[j].View() == Initial(1, j + 1)
              && ha.services[j].responses == [] && ha.services[j].rcvTimeout == 10
  {
    hide BooksValid, Owes, Inv, Initial, HighAvailabilityService.Valid;
    var a := new AC.AsyncClient(1);
    var b := new AC.AsyncClient(2);
    NothingOwedAtFirst(a, 1);
    NothingOwedAtFirst(b, 2);
    ha := new HighAvailabilityService([a, b]);
  }

  /** Both take the request. */
  method AddToPair(ha: HighAvailabilityService, key: nat)
    requires ha.Valid() && ha.View() == NO_BOOKS && |ha.services| == 2
    requires forall j :: 0 <= j < 2 ==>
               && ha.services[j].View() == Initial(1, j + 1)
               && ha.services[j].responses == [] && ha.services[j].rcvTimeout == 10
    modifies ha`requests, ha`ledger, ha.services
    ensures ha.Valid() && ha.View() == Open(NO_BOOKS, key, {0, 1})
    ensures forall j :: 0 <= j < 2 ==>
              && ha.services[j].reqCache == [None, Some(OnlyRequest(key, j + 1))]
              && ha.services[j].responses == [] && ha.services[j].rcvTimeout == 10
  {
    hide Took, Owes, Initial, Open, HighAvailabilityService.Valid;
    ghost var takers;
    var res;
    res, takers := ha.AddRequest(key, [Reaction(KSI_OK, KSI_OK), Reaction(KSI_OK, KSI_OK)]);
    NewClientTakes(key, 1, ha.services[0].View(), 0 in takers);
    NewClientTakes(key, 2, ha.services[1].View(), 1 in takers);
    assert takers == {0, 1};
  }

  /**
   * Two subservices take a request; the first receives an error PDU with status 0 and the second the response. Then
   * nothing is left to wait for, and the user's handle was not given back.
   */
  method HandleIsNeverGivenBack(key: nat) returns (ha: HighAvailabilityService, waiting: int)
    ensures fresh(ha) && ha.Valid() && key in ha.requests && waiting == 0 && ha.Delivered() == [] && ha.respQueue == []
  {
    hide Gives, RecordAll, Open, HighAvailabilityService.Valid, HighAvailabilityService.Drained;
    hide HighAvailabilityService.Delivered;
    ha := NewPair();
    AddToPair(ha, key);
    ghost var ra, rb := ha.services[0].View(), ha.services[1].View();
    var res, handle;
    ghost var hs;
    res, handle, waiting, hs := ha.Run([OnePdu(AC.ErrorPdu(KSI_OK)), OnePdu(AC.Response(1, KSI_OK, KSI_OK))], true);
    GivesUncodedError(ra, key, 1, hs[0]);
    GivesResponse(rb, key, 2, hs[1]);
    TwoRecords(key, hs, 1, 2);
    NothingIsLeft(ha, key);
  }

  lemma TwoRecords(key: nat, hs: seq<Option<Handle>>, e: nat, e': nat)
    requires |hs| == 2 && hs[0].Some? && hs[1].Some? && hs[0].value.key == hs[1].value.key == key
    requires AnswerOf(hs[0].value) == Failure(KSI_OK, e) && AnswerOf(hs[1].value) == Success(e')
    ensures var b' := RecordAll(Open(NO_BOOKS, key, {0, 1}), hs, 2);
            b'.emitted == [] && b'.ledger.Keys == {key} && b'.ledger[key].owing == {}
  {
    var b0 := Open(NO_BOOKS, key, {0, 1});
    assert RecordAll(b0, hs, 0) == b0;
    assert RecordAll(b0, hs, 1) == Record(b0, 0, key, Failure(KSI_OK, e));
  }

  lemma NothingIsLeft(ha: HighAvailabilityService, key: nat)
    requires ha.Valid() && ha.emitted == [] && ha.ledger.Keys == {key} && ha.ledger[key].owing == {}
    ensures ha.Drained() && ha.Delivered() == [] && ha.respQueue == [] && key in ha.requests
  {
    hide Owes, Merged;
    forall i, k | 0 <= i < |ha.services|
      ensures !Owes(ha.services[i].reqCache, k)
    {
      assert ha.Owed(i);
    }
  }

  lemma NothingOwedAtFirst(client: AC.AsyncClient, endpoint: nat)
    requires client.View() == Initial(1, endpoint)
    ensures forall k :: !Owes(client.reqCache, k)
  {
  }
}
