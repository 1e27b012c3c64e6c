/**
 * How the high-availability service merges the answers of its subservices to one request
 * (src/ksi/net_ha.c:845-990). `Deliver` is one answer; the lemmas speak of every order in which answers can come.
 */
module HaMerge {
  import opened Common

  /** What a subservice returned: a response, or an error with its code; `origin` is the endpoint. */
  datatype Answer = Success(origin: nat) | Failure(code: int, origin: nat)

  /** The state of the user's handle, with the fields that belong to it. */
  datatype HandleState = Waiting | Failed(code: int, origin: nat) | Received(origin: nat)

  /** What is put into the response queue: the user's own handle, or a separate error notice. */
  datatype Item = Final | Notice(code: int, origin: nat)

  datatype Merge = Merge(expected: int, state: HandleState, items: seq<Item>)

  /** handleReqResponse and handleErrorResponse; a notice without an error code is refused and ends the handler. */
  function Deliver(m: Merge, a: Answer): Merge {
    var left := m.expected - 1;
    match a
    case Success(origin) =>
      (match m.state
       case Received(_) => m.(expected := left)
       case Waiting => Merge(left, Received(origin), m.items + [Final])
       case Failed(code, from) =>
         if code == KSI_OK then m.(expected := left)
         else Merge(left, Received(origin), m.items + [Notice(code, from), Final]))
    case Failure(code, origin) =>
      if m.state.Waiting? then
        Merge(left, Failed(code, origin), if left == 0 then m.items + [Final] else m.items)
      else if code == KSI_OK then m.(expected := left)
      else
        m.(expected := left,
           items := m.items + [Notice(code, origin)] + if m.state.Failed? && left == 0 then [Final] else [])
  }

  /** The request after `answers`, in the order in which they came, if `k` subservices accepted it. */
  function MergeAll(k: nat, answers: seq<Answer>): Merge {
    if answers == [] then Merge(k, Waiting, [])
    else Deliver(MergeAll(k, answers[..|answers| - 1]), answers[|answers| - 1])
  }

  // ----- vocabulary for the claims -----

  function Finals(items: seq<Item>): nat {
    if items == [] then 0 else Finals(items[..|items| - 1]) + (if items[|items| - 1].Final? then 1 else 0)
  }

  /** How many notices report the failure `f`. */
  function Notices(items: seq<Item>, f: Answer): nat {
    if items == [] then 0
    else
      var last := items[|items| - 1];
      Notices(items[..|items| - 1], f) + if last.Notice? && Failure(last.code, last.origin) == f then 1 else 0
  }

  predicate HasSuccess(answers: seq<Answer>) { exists i :: 0 <= i < |answers| && answers[i].Success? }

  /** Who answered with success first. */
  ghost predicate FirstSuccess(answers: seq<Answer>, origin: nat) {
    exists i :: 0 <= i < |answers| && answers[i] == Success(origin) && forall j :: 0 <= j < i ==> answers[j].Failure?
  }

  /** Every error answer carries an error code. */
  predicate Coded(answers: seq<Answer>) {
    forall i :: 0 <= i < |answers| && answers[i].Failure? ==> answers[i].code != KSI_OK
  }

  /** Exactly when the answers seen so far make the service queue the user's handle. */
  predicate FinalDue(k: nat, answers: seq<Answer>) {
    && answers != []
    && (|| answers[0].Success?
        || (answers[0].code != KSI_OK && HasSuccess(answers))
        || (|answers| == k && (k == 1 || (var last := answers[|answers| - 1]; last.Failure? && last.code != KSI_OK))))
  }

  /** How many of the answers are the failure `f`. */
  function Failures(answers: seq<Answer>, f: Answer): nat {
    if answers == [] then 0
    else Failures(answers[..|answers| - 1], f) + if answers[|answers| - 1] == f && f.Failure? then 1 else 0
  }

  /** Does the user's handle hold the failure `f`? */
  function Held(s: HandleState, f: Answer): nat {
    if s.Failed? && Failure(s.code, s.origin) == f then 1 else 0
  }

  /** How often the user gets to see the failure `f`: in notices, or in the handle itself. */
  function Visible(m: Merge, f: Answer): nat { Notices(m.items, f) + Held(m.state, f) }

  // ----- proofs -----

  lemma FinalsAppend(items: seq<Item>, more: seq<Item>)
    requires |more| <= 2
    ensures |more| == 1 ==> Finals(items + more) == Finals(items) + (if more[0].Final? then 1 else 0)
    ensures |more| == 2 ==>
              Finals(items + more) - Finals(items) ==
              (if more[0].Final? then 1 else 0) + (if more[1].Final? then 1 else 0)
  {
    if |more| == 1 {
      assert (items + more)[..|items|] == items;
    } else if |more| == 2 {
      assert (items + more)[..|items| + 1] == items + [more[0]];
      assert (items + [more[0]])[..|items|] == items;
    }
  }

  ghost predicate StateIs(answers: seq<Answer>, s: HandleState) {
    if answers == [] then s == Waiting
    else if answers[0].Success? then s == Received(answers[0].origin)
    else if answers[0].code != KSI_OK && HasSuccess(answers) then s.Received? && FirstSuccess(answers, s.origin)
    else s == Failed(answers[0].code, answers[0].origin)
  }

  lemma {:induction false} StateAfter(k: nat, answers: seq<Answer>)
    ensures MergeAll(k, answers).expected == k - |answers|
    ensures StateIs(answers, MergeAll(k, answers).state)
  {
    if answers != [] {
      var n := |answers| - 1;
      var init := answers[..n];
      StateAfter(k, init);
      var s := MergeAll(k, init).state;
      if n > 0 && HasSuccess(init) {
        var i :| 0 <= i < n && init[i].Success?;
        assert answers[i].Success?;
        if answers[0].Failure? && answers[0].code != KSI_OK {
          var j :| 0 <= j < n && init[j] == Success(s.origin) && forall l :: 0 <= l < j ==> init[l].Failure?;
          assert answers[j] == Success(s.origin) && forall l :: 0 <= l < j ==> answers[l] == init[l];
        }
      } else {
        assert forall l :: 0 <= l < n ==> answers[l] == init[l] && answers[l].Failure?;
      }
    }
  }

  /** The handle is queued exactly when it is due, and then exactly once, in whatever order the answers come. */
  lemma {:induction false} FinalExactlyWhenDue(k: nat, answers: seq<Answer>)
    requires |answers| <= k
    ensures Finals(MergeAll(k, answers).items) == if FinalDue(k, answers) then 1 else 0
  {
    if answers != [] {
      var n := |answers| - 1;
      var init := answers[..n];
      FinalExactlyWhenDue(k, init);
      StateAfter(k, init);
      HasSuccessSplit(answers);
      var m := MergeAll(k, init);
      FinalsAppend(m.items, [Final]);
      var a := answers[n];
      match a {
        case Success(_) =>
          if m.state.Failed? { FinalsAppend(m.items, [Notice(m.state.code, m.state.origin), Final]); }
        case Failure(code, origin) =>
          FinalsAppend(m.items, [Notice(code, origin)]);
          FinalsAppend(m.items + [Notice(code, origin)], [Final]);
          assert m.items + [Notice(code, origin)] + [] == m.items + [Notice(code, origin)];
      }
    }
  }

  lemma HasSuccessSplit(answers: seq<Answer>)
    requires answers != []
    ensures HasSuccess(answers) <==> HasSuccess(answers[..|answers| - 1]) || answers[|answers| - 1].Success?
  {
    var n := |answers| - 1;
    assert forall i :: 0 <= i < n ==> answers[..n][i] == answers[i];
  }

  /** How often `f` occurs, not counting later answers without a code: those are dropped. */
  function Reportable(answers: seq<Answer>, f: Answer): nat {
    if answers == [] then 0
    else
      Reportable(answers[..|answers| - 1], f) +
      if answers[|answers| - 1] == f && f.Failure? && (|answers| == 1 || f.code != KSI_OK) then 1 else 0
  }

  lemma NoticesAppend(items: seq<Item>, item: Item, f: Answer)
    ensures Notices(items + [item], f)
         == Notices(items, f) + if item.Notice? && Failure(item.code, item.origin) == f then 1 else 0
  {
    assert (items + [item])[..|items|] == items;
  }

  /** Delivering an answer makes it visible once if it is a reportable failure, and hides nothing. */
  lemma DeliverVisible(m: Merge, a: Answer, f: Answer)
    ensures Visible(Deliver(m, a), f)
         == Visible(m, f) + if a == f && f.Failure? && (m.state.Waiting? || f.code != KSI_OK) then 1 else 0
  {
    hide Notices;
    NoticesAppend(m.items, Final, f);
    if a.Failure? {
      var notice := Notice(a.code, a.origin);
      NoticesAppend(m.items, notice, f);
      NoticesAppend(m.items + [notice], Final, f);
      assert m.items + [notice] + [] == m.items + [notice];
    } else if m.state.Failed? {
      var notice := Notice(m.state.code, m.state.origin);
      NoticesAppend(m.items, notice, f);
      NoticesAppend(m.items + [notice], Final, f);
      assert m.items + [notice, Final] == m.items + [notice] + [Final];
    }
  }

  /** No error is invented, lost or doubled: the notices and the error the handle holds are the reportable ones. */
  lemma {:induction false} ErrorsAreConserved(k: nat, answers: seq<Answer>, f: Answer)
    ensures Visible(MergeAll(k, answers), f) == Reportable(answers, f)
  {
    if answers != [] {
      var n := |answers| - 1;
      ErrorsAreConserved(k, answers[..n], f);
      StateAfter(k, answers[..n]);
      DeliverVisible(MergeAll(k, answers[..n]), answers[n], f);
    }
  }

  /** Every later failure has a code. */
  predicate LaterCoded(answers: seq<Answer>) {
    forall i :: 1 <= i < |answers| && answers[i].Failure? ==> answers[i].code != KSI_OK
  }

  lemma {:induction false} DroppedIffUncodedLater(answers: seq<Answer>, f: Answer)
    ensures Reportable(answers, f) <= Failures(answers, f)
    ensures Reportable(answers, f) < Failures(answers, f) <==>
            f.Failure? && f.code == KSI_OK && exists i :: 1 <= i < |answers| && answers[i] == f
  {
    if answers != [] {
      var n := |answers| - 1;
      DroppedIffUncodedLater(answers[..n], f);
      assert forall i :: 0 <= i < n ==> answers[..n][i] == answers[i];
    }
  }

  /** The user sees exactly the errors that occurred if and only if every failure after the first answer has a code. */
  lemma ErrorsCompleteIff(k: nat, answers: seq<Answer>)
    ensures (forall f :: Visible(MergeAll(k, answers), f) == Failures(answers, f)) <==> LaterCoded(answers)
  {
    forall f: Answer
      ensures Visible(MergeAll(k, answers), f) == Reportable(answers, f)
      ensures Reportable(answers, f) < Failures(answers, f) <==>
              f.Failure? && f.code == KSI_OK && exists i :: 1 <= i < |answers| && answers[i] == f
      ensures Reportable(answers, f) <= Failures(answers, f)
    {
      ErrorsAreConserved(k, answers, f);
      DroppedIffUncodedLater(answers, f);
    }
    if !LaterCoded(answers) {
      var i :| 1 <= i < |answers| && answers[i].Failure? && answers[i].code == KSI_OK;
      assert Visible(MergeAll(k, answers), answers[i]) != Failures(answers, answers[i]);
    }
  }

  /**
   * Exactly once: if all `k` subservices that accepted a request have answered, and every error has a code, then the
   * user's handle was queued once. It carries the first success if there was one, and otherwise the first error;
   * together with the notices it reports the errors that occurred, with their origins, and no others.
   */
  lemma ExactlyOnce(k: nat, answers: seq<Answer>)
    requires 1 <= k == |answers| && Coded(answers)
    ensures Finals(MergeAll(k, answers).items) == 1
    ensures HasSuccess(answers) ==>
              MergeAll(k, answers).state.Received? && FirstSuccess(answers, MergeAll(k, answers).state.origin)
    ensures !HasSuccess(answers) ==>
              MergeAll(k, answers).state == Failed(answers[0].code, answers[0].origin)
    ensures forall f :: Visible(MergeAll(k, answers), f) == Failures(answers, f)
  {
    FinalExactlyWhenDue(k, answers);
    StateAfter(k, answers);
    ErrorsCompleteIff(k, answers);
    if HasSuccess(answers) && answers[0].Success? {
      assert FirstSuccess(answers, answers[0].origin);
    }
  }

  /** Before all answers are in, the handle is queued if and only if a success came: a success is not held back. */
  lemma QueuedAtFirstSuccess(k: nat, answers: seq<Answer>)
    requires |answers| < k && Coded(answers)
    ensures Finals(MergeAll(k, answers).items) == if HasSuccess(answers) then 1 else 0
  {
    FinalExactlyWhenDue(k, answers);
  }

  /** Once the handle is queued, no later answer changes what it says. */
  lemma QueuedHandleIsFrozen(k: nat, answers: seq<Answer>, a: Answer)
    requires |answers| < k && Finals(MergeAll(k, answers).items) > 0
    ensures Deliver(MergeAll(k, answers), a).state == MergeAll(k, answers).state
  {
    FinalExactlyWhenDue(k, answers);
    StateAfter(k, answers);
  }

  /** Without codes the claim fails: an error PDU with status 0 first, then a success, and the handle is lost. */
  lemma UncodedErrorLosesTheHandle(origin: nat, other: nat)
    ensures Finals(MergeAll(2, [Failure(KSI_OK, origin), Success(other)]).items) == 0
  {
    var answers := [Failure(KSI_OK, origin), Success(other)];
    assert answers[..1] == [Failure(KSI_OK, origin)];
    assert [Failure(KSI_OK, origin)][..0] == [];
    assert MergeAll(2, answers[..1]) == Deliver(MergeAll(2, []), Failure(KSI_OK, origin));
    assert MergeAll(2, answers) == Merge(0, Failed(KSI_OK, origin), []);
  }
}
