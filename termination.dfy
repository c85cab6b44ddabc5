/**
 * The operation termination manager of the Python RPC framework core: four
 * completion flags, the outcome, and the callbacks to run once the operation
 * terminates. The thread pool is a log of submitted work; what a submitted
 * callback run does is modelled only as "raised / did not raise".
 */
module Termination {
  import opened Wrappers

  /** base.Outcome. */
  datatype Outcome =
    | Completed | Cancelled | Expired | LocalShutdown | RemoteShutdown
    | ReceptionFailure | TransmissionFailure | LocalFailure | RemoteFailure

  /** Which completion predicate a manager was built with. */
  datatype Side = InvocationSide | ServiceSide

  /** _invocation_completion_predicate: the operation is complete once ingestion is. */
  function InvocationCompletionPredicate(emission: bool, transmission: bool, reception: bool, ingestion: bool): (done: bool)
    ensures done <==> ingestion
  {
    ingestion
  }

  /** _service_completion_predicate: the operation is complete once transmission is. */
  function ServiceCompletionPredicate(emission: bool, transmission: bool, reception: bool, ingestion: bool): (done: bool)
    ensures done <==> transmission
  {
    transmission
  }

  function CompletionPredicate(side: Side, emission: bool, transmission: bool, reception: bool, ingestion: bool): bool {
    match side
    case InvocationSide => InvocationCompletionPredicate(emission, transmission, reception, ingestion)
    case ServiceSide => ServiceCompletionPredicate(emission, transmission, reception, ingestion)
  }

  type Callback = nat   // identity of a registered termination callback

  /** Work handed to the thread pool at termination. */
  datatype Submission =
    | Act(outcome: Outcome)                                      // act(outcome) alone
    | CallbacksThenAct(callbacks: seq<Callback>, outcome: Outcome)  // call_callbacks_and_act

  /** What running call_callbacks_and_act did: callbacks invoked and the outcome given to the action. */
  datatype Dispatched = Dispatched(invoked: nat, actOutcome: Outcome)

  /**
   * call_callbacks_and_act over callbacks whose i-th call raised iff raised[i]:
   * callbacks run in order, the first one that raises stops the rest and turns
   * the outcome into LocalFailure.
   */
  function Dispatch(raised: seq<bool>, outcome: Outcome): (d: Dispatched)
    ensures d.invoked <= |raised|
    ensures (forall i :: 0 <= i < |raised| ==> !raised[i]) ==> d == Dispatched(|raised|, outcome)
    ensures forall k :: 0 <= k < |raised| && raised[k] && (forall j :: 0 <= j < k ==> !raised[j])
               ==> d == Dispatched(k + 1, LocalFailure)
  {
    if raised == [] then Dispatched(0, outcome)
    else if raised[0] then Dispatched(1, LocalFailure)
    else
      var rest := Dispatch(raised[1..], outcome);
      assert forall i :: 1 <= i < |raised| ==> raised[i] == raised[1..][i - 1];
      Dispatched(rest.invoked + 1, rest.actOutcome)
  }

  /** The loop of call_callbacks_and_act (_termination.py:112-120). */
  method CallCallbacksAndAct(raised: seq<bool>, outcome: Outcome) returns (invoked: nat, actOutcome: Outcome)
    ensures Dispatched(invoked, actOutcome) == Dispatch(raised, outcome)
  {
    invoked, actOutcome := 0, outcome;
    while invoked < |raised|
      invariant invoked <= |raised|
      invariant actOutcome == outcome
      invariant forall j :: 0 <= j < invoked ==> !raised[j]
    {
      var callbackRaised := raised[invoked];
      invoked := invoked + 1;
      if callbackRaised {
        actOutcome := LocalFailure;
        return;
      }
    }
  }

  /** What the pool does with a submission, given which callbacks raise. */
  function Run(s: Submission, raised: seq<bool>): Dispatched
    requires s.CallbacksThenAct? ==> |raised| == |s.callbacks|
  {
    match s
    case Act(o) => Dispatched(0, o)
    case CallbacksThenAct(_, o) => Dispatch(raised, o)
  }

  /** The submission _terminate_internal_only makes for an outcome and the registered callbacks. */
  function TerminationSubmission(callbacks: seq<Callback>, outcome: Outcome): Submission {
    if outcome == LocalFailure then Act(outcome) else CallbacksThenAct(callbacks, outcome)
  }

  /**
   * Whatever the callbacks do, the action runs exactly once with LocalFailure
   * when the operation failed locally or some callback raised, and with the
   * termination outcome otherwise; no callback runs after one that raised.
   */
  lemma {:induction false} ActionOutcome(callbacks: seq<Callback>, outcome: Outcome, raised: seq<bool>)
    requires |raised| == |callbacks|
    ensures var d := Run(TerminationSubmission(callbacks, outcome), raised);
      (d.actOutcome == LocalFailure <==> outcome == LocalFailure || exists i :: 0 <= i < |raised| && raised[i])
      && (outcome == LocalFailure ==> d.invoked == 0)
      && (forall i :: 0 <= i < d.invoked - 1 ==> !raised[i])
  {
    if outcome != LocalFailure {
      DispatchRaises(raised, outcome);
    }
  }

  lemma {:induction false} DispatchRaises(raised: seq<bool>, outcome: Outcome)
    requires outcome != LocalFailure
    ensures var d := Dispatch(raised, outcome);
      (d.actOutcome == LocalFailure <==> exists i :: 0 <= i < |raised| && raised[i])
      && (forall i :: 0 <= i < d.invoked - 1 ==> !raised[i])
  {
    if raised != [] && !raised[0] {
      DispatchRaises(raised[1..], outcome);
      assert forall i :: 1 <= i < |raised| ==> raised[i] == raised[1..][i - 1];
    }
  }

  class TerminationManager {
    const side: Side
    var expirationManager: Option<nat>   // identity of the expiration manager once set
    var outcome: Option<Outcome>
    var callbacks: Option<seq<Callback>>  // None once terminated
    var emissionComplete: bool
    var transmissionComplete: bool
    var receptionComplete: bool
    var ingestionComplete: bool

    ghost var submissions: seq<Submission>  // pool.submit calls, in order
    ghost var expirationNotices: nat        // expiration_manager.terminate() calls

    predicate Complete()
      reads this
    {
      CompletionPredicate(side, emissionComplete, transmissionComplete, receptionComplete, ingestionComplete)
    }

    ghost predicate Valid()
      reads this
    {
      (outcome.None? <==> callbacks.Some?)
      && (outcome.None? ==> submissions == [] && expirationNotices == 0 && !Complete())
      && (outcome.Some? ==> |submissions| == 1 && expirationNotices <= 1)
    }

    /**
     * is_active: no outcome yet. An active manager still takes callbacks and
     * has submitted nothing; a terminated one has submitted its work once.
     */
    function IsActive(): (active: bool)
      requires Valid()
      reads this
      ensures active <==> callbacks.Some?
      ensures active ==> submissions == [] && expirationNotices == 0
      ensures !active ==> |submissions| == 1
    {
      outcome.None?
    }

    /** __init__: active, nothing complete, no callbacks. */
    constructor (side: Side)
      ensures Valid() && this.side == side
      ensures outcome == None && callbacks == Some([]) && expirationManager == None
      ensures !emissionComplete && !transmissionComplete && !receptionComplete && !ingestionComplete
      ensures submissions == [] && expirationNotices == 0
    {
      this.side := side;
      expirationManager := None;
      outcome := None;
      callbacks := Some([]);
      emissionComplete, transmissionComplete, receptionComplete, ingestionComplete := false, false, false, false;
      submissions := [];
      expirationNotices := 0;
    }

    method SetExpirationManager(manager: nat)
      modifies this`expirationManager
      ensures expirationManager == Some(manager)
    {
      expirationManager := Some(manager);
    }

    /** _terminate_internal_only: record the outcome, snapshot and drop the callbacks, submit. */
    method TerminateInternalOnly(o: Outcome)
      requires outcome.None? && callbacks.Some?
      modifies this`outcome, this`callbacks, this`submissions
      ensures outcome == Some(o) && callbacks == None
      ensures submissions == old(submissions) + [TerminationSubmission(old(callbacks).value, o)]
    {
      outcome := Some(o);
      var snapshot := callbacks.value;
      callbacks := None;
      submissions := submissions + [TerminationSubmission(snapshot, o)];
    }

    /** _terminate_and_notify. */
    method TerminateAndNotify(o: Outcome)
      requires outcome.None? && callbacks.Some? && expirationManager.Some?
      modifies this`outcome, this`callbacks, this`submissions, this`expirationNotices
      ensures outcome == Some(o) && callbacks == None
      ensures submissions == old(submissions) + [TerminationSubmission(old(callbacks).value, o)]
      ensures expirationNotices == old(expirationNotices) + 1
    {
      TerminateInternalOnly(o);
      expirationNotices := expirationNotices + 1;
    }

    /** _perhaps_complete: terminate with Completed iff the predicate holds. */
    method PerhapsComplete() returns (completed: bool)
      requires outcome.None? && callbacks.Some?
      requires Complete() ==> expirationManager.Some?
      modifies this`outcome, this`callbacks, this`submissions, this`expirationNotices
      ensures completed == Complete()
      ensures completed ==> (outcome == Some(Completed) && callbacks == None
        && submissions == old(submissions) + [CallbacksThenAct(old(callbacks).value, Completed)]
        && expirationNotices == old(expirationNotices) + 1)
      ensures !completed ==> (outcome == old(outcome) && callbacks == old(callbacks)
        && submissions == old(submissions) && expirationNotices == old(expirationNotices))
    {
      if Complete() {
        TerminateAndNotify(Completed);
        return true;
      }
      return false;
    }

    /** add_callback: register while active; afterwards return the outcome and register nothing. */
    method AddCallback(callback: Callback) returns (r: Option<Outcome>)
      requires Valid()
      modifies this`callbacks
      ensures Valid()
      ensures r == old(outcome)
      ensures callbacks == if old(outcome).None? then Some(old(callbacks).value + [callback]) else old(callbacks)
    {
      if outcome.None? {
        callbacks := Some(callbacks.value + [callback]);
        return None;
      }
      return outcome;
    }

    /** transmission_complete: true exactly when this call completed the operation. */
    method TransmissionComplete() returns (completed: bool)
      requires Valid()
      requires outcome.None? && CompletionPredicate(side, emissionComplete, true, receptionComplete, ingestionComplete)
        ==> expirationManager.Some?
      modifies this`transmissionComplete, this`outcome, this`callbacks, this`submissions, this`expirationNotices
      ensures Valid()
      ensures old(outcome).Some? ==> !completed && unchanged(this)
      ensures old(outcome).None? ==> (transmissionComplete
        && completed == CompletionPredicate(side, emissionComplete, true, receptionComplete, ingestionComplete)
        && outcome == (if completed then Some(Completed) else None)
        && submissions == (if completed then [CallbacksThenAct(old(callbacks).value, Completed)] else [])
        && expirationNotices == (if completed then 1 else 0)
        && (!completed ==> callbacks == old(callbacks)))
    {
      if outcome.None? {
        transmissionComplete := true;
        completed := PerhapsComplete();
      } else {
        completed := false;
      }
    }

    /** emission_complete. */
    method EmissionComplete()
      requires Valid()
      requires outcome.None? && CompletionPredicate(side, true, transmissionComplete, receptionComplete, ingestionComplete)
        ==> expirationManager.Some?
      modifies this`emissionComplete, this`outcome, this`callbacks, this`submissions, this`expirationNotices
      ensures Valid()
      ensures old(outcome).Some? ==> unchanged(this)
      ensures old(outcome).None? ==> (emissionComplete
        && var completed := CompletionPredicate(side, true, transmissionComplete, receptionComplete, ingestionComplete);
        outcome == (if completed then Some(Completed) else None)
        && submissions == (if completed then [CallbacksThenAct(old(callbacks).value, Completed)] else [])
        && expirationNotices == (if completed then 1 else 0)
        && (!completed ==> callbacks == old(callbacks)))
    {
      if outcome.None? {
        emissionComplete := true;
        var _ := PerhapsComplete();
      }
    }

    /** reception_complete. */
    method ReceptionComplete()
      requires Valid()
      requires outcome.None? && CompletionPredicate(side, emissionComplete, transmissionComplete, true, ingestionComplete)
        ==> expirationManager.Some?
      modifies this`receptionComplete, this`outcome, this`callbacks, this`submissions, this`expirationNotices
      ensures Valid()
      ensures old(outcome).Some? ==> unchanged(this)
      ensures old(outcome).None? ==> (receptionComplete
        && var completed := CompletionPredicate(side, emissionComplete, transmissionComplete, true, ingestionComplete);
        outcome == (if completed then Some(Completed) else None)
        && submissions == (if completed then [CallbacksThenAct(old(callbacks).value, Completed)] else [])
        && expirationNotices == (if completed then 1 else 0)
        && (!completed ==> callbacks == old(callbacks)))
    {
      if outcome.None? {
        receptionComplete := true;
        var _ := PerhapsComplete();
      }
    }

    /** ingestion_complete. */
    method IngestionComplete()
      requires Valid()
      requires outcome.None? && CompletionPredicate(side, emissionComplete, transmissionComplete, receptionComplete, true)
        ==> expirationManager.Some?
      modifies this`ingestionComplete, this`outcome, this`callbacks, this`submissions, this`expirationNotices
      ensures Valid()
      ensures old(outcome).Some? ==> unchanged(this)
      ensures old(outcome).None? ==> (ingestionComplete
        && var completed := CompletionPredicate(side, emissionComplete, transmissionComplete, receptionComplete, true);
        outcome == (if completed then Some(Completed) else None)
        && submissions == (if completed then [CallbacksThenAct(old(callbacks).value, Completed)] else [])
        && expirationNotices == (if completed then 1 else 0)
        && (!completed ==> callbacks == old(callbacks)))
    {
      if outcome.None? {
        ingestionComplete := true;
        var _ := PerhapsComplete();
      }
    }

    /** expire: terminate with Expired; the expiration manager is not told. Only while active. */
    method Expire()
      requires Valid() && outcome.None?
      modifies this`outcome, this`callbacks, this`submissions
      ensures Valid()
      ensures outcome == Some(Expired) && callbacks == None
      ensures submissions == [CallbacksThenAct(old(callbacks).value, Expired)]
      ensures expirationNotices == 0
    {
      TerminateInternalOnly(Expired);
    }

    /** abort: terminate with the given outcome and tell the expiration manager. Only while active. */
    method Abort(o: Outcome)
      requires Valid() && outcome.None? && expirationManager.Some?
      modifies this`outcome, this`callbacks, this`submissions, this`expirationNotices
      ensures Valid()
      ensures outcome == Some(o) && callbacks == None
      ensures submissions == [TerminationSubmission(old(callbacks).value, o)]
      ensures expirationNotices == 1
    {
      TerminateAndNotify(o);
    }
  }

  /** invocation_termination_manager. */
  method InvocationTerminationManager() returns (m: TerminationManager)
    ensures fresh(m) && m.Valid() && m.side == InvocationSide && m.IsActive()
    ensures m.callbacks == Some([]) && m.submissions == []
    ensures !m.emissionComplete && !m.transmissionComplete && !m.receptionComplete && !m.ingestionComplete
  {
    m := new TerminationManager(InvocationSide);
  }

  /** service_termination_manager. */
  method ServiceTerminationManager() returns (m: TerminationManager)
    ensures fresh(m) && m.Valid() && m.side == ServiceSide && m.IsActive()
    ensures m.callbacks == Some([]) && m.submissions == []
    ensures !m.emissionComplete && !m.transmissionComplete && !m.receptionComplete && !m.ingestionComplete
  {
    m := new TerminationManager(ServiceSide);
  }
}
