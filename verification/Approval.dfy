/** The human-approval protocol: any number of requests, each with a waiting caller, a timeout
    goroutine and arbitrarily many submitted decisions, interleaved step by step.

    A critical section without a blocking operation is one step, taken while nobody holds the lock.
    The timeout goroutine sends on the capacity-one channel inside its section; that one is split, and
    the send is only possible while the channel has room. */
module Approval {
  import opened Wrappers

  type Id = string

  datatype Decision = Pending | Approved | Rejected | Expired | Other(name: string)

  /** Waiting in the select; out of it with a response or cancelled; returned after the cleanup. */
  datatype Waiter = Waiting | Leaving(got: Option<Decision>) | Returned(got: Option<Decision>)

  datatype Timer = Armed | Sending | Unlocking | Finished

  /** One request: its record, its channel, its two goroutines, and the history of what was sent and of
      a late submission having expired it. */
  datatype Request = Request(
    initial: Decision,
    status: Decision,
    registered: bool,
    buffer: seq<Decision>,
    waiter: Waiter,
    timer: Timer,
    sent: seq<Decision>,
    expiredLate: bool)

  /** `holder` names the request whose timeout goroutine holds the lock between steps. */
  datatype State = State(requests: map<Id, Request>, holder: Option<Id>)

  const CAPACITY := 1

  datatype Step =
    | Register(id: Id, initial: Decision)
    | Submit(id: Id, decision: Decision, late: bool)
    | TimerFires(id: Id)
    | TimerSends(id: Id)
    | TimerUnlocks(id: Id)
    | Receive(id: Id)
    | Cancel(id: Id)
    | Cleanup(id: Id)

  function Init(): State {
    State(map[], None)
  }

  predicate Enabled(s: State, step: Step) {
    match step
    case Register(id, _) => s.holder.None? && id !in s.requests
    case Submit(_, _, _) => s.holder.None?
    case _ =>
      && step.id in s.requests
      && var r := s.requests[step.id];
      match step
      case TimerFires(_) => s.holder.None? && r.timer == Armed
      case TimerSends(_) => r.timer == Sending && |r.buffer| < CAPACITY
      case TimerUnlocks(_) => r.timer == Unlocking
      case Receive(_) => r.waiter == Waiting && r.buffer != []
      case Cancel(_) => r.waiter == Waiting
      case Cleanup(_) => s.holder.None? && r.waiter.Leaving?
  }

  /** A submission: not found, already processed, expired by the clock, or decided. A decision that
      finds the channel full is not sent. */
  function Submitted(r: Request, decision: Decision, late: bool): Request {
    if !r.registered || r.status != Pending then r
    else if late then r.(status := Expired, expiredLate := true)
    else
      var decided := r.(status := decision);
      if |r.buffer| < CAPACITY then decided.(buffer := r.buffer + [decision], sent := r.sent + [decision]) else decided
  }

  function Do(s: State, step: Step): State
    requires Enabled(s, step)
  {
    match step
    case Register(id, initial) =>
      s.(requests := s.requests[id := Request(initial, initial, true, [], Waiting, Armed, [], false)])
    case Submit(id, decision, late) =>
      if id in s.requests then s.(requests := s.requests[id := Submitted(s.requests[id], decision, late)]) else s
    case TimerFires(id) =>
      var r := s.requests[id];
      if r.registered && r.status == Pending
      then State(s.requests[id := r.(status := Expired, timer := Sending)], Some(id))
      else s.(requests := s.requests[id := r.(timer := Finished)])
    case TimerSends(id) =>
      var r := s.requests[id];
      var sent := r.(buffer := r.buffer + [Expired], sent := r.sent + [Expired], timer := Unlocking);
      s.(requests := s.requests[id := sent])
    case TimerUnlocks(id) =>
      State(s.requests[id := s.requests[id].(timer := Finished)], None)
    case Receive(id) =>
      var r := s.requests[id];
      s.(requests := s.requests[id := r.(waiter := Leaving(Some(r.buffer[0])), buffer := r.buffer[1..])])
    case Cancel(id) =>
      s.(requests := s.requests[id := s.requests[id].(waiter := Leaving(None))])
    case Cleanup(id) =>
      var r := s.requests[id];
      s.(requests := s.requests[id := r.(waiter := Returned(r.waiter.got), registered := false)])
  }

  // ---------- runs ----------

  /** `steps` can be taken one after another from `s` and lead to `t`. */
  ghost predicate Leads(s: State, steps: seq<Step>, t: State)
    decreases |steps|
  {
    if steps == [] then s == t
    else Enabled(s, steps[0]) && Leads(Do(s, steps[0]), steps[1..], t)
  }

  /** No submitted decision is the pending one. */
  predicate Decisive(steps: seq<Step>) {
    forall step | step in steps && step.Submit? :: step.decision != Pending
  }

  ghost predicate RequestInv(r: Request, holding: bool) {
    && (holding <==> r.timer in {Sending, Unlocking})
    && (r.registered <==> !r.waiter.Returned?)
    && |r.sent| <= 1
    // what was sent is still in the channel or has been received
    && r.sent == (if !r.waiter.Waiting? && r.waiter.got.Some? then [r.waiter.got.value] else []) + r.buffer
    // what was sent is the stored decision, and deciding means sending, except after a late submission
    && (r.sent != [] ==> r.status == r.sent[0] && r.status != Pending)
    && (r.expiredLate ==> r.status == Expired && r.sent == [] && !holding)
    && (r.timer == Sending ==> r.status == Expired && r.sent == [])
    && (r.initial != Pending ==> r.status == r.initial && r.sent == [] && !holding && !r.expiredLate)
    && (r.initial == Pending && r.status != Pending && !r.expiredLate && r.timer != Sending ==> r.sent != [])
    // a timeout goroutine that is through has seen to it that the request is decided
    && (r.registered && r.timer != Armed ==> r.status != Pending)
  }

  ghost predicate Inv(s: State) {
    && (s.holder.Some? ==> s.holder.value in s.requests)
    && forall id | id in s.requests :: RequestInv(s.requests[id], s.holder == Some(id))
  }

  lemma StepInv(s: State, step: Step)
    requires Inv(s) && Enabled(s, step)
    requires step.Submit? ==> step.decision != Pending
    ensures Inv(Do(s, step))
  {
    var s' := Do(s, step);
    forall id | id in s'.requests ensures RequestInv(s'.requests[id], s'.holder == Some(id)) {
      if id != step.id {
        assert RequestInv(s.requests[id], s.holder == Some(id));
        if s.holder != s'.holder && step.TimerUnlocks? {
          assert RequestInv(s.requests[step.id], s.holder == Some(step.id));
        }
      } else if id in s.requests {
        assert RequestInv(s.requests[id], s.holder == Some(id));
      }
    }
  }

  lemma {:induction false} RunInv(s: State, steps: seq<Step>, t: State)
    requires Inv(s) && Decisive(steps) && Leads(s, steps, t)
    ensures Inv(t)
    decreases |steps|
  {
    if steps != [] {
      assert steps[0] in steps;
      StepInv(s, steps[0]);
      RunInv(Do(s, steps[0]), steps[1..], t);
    }
  }

  /** In every interleaving at most one response is ever sent per request, it is the stored status, and
      what the waiter gets is that response. */
  lemma AtMostOneResponse(steps: seq<Step>, s: State, id: Id)
    requires Decisive(steps) && Leads(Init(), steps, s) && id in s.requests
    ensures var r := s.requests[id];
      && |r.sent| <= 1
      && (r.sent != [] ==> r.sent == [r.status] && r.status != Pending)
      && (!r.waiter.Waiting? && r.waiter.got.Some? ==> r.sent == [r.waiter.got.value])
  {
    RunInv(Init(), steps, s);
    assert RequestInv(s.requests[id], s.holder == Some(id));
  }

  /** What a submission does: in time, to a registered pending request, it decides and, with room in the
      channel, is sent; too late it expires the request; otherwise nothing happens. */
  lemma SubmissionDecides(s: State, id: Id, decision: Decision, late: bool)
    requires Enabled(s, Submit(id, decision, late)) && id in s.requests
    ensures var r, t := s.requests[id], Do(s, Submit(id, decision, late)); var r' := t.requests[id];
      && t.requests.Keys == s.requests.Keys
      && (forall other | other in s.requests && other != id :: t.requests[other] == s.requests[other])
      && (r.registered && r.status == Pending && !late ==>
            && r'.status == decision
            && (if |r.buffer| < 1 then r'.sent == r.sent + [decision] && r'.buffer == [decision]
                else r'.sent == r.sent))
      && (r.registered && r.status == Pending && late ==> r'.status == Expired && r'.sent == r.sent)
      && (!r.registered || r.status != Pending ==> r' == r)
  {
  }

  /** Every decision sent other than the expiry was submitted, in time, for that request. */
  lemma {:induction false} SentWasSubmitted(s: State, steps: seq<Step>, t: State, id: Id, decision: Decision)
    requires Leads(s, steps, t) && id in t.requests && decision in t.requests[id].sent && decision != Expired
    ensures (id in s.requests && decision in s.requests[id].sent) || Submit(id, decision, false) in steps
    decreases |steps|
  {
    if steps != [] {
      SentWasSubmitted(Do(s, steps[0]), steps[1..], t, id, decision);
      if Submit(id, decision, false) !in steps[1..] {
        SentInOneStep(s, steps[0], id, decision);
      }
    }
  }

  lemma SentInOneStep(s: State, step: Step, id: Id, decision: Decision)
    requires Enabled(s, step) && id in Do(s, step).requests && decision in Do(s, step).requests[id].sent
    requires decision != Expired
    ensures (id in s.requests && decision in s.requests[id].sent) || step == Submit(id, decision, false)
  {
  }

  /** What is in a channel or has been received was sent. */
  ghost predicate ChannelsCarryWhatWasSent(s: State) {
    forall id | id in s.requests ::
      && (forall d | d in s.requests[id].buffer :: d in s.requests[id].sent)
      && (!s.requests[id].waiter.Waiting? && s.requests[id].waiter.got.Some? ==>
            s.requests[id].waiter.got.value in s.requests[id].sent)
  }

  lemma {:induction false} ReceivedWasSent(s: State, steps: seq<Step>, t: State)
    requires ChannelsCarryWhatWasSent(s) && Leads(s, steps, t)
    ensures ChannelsCarryWhatWasSent(t)
    decreases |steps|
  {
    if steps != [] {
      ReceivedInOneStep(s, steps[0]);
      ReceivedWasSent(Do(s, steps[0]), steps[1..], t);
    }
  }

  lemma ReceivedInOneStep(s: State, step: Step)
    requires ChannelsCarryWhatWasSent(s) && Enabled(s, step)
    ensures ChannelsCarryWhatWasSent(Do(s, step))
  {
  }

  /** In every run, whatever is submitted: what a caller gets was submitted by somebody, in time and for that
      request, or is the expiry. */
  lemma CallerGetsWhatWasSubmitted(steps: seq<Step>, s: State, id: Id)
    requires Leads(Init(), steps, s) && id in s.requests
    requires !s.requests[id].waiter.Waiting? && s.requests[id].waiter.got.Some?
    ensures var got := s.requests[id].waiter.got.value;
      got == Expired || Submit(id, got, false) in steps
  {
    ReceivedWasSent(Init(), steps, s);
    var got := s.requests[id].waiter.got.value;
    if got != Expired {
      SentWasSubmitted(Init(), steps, s, id, got);
    }
  }

  /** The status leaves pending at most once: a decided request keeps its status forever. This holds
      whatever decisions are submitted. */
  lemma {:induction false} DecidedStaysDecided(s: State, steps: seq<Step>, t: State, id: Id)
    requires Leads(s, steps, t) && id in s.requests && s.requests[id].status != Pending
    ensures id in t.requests && t.requests[id].status == s.requests[id].status
    decreases |steps|
  {
    if steps != [] {
      DecidedStaysDecided(Do(s, steps[0]), steps[1..], t, id);
    }
  }

  /** No thread blocks on the send while holding the lock: the holder can always take its next step. */
  lemma LockHolderIsNeverBlocked(steps: seq<Step>, s: State)
    requires Decisive(steps) && Leads(Init(), steps, s) && s.holder.Some?
    ensures Enabled(s, TimerSends(s.holder.value)) || Enabled(s, TimerUnlocks(s.holder.value))
  {
    RunInv(Init(), steps, s);
    assert RequestInv(s.requests[s.holder.value], true);
  }

  /** Once the timeout goroutine is through, a caller still waiting has its response in the channel,
      exactly unless a late submission expired the request (or it never was pending). */
  lemma WaiterIsAnsweredUnlessExpiredLate(steps: seq<Step>, s: State, id: Id)
    requires Decisive(steps) && Leads(Init(), steps, s) && id in s.requests
    requires s.requests[id].waiter == Waiting && s.requests[id].timer == Finished
    ensures Enabled(s, Receive(id)) <==> s.requests[id].initial == Pending && !s.requests[id].expiredLate
  {
    RunInv(Init(), steps, s);
    assert RequestInv(s.requests[id], s.holder == Some(id));
  }

  /** After a late submission no response is ever sent: the caller only returns by cancellation. */
  lemma {:induction false} LateExpiryIsNeverAnswered(s: State, steps: seq<Step>, t: State, id: Id)
    requires Inv(s) && Decisive(steps) && Leads(s, steps, t)
    requires id in s.requests && s.requests[id].expiredLate
    ensures id in t.requests && t.requests[id].sent == []
    ensures !t.requests[id].waiter.Waiting? ==> t.requests[id].waiter.got == None
  {
    RunInv(s, steps, t);
    LateStaysLate(s, steps, t, id);
    assert RequestInv(t.requests[id], t.holder == Some(id));
  }

  lemma {:induction false} LateStaysLate(s: State, steps: seq<Step>, t: State, id: Id)
    requires Leads(s, steps, t) && id in s.requests && s.requests[id].expiredLate
    ensures id in t.requests && t.requests[id].expiredLate
    decreases |steps|
  {
    if steps != [] {
      LateStaysLate(Do(s, steps[0]), steps[1..], t, id);
    }
  }

  /** The condition on decisions is needed: submitting the pending decision leaves the request pending
      with a full channel; if the caller is then cancelled, the timeout goroutine blocks on the send
      with the lock held, and no step of any thread is possible any more. */
  lemma PendingDecisionCanDeadlock(id: Id) returns (steps: seq<Step>, s: State)
    ensures steps == [Register(id, Pending), Submit(id, Pending, false), Cancel(id), TimerFires(id)]
    ensures Leads(Init(), steps, s) && s.holder == Some(id)
    ensures forall step :: !Enabled(s, step)
  {
    var s1 := Do(Init(), Register(id, Pending));
    var s2 := Do(s1, Submit(id, Pending, false));
    var s3 := Do(s2, Cancel(id));
    s := Do(s3, TimerFires(id));
    steps := [Register(id, Pending), Submit(id, Pending, false), Cancel(id), TimerFires(id)];
    assert Leads(s, [], s);
    assert steps[3..][1..] == [] && Leads(s3, steps[3..], s);
    assert steps[2..][1..] == steps[3..] && Leads(s2, steps[2..], s);
    assert steps[1..][1..] == steps[2..] && Leads(s1, steps[1..], s);
  }

  /** What every run keeps, whatever is submitted: a lock held between steps is held by a timeout goroutine
      inside its section, and no channel holds more than its capacity. */
  ghost predicate LockInv(s: State) {
    && (s.holder.Some? ==> s.holder.value in s.requests && s.requests[s.holder.value].timer in {Sending, Unlocking})
    && (forall id | id in s.requests && s.requests[id].timer in {Sending, Unlocking} :: s.holder == Some(id))
    && forall id | id in s.requests :: |s.requests[id].buffer| <= CAPACITY
  }

  /** A timeout goroutine holds the lock before a full channel, and no caller is waiting any more. */
  ghost predicate Standstill(s: State) {
    && s.holder.Some? && s.holder.value in s.requests
    && s.requests[s.holder.value].timer == Sending && |s.requests[s.holder.value].buffer| == CAPACITY
    && forall id | id in s.requests :: s.requests[id].waiter != Waiting
  }

  lemma {:induction false} LockRunInv(s: State, steps: seq<Step>, t: State)
    requires LockInv(s) && Leads(s, steps, t)
    ensures LockInv(t)
    decreases |steps|
  {
    if steps != [] {
      LockStepInv(s, steps[0]);
      LockRunInv(Do(s, steps[0]), steps[1..], t);
    }
  }

  lemma LockStepInv(s: State, step: Step)
    requires LockInv(s) && Enabled(s, step)
    ensures LockInv(Do(s, step))
  {
  }

  /** Exactly when no step of any thread is possible in a run, whatever was submitted. */
  lemma NoStepIsPossibleIff(steps: seq<Step>, s: State)
    requires Leads(Init(), steps, s)
    ensures (forall step :: !Enabled(s, step)) <==> Standstill(s)
  {
    LockRunInv(Init(), steps, s);
    if forall step :: !Enabled(s, step) {
      assert !Enabled(s, Submit("", Approved, false));
      var h := s.holder.value;
      assert !Enabled(s, TimerSends(h)) && !Enabled(s, TimerUnlocks(h));
      forall id | id in s.requests ensures s.requests[id].waiter != Waiting {
        assert !Enabled(s, Cancel(id));
      }
    }
    forall step ensures Standstill(s) ==> !Enabled(s, step) {
      if Standstill(s) {
        StandstillStopsAll(s, step);
      }
    }
  }

  lemma StandstillStopsAll(s: State, step: Step)
    requires LockInv(s) && Standstill(s)
    ensures !Enabled(s, step)
  {
  }

  /** A run submitting only such decisions has come to a standstill. */
  ghost predicate StandsStill(decisions: set<Decision>, steps: seq<Step>, s: State) {
    && (forall step | step in steps && step.Submit? :: step.decision in decisions)
    && Leads(Init(), steps, s)
    && forall step :: !Enabled(s, step)
  }

  /** Some run submitting only the given decisions comes to a standstill exactly when the pending one is among
      them. */
  lemma CanStandStillIff(decisions: set<Decision>)
    ensures (exists steps, s :: StandsStill(decisions, steps, s)) <==> Pending in decisions
  {
    if Pending in decisions {
      var steps, s := PendingDecisionCanDeadlock("");
      assert StandsStill(decisions, steps, s);
    } else {
      forall steps, s ensures !StandsStill(decisions, steps, s) {
        if StandsStill(decisions, steps, s) {
          OtherDecisionsKeepMoving(steps, s);
        }
      }
    }
  }

  lemma OtherDecisionsKeepMoving(steps: seq<Step>, s: State)
    requires Decisive(steps) && Leads(Init(), steps, s)
    ensures exists step :: Enabled(s, step)
  {
    if s.holder.Some? {
      LockHolderIsNeverBlocked(steps, s);
      var h := s.holder.value;
      assert Enabled(s, TimerSends(h)) || Enabled(s, TimerUnlocks(h));
    } else {
      assert Enabled(s, Submit("", Approved, false));
    }
  }

  /** A run with a late submission: the caller waits on, the timeout goroutine is through, and there is
      nothing to receive. */
  lemma LateSubmissionLeavesTheCallerWaiting(id: Id, decision: Decision) returns (s: State)
    ensures Leads(Init(), [Register(id, Pending), Submit(id, decision, true), TimerFires(id)], s)
    ensures id in s.requests && s.requests[id].expiredLate
    ensures s.requests[id].waiter == Waiting && s.requests[id].timer == Finished && !Enabled(s, Receive(id))
  {
    var steps := [Register(id, Pending), Submit(id, decision, true), TimerFires(id)];
    var s1 := Do(Init(), steps[0]);
    var s2 := Do(s1, steps[1]);
    s := Do(s2, steps[2]);
    assert Leads(s, [], s);
    assert steps[2..][1..] == [] && Leads(s2, steps[2..], s);
    assert steps[1..][1..] == steps[2..] && Leads(s1, steps[1..], s);
  }

  /** Under decisive submissions the threads of the requests alone never deadlock: while a timeout
      goroutine is not through or a caller is leaving, one of them has a possible step. */
  lemma SomeStepIsPossible(steps: seq<Step>, s: State, id: Id)
    requires Decisive(steps) && Leads(Init(), steps, s) && id in s.requests
    requires s.requests[id].timer != Finished || s.requests[id].waiter.Leaving?
    ensures exists step :: Enabled(s, step) && !step.Submit? && !step.Register?
  {
    RunInv(Init(), steps, s);
    assert RequestInv(s.requests[id], s.holder == Some(id));
    if s.holder.Some? {
      LockHolderIsNeverBlocked(steps, s);
      var h := s.holder.value;
      if Enabled(s, TimerSends(h)) {
        assert Enabled(s, TimerSends(h));
      } else {
        assert Enabled(s, TimerUnlocks(h));
      }
    } else if s.requests[id].timer == Armed {
      assert Enabled(s, TimerFires(id));
    } else {
      assert Enabled(s, Cleanup(id));
    }
  }
}
