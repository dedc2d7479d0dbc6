/**
 The gate between a decision and its execution (app/review.py with the check registry of
 app/full_check.py): with verification on, an approval only queues a full check in the background,
 and the worker approves and executes when the check passes. Requests, the worker, cancellation,
 matching runs, the user, the automatic execution and restarts interleave freely.

 `Gate` is the program, one method per uninterrupted piece of it; `Apply` is the same as a step.
 */
module VerificationGate {
  import opened Basics
  import opened ReviewQueue

  datatype Verify = NotAsked | Verifying | Passed | NotPassed

  /** The part of a review row the gate reads and writes. */
  datatype Row = Row(candidate: nat, status: Status, verify: Verify, checkId: Option<nat>) {
    predicate Ready() {
      status == Waiting || status == Recommended
    }
  }

  datatype CheckStatus = Queued | Running | Done | Crashed | Cancelled

  /** A check in the memory of the process (`CheckState`). */
  datatype Check = Check(
    candidate: nat, review: nat, status: CheckStatus, cancelRequested: bool, verdict: Option<bool>)
  {
    /** Queued or running, its answer not out yet. */
    predicate Live() {
      (status == Queued || status == Running) && verdict.None?
    }

    predicate Finished() {
      status == Done || status == Crashed || status == Cancelled
    }
  }

  datatype Path = Worker(check: nat) | Automatic

  /** One call of `approve`: who made it, and whether the review was ready at that moment. */
  datatype Execution = Execution(review: nat, candidate: nat, path: Path, wasReady: bool)

  /**
   `passed` remembers the candidates a full check has passed; `listed` and `cleared` are the reviews
   the automatic execution has read as recommended, and of those the ones it has verified.
   */
  datatype State = State(
    rows: seq<Row>, checks: map<nat, Check>, next: nat, passed: set<nat>, executed: seq<Execution>,
    listed: set<nat>, cleared: set<nat>)

  datatype Outcome = Verdict(passed: bool) | Raised | CancelSeen

  // ---------------------------------------------------------------- pieces of the program

  function SetVerify(s: State, r: nat, v: Verify): State
    requires r < |s.rows|
  {
    s.(rows := s.rows[r := s.rows[r].(verify := v)])
  }

  function SetCheck(s: State, id: nat, c: Check): State {
    s.(checks := s.checks[id := c])
  }

  /** `approve`: no guard, then the execution is tried. */
  function Approve(s: State, r: nat, path: Path): State
    requires r < |s.rows|
  {
    s.(rows := s.rows[r := s.rows[r].(status := Approved)],
       executed := s.executed + [Execution(r, s.rows[r].candidate, path, s.rows[r].Ready())])
  }

  /** `request_approval` with the check submitted and the row marked in one go; old finished checks may be dropped. */
  function Request(s: State, r: nat, dropped: set<nat>): State
    requires r < |s.rows|
  {
    var check := Check(s.rows[r].candidate, r, Queued, false, None);
    var row := s.rows[r].(verify := Verifying, checkId := Some(s.next));
    s.(rows := s.rows[r := row], checks := (s.checks - dropped)[s.next := check], next := s.next + 1)
  }

  /** `_after_verification` when the check did not get to a verdict. */
  function NotFinished(s: State, c: Check, cancelled: bool): State {
    if c.review < |s.rows| then SetVerify(s, c.review, if cancelled then NotAsked else NotPassed) else s
  }

  /** The start of `_run`. */
  function Begin(s: State, id: nat): State
    requires id in s.checks
  {
    var c := s.checks[id];
    if c.cancelRequested then NotFinished(SetCheck(s, id, c.(status := Cancelled)), c, true)
    else SetCheck(s, id, c.(status := Running))
  }

  /** The end of the reading, up to the first commit of `_after_verification`. */
  function Finish(s: State, id: nat, outcome: Outcome): State
    requires id in s.checks
  {
    var c := s.checks[id];
    match outcome
    case CancelSeen => NotFinished(SetCheck(s, id, c.(status := Cancelled)), c, true)
    case Raised => NotFinished(SetCheck(s, id, c.(status := Crashed)), c, false)
    case Verdict(passed) =>
      var known := s.(passed := if passed then s.passed + {c.candidate} else s.passed);
      var decided := SetCheck(known, id, c.(verdict := Some(passed), status := if passed then Running else Done));
      if c.review < |s.rows| then SetVerify(decided, c.review, if passed then Passed else NotPassed) else decided
  }

  /** The rest of `_after_verification` for a passed check: execute only a review that is still ready. */
  function Conclude(s: State, id: nat): State
    requires id in s.checks
  {
    var c := s.checks[id];
    var done := SetCheck(s, id, c.(status := Done));
    if c.review < |s.rows| && s.rows[c.review].Ready() then Approve(done, c.review, Worker(id)) else done
  }

  /** An error after the verdict: the rollback handler runs `_after_verification` again with no result. */
  function FailLate(s: State, id: nat): State
    requires id in s.checks
  {
    NotFinished(SetCheck(s, id, s.checks[id].(status := Crashed)), s.checks[id], false)
  }

  /** `reset_interrupted_verifications`, in a new process: the checks are gone. */
  function Restarted(s: State): State {
    s.(rows := seq(|s.rows|, k requires 0 <= k < |s.rows| => ResetRow(s.rows[k])), checks := map[], listed := {},
        cleared := {})
  }

  function ResetRow(row: Row): Row {
    if row.verify == Verifying then row.(verify := NotAsked, checkId := None) else row
  }

  // ---------------------------------------------------------------- the program

  class Gate {
    var rows: seq<Row>
    var checks: map<nat, Check>
    var next: nat
    ghost var passed: set<nat>
    ghost var executed: seq<Execution>
    ghost var listed: set<nat>
    ghost var cleared: set<nat>

    constructor ()
      ensures Current() == State([], map[], 0, {}, [], {}, {})
    {
      rows, checks, next := [], map[], 0;
      passed, executed, listed, cleared := {}, [], {}, {};
    }

    ghost function Current(): State
      reads this
    {
      State(rows, checks, next, passed, executed, listed, cleared)
    }

    /** `request_approval`; refused (AlreadyVerifyingError) while a check of the review is on. */
    method RequestApproval(r: nat, dropped: set<nat>) returns (accepted: bool)
      requires r < |rows| && next !in checks
      requires forall id :: id in dropped && id in checks ==> checks[id].Finished()
      modifies this
      ensures accepted <==> old(rows)[r].verify != Verifying
      ensures Current() == if accepted then Request(old(Current()), r, dropped) else old(Current())
      ensures forall id :: id in old(checks) && old(checks)[id].Live() ==> id in checks && checks[id] == old(checks)[id]
    {
      if rows[r].verify == Verifying {
        return false;
      }
      var id := next;
      next := next + 1;
      checks := (checks - dropped)[id := Check(rows[r].candidate, r, Queued, false, None)];
      rows := rows[r := rows[r].(verify := Verifying, checkId := Some(id))];
      return true;
    }

    /** `cancel_check` */
    method Cancel(id: nat)
      modifies this
      ensures Current() == if id in old(checks) && old(checks)[id].status in {Queued, Running}
                           then SetCheck(old(Current()), id, old(checks)[id].(cancelRequested := true))
                           else old(Current())
    {
      if id in checks && (checks[id].status == Queued || checks[id].status == Running) {
        checks := checks[id := checks[id].(cancelRequested := true)];
      }
    }

    /** `_after_verification` with no result. */
    method AfterNothing(c: Check, cancelled: bool)
      modifies this
      ensures Current() == NotFinished(old(Current()), c, cancelled)
    {
      if c.review < |rows| {
        rows := rows[c.review := rows[c.review].(verify := if cancelled then NotAsked else NotPassed)];
      }
    }

    /** `_run` up to its first wait: a cancelled check never starts reading. */
    method BeginRun(id: nat)
      requires id in checks
      modifies this
      ensures Current() == Begin(old(Current()), id)
    {
      var c := checks[id];
      if c.cancelRequested {
        checks := checks[id := c.(status := Cancelled)];
        AfterNothing(c, true);
      } else {
        checks := checks[id := c.(status := Running)];
      }
    }

    /** `_run` after the reading, with the first part of `_after_verification`. */
    method FinishRun(id: nat, outcome: Outcome)
      requires id in checks
      modifies this
      ensures Current() == Finish(old(Current()), id, outcome)
    {
      var c := checks[id];
      match outcome
      case CancelSeen =>
        checks := checks[id := c.(status := Cancelled)];
        AfterNothing(c, true);
      case Raised =>
        checks := checks[id := c.(status := Crashed)];
        AfterNothing(c, false);
      case Verdict(ok) =>
        passed := if ok then passed + {c.candidate} else passed;
        checks := checks[id := c.(verdict := Some(ok), status := if ok then Running else Done)];
        if c.review < |rows| {
          rows := rows[c.review := rows[c.review].(verify := if ok then Passed else NotPassed)];
        }
    }

    /** The guard of `_after_verification`, then `approve`. */
    method ConcludeRun(id: nat)
      requires id in checks
      modifies this
      ensures Current() == Conclude(old(Current()), id)
    {
      var c := checks[id];
      checks := checks[id := c.(status := Done)];
      if c.review < |rows| && rows[c.review].Ready() {
        executed := executed + [Execution(c.review, rows[c.review].candidate, Worker(id), true)];
        rows := rows[c.review := rows[c.review].(status := Approved)];
      }
    }

    /** A new process: the registry is empty and interrupted verifications are reset. */
    method Restart() returns (reset: nat)
      modifies this
      ensures Current() == Restarted(old(Current()))
    {
      checks := map[];
      listed, cleared := {}, {};
      reset := 0;
      var updated := rows;
      for k := 0 to |rows|
        invariant rows == old(rows) && |updated| == |rows|
        invariant Current() == old(Current()).(checks := map[], listed := {}, cleared := {})
        invariant forall j :: 0 <= j < |rows| ==> updated[j] == if j < k then ResetRow(rows[j]) else rows[j]
      {
        if updated[k].verify == Verifying {
          updated := updated[k := updated[k].(verify := NotAsked, checkId := None)];
          reset := reset + 1;
        }
      }
      rows := updated;
      assert rows == Restarted(old(Current())).rows;
    }
  }

  // ---------------------------------------------------------------- steps

  datatype Step =
    | NewReview(candidate: nat, status: Status)
    | SetRejected(review: nat)
    | RequestStep(review: nat, dropped: set<nat>)
    | CancelStep(check: nat)
    | BeginStep(check: nat)
    | FinishStep(check: nat, outcome: Outcome)
    | ConcludeStep(check: nat)
    | FailLateStep(check: nat)
    | RestartStep
    | AutoList(reviews: set<nat>)
    | AutoVerify(review: nat, ok: bool)
    | AutoExecute(review: nat)

  predicate Enabled(s: State, step: Step) {
    match step
    case NewReview(_, status) => status == Waiting || status == Recommended
    case SetRejected(r) => r < |s.rows|
    case RequestStep(r, dropped) =>
      && r < |s.rows| && s.rows[r].verify != Verifying
      && forall id :: id in dropped && id in s.checks ==> s.checks[id].Finished()
    case CancelStep(id) => id in s.checks && s.checks[id].status in {Queued, Running}
    case BeginStep(id) => id in s.checks && s.checks[id].status == Queued
    case FinishStep(id, outcome) =>
      && id in s.checks && s.checks[id].status == Running && s.checks[id].verdict.None?
      && (outcome == CancelSeen ==> s.checks[id].cancelRequested)
    case ConcludeStep(id) => id in s.checks && s.checks[id].status == Running && s.checks[id].verdict == Some(true)
    case FailLateStep(id) => id in s.checks && s.checks[id].status == Running && s.checks[id].verdict == Some(true)
    case RestartStep => true
    case AutoList(reviews) => forall r :: r in reviews ==> r < |s.rows| && s.rows[r].status == Recommended
    case AutoVerify(r, _) => r in s.listed && r < |s.rows|
    case AutoExecute(r) => r in s.cleared && r < |s.rows|
  }

  function Apply(s: State, step: Step): State
    requires Enabled(s, step)
  {
    match step
    case NewReview(candidate, status) => s.(rows := s.rows + [Row(candidate, status, NotAsked, None)])
    case SetRejected(r) => s.(rows := s.rows[r := s.rows[r].(status := Rejected)])
    case RequestStep(r, dropped) => Request(s, r, dropped)
    case CancelStep(id) => SetCheck(s, id, s.checks[id].(cancelRequested := true))
    case BeginStep(id) => Begin(s, id)
    case FinishStep(id, outcome) => Finish(s, id, outcome)
    case ConcludeStep(id) => Conclude(s, id)
    case FailLateStep(id) => FailLate(s, id)
    case RestartStep => Restarted(s)
    case AutoList(reviews) => s.(listed := reviews, cleared := {})
    case AutoVerify(r, ok) =>
      var verified := SetVerify(s, r, if ok then Passed else NotPassed);
      verified.(listed := s.listed - {r}, cleared := if ok then s.cleared + {r} else s.cleared,
                passed := if ok then s.passed + {s.rows[r].candidate} else s.passed)
    case AutoExecute(r) => Approve(s.(cleared := s.cleared - {r}), r, Automatic)
  }

  // ---------------------------------------------------------------- invariants

  /** Checks have fresh ids, belong to a review, with its candidate, and have no verdict before they ran. */
  ghost predicate WellFormed(s: State) {
    forall id :: id in s.checks ==>
      && id < s.next && s.checks[id].review < |s.rows|
      && s.checks[id].candidate == s.rows[s.checks[id].review].candidate
      && (s.checks[id].status == Queued ==> s.checks[id].verdict.None?)
  }

  /** A review that says `verifying` has the live check it names. */
  ghost predicate NoneStuck(s: State) {
    forall r :: 0 <= r < |s.rows| && s.rows[r].verify == Verifying ==> LiveCheckOf(s, r)
  }

  predicate LiveCheckOf(s: State, r: nat)
    requires r < |s.rows|
  {
    && s.rows[r].checkId.Some? && s.rows[r].checkId.value in s.checks
    && s.checks[s.rows[r].checkId.value].Live() && s.checks[s.rows[r].checkId.value].review == r
  }

  /** Every execution had a passed verdict for its candidate, and on the worker path a ready review. */
  ghost predicate ExecutedAfterPass(s: State) {
    && (forall k :: 0 <= k < |s.executed| ==>
          s.executed[k].candidate in s.passed && (s.executed[k].path.Worker? ==> s.executed[k].wasReady))
    && (forall id :: id in s.checks && s.checks[id].verdict == Some(true) ==> s.checks[id].candidate in s.passed)
    && (forall r :: r in s.cleared ==> r < |s.rows| && s.rows[r].candidate in s.passed)
  }

  ghost predicate Inv(s: State) {
    WellFormed(s) && NoneStuck(s) && ExecutedAfterPass(s)
  }

  /** Every live check is the one its review names, and the review says so: at most one per review. */
  ghost predicate LiveIsNamed(s: State) {
    forall id :: id in s.checks && s.checks[id].Live() ==> Names(s, id)
  }

  predicate Names(s: State, id: nat)
    requires id in s.checks
  {
    var r := s.checks[id].review;
    r < |s.rows| && s.rows[r].verify == Verifying && s.rows[r].checkId == Some(id)
  }

  // ---------------------------------------------------------------- every step keeps them

  /** Candidates never change and rows are only added. */
  lemma RowsOnlyGrow(s: State, step: Step)
    requires Enabled(s, step)
    ensures |s.rows| <= |Apply(s, step).rows|
    ensures forall r :: 0 <= r < |s.rows| ==> Apply(s, step).rows[r].candidate == s.rows[r].candidate
    ensures s.next <= Apply(s, step).next
  {
  }

  /** A check after a step is the one just requested or the same check moved on. */
  lemma ChecksMoveOn(s: State, step: Step, id: nat)
    requires Enabled(s, step) && id in Apply(s, step).checks
    ensures if step.RequestStep? && id == s.next
            then Apply(s, step).checks[id] == Check(s.rows[step.review].candidate, step.review, Queued, false, None)
                 && Apply(s, step).next == s.next + 1
            else id in s.checks && Apply(s, step).checks[id].candidate == s.checks[id].candidate
                 && Apply(s, step).checks[id].review == s.checks[id].review
                 && (Apply(s, step).checks[id].Live() ==> s.checks[id].Live())
                 && (Apply(s, step).checks[id].status == Queued ==>
                       s.checks[id].status == Queued && Apply(s, step).checks[id].verdict == s.checks[id].verdict)
  {
  }

  lemma KeepsWellFormed(s: State, step: Step)
    requires WellFormed(s) && Enabled(s, step)
    ensures WellFormed(Apply(s, step))
  {
    hide Apply, Enabled;
    RowsOnlyGrow(s, step);
    var after := Apply(s, step);
    forall id | id in after.checks
      ensures id < after.next && after.checks[id].review < |after.rows|
      ensures after.checks[id].candidate == after.rows[after.checks[id].review].candidate
      ensures after.checks[id].status == Queued ==> after.checks[id].verdict.None?
    {
      ChecksMoveOn(s, step, id);
      RequestIsOfARow(s, step);
    }
  }

  lemma RequestIsOfARow(s: State, step: Step)
    requires Enabled(s, step)
    ensures step.RequestStep? ==> step.review < |s.rows|
  {
  }

  lemma KeepsNoneStuck(s: State, step: Step)
    requires WellFormed(s) && NoneStuck(s) && Enabled(s, step)
    ensures NoneStuck(Apply(s, step))
  {
    hide LiveCheckOf;
    var after := Apply(s, step);
    forall r: nat | r < |after.rows| && after.rows[r].verify == Verifying ensures LiveCheckOf(after, r) {
      StillLive(s, step, r);
    }
  }

  /** A review that says `verifying` after a step was either just requested or keeps its live check. */
  lemma StillLive(s: State, step: Step, r: nat)
    requires WellFormed(s) && NoneStuck(s) && Enabled(s, step)
    requires r < |Apply(s, step).rows| && Apply(s, step).rows[r].verify == Verifying
    ensures LiveCheckOf(Apply(s, step), r)
  {
    if step.RequestStep? && step.review == r {
    } else {
      assert r < |s.rows| && s.rows[r].verify == Verifying;
      assert LiveCheckOf(s, r);
    }
  }

  lemma KeepsExecutedAfterPass(s: State, step: Step)
    requires WellFormed(s) && ExecutedAfterPass(s) && Enabled(s, step)
    ensures ExecutedAfterPass(Apply(s, step))
  {
  }

  /**
   The two writers of `verify_status` that do not look at it first, the automatic execution and the
   handler of an error after the verdict, find the review not being verified by another check.
   */
  ghost predicate LeavesVerifyingAlone(s: State, step: Step)
    requires WellFormed(s) && Enabled(s, step)
  {
    && (step.AutoVerify? ==> s.rows[step.review].verify != Verifying)
    && (step.FailLateStep? ==> s.rows[s.checks[step.check].review].verify != Verifying)
  }

  lemma KeepsLiveNamed(s: State, step: Step)
    requires WellFormed(s) && LiveIsNamed(s) && Enabled(s, step) && LeavesVerifyingAlone(s, step)
    ensures LiveIsNamed(Apply(s, step))
  {
    hide Apply, Enabled, Names, LeavesVerifyingAlone;
    var after := Apply(s, step);
    forall id | id in after.checks && after.checks[id].Live() ensures Names(after, id) {
      ChecksMoveOn(s, step, id);
      StaysNamed(s, step, id);
    }
  }

  lemma StaysNamed(s: State, step: Step, id: nat)
    requires WellFormed(s) && LiveIsNamed(s) && Enabled(s, step) && LeavesVerifyingAlone(s, step)
    requires id in Apply(s, step).checks && Apply(s, step).checks[id].Live()
    ensures Names(Apply(s, step), id)
  {
    if !(step.RequestStep? && id == s.next) {
      assert id in s.checks && s.checks[id].Live() && Names(s, id);
      if step.BeginStep? || step.FinishStep? {
        assert s.checks[step.check].Live() && Names(s, step.check);
      }
    }
  }

  /** The review a step writes `verify_status` of without looking at it. */
  function Disturbed(s: State, step: Step): nat
    requires WellFormed(s) && Enabled(s, step) && !LeavesVerifyingAlone(s, step)
  {
    if step.AutoVerify? then step.review else s.checks[step.check].review
  }

  /** A disturbed review has a live check that nobody names any more. */
  lemma DisturbedIsForgotten(s: State, step: Step) returns (id: nat)
    requires Inv(s) && Enabled(s, step) && !LeavesVerifyingAlone(s, step)
    ensures var r, after := Disturbed(s, step), Apply(s, step);
      && r < |after.rows| && after.rows[r].verify != Verifying
      && id in after.checks && after.checks[id].Live() && after.checks[id].review == r && id < after.next
      && after.next == s.next
  {
    var r := Disturbed(s, step);
    assert LiveCheckOf(s, r);
    id := s.rows[r].checkId.value;
  }

  /** Exactly which steps keep every live check named: those that leave reviews being verified alone. */
  lemma LiveNamedIff(s: State, step: Step)
    requires Inv(s) && LiveIsNamed(s) && Enabled(s, step)
    ensures LiveIsNamed(Apply(s, step)) <==> LeavesVerifyingAlone(s, step)
  {
    hide Apply, Enabled, LiveIsNamed, NoneStuck, WellFormed, ExecutedAfterPass, LeavesVerifyingAlone, Disturbed;
    if LeavesVerifyingAlone(s, step) {
      KeepsLiveNamed(s, step);
    } else {
      var id := DisturbedIsForgotten(s, step);
      UnnamedBreaks(Apply(s, step), id, Disturbed(s, step));
    }
  }

  lemma UnnamedBreaks(s: State, id: nat, r: nat)
    requires r < |s.rows| && s.rows[r].verify != Verifying && id in s.checks && s.checks[id].Live()
    requires s.checks[id].review == r
    ensures !LiveIsNamed(s)
  {
    assert !Names(s, id);
  }

  /** And each of the other steps lets the next request start a second check of the review beside the live one. */
  lemma DisturbedMeansTwo(s: State, step: Step)
    requires Inv(s) && Enabled(s, step) && !LeavesVerifyingAlone(s, step)
    ensures var r, after := Disturbed(s, step), Apply(s, step);
      Enabled(after, RequestStep(r, {})) && TwoLiveChecks(Apply(after, RequestStep(r, {})), r)
  {
    hide NoneStuck, WellFormed, ExecutedAfterPass, LeavesVerifyingAlone, Disturbed;
    var id := DisturbedIsForgotten(s, step);
    hide Apply;
    SecondCheck(Apply(s, step), Disturbed(s, step), id);
  }

  lemma SecondCheck(s: State, r: nat, id: nat)
    requires r < |s.rows| && s.rows[r].verify != Verifying
    requires id in s.checks && s.checks[id].Live() && s.checks[id].review == r && id < s.next
    ensures Enabled(s, RequestStep(r, {})) && TwoLiveChecks(Apply(s, RequestStep(r, {})), r)
  {
    var after := Apply(s, RequestStep(r, {}));
    assert LiveFor(after.checks[id], r) && LiveFor(after.checks[s.next], r);
  }

  // ---------------------------------------------------------------- every run

  const START := State([], map[], 0, {}, [], {}, {})

  ghost predicate IsRun(states: seq<State>, steps: seq<Step>) {
    && |states| == |steps| + 1 && states[0] == START
    && forall i :: 0 <= i < |steps| ==> Enabled(states[i], steps[i]) && states[i + 1] == Apply(states[i], steps[i])
  }

  lemma {:induction false} EveryRunKeepsInv(states: seq<State>, steps: seq<Step>, i: nat)
    requires IsRun(states, steps) && i < |states|
    ensures Inv(states[i])
  {
    hide WellFormed, NoneStuck, ExecutedAfterPass, Apply, Enabled;
    if i == 0 {
      StartIsFine();
    } else {
      EveryRunKeepsInv(states, steps, i - 1);
      assert states[i - 1 + 1] == Apply(states[i - 1], steps[i - 1]);
      KeepsWellFormed(states[i - 1], steps[i - 1]);
      KeepsNoneStuck(states[i - 1], steps[i - 1]);
      KeepsExecutedAfterPass(states[i - 1], steps[i - 1]);
    }
  }

  lemma StartIsFine()
    ensures Inv(START) && LiveIsNamed(START)
  {
  }

  /**
   Safety of the gate, in every state of every run: nothing was executed without a passed verdict for
   its candidate, and nothing on the worker path whose review was not ready at that moment.
   */
  lemma NothingExecutesUnverified(states: seq<State>, steps: seq<Step>, i: nat, k: nat)
    requires IsRun(states, steps) && i < |states| && k < |states[i].executed|
    ensures states[i].executed[k].candidate in states[i].passed
    ensures states[i].executed[k].path.Worker? ==> states[i].executed[k].wasReady
  {
    EveryRunKeepsInv(states, steps, i);
  }

  /** A finished, failed, cancelled or lost check never leaves its review saying `verifying`. */
  lemma NoReviewIsStuck(states: seq<State>, steps: seq<Step>, i: nat, r: nat)
    requires IsRun(states, steps) && i < |states| && r < |states[i].rows| && states[i].rows[r].verify == Verifying
    ensures LiveCheckOf(states[i], r)
  {
    EveryRunKeepsInv(states, steps, i);
  }

  lemma {:induction false} LiveNamedThroughout(states: seq<State>, steps: seq<Step>, i: nat)
    requires IsRun(states, steps) && i < |states|
    requires forall j :: 0 <= j < i ==> WellFormed(states[j]) && LeavesVerifyingAlone(states[j], steps[j])
    ensures LiveIsNamed(states[i])
  {
    hide WellFormed, LiveIsNamed, Apply, Enabled, LeavesVerifyingAlone, Inv;
    if i == 0 {
      StartIsFine();
    } else {
      LiveNamedThroughout(states, steps, i - 1);
      EveryRunKeepsInv(states, steps, i - 1);
      assert states[i - 1 + 1] == Apply(states[i - 1], steps[i - 1]);
      InvParts(states[i - 1]);
      KeepsLiveNamed(states[i - 1], steps[i - 1]);
    }
  }

  /** Over a whole run: every live check stays named exactly if every step leaves reviews being verified alone. */
  lemma LiveNamedThroughoutIff(states: seq<State>, steps: seq<Step>)
    requires IsRun(states, steps)
    ensures (forall i :: 0 <= i < |states| ==> LiveIsNamed(states[i]))
            <==> forall j :: 0 <= j < |steps| ==> WellFormed(states[j]) && LeavesVerifyingAlone(states[j], steps[j])
  {
    hide WellFormed, LiveIsNamed, Apply, Enabled, LeavesVerifyingAlone, Inv;
    if forall i :: 0 <= i < |states| ==> LiveIsNamed(states[i]) {
      forall j | 0 <= j < |steps| ensures WellFormed(states[j]) && LeavesVerifyingAlone(states[j], steps[j]) {
        EveryRunKeepsInv(states, steps, j);
        InvParts(states[j]);
        assert LiveIsNamed(states[j]) && LiveIsNamed(states[j + 1]) && states[j + 1] == Apply(states[j], steps[j]);
        LiveNamedIff(states[j], steps[j]);
      }
    }
    if forall j :: 0 <= j < |steps| ==> WellFormed(states[j]) && LeavesVerifyingAlone(states[j], steps[j]) {
      forall i | 0 <= i < |states| ensures LiveIsNamed(states[i]) {
        LiveNamedThroughout(states, steps, i);
      }
    }
  }

  lemma InvParts(s: State)
    requires Inv(s)
    ensures WellFormed(s)
  {
  }

  /** At most one live check per review, as long as no writer disturbs a review being verified. */
  lemma OneLiveCheckPerReview(states: seq<State>, steps: seq<Step>, i: nat, a: nat, b: nat)
    requires IsRun(states, steps) && i < |states|
    requires forall j :: 0 <= j < |steps| ==> WellFormed(states[j]) && LeavesVerifyingAlone(states[j], steps[j])
    requires a in states[i].checks && states[i].checks[a].Live() && b in states[i].checks && states[i].checks[b].Live()
    requires states[i].checks[a].review == states[i].checks[b].review
    ensures a == b
  {
    LiveNamedThroughout(states, steps, i);
    assert Names(states[i], a) && Names(states[i], b);
  }

  // ---------------------------------------------------------------- where the code gives less

  ghost predicate Reachable(s: State) {
    exists states, steps :: IsRun(states, steps) && states[|steps|] == s
  }

  lemma StartIsReachable()
    ensures Reachable(START)
  {
    var states, steps: seq<Step> := [START], [];
    assert IsRun(states, steps) && states[|steps|] == START;
  }

  lemma OneMoreStep(s: State, step: Step)
    requires Reachable(s) && Enabled(s, step)
    ensures Reachable(Apply(s, step))
  {
    hide Apply, Enabled;
    var states, steps :| IsRun(states, steps) && states[|steps|] == s;
    var more, taken := states + [Apply(s, step)], steps + [step];
    forall i | 0 <= i < |taken| ensures Enabled(more[i], taken[i]) && more[i + 1] == Apply(more[i], taken[i]) {
      if i < |steps| {
        assert states[i + 1] == Apply(states[i], steps[i]);
      }
    }
    assert IsRun(more, taken) && more[|taken|] == Apply(s, step);
  }

  /** Two checks of one review are live at once. */
  ghost predicate TwoLiveChecks(s: State, r: nat) {
    exists a, b :: a in s.checks && b in s.checks && a < b && LiveFor(s.checks[a], r) && LiveFor(s.checks[b], r)
  }

  predicate LiveFor(c: Check, r: nat) {
    c.Live() && c.review == r
  }

  ghost predicate ExecutesUnready(s: State) {
    exists k :: 0 <= k < |s.executed| && !s.executed[k].wasReady
  }

  function FirstReview(status: Status, v: Verify, id: Option<nat>): Row {
    Row(5, status, v, id)
  }

  /** Listed as recommended, verified with success, and then rejected by the user. */
  lemma VerifiedThenRejected() returns (s: State)
    ensures Reachable(s) && s == State([FirstReview(Rejected, Passed, None)], map[], 0, {5}, [], {}, {0})
  {
    hide Reachable;
    StartIsReachable();
    OneMoreStep(START, NewReview(5, Recommended));
    var s1 := START.(rows := [FirstReview(Recommended, NotAsked, None)]);
    assert Apply(START, NewReview(5, Recommended)) == s1;
    OneMoreStep(s1, AutoList({0}));
    var s2 := s1.(listed := {0});
    OneMoreStep(s2, AutoVerify(0, true));
    var s3 := State([FirstReview(Recommended, Passed, None)], map[], 0, {5}, [], {}, {0});
    assert Apply(s2, AutoVerify(0, true)) == s3;
    OneMoreStep(s3, SetRejected(0));
    s := s3.(rows := [FirstReview(Rejected, Passed, None)]);
    assert Apply(s3, SetRejected(0)) == s;
  }

  /** The automatic execution does not look again at the status: it executes what the user has just rejected. */
  lemma AutomaticPathExecutesARejectedReview()
    ensures exists s :: Reachable(s) && ExecutesUnready(s)
  {
    hide Reachable;
    var s1 := VerifiedThenRejected();
    OneMoreStep(s1, AutoExecute(0));
    var s2 := Apply(s1, AutoExecute(0));
    assert s2.executed == [Execution(0, 5, Automatic, false)];
    assert !s2.executed[0].wasReady;
  }

  function NewCheck(): Check {
    Check(5, 0, Queued, false, None)
  }

  /** A review that was requested once: the state all three stories share. */
  lemma RequestedOnce() returns (s: State)
    ensures Reachable(s)
    ensures s == START.(rows := [FirstReview(Recommended, Verifying, Some(0))], checks := map[0 := NewCheck()],
        next := 1)
  {
    hide Reachable;
    StartIsReachable();
    OneMoreStep(START, NewReview(5, Recommended));
    var s1 := START.(rows := [FirstReview(Recommended, NotAsked, None)]);
    assert Apply(START, NewReview(5, Recommended)) == s1;
    OneMoreStep(s1, RequestStep(0, {}));
    s := START.(rows := [FirstReview(Recommended, Verifying, Some(0))], checks := map[0 := NewCheck()], next := 1);
    assert Apply(s1, RequestStep(0, {})) == s;
  }

  /** When it verifies a review that is already being verified, the user can start a second check of it. */
  lemma AutomaticPathAllowsTwoChecks()
    ensures exists s :: Reachable(s) && TwoLiveChecks(s, 0)
  {
    hide Reachable;
    var s1 := RequestedOnce();
    OneMoreStep(s1, AutoList({0}));
    var s2 := s1.(listed := {0});
    OneMoreStep(s2, AutoVerify(0, false));
    var s3 := s1.(rows := [FirstReview(Recommended, NotPassed, Some(0))]);
    assert Apply(s2, AutoVerify(0, false)) == s3;
    OneMoreStep(s3, RequestStep(0, {}));
    var s4 := Apply(s3, RequestStep(0, {}));
    assert LiveFor(s4.checks[0], 0) && LiveFor(s4.checks[1], 0);
  }

  /** So can an error after a passed verdict, if the user asked again in between. */
  lemma LateErrorAllowsTwoChecks()
    ensures exists s :: Reachable(s) && TwoLiveChecks(s, 0)
  {
    hide Reachable;
    var s1 := RequestedOnce();
    OneMoreStep(s1, BeginStep(0));
    var s2 := s1.(checks := map[0 := NewCheck().(status := Running)]);
    assert Apply(s1, BeginStep(0)) == s2;
    OneMoreStep(s2, FinishStep(0, Verdict(true)));
    var passed := NewCheck().(status := Running, verdict := Some(true));
    var s3 := State([FirstReview(Recommended, Passed, Some(0))], map[0 := passed], 1, {5}, [], {}, {});
    assert Apply(s2, FinishStep(0, Verdict(true))) == s3;
    OneMoreStep(s3, RequestStep(0, {}));
    var s4 := s3.(rows := [FirstReview(Recommended, Verifying, Some(1))], checks := map[0 := passed, 1 := NewCheck()],
        next := 2);
    assert Apply(s3, RequestStep(0, {})) == s4;
    OneMoreStep(s4, FailLateStep(0));
    var s5 := Apply(s4, FailLateStep(0));
    assert s5.rows[0].verify == NotPassed && s5.checks[1] == NewCheck() && s5.next == 2;
    OneMoreStep(s5, RequestStep(0, {}));
    var s6 := Apply(s5, RequestStep(0, {}));
    assert LiveFor(s6.checks[1], 0) && LiveFor(s6.checks[2], 0);
  }

  // ---------------------------------------------------------------- the automatic path, exactly

  /** The step decides review `r`: a rejection, an approval by the worker, or by the automatic execution. */
  predicate Decides(s: State, step: Step, r: nat)
    requires Enabled(s, step) && r < |s.rows|
  {
    match step
    case SetRejected(q) => q == r
    case AutoExecute(q) => q == r
    case ConcludeStep(id) => s.checks[id].review == r && s.rows[r].Ready()
    case _ => false
  }

  /** A review is ready after a step exactly if it was and the step does not decide it. */
  lemma ReadyAfterIff(s: State, step: Step, r: nat)
    requires Enabled(s, step) && r < |s.rows|
    ensures r < |Apply(s, step).rows|
    ensures Apply(s, step).rows[r].Ready() <==> s.rows[r].Ready() && !Decides(s, step, r)
  {
  }

  /** No step from `j` up to `i` decides the review. */
  ghost predicate Undecided(states: seq<State>, steps: seq<Step>, r: nat, j: nat, i: nat)
    requires IsRun(states, steps) && j <= i < |states|
  {
    forall m :: j <= m < i ==> r < |states[m].rows| && !Decides(states[m], steps[m], r)
  }

  lemma {:induction false} ReadySinceIff(states: seq<State>, steps: seq<Step>, r: nat, j: nat, i: nat)
    requires IsRun(states, steps) && j <= i < |states| && r < |states[j].rows| && states[j].rows[r].Ready()
    ensures r < |states[i].rows| && (states[i].rows[r].Ready() <==> Undecided(states, steps, r, j, i))
    decreases i
  {
    hide Apply, Enabled, Decides, Row.Ready;
    if j < i {
      ReadySinceIff(states, steps, r, j, i - 1);
      assert states[i - 1 + 1] == Apply(states[i - 1], steps[i - 1]);
      ReadyAfterIff(states[i - 1], steps[i - 1], r);
      RowsOnlyGrow(states[i - 1], steps[i - 1]);
    }
  }

  /** What the automatic execution verifies or executes, it listed before as recommended. */
  lemma {:induction false} WasListed(states: seq<State>, steps: seq<Step>, r: nat, i: nat)
    requires IsRun(states, steps) && i < |states| && (r in states[i].listed || r in states[i].cleared)
    ensures exists j :: 0 <= j < i && Lists(steps[j], r)
  {
    hide Enabled;
    if i > 0 {
      assert states[i - 1 + 1] == Apply(states[i - 1], steps[i - 1]);
      if !Lists(steps[i - 1], r) {
        FromBefore(states[i - 1], steps[i - 1], r);
        WasListed(states, steps, r, i - 1);
      }
    }
  }

  predicate Lists(step: Step, r: nat) {
    step.AutoList? && r in step.reviews
  }

  lemma FromBefore(s: State, step: Step, r: nat)
    requires Enabled(s, step) && !Lists(step, r) && (r in Apply(s, step).listed || r in Apply(s, step).cleared)
    ensures r in s.listed || r in s.cleared
  {
  }

  /**
   The automatic execution, exactly: it acts on a ready review if and only if no step decided the review since it
   was listed. What it executes was listed, and was recommended then.
   */
  lemma AutomaticActsOnReadyIff(states: seq<State>, steps: seq<Step>, r: nat, j: nat, i: nat)
    requires IsRun(states, steps) && j < i < |steps| && Lists(steps[j], r) && steps[i] == AutoExecute(r)
    ensures r < |states[i].rows| && r < |states[j].rows| && states[j].rows[r].status == Recommended
    ensures states[i + 1].executed ==
            states[i].executed + [Execution(r, states[i].rows[r].candidate, Automatic,
                Undecided(states, steps, r, j, i))]
    ensures states[i].rows[r].Ready() <==> Undecided(states, steps, r, j, i)
  {
    assert Enabled(states[j], steps[j]) && Enabled(states[i], steps[i]);
    ReadySinceIff(states, steps, r, j, i);
    assert states[i + 1] == Apply(states[i], steps[i]);
  }

  lemma AutomaticWasListed(states: seq<State>, steps: seq<Step>, r: nat, i: nat)
    requires IsRun(states, steps) && i < |steps| && steps[i] == AutoExecute(r)
    ensures exists j :: 0 <= j < i && Lists(steps[j], r)
  {
    assert Enabled(states[i], steps[i]);
    WasListed(states, steps, r, i);
  }

  // ---------------------------------------------------------------- the worker's guard and its approval apart

  predicate GuardPasses(s: State, id: nat)
    requires id in s.checks
  {
    s.checks[id].review < |s.rows| && s.rows[s.checks[id].review].Ready()
  }

  /** The approval that follows a passed guard. */
  function ApproveNow(s: State, id: nat): State
    requires id in s.checks && s.checks[id].review < |s.rows|
  {
    Approve(SetCheck(s, id, s.checks[id].(status := Done)), s.checks[id].review, Worker(id))
  }

  /** With nothing in between, guard and approval are the one step of the model. */
  lemma GuardThenApprove(s: State, id: nat)
    requires id in s.checks
    ensures Conclude(s, id) == if GuardPasses(s, id) then ApproveNow(s, id)
        else SetCheck(s, id, s.checks[id].(status := Done))
  {
  }

  /**
   With other steps in between, the worker acts on a ready review exactly if none of them decided it since
   the guard.
   */
  lemma LateApprovalIff(states: seq<State>, steps: seq<Step>, id: nat, j: nat, i: nat)
    requires IsRun(states, steps) && j <= i < |states| && id in states[j].checks && GuardPasses(states[j], id)
    requires id in states[i].checks && states[i].checks[id].review == states[j].checks[id].review
    ensures var r := states[j].checks[id].review;
      && r < |states[i].rows|
      && ApproveNow(states[i], id).executed ==
         states[i].executed + [Execution(r, states[i].rows[r].candidate, Worker(id), Undecided(states, steps, r, j, i))]
  {
    ReadySinceIff(states, steps, states[j].checks[id].review, j, i);
  }

  // ---------------------------------------------------------------- the request in two steps

  /** The code submits the check first ... */
  function Submit(s: State, r: nat): State
    requires r < |s.rows|
  {
    s.(checks := s.checks[s.next := Check(s.rows[r].candidate, r, Queued, false, None)], next := s.next + 1)
  }

  /** ... and marks the review only afterwards. */
  function Mark(s: State, r: nat, id: nat): State
    requires r < |s.rows|
  {
    s.(rows := s.rows[r := s.rows[r].(verify := Verifying, checkId := Some(id))])
  }

  /** With nothing in between the two are the one step of the model. */
  lemma SubmitThenMark(s: State, r: nat)
    requires r < |s.rows|
    ensures Mark(Submit(s, r), r, s.next) == Request(s, r, {})
  {
    assert s.checks - {} == s.checks;
  }

  /** The mark is harmless exactly when the check it names is still live; otherwise the review is stuck. */
  lemma MarkIsSafeIff(s: State, r: nat, id: nat)
    requires NoneStuck(s) && r < |s.rows| && id in s.checks && s.checks[id].review == r
    ensures NoneStuck(Mark(s, r, id)) <==> s.checks[id].Live()
  {
    var after := Mark(s, r, id);
    assert LiveCheckOf(after, r) <==> s.checks[id].Live();
    if s.checks[id].Live() {
      forall k: nat | k < |after.rows| && after.rows[k].verify == Verifying ensures LiveCheckOf(after, k) {
        assert k != r ==> LiveCheckOf(s, k);
      }
    } else {
      assert after.rows[r].verify == Verifying;
    }
  }

  /** No check of the review is live although it says `verifying`. */
  ghost predicate Stuck(s: State, r: nat) {
    && r < |s.rows| && s.rows[r].verify == Verifying
    && forall id :: id in s.checks && s.checks[id].review == r ==> !s.checks[id].Live()
  }

  /** A fast worker gets there: submit, run, fail, and only then mark. */
  lemma FastWorkerLeavesReviewStuck()
    ensures exists s: State, r: nat ::
              && r < |s.rows| && Inv(s) && LiveIsNamed(s) && s.rows[r].verify != Verifying
              && StuckAfterFastWorker(s, r)
  {
    var s := START.(rows := [FirstReview(Recommended, NotAsked, None)]);
    var s1 := Submit(s, 0);
    var s2 := Begin(s1, 0);
    var s3 := Finish(s2, 0, Verdict(false));
    assert Stuck(Mark(s3, 0, 0), 0);
    assert Inv(s) && LiveIsNamed(s) && StuckAfterFastWorker(s, 0);
  }

  ghost predicate StuckAfterFastWorker(s: State, r: nat)
    requires r < |s.rows|
  {
    var submitted := Submit(s, r);
    var begun := Begin(submitted, s.next);
    s.next in begun.checks
    && var finished := Finish(begun, s.next, Verdict(false));
       r < |finished.rows| && Stuck(Mark(finished, r, s.next), r)
  }

  /** And it stays so: until a restart, only the automatic execution or a late error writes over it. */
  lemma StuckStays(s: State, step: Step, r: nat)
    requires Stuck(s, r) && Enabled(s, step) && step != RestartStep
    requires step.AutoVerify? ==> step.review != r
    requires step.FailLateStep? ==> s.checks[step.check].review != r
    requires step.BeginStep? || step.FinishStep? ==> s.checks[step.check].Live()
    ensures Stuck(Apply(s, step), r)
  {
    var after := Apply(s, step);
    forall id | id in after.checks && after.checks[id].review == r ensures !after.checks[id].Live() {
      ChecksMoveOn(s, step, id);
    }
  }
}
