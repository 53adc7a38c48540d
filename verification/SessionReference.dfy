/** What p11prov_try_session_ref hands out, in terms of the session it took. */
module SessionReference {
  import opened Common
  import opened SessionPool
  import opened SessionInvariants
  import opened SessionSteps
  import opened SessionSafety
  import opened SessionProgress

  /** Agent a is in the call that took session j, or holds the session since; had tells whether
      it had a handle when it was taken. */
  predicate Midway(s: State, a: nat, j: nat, had: bool) {
    && a < |s.pcs| && j < |s.sessions| && Owned(s.pcs[a]) == Some(j)
    && match s.pcs[a]
       case Check(p, _) => p == ForRef && (had <==> s.sessions[j].handle != CK_INVALID_HANDLE)
       case Held(p, _) => p == ForRef && (had <==> s.sessions[j].handle != CK_INVALID_HANDLE)
       case Closing(_, cause) => cause == InCheck(ForRef) && had
       case Closed(_, cause) => cause == InCheck(ForRef) && had
       case Open(p, _) => p == ForRef && had
       case TryRelease(_) => true
       case _ => false
  }

  /** What the others do leaves an owned session's handle alone. */
  lemma OthersLeaveOwned(s: State, s': State, step: Step, a: nat, j: nat)
    requires OwnInv(s) && NextStep(s, s', step) && Owns(s, a, j) && ByAgent(step) != Some(a)
    ensures a < |s'.pcs| && s'.pcs[a] == s.pcs[a]
    ensures j < |s.sessions| && j < |s'.sessions| && s'.sessions[j].handle == s.sessions[j].handle
  {
    if ByAgent(step).Some? && step.a < |s.pcs| && Owned(s.pcs[step.a]).Some? {
      assert Owns(s, step.a, Owned(s.pcs[step.a]).value);
    }
  }

  lemma OwnStepMidway(s: State, s': State, step: Step, a: nat, j: nat, had: bool)
    requires Inv(s) && NextStep(s, s', step) && ByAgent(step) == Some(a) && Midway(s, a, j, had)
    requires a < |s'.pcs| && s'.pcs[a] != Idle && !s'.pcs[a].Return?
    ensures Midway(s', a, j, had)
  {
    assert Owns(s, a, j);
    assert step.Act?;
  }

  lemma StepMidway(s: State, s': State, step: Step, a: nat, j: nat, had: bool)
    requires Inv(s) && NextStep(s, s', step) && Midway(s, a, j, had)
    requires a < |s'.pcs| && s'.pcs[a] != Idle && !s'.pcs[a].Return?
    ensures Midway(s', a, j, had)
  {
    assert Owns(s, a, j);
    if ByAgent(step) == Some(a) {
      OwnStepMidway(s, s', step, a, j, had);
    } else {
      OthersLeaveOwned(s, s', step, a, j);
    }
  }

  /** From the taking on, until the session is given back. */
  ghost predicate InCall(run: seq<State>, a: nat, i: nat, k: nat) {
    i < k < |run| && forall l :: i < l <= k ==> a < |run[l].pcs| && run[l].pcs[a] != Idle && !run[l].pcs[a].Return?
  }

  lemma {:induction false} CallMidway(run: seq<State>, steps: seq<Step>, i: nat, k: nat, a: nat, j: nat)
    requires IsRun(run, steps) && i < k <= |steps| && steps[i] == TakeReferenced(a, j) && InCall(run, a, i, k)
    ensures j < |run[i].sessions| && Midway(run[k], a, j, run[i].sessions[j].handle != CK_INVALID_HANDLE)
    decreases k
  {
    if k == i + 1 {
      assert NextStep(run[i], run[k], steps[i]);
    } else {
      CallMidway(run, steps, i, k - 1, a, j);
      RunKeeps(run, steps, k - 1);
      StepMidway(run[k - 1], run[k], steps[k - 1], a, j, run[i].sessions[j].handle != CK_INVALID_HANDLE);
    }
  }

  /** The session is handed out without a handle exactly when it had none when it was taken. */
  lemma HandedOutClosedExactlyWhen(run: seq<State>, steps: seq<Step>, i: nat, k: nat, a: nat, j: nat)
    requires IsRun(run, steps) && i < k <= |steps| && steps[i] == TakeReferenced(a, j) && InCall(run, a, i, k)
    requires run[k].pcs[a].Held?
    ensures run[k].pcs[a] == Held(ForRef, j) && j < |run[i].sessions| && j < |run[k].sessions|
    ensures run[k].sessions[j].handle == CK_INVALID_HANDLE <==> run[i].sessions[j].handle == CK_INVALID_HANDLE
  {
    CallMidway(run, steps, i, k, a, j);
  }
}
