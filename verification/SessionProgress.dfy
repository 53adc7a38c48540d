/** The pool lock is given back: whoever holds it can go on, and does so a bounded number of
    times before letting it go. */
module SessionProgress {
  import opened Common
  import opened SessionPool
  import opened SessionInvariants
  import opened SessionSteps
  import opened SessionSafety

  // ----- what a holder has left to do

  predicate Scanning(pc: Pc) { pc.Scan? || pc.Claim? }

  /** A bound on the looks of the phases still to come, in a pool of n sessions. */
  function PhasesLeft(phase: Phase, n: nat): nat {
    match phase
    case LoginFirst => 4 * (n + 1)
    case Referenced => 3 * (n + 1)
    case Cached => 2 * (n + 1)
    case AnyFree => n + 1
    case Recycle => 0
  }

  function SessionsLeft(i: nat, n: nat): nat { if i < n then n - i else 0 }

  /** A bound on the steps an agent takes before it gives the pool lock back. */
  function StepsLeft(pc: Pc, n: nat): nat
    requires HoldsPoolLock(pc)
  {
    match pc
    case Scan(_, phase, i) => 2 * (PhasesLeft(phase, n) + SessionsLeft(i, n)) + 2
    case Claim(_, phase, i) => 2 * (PhasesLeft(phase, n) + SessionsLeft(i, n)) + 1
    case Counting(_, i, _) => SessionsLeft(i, n)
    case _ => 0
  }

  predicate InPlace(pc: Pc, n: nat) {
    && (pc.Scan? ==> pc.i <= n)
    && (pc.Claim? ==> pc.i < n)
    && (pc.Counting? ==> pc.i <= n && pc.j < n)
  }

  // ----- steps of others, and of the holder

  lemma ClaimShrinks(s: State, a: nat, s': State)
    requires TryClaimStep(s, a, s')
    ensures HoldsPoolLock(s'.pcs[a]) && StepsLeft(s'.pcs[a], |s'.sessions|) < StepsLeft(s.pcs[a], |s.sessions|)
  {
  }

  lemma AllocateShrinks(s: State, a: nat, memory: bool, s': State)
    requires AllocateStep(s, a, memory, s')
    ensures HoldsPoolLock(s'.pcs[a]) && StepsLeft(s'.pcs[a], |s'.sessions|) < StepsLeft(s.pcs[a], |s.sessions|)
  {
  }

  function ByAgent(step: Step): Option<nat> {
    if step.DropReference? || step.TokenReset? then None else Some(step.a)
  }

  lemma OthersLeaveHolder(s: State, s': State, step: Step, a: nat)
    requires LockInv(s) && NextStep(s, s', step) && ByAgent(step) != Some(a)
    requires a < |s.pcs| && HoldsPoolLock(s.pcs[a])
    ensures a < |s'.pcs| && s'.pcs[a] == s.pcs[a] && |s'.sessions| == |s.sessions|
  {
    assert step.Allocate? ==> HoldsPoolLock(s.pcs[step.a]);
  }

  lemma OwnStepShrinks(s: State, s': State, step: Step, a: nat)
    requires NextStep(s, s', step) && ByAgent(step) == Some(a) && a < |s.pcs| && HoldsPoolLock(s.pcs[a])
    ensures a < |s'.pcs|
    ensures if HoldsPoolLock(s'.pcs[a]) then StepsLeft(s'.pcs[a], |s'.sessions|) < StepsLeft(s.pcs[a], |s.sessions|)
            else s'.poolLock == None
  {
    match step
    case Allocate(_, memory) => AllocateShrinks(s, a, memory, s');
    case TryClaim(_) => ClaimShrinks(s, a, s');
    case _ =>
  }

  /** A step of the holder leaves it less to do, or gives the lock back; other steps leave the
      holder and the number of sessions alone. */
  lemma HolderShrinks(s: State, s': State, step: Step, a: nat)
    requires LockInv(s) && NextStep(s, s', step) && a < |s.pcs| && HoldsPoolLock(s.pcs[a])
    ensures a < |s'.pcs|
    ensures s'.pcs[a] == s.pcs[a] ==> |s'.sessions| == |s.sessions|
    ensures s'.pcs[a] != s.pcs[a] ==>
      if HoldsPoolLock(s'.pcs[a]) then StepsLeft(s'.pcs[a], |s'.sessions|) < StepsLeft(s.pcs[a], |s.sessions|)
      else s'.poolLock == None
  {
    if ByAgent(step) == Some(a) { OwnStepShrinks(s, s', step, a); } else { OthersLeaveHolder(s, s', step, a); }
  }

  lemma PlacesStay(s: State, s': State, step: Step)
    requires Inv(s) && NextStep(s, s', step) && forall a: nat :: a < |s.pcs| ==> InPlace(s.pcs[a], |s.sessions|)
    ensures forall a: nat :: a < |s'.pcs| ==> InPlace(s'.pcs[a], |s'.sessions|)
  {
    match step
    case LockToCount(b) => assert Owns(s, b, s.pcs[b].j);
    case Act(b, pc, x) => OwnerNotCounting(s, b, pc, x, s');
    case _ =>
  }

  lemma OwnerNotCounting(s: State, b: nat, pc: Pc, x: Session, s': State)
    requires Inv(s) && ActStep(s, b, pc, x, s')
    ensures !HoldsPoolLock(pc)
  {
    var j := Owned(s.pcs[b]).value;
    assert Owns(s, b, j);
    OwnerKeepsLocal(s.pcs[b], s.sessions[j], s.token, s.leaked, pc, x, s'.token, s'.leaked);
  }

  /** The lock is held only by an agent that is about to go on with it. */
  ghost predicate HeldBySomebody(s: State) {
    s.poolLock.Some? ==> s.poolLock.value < |s.pcs| && HoldsPoolLock(s.pcs[s.poolLock.value])
  }

  lemma HolderStays(s: State, s': State, step: Step)
    requires Inv(s) && NextStep(s, s', step) && HeldBySomebody(s)
    ensures HeldBySomebody(s')
  {
    if s.poolLock.Some? { HolderShrinks(s, s', step, s.poolLock.value); }
  }

  lemma {:induction false} RunKeepsPlaces(run: seq<State>, steps: seq<Step>, k: nat)
    requires IsRun(run, steps) && k <= |steps|
    ensures forall a: nat :: a < |run[k].pcs| ==> InPlace(run[k].pcs[a], |run[k].sessions|)
    ensures HeldBySomebody(run[k])
  {
    if k > 0 {
      RunKeepsPlaces(run, steps, k - 1);
      RunKeeps(run, steps, k - 1);
      PlacesStay(run[k - 1], run[k], steps[k - 1]);
      HolderStays(run[k - 1], run[k], steps[k - 1]);
    }
  }

  // ----- going on

  ghost predicate CanGoOn(s: State, a: nat)
    requires a < |s.pcs|
  {
    exists step, s' :: NextStep(s, s', step) && |s'.pcs| == |s.pcs| && s'.pcs[a] != s.pcs[a]
  }

  lemma GoesOn(s: State, a: nat, step: Step, s': State)
    requires a < |s.pcs| && NextStep(s, s', step) && |s'.pcs| == |s.pcs| && s'.pcs[a] != s.pcs[a]
    ensures CanGoOn(s, a)
  {
  }

  lemma ScanCanGoOn(s: State, a: nat)
    requires a < |s.pcs| && s.pcs[a].Scan? && s.pcs[a].i <= |s.sessions|
    ensures CanGoOn(s, a)
  {
    var pc := s.pcs[a];
    if pc.i < |s.sessions| {
      var s' := s.(pcs := s.pcs[a := Scan(pc.p, pc.phase, pc.i + 1)]);
      GoesOn(s, a, Look(a, NewSession.(isBroken := pc.phase != Recycle), false), s');
    } else if pc.phase != Recycle {
      GoesOn(s, a, TurnPhase(a), s.(pcs := s.pcs[a := Scan(pc.p, NextPhase(pc.phase), 0)]));
    } else {
      GoesOn(s, a, Allocate(a, false), s.(pcs := s.pcs[a := Refused]));
    }
  }

  lemma CountCanGoOn(s: State, a: nat)
    requires a < |s.pcs| && s.pcs[a].Counting? && InPlace(s.pcs[a], |s.sessions|)
    ensures CanGoOn(s, a)
  {
    var pc := s.pcs[a];
    if pc.i < |s.sessions| {
      var one := if s.sessions[pc.i].handle != CK_INVALID_HANDLE then 1 else 0;
      GoesOn(s, a, CountOne(a), s.(pcs := s.pcs[a := Counting(pc.j, pc.i + 1, pc.open + one)]));
    } else {
      var x := s.sessions[pc.j];
      var s' := s.(pcs := s.pcs[a := if pc.open >= s.maxCached then CloseOrRelease(pc.j, x) else Release(pc.j)],
                   poolLock := None, dropped := s.dropped - {pc.j},
                   kept := if pc.open < s.maxCached && x.handle != CK_INVALID_HANDLE then s.kept + {pc.j} else s.kept);
      GoesOn(s, a, CountDone(a), s');
    }
  }

  lemma ClaimCanGoOn(s: State, a: nat)
    requires a < |s.pcs| && s.pcs[a].Claim? && s.pcs[a].i < |s.sessions|
    ensures CanGoOn(s, a)
  {
    var pc := s.pcs[a];
    var x := s.sessions[pc.i];
    var taken := s.(pcs := s.pcs[a := Taken(pc.p, pc.i)], kept := s.kept - {pc.i});
    var s' := match Decide(pc.phase, x)
      case Pass => s.(pcs := s.pcs[a := Scan(pc.p, pc.phase, pc.i + 1)])
      case Fail => s.(pcs := s.pcs[a := Refused])
      case Take =>
        if pc.phase == Recycle && x.handle != CK_INVALID_HANDLE then
          taken.(leaked := if x.handle in s.token.open then s.leaked + {x.handle} else s.leaked,
                 sessions := s.sessions[pc.i := x.(inUse := true, handle := CK_INVALID_HANDLE,
                                                   loginState := false, isBroken := false)])
        else taken.(sessions := s.sessions[pc.i := x.(inUse := true)]);
    GoesOn(s, a, TryClaim(a), s');
  }

  /** In every run: while somebody holds the pool lock, that agent can take a step of its own. */
  lemma HolderCanGoOn(run: seq<State>, steps: seq<Step>, k: nat)
    requires IsRun(run, steps) && k <= |steps| && run[k].poolLock.Some?
    ensures run[k].poolLock.value < |run[k].pcs| && CanGoOn(run[k], run[k].poolLock.value)
  {
    RunKeepsPlaces(run, steps, k);
    var s := run[k];
    var a := s.poolLock.value;
    match s.pcs[a]
    case Scan(_, _, _) => ScanCanGoOn(s, a);
    case Claim(_, _, _) => ClaimCanGoOn(s, a);
    case Taken(p, j) => GoesOn(s, a, UnlockTaken(a), s.(poolLock := None, pcs := s.pcs[a := Check(p, j)]));
    case Refused => GoesOn(s, a, UnlockRefused(a), s.(poolLock := None, pcs := s.pcs[a := Idle]));
    case Counting(_, _, _) => CountCanGoOn(s, a);
  }

  // ----- giving the lock back

  /** The steps of agent a from state i to state k of a run. */
  function OwnSteps(run: seq<State>, a: nat, i: nat, k: nat): nat
    requires i <= k < |run| && forall l :: i <= l <= k ==> a < |run[l].pcs|
    decreases k
  {
    if i == k then 0
    else OwnSteps(run, a, i, k - 1) + if run[k].pcs[a] != run[k - 1].pcs[a] then 1 else 0
  }

  ghost predicate HoldsThroughout(run: seq<State>, a: nat, i: nat, k: nat) {
    i <= k < |run| && forall l :: i <= l <= k ==> a < |run[l].pcs| && HoldsPoolLock(run[l].pcs[a])
  }

  /** From state l on, a step of agent a takes from what it has left. */
  ghost predicate Shrunk(run: seq<State>, a: nat, l: int) {
    && 0 <= l && l + 1 < |run| && a < |run[l].pcs| && a < |run[l + 1].pcs|
    && HoldsPoolLock(run[l].pcs[a]) && HoldsPoolLock(run[l + 1].pcs[a])
    && StepsLeft(run[l + 1].pcs[a], |run[l + 1].sessions|) + (if run[l + 1].pcs[a] != run[l].pcs[a] then 1 else 0)
       <= StepsLeft(run[l].pcs[a], |run[l].sessions|)
  }

  lemma RunShrinks(run: seq<State>, steps: seq<Step>, a: nat, l: nat)
    requires IsRun(run, steps) && l < |steps| && a < |run[l].pcs| && a < |run[l + 1].pcs|
    requires HoldsPoolLock(run[l].pcs[a]) && HoldsPoolLock(run[l + 1].pcs[a])
    ensures Shrunk(run, a, l)
  {
    RunKeeps(run, steps, l);
    HolderShrinks(run[l], run[l + 1], steps[l], a);
  }

  lemma {:induction false} ShrunkInAll(run: seq<State>, a: nat, i: nat, k: nat)
    requires HoldsThroughout(run, a, i, k) && forall l :: i <= l < k ==> Shrunk(run, a, l)
    ensures OwnSteps(run, a, i, k) + StepsLeft(run[k].pcs[a], |run[k].sessions|)
         <= StepsLeft(run[i].pcs[a], |run[i].sessions|)
    decreases k
  {
    if i < k {
      ShrunkInAll(run, a, i, k - 1);
      assert Shrunk(run, a, k - 1);
    }
  }

  /** However the others interleave, an agent takes at most so many steps of its own while it
      keeps the pool lock. */
  lemma LockIsGivenBack(run: seq<State>, steps: seq<Step>, a: nat, i: nat, k: nat)
    requires IsRun(run, steps) && HoldsThroughout(run, a, i, k)
    ensures OwnSteps(run, a, i, k) <= StepsLeft(run[i].pcs[a], |run[i].sessions|)
  {
    forall l | i <= l < k ensures Shrunk(run, a, l) { RunShrinks(run, steps, a, l); }
    ShrunkInAll(run, a, i, k);
  }

  /** In a pool of n sessions it is at most 10 n + 10 steps for a request, and n for a return. */
  lemma LockBound(pc: Pc, n: nat)
    requires HoldsPoolLock(pc)
    ensures StepsLeft(pc, n) <= 10 * n + 10
    ensures pc.Counting? ==> StepsLeft(pc, n) <= n
  {
  }
}
