/** The cache bound for all idle open sessions: it can be missed only by way of a reference
    that is dropped after the last count, and exactly when that happens is told here. */
module SessionCache {
  import opened Common
  import opened SessionPool
  import opened SessionInvariants
  import opened SessionSteps
  import opened SessionSafety
  import opened SessionWitness

  /** What the cache limit is about: an open handle that nothing refers to. */
  predicate Spare(x: Session) { x.handle != CK_INVALID_HANDLE && x.refcnt == 0 }

  // ----- where spare sessions come from

  /** What can be said of a session in somebody's hands. */
  predicate OwnedSpare(pc: Pc, x: Session, kept: bool, dropped: bool) {
    match pc
    case Taken(p, _) => p != ForRef
    case Check(p, _) => p == ForRef && x.refcnt == 0 ==> dropped
    case Open(p, _) => p == ForRef && x.refcnt == 0 ==> dropped
    case Closing(_, cause) => cause == InCheck(ForRef) && x.refcnt == 0 ==> dropped
    case Closed(_, cause) => cause == InCheck(ForRef) && x.refcnt == 0 ==> dropped
    case TryRelease(_) => x.refcnt == 0 ==> dropped
    case Release(_) => Spare(x) ==> kept || dropped
    case _ => true
  }

  predicate IdleSpare(x: Session, kept: bool, dropped: bool) { Spare(x) ==> kept || dropped }

  predicate Scans(pc: Pc) { (pc.Scan? || pc.Claim?) ==> pc.p != ForRef }

  ghost predicate SpareInv(s: State) {
    && (forall a: nat :: a < |s.pcs| ==> Scans(s.pcs[a]))
    && (forall a: nat, j: nat :: Owns(s, a, j) && j < |s.sessions| ==>
          OwnedSpare(s.pcs[a], s.sessions[j], j in s.kept, j in s.dropped))
    && (forall j: nat :: j < |s.sessions| && !s.sessions[j].inUse ==>
          IdleSpare(s.sessions[j], j in s.kept, j in s.dropped))
    && s.kept !! s.dropped
  }

  /** A step of one agent on one session. */
  lemma TouchSpare(s: State, a: nat, j: nat, s': State)
    requires Touch(s, a, j, s') && OwnInv(s) && SpareInv(s) && Scans(s'.pcs[a])
    requires s'.kept == s.kept || s'.kept == s.kept - {j} || s'.kept == s.kept + {j}
    requires s'.dropped == s.dropped || s'.dropped == s.dropped - {j}
    requires j in s'.kept ==> j !in s'.dropped
    requires if s'.sessions[j].inUse then OwnedSpare(s'.pcs[a], s'.sessions[j], j in s'.kept, j in s'.dropped)
             else IdleSpare(s'.sessions[j], j in s'.kept, j in s'.dropped)
    ensures SpareInv(s')
  {
    TouchOthers(s, a, j, s');
  }

  /** Whatever the owner does, short of counting, keeps it; its session is not a kept one. */
  lemma OwnerKeepsSpare(pc: Pc, x: Session, t: Token, leaked: set<nat>,
                        pc': Pc, x': Session, t': Token, leaked': set<nat>, dropped: bool)
    requires OwnerMove(pc, x, t, leaked, pc', x', t', leaked')
    requires LocalOk(pc, x) && OwnedSpare(pc, x, false, dropped)
    ensures OwnedSpare(pc', x', false, dropped)
  {
    match pc
    case Check(_, _) =>
    case Open(_, _) =>
    case _ =>
  }

  lemma ActKeepsSpare(s: State, a: nat, pc: Pc, x: Session, s': State)
    requires Inv(s) && SpareInv(s) && ActStep(s, a, pc, x, s')
    ensures SpareInv(s')
  {
    var j := Owned(s.pcs[a]).value;
    assert Owns(s, a, j);
    OwnerKeepsLocal(s.pcs[a], s.sessions[j], s.token, s.leaked, pc, x, s'.token, s'.leaked);
    NotKept(s, a, j);
    OwnerKeepsSpare(s.pcs[a], s.sessions[j], s.token, s.leaked, pc, x, s'.token, s'.leaked, j in s.dropped);
    TouchSpare(s, a, j, s');
  }

  lemma CountDoneKeepsSpare(s: State, a: nat, s': State)
    requires Inv(s) && SpareInv(s) && CountDoneStep(s, a, s')
    ensures SpareInv(s')
  {
    var j := s.pcs[a].j;
    assert Owns(s, a, j);
    NotKept(s, a, j);
    TouchSpare(s, a, j, s');
  }

  lemma TryClaimKeepsSpare(s: State, a: nat, s': State)
    requires Inv(s) && SpareInv(s) && TryClaimStep(s, a, s')
    ensures SpareInv(s')
  {
    var i := s.pcs[a].i;
    if Decide(s.pcs[a].phase, s.sessions[i]) == Take {
      TouchSpare(s, a, i, s');
    } else {
      BystanderOwns(s, a, s');
    }
  }

  lemma OwnersKeepSpare(s: State, s': State, step: Step)
    requires Inv(s) && SpareInv(s) && NextStep(s, s', step)
    requires step.UnlockTaken? || step.LockToCount? || step.CountOne? || step.PutBack? || step.TakeReferenced?
    ensures SpareInv(s')
  {
    var j := if step.TakeReferenced? then step.j else s.pcs[step.a].j;
    assert step.TakeReferenced? || Owns(s, step.a, j);
    TouchSpare(s, step.a, j, s');
  }

  lemma DropKeepsSpare(s: State, j: nat, s': State)
    requires Inv(s) && SpareInv(s) && DropReferenceStep(s, j, s')
    ensures SpareInv(s')
  {
    DropOwns(s, j, s');
  }

  lemma AllocateKeepsSpare(s: State, a: nat, memory: bool, s': State)
    requires Inv(s) && SpareInv(s) && AllocateStep(s, a, memory, s')
    ensures SpareInv(s')
  {
    assert forall b: nat, k: nat :: b != a ==> (Owns(s', b, k) <==> Owns(s, b, k));
  }

  lemma StepKeepsSpare(s: State, s': State, step: Step)
    requires Inv(s) && SpareInv(s) && NextStep(s, s', step)
    ensures SpareInv(s')
  {
    match step
    case Act(a, pc, x) => ActKeepsSpare(s, a, pc, x, s');
    case TryClaim(a) => TryClaimKeepsSpare(s, a, s');
    case Allocate(a, memory) => AllocateKeepsSpare(s, a, memory, s');
    case CountDone(a) => CountDoneKeepsSpare(s, a, s');
    case DropReference(j) => DropKeepsSpare(s, j, s');
    case TokenReset => assert forall b: nat, k: nat :: Owns(s', b, k) <==> Owns(s, b, k);
    case StartFetch(a, p) => BystanderOwns(s, a, s');
    case Look(a, seen, flagsMatch) => BystanderOwns(s, a, s');
    case TurnPhase(a) => BystanderOwns(s, a, s');
    case UnlockRefused(a) => BystanderOwns(s, a, s');
    case _ => OwnersKeepSpare(s, s', step);
  }

  lemma {:induction false} RunKeepsSpare(run: seq<State>, steps: seq<Step>, k: nat)
    requires IsRun(run, steps) && k <= |steps|
    ensures SpareInv(run[k])
  {
    if k > 0 {
      RunKeepsSpare(run, steps, k - 1);
      RunKeeps(run, steps, k - 1);
      StepKeepsSpare(run[k - 1], run[k], steps[k - 1]);
    }
  }

  // ----- which drops count

  /** Step i of the run drops the last reference to session j. */
  ghost predicate LastDrop(run: seq<State>, steps: seq<Step>, i: nat, j: nat) {
    && i < |steps| && i < |run| && steps[i] == DropReference(j)
    && j < |run[i].sessions| && run[i].sessions[j].refcnt == 1
  }

  /** At step i of the run the return of session j has counted and decides. */
  ghost predicate Decided(run: seq<State>, steps: seq<Step>, i: nat, j: nat) {
    && i < |steps| && i < |run| && steps[i].CountDone? && steps[i].a < |run[i].pcs|
    && run[i].pcs[steps[i].a].Counting? && run[i].pcs[steps[i].a].j == j
  }

  /** The last reference was dropped after the last decision about the session, if any. */
  ghost predicate LateDrop(run: seq<State>, steps: seq<Step>, k: nat, j: nat) {
    exists i: nat :: i < k && LastDrop(run, steps, i, j)
      && forall l: nat :: i < l < k ==> !Decided(run, steps, l, j)
  }

  lemma DroppedStep(run: seq<State>, steps: seq<Step>, k: nat, j: nat)
    requires IsRun(run, steps) && k < |steps|
    ensures j in run[k + 1].dropped <==>
              LastDrop(run, steps, k, j) || (j in run[k].dropped && !Decided(run, steps, k, j))
  {
    assert NextStep(run[k], run[k + 1], steps[k]);
  }

  lemma LateDropStep(run: seq<State>, steps: seq<Step>, k: nat, j: nat)
    ensures LateDrop(run, steps, k + 1, j) <==>
              LastDrop(run, steps, k, j) || (LateDrop(run, steps, k, j) && !Decided(run, steps, k, j))
  {
    if LateDrop(run, steps, k, j) && !Decided(run, steps, k, j) {
      var i: nat :| i < k && LastDrop(run, steps, i, j) && forall l: nat :: i < l < k ==> !Decided(run, steps, l, j);
      assert forall l: nat :: i < l < k + 1 ==> !Decided(run, steps, l, j);
    }
    if LateDrop(run, steps, k + 1, j) && !LastDrop(run, steps, k, j) {
      var i: nat :| i < k + 1 && LastDrop(run, steps, i, j)
        && forall l: nat :: i < l < k + 1 ==> !Decided(run, steps, l, j);
      assert i < k && !Decided(run, steps, k, j);
    }
  }

  /** The record of drops is what the run says. */
  lemma {:induction false} DroppedIsLateDrop(run: seq<State>, steps: seq<Step>, k: nat, j: nat)
    requires IsRun(run, steps) && k <= |steps|
    ensures j in run[k].dropped <==> LateDrop(run, steps, k, j)
  {
    if k > 0 {
      DroppedIsLateDrop(run, steps, k - 1, j);
      DroppedStep(run, steps, k - 1, j);
      LateDropStep(run, steps, k - 1, j);
    }
  }

  // ----- the bound

  function IdleSpares(s: State): set<nat> {
    set j | 0 <= j < |s.sessions| && !s.sessions[j].inUse && Spare(s.sessions[j])
  }

  lemma SubsetSize(a: set<nat>, b: set<nat>)
    requires a <= b
    ensures |a| <= |b|
  {
    assert b == a + (b - a);
  }

  /** An idle spare session escapes the bound, by not being a kept one, exactly when its last
      reference was dropped after the last decision of a return about it. */
  lemma EscapesExactlyWhen(run: seq<State>, steps: seq<Step>, k: nat, j: nat)
    requires IsRun(run, steps) && k <= |steps| && j in IdleSpares(run[k])
    ensures j !in run[k].kept <==> LateDrop(run, steps, k, j)
  {
    RunKeepsSpare(run, steps, k);
    DroppedIsLateDrop(run, steps, k, j);
    assert IdleSpare(run[k].sessions[j], j in run[k].kept, j in run[k].dropped);
  }

  /** The idle spare sessions that did not escape are fewer than the cache limit, or none. */
  lemma IdleSparesBounded(run: seq<State>, steps: seq<Step>, k: nat)
    requires IsRun(run, steps) && k <= |steps|
    ensures var stay := set j | j in IdleSpares(run[k]) && !LateDrop(run, steps, k, j);
            stay == {} || |stay| < run[k].maxCached
  {
    var stay := set j | j in IdleSpares(run[k]) && !LateDrop(run, steps, k, j);
    forall j | j in stay ensures j in run[k].kept { EscapesExactlyWhen(run, steps, k, j); }
    CacheStaysBounded(run, steps, k);
    SubsetSize(stay, run[k].kept);
  }

  /** In a run without dropped references the bound holds for all idle spare sessions. */
  lemma UndroppedRunsStayBounded(run: seq<State>, steps: seq<Step>, k: nat)
    requires IsRun(run, steps) && k <= |steps|
    requires forall i :: 0 <= i < k ==> !steps[i].DropReference?
    ensures IdleSpares(run[k]) <= run[k].kept
    ensures IdleSpares(run[k]) == {} || |IdleSpares(run[k])| < run[k].maxCached
  {
    assert forall j: nat :: !LateDrop(run, steps, k, j);
    forall j | j in IdleSpares(run[k]) ensures j in run[k].kept { EscapesExactlyWhen(run, steps, k, j); }
    CacheStaysBounded(run, steps, k);
    SubsetSize(IdleSpares(run[k]), run[k].kept);
  }

  // ----- both ways to escape occur

  /** With no cache at all, a session whose last reference goes while it is idle stays open. */
  lemma DroppedReferenceEscapesCache()
    ensures exists s :: Reachable(s) && s.maxCached == 0 && |s.sessions| == 1 && 0 in IdleSpares(s)
              && s.sessions[0].handle in s.token.open
  {
    ReferencedPutBack();
    var s := PutBackReferenced();
    var s' := s.(sessions := [s.sessions[0].(refcnt := 0, holders := 0)], dropped := s.dropped + {0});
    Extend(s, DropReference(0), s');
    assert 0 in IdleSpares(s');
  }

  /** So does one whose last reference goes between the test of its return and the put-back. */
  lemma DropInReturnEscapesCache()
    ensures exists s, s', s'' :: Reachable(s) && s.maxCached == 0 && s.pcs == [Release(0), Idle]
              && NextStep(s, s', DropReference(0)) && NextStep(s', s'', PutBack(0)) && 0 in IdleSpares(s'')
  {
    ReferencedReleased();
    var s := ReleasedReferenced();
    var x := s.sessions[0].(refcnt := 0, holders := 0);
    var s' := s.(sessions := [x], dropped := s.dropped + {0});
    var s'' := s'.(pcs := [Idle, Idle], sessions := [x.(inUse := false)]);
    assert NextStep(s, s', DropReference(0)) && NextStep(s', s'', PutBack(0));
    assert 0 in IdleSpares(s'');
  }
}
