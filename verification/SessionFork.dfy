/** The session pool of a forked child, as p11prov_session_pool_fork_reset leaves it. */
module SessionFork {
  import opened Common
  import opened SessionPool
  import opened SessionInvariants
  import opened SessionSteps
  import opened SessionSafety
  import opened SessionWitness

  /** References and the broken mark survive, the login mark does not. */
  function ResetSession(x: Session): Session {
    x.(handle := CK_INVALID_HANDLE, loginState := false, inUse := false, isLogin := false, stale := false)
  }

  /** Only the forking agent goes on in the child, which sees a token it has not opened anything in. */
  function Child(s: State, me: nat): State
    requires me < |s.pcs|
  {
    s.(sessions := seq(|s.sessions|, k requires 0 <= k < |s.sessions| => ResetSession(s.sessions[k])),
       pcs := seq(|s.pcs|, a => Idle)[me := s.pcs[me]],
       token := Token({}, false), kept := {}, dropped := {}, leaked := {}, resets := 0)
  }

  /** The reset takes the pool's mutex, which it does not initialise anew: if somebody held it
      at the fork, nobody in the child ever releases it, and the reset does not come to an end. */
  function ForkReset(s: State, me: nat): Option<State>
    requires me < |s.pcs|
  {
    if s.poolLock == None then Some(Child(s, me)) else None
  }

  /** Every session of the child is idle, without a handle and no login session; references, and
      the mark that it is broken, are as they were. */
  lemma ChildSessions(s: State, me: nat, k: nat)
    requires me < |s.pcs| && k < |s.sessions|
    ensures |Child(s, me).sessions| == |s.sessions| && Child(s, me).poolLock == s.poolLock
    ensures var x, y := s.sessions[k], Child(s, me).sessions[k];
      && !y.inUse && y.handle == CK_INVALID_HANDLE && !y.isLogin && !y.loginState
      && y.refcnt == x.refcnt && y.holders == x.holders && y.isBroken == x.isBroken
  {
  }

  lemma ForkIdle(s: State, me: nat)
    requires Inv(s) && me < |s.pcs| && s.pcs[me] == Idle && s.poolLock == None
    ensures Inv(Child(s, me))
  {
  }

  /** The child gets a sound pool exactly when the fork interrupted no request of the forking
      agent, and nobody held the pool's mutex. */
  lemma ForkKeepsExactlyWhen(s: State, me: nat)
    requires Inv(s) && me < |s.pcs|
    ensures (ForkReset(s, me).Some? && Inv(ForkReset(s, me).value)) <==> s.pcs[me] == Idle && s.poolLock == None
  {
    var c := Child(s, me);
    if s.pcs[me] == Idle && s.poolLock == None {
      ForkIdle(s, me);
    } else if Owned(s.pcs[me]).Some? {
      assert Owns(s, me, Owned(s.pcs[me]).value);
      assert Owns(c, me, Owned(s.pcs[me]).value);
    }
  }

  /** A run reaches a state in which the forking agent is idle and the child yet blocks: another
      agent is counting the open sessions for a return. */
  lemma ForkMayBlock()
    ensures exists s :: Reachable(s) && |s.pcs| == 2
              && s.pcs[1] == Idle && s.pcs[0].Counting? && ForkReset(s, 1) == None
  {
    SessionTaken();
    ReturnCounts(WithSession(), 0, 0);
    var s := WithSession().(poolLock := Some(0), pcs := WithSession().pcs[0 := Counting(0, 0, 0)]);
    assert ForkReset(s, 1) == None;
  }

  /** A request interrupted by the fork keeps a session that the child can hand out again. */
  lemma ForkCanShareSession(s: State, me: nat, b: nat, j: nat)
    requires Inv(s) && Owns(s, me, j) && b < |s.pcs| && b != me && s.poolLock == None
    requires s.sessions[j].holders > 0 && !s.sessions[j].isBroken
    ensures ForkReset(s, me).Some?
    ensures exists s' ::
              NextStep(ForkReset(s, me).value, s', TakeReferenced(b, j)) && Owns(s', me, j) && Owns(s', b, j)
  {
    var c := Child(s, me);
    var x := c.sessions[j].(inUse := true);
    var s' := c.(pcs := c.pcs[b := Check(ForRef, j)], kept := c.kept - {j}, sessions := c.sessions[j := x]);
    assert NextStep(c, s', TakeReferenced(b, j));
    assert Owns(s', me, j) && Owns(s', b, j);
  }

  /** A run reaches a state in which that happens. */
  lemma ForkMayShareSession()
    ensures exists s, s' :: Reachable(s) && |s.pcs| == 2 && ForkReset(s, 0).Some?
              && NextStep(ForkReset(s, 0).value, s', TakeReferenced(1, 0)) && Owns(s', 0, 0) && Owns(s', 1, 0)
  {
    ReferenceTaken();
    var s := WithReference();
    assert Inv(s) by { ReachableInv(s); }
    assert Owns(s, 0, 0);
    ForkCanShareSession(s, 0, 1, 0);
  }

  lemma ReachableInv(s: State)
    requires Reachable(s)
    ensures Inv(s)
  {
    var run: seq<State>, steps: seq<Step> :| IsRun(run, steps) && run[|steps|] == s;
    RunKeeps(run, steps, |steps|);
  }

  // ----- the login's reference, which the reset forgets

  /** More references than objects and the login account for. */
  ghost predicate Excess(s: State, j: nat) {
    && j < |s.sessions|
    && var x := s.sessions[j];
    && (x.inUse ==> forall a: nat :: Owns(s, a, j) ==> x.refcnt > x.holders + Claims(s.pcs[a], x))
    && (!x.inUse ==> x.refcnt > x.holders + if x.isLogin then 1 else 0)
  }

  lemma OwnerKeepsExcess(pc: Pc, x: Session, t: Token, leaked: set<nat>,
                         pc': Pc, x': Session, t': Token, leaked': set<nat>)
    requires OwnerMove(pc, x, t, leaked, pc', x', t', leaked')
    requires LocalOk(pc, x) && x.refcnt > x.holders + Claims(pc, x)
    ensures x'.refcnt > x'.holders + Claims(pc', x') && x'.inUse == x.inUse
  {
    match pc
    case Check(p, j) =>
    case Open(p, j) =>
    case _ =>
  }

  /** Of an owned session only its owner has a say. */
  lemma OwnerExcess(s: State, a: nat, j: nat)
    requires OwnInv(s) && Owns(s, a, j)
    ensures j < |s.sessions| && s.sessions[j].inUse
    ensures Excess(s, j) <==> s.sessions[j].refcnt > s.sessions[j].holders + Claims(s.pcs[a], s.sessions[j])
  {
  }

  lemma ActKeepsExcess(s: State, a: nat, pc: Pc, x: Session, s': State)
    requires OwnInv(s) && LocalInv(s) && OwnInv(s') && ActStep(s, a, pc, x, s')
    requires Excess(s, Owned(s.pcs[a]).value)
    ensures Excess(s', Owned(s.pcs[a]).value)
  {
    var j := Owned(s.pcs[a]).value;
    OwnerExcess(s, a, j);
    assert LocalOk(s.pcs[a], s.sessions[j]);
    OwnerKeepsExcess(s.pcs[a], s.sessions[j], s.token, s.leaked, pc, x, s'.token, s'.leaked);
    OwnerKeepsLocal(s.pcs[a], s.sessions[j], s.token, s.leaked, pc, x, s'.token, s'.leaked);
    OwnerExcess(s', a, j);
  }

  /** Taking session j, or putting it back. */
  lemma ClaimedExcess(s: State, a: nat, j: nat, s': State)
    requires OwnInv(s) && OwnInv(s') && Excess(s, j) && Touch(s, a, j, s')
    requires var x, x' := s.sessions[j], s'.sessions[j];
             x'.refcnt == x.refcnt && x'.holders == x.holders && x'.isLogin == x.isLogin && x'.inUse != x.inUse
    requires var pc := if s.sessions[j].inUse then s.pcs[a] else s'.pcs[a];
             pc.Taken? || pc.Check? || pc.Release? || pc.TryRelease?
    ensures Excess(s', j)
  {
    if s.sessions[j].inUse {
      assert Owns(s, a, j);
      OwnerExcess(s, a, j);
    } else {
      assert Owns(s', a, j);
      OwnerExcess(s', a, j);
    }
  }

  /** Where the session stays as it is, and so does what its owner accounts for. */
  lemma SameExcess(s: State, s': State, j: nat)
    requires Excess(s, j) && j < |s'.sessions| && s'.sessions[j] == s.sessions[j]
    requires forall b: nat :: Owns(s', b, j) ==>
               Owns(s, b, j) && Claims(s'.pcs[b], s.sessions[j]) == Claims(s.pcs[b], s.sessions[j])
    ensures Excess(s', j)
  {
  }

  /** What an agent does with one session leaves the others' excess alone. */
  lemma OtherExcess(s: State, a: nat, i: nat, s': State, j: nat)
    requires Excess(s, j) && j != i && a < |s.pcs| && i < |s.sessions|
    requires |s'.pcs| == |s.pcs| && |s'.sessions| == |s.sessions|
    requires s'.pcs == s.pcs[a := s'.pcs[a]] && s'.sessions == s.sessions[i := s'.sessions[i]]
    requires Owned(s'.pcs[a]) == Some(i) || Owned(s'.pcs[a]) == None
    ensures Excess(s', j)
  {
  }

  lemma ClaimKeepsExcess(s: State, a: nat, s': State, j: nat)
    requires OwnInv(s) && OwnInv(s') && TryClaimStep(s, a, s') && Excess(s, j)
    ensures Excess(s', j)
  {
    var i := s.pcs[a].i;
    if i != j {
      OtherExcess(s, a, i, s', j);
    } else if Decide(s.pcs[a].phase, s.sessions[i]) == Take {
      ClaimedExcess(s, a, i, s');
    } else {
      SameExcess(s, s', j);
    }
  }

  lemma PutBackKeepsExcess(s: State, a: nat, s': State, j: nat)
    requires OwnInv(s) && OwnInv(s') && PutBackStep(s, a, s') && Excess(s, j)
    ensures Excess(s', j)
  {
  }

  lemma ReferencedKeepsExcess(s: State, a: nat, i: nat, s': State, j: nat)
    requires OwnInv(s) && OwnInv(s') && TakeReferencedStep(s, a, i, s') && Excess(s, j)
    ensures Excess(s', j)
  {
    if i == j { ClaimedExcess(s, a, i, s'); } else { OtherExcess(s, a, i, s', j); }
  }

  lemma DropKeepsExcess(s: State, i: nat, s': State, j: nat)
    requires DropReferenceStep(s, i, s') && Excess(s, j)
    ensures Excess(s', j)
  {
  }

  /** The steps that leave every session and what its owner accounts for. */
  lemma PlainKeepsExcess(s: State, s': State, step: Step, j: nat)
    requires OwnInv(s) && NextStep(s, s', step) && Excess(s, j)
    requires !step.Act? && !step.TryClaim? && !step.TakeReferenced? && !step.PutBack? && !step.DropReference?
    ensures Excess(s', j)
  {
    SameExcess(s, s', j);
  }

  lemma StepKeepsExcess(s: State, s': State, step: Step, j: nat)
    requires OwnInv(s) && LocalInv(s) && OwnInv(s') && NextStep(s, s', step) && Excess(s, j)
    ensures Excess(s', j)
  {
    match step
    case Act(a, pc, x) =>
      var i := Owned(s.pcs[a]).value;
      OwnerMoveOwns(s, a, pc, x, s');
      if i == j { ActKeepsExcess(s, a, pc, x, s'); } else { OtherExcess(s, a, i, s', j); }
    case TryClaim(a) => ClaimKeepsExcess(s, a, s', j);
    case TakeReferenced(a, i) => ReferencedKeepsExcess(s, a, i, s', j);
    case PutBack(a) => PutBackKeepsExcess(s, a, s', j);
    case DropReference(i) => DropKeepsExcess(s, i, s', j);
    case _ => PlainKeepsExcess(s, s', step, j);
  }

  lemma OwnerMoveOwns(s: State, a: nat, pc: Pc, x: Session, s': State)
    requires OwnInv(s) && LocalInv(s) && ActStep(s, a, pc, x, s')
    ensures Owned(pc) == Owned(s.pcs[a])
  {
    var j := Owned(s.pcs[a]).value;
    assert Owns(s, a, j);
    OwnerKeepsLocal(s.pcs[a], s.sessions[j], s.token, s.leaked, pc, x, s'.token, s'.leaked);
  }

  /** A run of the child. */
  ghost predicate IsChildRun(c: State, run: seq<State>, steps: seq<Step>) {
    && |run| == |steps| + 1 && run[0] == c
    && forall k :: 0 <= k < |steps| ==> NextStep(run[k], run[k + 1], steps[k])
  }

  lemma {:induction false} ChildKeepsExcess(c: State, run: seq<State>, steps: seq<Step>, k: nat, j: nat)
    requires Inv(c) && Excess(c, j) && IsChildRun(c, run, steps) && k <= |steps|
    ensures Inv(run[k]) && Excess(run[k], j)
  {
    if k > 0 {
      ChildKeepsExcess(c, run, steps, k - 1, j);
      ExcessNext(run[k - 1], run[k], steps[k - 1], j);
    }
  }

  lemma ExcessNext(s: State, s': State, step: Step, j: nat)
    requires Inv(s) && Excess(s, j) && NextStep(s, s', step)
    ensures Inv(s') && Excess(s', j)
  {
    StepKeeps(s, s', step);
    StepKeepsExcess(s, s', step, j);
  }

  lemma ForkLeavesExcess(s: State, me: nat, j: nat)
    requires OwnInv(s) && LocalInv(s) && me < |s.pcs| && s.pcs[me] == Idle
    requires j < |s.sessions| && s.sessions[j].isLogin
    requires forall a: nat :: Owns(s, a, j) ==> !s.pcs[a].Unmark?
    ensures Excess(Child(s, me), j)
  {
  }

  lemma ExcessMeans(s: State, j: nat)
    requires OwnInv(s) && LocalInv(s) && KeptInv(s) && Excess(s, j)
    ensures s.sessions[j].refcnt > s.sessions[j].holders && j !in s.kept
    ensures forall a: nat :: Owns(s, a, j) ==> !s.pcs[a].Counting? && !s.pcs[a].Closing?
  {
  }

  /** What was the login session at the fork stays referenced for good: in the child no return
      ever counts or closes it, and it is never recycled. */
  lemma FormerLoginNeverClosed(s: State, me: nat, j: nat, run: seq<State>, steps: seq<Step>, k: nat)
    requires Inv(s) && me < |s.pcs| && s.pcs[me] == Idle && ForkReset(s, me).Some?
    requires j < |s.sessions| && s.sessions[j].isLogin
    requires forall a: nat :: Owns(s, a, j) ==> !s.pcs[a].Unmark?
    requires IsChildRun(ForkReset(s, me).value, run, steps) && k <= |steps|
    ensures j < |run[k].sessions| && run[k].sessions[j].refcnt > run[k].sessions[j].holders && j !in run[k].kept
    ensures forall a: nat :: Owns(run[k], a, j) ==> !run[k].pcs[a].Counting? && !run[k].pcs[a].Closing?
  {
    var c := Child(s, me);
    ForkIdle(s, me);
    ForkLeavesExcess(s, me, j);
    ChildKeepsExcess(c, run, steps, k, j);
    ExcessMeans(run[k], j);
  }
}
