/** Every step of the session pool keeps the invariant. */
module SessionSteps {
  import opened Common
  import opened SessionPool
  import opened SessionInvariants

  // ----- the owner's moves

  lemma CheckKeepsLocal(p: Purpose, j: nat, x: Session, t: Token, leaked: set<nat>,
                        pc': Pc, x': Session, t': Token, leaked': set<nat>)
    requires CheckMove(p, j, x, t, leaked, pc', x', t', leaked')
    requires LocalOk(Check(p, j), x) && x.inUse
    ensures LocalOk(pc', x') && x'.inUse && Owned(pc') == Some(j) && !HoldsPoolLock(pc') && ScanOk(pc')
  {
  }

  lemma OpenKeepsLocal(p: Purpose, j: nat, x: Session, t: Token, pc': Pc, x': Session, t': Token)
    requires OpenMove(p, j, x, t, pc', x', t')
    requires LocalOk(Open(p, j), x) && x.inUse
    ensures LocalOk(pc', x') && x'.inUse && Owned(pc') == Some(j) && !HoldsPoolLock(pc') && ScanOk(pc')
  {
  }

  lemma OwnerKeepsLocal(pc: Pc, x: Session, t: Token, leaked: set<nat>,
                        pc': Pc, x': Session, t': Token, leaked': set<nat>)
    requires OwnerMove(pc, x, t, leaked, pc', x', t', leaked')
    requires LocalOk(pc, x) && x.inUse
    ensures LocalOk(pc', x') && x'.inUse && Owned(pc') == Owned(pc)
    ensures !HoldsPoolLock(pc') && ScanOk(pc') && !HoldsPoolLock(pc) && !pc.Release?
  {
    match pc
    case Check(p, j) => CheckKeepsLocal(p, j, x, t, leaked, pc', x', t', leaked');
    case Open(p, j) => OpenKeepsLocal(p, j, x, t, pc', x', t');
    case _ =>
  }

  predicate TokenKept(pc: Pc, x: Session, t: Token, leaked: set<nat>,
                      pc': Pc, x': Session, t': Token, leaked': set<nat>) {
    && Harmless(x, t, leaked, x', t', leaked') && SessionOk(x', t', leaked') && OwnerOk(pc', x', t', leaked')
    && (x'.isLogin || LoggingIn(pc') ==> x.isLogin || LoggingIn(pc) || !t.loggedIn)
  }

  lemma CheckKeepsToken(p: Purpose, j: nat, x: Session, t: Token, leaked: set<nat>,
                        pc': Pc, x': Session, t': Token, leaked': set<nat>)
    requires CheckMove(p, j, x, t, leaked, pc', x', t', leaked')
    requires LocalOk(Check(p, j), x) && TokenOk(t, leaked) && SessionOk(x, t, leaked)
    ensures TokenKept(Check(p, j), x, t, leaked, pc', x', t', leaked')
  {
  }

  lemma OpenKeepsToken(p: Purpose, j: nat, x: Session, t: Token, leaked: set<nat>, pc': Pc, x': Session, t': Token)
    requires OpenMove(p, j, x, t, pc', x', t')
    requires LocalOk(Open(p, j), x) && TokenOk(t, leaked) && SessionOk(x, t, leaked)
    ensures TokenKept(Open(p, j), x, t, leaked, pc', x', t', leaked)
  {
  }

  lemma CloseKeepsToken(j: nat, cause: CloseCause, x: Session, t: Token, leaked: set<nat>,
                        pc': Pc, x': Session, t': Token, leaked': set<nat>)
    requires OwnerMove(Closing(j, cause), x, t, leaked, pc', x', t', leaked')
    requires LocalOk(Closing(j, cause), x) && TokenOk(t, leaked) && SessionOk(x, t, leaked)
    ensures TokenKept(Closing(j, cause), x, t, leaked, pc', x', t', leaked')
  {
  }

  lemma LoginKeepsToken(j: nat, keep: bool, x: Session, t: Token, leaked: set<nat>, pc': Pc, t': Token)
    requires LoginMove(j, keep, x, t, pc', t')
    requires LocalOk(Login(j, keep), x) && TokenOk(t, leaked) && SessionOk(x, t, leaked)
    ensures TokenKept(Login(j, keep), x, t, leaked, pc', x, t', leaked)
  {
  }

  lemma OwnerKeepsToken(pc: Pc, x: Session, t: Token, leaked: set<nat>,
                        pc': Pc, x': Session, t': Token, leaked': set<nat>)
    requires OwnerMove(pc, x, t, leaked, pc', x', t', leaked')
    requires LocalOk(pc, x) && TokenOk(t, leaked) && SessionOk(x, t, leaked) && OwnerOk(pc, x, t, leaked)
    ensures TokenKept(pc, x, t, leaked, pc', x', t', leaked')
  {
    match pc
    case Check(p, j) => CheckKeepsToken(p, j, x, t, leaked, pc', x', t', leaked');
    case Open(p, j) => OpenKeepsToken(p, j, x, t, leaked, pc', x', t');
    case Closing(j, cause) => CloseKeepsToken(j, cause, x, t, leaked, pc', x', t', leaked');
    case Login(j, keep) => LoginKeepsToken(j, keep, x, t, leaked, pc', t');
    case _ =>
  }

  lemma ActKeeps(s: State, a: nat, pc: Pc, x: Session, s': State)
    requires Inv(s) && ActStep(s, a, pc, x, s')
    ensures Inv(s')
  {
    var j := Owned(s.pcs[a]).value;
    assert Owns(s, a, j);
    OwnerKeepsLocal(s.pcs[a], s.sessions[j], s.token, s.leaked, pc, x, s'.token, s'.leaked);
    TouchOwn(s, a, j, s');
    TouchLock(s, a, j, s');
    TouchLocal(s, a, j, s');
    NotKept(s, a, j);
    TouchKept(s, a, j, s');
    if s.resets == 0 {
      OwnerKeepsToken(s.pcs[a], s.sessions[j], s.token, s.leaked, pc, x, s'.token, s'.leaked);
      TouchToken(s, a, j, s');
      TouchOneLogin(s, a, j, s');
    }
  }

  // ----- taking an idle session

  /** Agent a takes idle session j, for a purpose the session serves. */
  lemma TakeKeeps(s: State, a: nat, j: nat, s': State)
    requires Inv(s) && Touch(s, a, j, s') && !s.sessions[j].inUse && s.poolLock == s'.poolLock
    requires s'.sessions[j] == s.sessions[j].(inUse := true) && s'.kept == s.kept - {j}
    requires s'.token == s.token && s'.leaked == s.leaked
    requires s'.pcs[a].Taken? || s'.pcs[a].Check?
    requires ForOthers(s'.pcs[a].p, s.sessions[j])
    requires HoldsPoolLock(s'.pcs[a]) ==> HoldsPoolLock(s.pcs[a])
    ensures Inv(s')
  {
    TouchOwn(s, a, j, s');
    TouchLock(s, a, j, s');
    TouchLocal(s, a, j, s');
    TouchKept(s, a, j, s');
    if s.resets == 0 { TouchPlain(s, a, j, s'); }
  }

  /** A broken session is closed before it is taken; without references it is no login session. */
  lemma RecycleToken(x: Session, t: Token, leaked: set<nat>, x': Session, t': Token, leaked': set<nat>)
    requires IdleOk(x) && x.refcnt == 0 && x.handle != CK_INVALID_HANDLE
    requires TokenOk(t, leaked) && SessionOk(x, t, leaked) && CloseCall(t, leaked, x.handle, t', leaked')
    requires x' == x.(inUse := true, handle := CK_INVALID_HANDLE, loginState := false, isBroken := false)
    ensures Harmless(x, t, leaked, x', t', leaked') && SessionOk(x', t', leaked') && !x'.isLogin
  {
  }

  lemma RecycleKeeps(s: State, a: nat, j: nat, s': State)
    requires Inv(s) && Touch(s, a, j, s') && !s.sessions[j].inUse
    requires s.poolLock == s'.poolLock && s'.kept == s.kept - {j}
    requires var x := s.sessions[j];
             && x.refcnt == 0 && x.handle != CK_INVALID_HANDLE
             && CloseCall(s.token, s.leaked, x.handle, s'.token, s'.leaked)
             && s'.sessions[j] == x.(inUse := true, handle := CK_INVALID_HANDLE, loginState := false, isBroken := false)
    requires s'.pcs[a].Taken? && HoldsPoolLock(s.pcs[a])
    ensures Inv(s')
  {
    TouchOwn(s, a, j, s');
    TouchLock(s, a, j, s');
    TouchLocal(s, a, j, s');
    TouchKept(s, a, j, s');
    if s.resets == 0 {
      RecycleToken(s.sessions[j], s.token, s.leaked, s'.sessions[j], s'.token, s'.leaked);
      TouchToken(s, a, j, s');
      TouchOneLogin(s, a, j, s');
    }
  }

  lemma TryClaimKeeps(s: State, a: nat, s': State)
    requires Inv(s) && TryClaimStep(s, a, s')
    ensures Inv(s')
  {
    var j := s.pcs[a].i;
    var x := s.sessions[j];
    match Decide(s.pcs[a].phase, x)
    case Pass => BystanderStep(s, a, s');
    case Fail => BystanderStep(s, a, s');
    case Take =>
      assert ForOthers(s.pcs[a].p, x);
      if s.pcs[a].phase == Recycle && x.handle != CK_INVALID_HANDLE {
        RecycleKeeps(s, a, j, s');
      } else {
        TakeKeeps(s, a, j, s');
      }
  }

  // ----- a new session

  /** As allocation does, before the session is marked in use. */
  function WithIdle(s: State): State { s.(sessions := s.sessions + [NewSession.(inUse := false)]) }

  lemma IdleOwns(s: State)
    ensures forall b: nat, k: nat :: Owns(WithIdle(s), b, k) <==> Owns(s, b, k)
  {
  }

  lemma IdleKept(s: State)
    requires OwnInv(s) && KeptInv(s)
    ensures KeptInv(WithIdle(s))
  {
  }

  lemma IdleToken(s: State)
    requires OwnInv(s) && TokenInv(s) && OneLogin(s)
    ensures TokenInv(WithIdle(s)) && OneLogin(WithIdle(s))
  {
    IdleOwns(s);
    var s' := WithIdle(s);
    forall k: nat | Bearer(s', k) ensures Bearer(s, k) {
      if !s'.sessions[k].isLogin {
        var b: nat :| Owns(s', b, k) && LoggingIn(s'.pcs[b]);
        assert Owns(s, b, k);
      }
    }
  }

  lemma IdleOwn(s: State)
    requires OwnInv(s) && LocalInv(s)
    ensures OwnInv(WithIdle(s)) && LocalInv(WithIdle(s))
  {
    IdleOwns(s);
  }

  lemma WithIdleKeeps(s: State)
    requires Inv(s) && |s.sessions| < s.maxSessions
    ensures Inv(WithIdle(s))
  {
    IdleOwn(s);
    IdleKept(s);
    if s.resets == 0 { IdleToken(s); }
  }

  lemma AllocateKeeps(s: State, a: nat, memory: bool, s': State)
    requires Inv(s) && AllocateStep(s, a, memory, s')
    ensures Inv(s')
  {
    if |s.sessions| >= s.maxSessions || !memory {
      BystanderStep(s, a, s');
    } else {
      var j := |s.sessions|;
      WithIdleKeeps(s);
      var s1 := WithIdle(s);
      assert s1.sessions[j := NewSession] == s'.sessions;
      NewUnkept(s);
      TakeKeeps(s1, a, j, s');
    }
  }

  lemma NewUnkept(s: State)
    requires KeptInv(s)
    ensures |s.sessions| !in s.kept
  {
  }

  // ----- putting a session back

  lemma PutBackLocal(s: State, a: nat, s': State)
    requires OwnInv(s) && LocalInv(s) && PutBackStep(s, a, s')
    ensures Touch(s, a, s.pcs[a].j, s') && IdleOk(s'.sessions[s.pcs[a].j])
  {
    assert Owns(s, a, s.pcs[a].j);
  }

  lemma PutBackKept(s: State, a: nat, s': State)
    requires OwnInv(s) && KeptInv(s) && PutBackStep(s, a, s') && Touch(s, a, s.pcs[a].j, s')
    ensures KeptInv(s')
  {
  }

  lemma PutBackKeeps(s: State, a: nat, s': State)
    requires Inv(s) && PutBackStep(s, a, s')
    ensures Inv(s')
  {
    var j := s.pcs[a].j;
    PutBackLocal(s, a, s');
    TouchOwn(s, a, j, s');
    TouchLock(s, a, j, s');
    TouchLocal(s, a, j, s');
    PutBackKept(s, a, s');
    if s.resets == 0 { TouchPlain(s, a, j, s'); }
  }

  // ----- counting the open sessions

  lemma BelowNext(kept: set<nat>, i: nat)
    ensures |Below(kept, i + 1)| == |Below(kept, i)| + if i in kept then 1 else 0
  {
    if i in kept {
      assert Below(kept, i + 1) == Below(kept, i) + {i};
    } else {
      assert Below(kept, i + 1) == Below(kept, i);
    }
  }

  /** The kept sessions after a step that changes them only by session j of agent a. */
  lemma CounterKept(s: State, a: nat, j: nat, s': State)
    requires Touch(s, a, j, s') && s'.sessions == s.sessions && OwnInv(s) && LockInv(s) && KeptInv(s)
    requires s'.kept == s.kept && Owns(s, a, j) && !s.pcs[a].Release?
    requires s.poolLock == Some(a) || s'.poolLock == Some(a)
    requires s'.pcs[a].Counting? ==> CountOk(s', a)
    ensures KeptInv(s')
  {
  }

  /** A step of the owner that changes nothing of its session. */
  lemma QuietOwner(s: State, a: nat, j: nat, s': State)
    requires Inv(s) && Touch(s, a, j, s') && s'.sessions == s.sessions && Owns(s, a, j)
    requires s'.token == s.token && s'.leaked == s.leaked
    requires LocalOk(s'.pcs[a], s.sessions[j]) && !LoggingIn(s'.pcs[a]) && !s'.pcs[a].LoginDone?
    requires LockInv(s') && KeptInv(s')
    ensures Inv(s')
  {
    TouchOwn(s, a, j, s');
    TouchLocal(s, a, j, s');
    if s.resets == 0 { TouchPlain(s, a, j, s'); }
  }

  /** The same, of an owner that holds the pool lock before or after. */
  lemma CounterStep(s: State, a: nat, j: nat, s': State)
    requires Inv(s) && Owns(s, a, j) && !s.pcs[a].Release?
    requires s' == s.(pcs := s'.pcs, poolLock := s'.poolLock) && Touch(s, a, j, s')
    requires s.poolLock == Some(a) || (s.poolLock == None && s'.poolLock == Some(a))
    requires s'.poolLock == None || s'.poolLock == Some(a)
    requires s'.pcs[a].Check? || (s'.pcs[a].Counting? && s'.poolLock == Some(a) && CountOk(s', a))
    requires LocalOk(s'.pcs[a], s.sessions[j])
    ensures Inv(s')
  {
    CounterKept(s, a, j, s');
    TouchLock(s, a, j, s');
    QuietOwner(s, a, j, s');
  }

  lemma LockToCountKeeps(s: State, a: nat, s': State)
    requires Inv(s) && NextStep(s, s', LockToCount(a))
    ensures Inv(s')
  {
    var j := s.pcs[a].j;
    assert Owns(s, a, j);
    assert Below(s.kept, 0) == {};
    CounterStep(s, a, j, s');
  }

  lemma CountOneOk(s: State, a: nat, s': State)
    requires OwnInv(s) && KeptInv(s) && CountOneStep(s, a, s')
    ensures CountOk(s', a)
  {
    var pc := s.pcs[a];
    assert CountOk(s, a);
    assert Owns(s, a, pc.j);
    NotKept(s, a, pc.j);
    BelowNext(s.kept, pc.i);
  }

  lemma CountOneKeeps(s: State, a: nat, s': State)
    requires Inv(s) && CountOneStep(s, a, s')
    ensures Inv(s')
  {
    var j := s.pcs[a].j;
    assert Owns(s, a, j);
    CountOneOk(s, a, s');
    CounterStep(s, a, j, s');
  }

  /** The count has passed every kept session and the counter's own. */
  lemma CountCovers(s: State, a: nat)
    requires OwnInv(s) && KeptInv(s) && a < |s.pcs| && s.pcs[a].Counting? && s.pcs[a].i == |s.sessions|
    ensures s.pcs[a].j < |s.sessions| && s.pcs[a].j !in s.kept
    ensures s.pcs[a].open >= |s.kept| + if s.sessions[s.pcs[a].j].handle != CK_INVALID_HANDLE then 1 else 0
  {
    assert CountOk(s, a);
    assert Owns(s, a, s.pcs[a].j);
    NotKept(s, a, s.pcs[a].j);
    assert Below(s.kept, |s.sessions|) == s.kept;
  }

  lemma CountDoneFacts(s: State, a: nat, s': State)
    requires OwnInv(s) && LocalInv(s) && CountDoneStep(s, a, s')
    ensures var j := s.pcs[a].j;
      && Owns(s, a, j) && Touch(s, a, j, s') && LocalOk(s'.pcs[a], s.sessions[j])
      && s'.sessions == s.sessions && s'.token == s.token && s'.leaked == s.leaked && s'.poolLock == None
      && (s'.pcs[a].Closing? || s'.pcs[a].Release?)
      && (s'.kept == s.kept || DecidesToKeep(s, a, j, s'))
  {
    assert Owns(s, a, s.pcs[a].j);
  }

  /** The count was below the limit, and the open session is left open. */
  ghost predicate DecidesToKeep(s: State, a: nat, j: nat, s': State)
    requires a < |s.pcs| && a < |s'.pcs| && s.pcs[a].Counting? && j < |s.sessions|
  {
    && s.pcs[a].open < s.maxCached && s'.kept == s.kept + {j} && s'.pcs[a].Release?
    && s.sessions[j].handle != CK_INVALID_HANDLE && s.sessions[j].refcnt == 0
  }

  lemma NobodyElseCounts(s: State, a: nat, j: nat, s': State, b: nat)
    requires LockInv(s) && Touch(s, a, j, s') && HoldsPoolLock(s.pcs[a]) && !s'.pcs[a].Counting? && b < |s'.pcs|
    ensures !s'.pcs[b].Counting?
  {
    assert s.poolLock == Some(a);
    assert b != a ==> s'.pcs[b] == s.pcs[b];
  }

  lemma KeptStayUnheld(s: State, a: nat, j: nat, s': State, k: nat)
    requires OwnInv(s) && KeptInv(s) && Touch(s, a, j, s') && s'.sessions == s.sessions && k in s.kept && k != j
    ensures Unheld(s', k)
  {
    TouchOthers(s, a, j, s');
    assert Unheld(s, k);
  }

  lemma CountDoneKept(s: State, a: nat, j: nat, s': State)
    requires OwnInv(s) && LockInv(s) && KeptInv(s) && Touch(s, a, j, s') && s'.sessions == s.sessions
    requires s.pcs[a].Counting? && s.pcs[a].i == |s.sessions| && s.pcs[a].j == j && !s'.pcs[a].Counting?
    requires s'.kept == s.kept || DecidesToKeep(s, a, j, s')
    ensures KeptInv(s')
  {
    CountCovers(s, a);
    TouchOthers(s, a, j, s');
    assert |s.kept + {j}| == |s.kept| + 1;
    forall b: nat | b < |s'.pcs| ensures !s'.pcs[b].Counting? { NobodyElseCounts(s, a, j, s', b); }
    forall k | k in s'.kept ensures Unheld(s', k) {
      if k != j { KeptStayUnheld(s, a, j, s', k); }
    }
  }

  lemma CountDoneKeeps(s: State, a: nat, s': State)
    requires Inv(s) && CountDoneStep(s, a, s')
    ensures Inv(s')
  {
    var j := s.pcs[a].j;
    CountDoneFacts(s, a, s');
    CountDoneKept(s, a, j, s');
    TouchLock(s, a, j, s');
    QuietOwner(s, a, j, s');
  }

  lemma UnlockTakenKeeps(s: State, a: nat, s': State)
    requires Inv(s) && NextStep(s, s', UnlockTaken(a))
    ensures Inv(s')
  {
    var j := s.pcs[a].j;
    assert Owns(s, a, j);
    CounterStep(s, a, j, s');
  }

  // ----- steps of no agent

  lemma DropOwns(s: State, j: nat, s': State)
    requires DropReferenceStep(s, j, s')
    ensures forall b: nat, k: nat :: Owns(s', b, k) <==> Owns(s, b, k)
  {
  }

  lemma DropKept(s: State, j: nat, s': State)
    requires OwnInv(s) && LocalInv(s) && KeptInv(s) && DropReferenceStep(s, j, s')
    ensures KeptInv(s')
  {
  }

  lemma DropLocal(s: State, j: nat, s': State)
    requires OwnInv(s) && LocalInv(s) && DropReferenceStep(s, j, s')
    ensures OwnInv(s') && LocalInv(s')
  {
    DropOwns(s, j, s');
  }

  lemma DropToken(s: State, j: nat, s': State)
    requires TokenInv(s) && OneLogin(s) && DropReferenceStep(s, j, s')
    ensures TokenInv(s') && OneLogin(s')
  {
    DropOwns(s, j, s');
    forall k: nat | Bearer(s', k) ensures Bearer(s, k) {
      if !s'.sessions[k].isLogin {
        var b: nat :| Owns(s', b, k) && LoggingIn(s'.pcs[b]);
        assert Owns(s, b, k);
      }
    }
  }

  lemma DropReferenceKeeps(s: State, j: nat, s': State)
    requires Inv(s) && DropReferenceStep(s, j, s')
    ensures Inv(s')
  {
    DropLocal(s, j, s');
    DropKept(s, j, s');
    if s.resets == 0 { DropToken(s, j, s'); }
  }

  lemma TokenResetKeeps(s: State, s': State)
    requires Inv(s) && NextStep(s, s', TokenReset)
    ensures Inv(s')
  {
    assert forall b: nat, k: nat :: Owns(s', b, k) <==> Owns(s, b, k);
    forall b: nat | b < |s'.pcs| && s'.pcs[b].Counting? ensures CountOk(s', b) {
      assert CountOk(s, b);
    }
    forall k | k in s'.kept ensures Unheld(s', k) {
      assert Unheld(s, k);
    }
  }
}
