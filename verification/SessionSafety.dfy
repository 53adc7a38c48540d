/** What holds in every run of the session pool, and which steps from outside break it. */
module SessionSafety {
  import opened Common
  import opened SessionPool
  import opened SessionInvariants
  import opened SessionSteps

  // ----- every run keeps the invariant

  lemma InitKeeps(s: State)
    requires Init(s)
    ensures Inv(s)
  {
  }

  lemma AsideKeeps(s: State, s': State, step: Step)
    requires Inv(s) && NextStep(s, s', step)
    requires step.StartFetch? || step.Look? || step.TurnPhase? || step.UnlockRefused?
    ensures Inv(s')
  {
    assert Aside(s, step.a, s');
    assert forall b: nat :: b < |s.pcs| && b != step.a ==> s'.pcs[b] == s.pcs[b];
    BystanderStep(s, step.a, s');
  }

  lemma TakeReferencedKeeps(s: State, a: nat, j: nat, s': State)
    requires Inv(s) && TakeReferencedStep(s, a, j, s')
    ensures Inv(s')
  {
    TakeKeeps(s, a, j, s');
  }

  lemma StepKeeps(s: State, s': State, step: Step)
    requires Inv(s) && NextStep(s, s', step)
    ensures Inv(s')
  {
    match step
    case TryClaim(a) => TryClaimKeeps(s, a, s');
    case Allocate(a, memory) => AllocateKeeps(s, a, memory, s');
    case UnlockTaken(a) => UnlockTakenKeeps(s, a, s');
    case TakeReferenced(a, j) => TakeReferencedKeeps(s, a, j, s');
    case Act(a, pc, x) => ActKeeps(s, a, pc, x, s');
    case LockToCount(a) => LockToCountKeeps(s, a, s');
    case CountOne(a) => CountOneKeeps(s, a, s');
    case CountDone(a) => CountDoneKeeps(s, a, s');
    case PutBack(a) => PutBackKeeps(s, a, s');
    case DropReference(j) => DropReferenceKeeps(s, j, s');
    case TokenReset => TokenResetKeeps(s, s');
    case _ => AsideKeeps(s, s', step);
  }

  lemma {:induction false} RunKeeps(run: seq<State>, steps: seq<Step>, k: nat)
    requires IsRun(run, steps) && k <= |steps|
    ensures Inv(run[k])
  {
    if k == 0 {
      InitKeeps(run[0]);
    } else {
      RunKeeps(run, steps, k - 1);
      StepKeeps(run[k - 1], run[k], steps[k - 1]);
    }
  }

  // ----- what that means for the callers

  /** Each session has at most one owner, in_use tells whether it has one, and the pool is bounded. */
  lemma SessionsAreExclusive(run: seq<State>, steps: seq<Step>, k: nat)
    requires IsRun(run, steps) && k <= |steps|
    ensures var s := run[k];
            && (forall a: nat, b: nat, j: nat :: Owns(s, a, j) && Owns(s, b, j) ==> a == b)
            && (forall j: nat :: j < |s.sessions| ==> (s.sessions[j].inUse <==> exists a: nat :: Owns(s, a, j)))
            && |s.sessions| <= s.maxSessions
  {
    RunKeeps(run, steps, k);
  }

  /** Racing returns never decide to keep as many sessions as the cache may hold. */
  lemma CacheStaysBounded(run: seq<State>, steps: seq<Step>, k: nat)
    requires IsRun(run, steps) && k <= |steps|
    ensures run[k].kept == {} || |run[k].kept| < run[k].maxCached
    ensures forall j :: j in run[k].kept ==>
              && j < |run[k].sessions| && run[k].sessions[j].handle != CK_INVALID_HANDLE
              && run[k].sessions[j].refcnt == 0 && Unheld(run[k], j)
  {
    RunKeeps(run, steps, k);
  }

  /** A login session is referenced unless its owner is unmaking it, so nobody closes it,
      recycles it or gets it for another purpose than a login or a reference to it. */
  lemma LoginSessionIsGuarded(run: seq<State>, steps: seq<Step>, k: nat, j: nat)
    requires IsRun(run, steps) && k <= |steps|
    requires j < |run[k].sessions| && run[k].sessions[j].isLogin
    ensures !run[k].sessions[j].inUse ==> run[k].sessions[j].refcnt >= 1
    ensures j !in run[k].kept
    ensures forall a: nat :: Owns(run[k], a, j) ==>
              var pc := run[k].pcs[a];
              && (run[k].sessions[j].refcnt >= 1 || pc.Unmark?)
              && !pc.Closing? && !pc.Closed? && !pc.ReturnLock? && !pc.Counting?
              && !(pc.Held? && pc.p == ForGet)
  {
    RunKeeps(run, steps, k);
  }

  /** As long as the token is not reset, one session at most is the login session, or about to be. */
  lemma OneLoginSession(run: seq<State>, steps: seq<Step>, k: nat)
    requires IsRun(run, steps) && k <= |steps| && run[k].resets == 0
    ensures var xs := run[k].sessions;
            forall i: nat, j: nat :: i < |xs| && j < |xs| && xs[i].isLogin && xs[j].isLogin ==> i == j
    ensures var pcs := run[k].pcs;
            forall a: nat, b: nat :: a < |pcs| && b < |pcs| && LoggingIn(pcs[a]) && LoggingIn(pcs[b]) ==> a == b
  {
    RunKeeps(run, steps, k);
    var s := run[k];
    forall i: nat, j: nat | i < |s.sessions| && j < |s.sessions| && s.sessions[i].isLogin && s.sessions[j].isLogin
      ensures i == j
    {
      assert Bearer(s, i) && Bearer(s, j);
    }
    forall a: nat, b: nat | a < |s.pcs| && b < |s.pcs| && LoggingIn(s.pcs[a]) && LoggingIn(s.pcs[b])
      ensures a == b
    {
      assert Owns(s, a, s.pcs[a].j) && Owns(s, b, s.pcs[b].j);
      assert Bearer(s, s.pcs[a].j) && Bearer(s, s.pcs[b].j);
    }
  }

  /** slot_login succeeds only with the token logged in, by whichever path. */
  lemma LoginSucceedsLoggedIn(run: seq<State>, steps: seq<Step>, k: nat, a: nat)
    requires IsRun(run, steps) && k <= |steps| && run[k].resets == 0
    requires a < |run[k].pcs| && run[k].pcs[a].LoginDone?
    ensures run[k].token.loggedIn && run[k].pcs[a].j < |run[k].sessions|
    ensures run[k].sessions[run[k].pcs[a].j].handle in run[k].token.open
  {
    RunKeeps(run, steps, k);
    assert Owns(run[k], a, run[k].pcs[a].j);
    assert SessionOk(run[k].sessions[run[k].pcs[a].j], run[k].token, run[k].leaked);
  }

  /** A login session shows that the token is logged in, also to a login that finds it in use
      and therefore reports success at once. */
  lemma LoginSessionMeansLoggedIn(run: seq<State>, steps: seq<Step>, k: nat, j: nat)
    requires IsRun(run, steps) && k <= |steps| && run[k].resets == 0
    requires j < |run[k].sessions| && run[k].sessions[j].isLogin
    ensures run[k].token.loggedIn
  {
    RunKeeps(run, steps, k);
    assert SessionOk(run[k].sessions[j], run[k].token, run[k].leaked);
  }

  /** Two sessions never share a handle, and a recorded handle is open in the token. */
  lemma HandlesAreDistinct(run: seq<State>, steps: seq<Step>, k: nat, i: nat, j: nat)
    requires IsRun(run, steps) && k <= |steps| && run[k].resets == 0
    requires i < j < |run[k].sessions| && Live(run[k].sessions[i]) && Live(run[k].sessions[j])
    ensures run[k].sessions[i].handle != run[k].sessions[j].handle
    ensures run[k].sessions[i].handle in run[k].token.open
  {
    RunKeeps(run, steps, k);
    assert Apart(run[k].sessions[i], run[k].sessions[j]);
    assert SessionOk(run[k].sessions[i], run[k].token, run[k].leaked);
  }

  /** p11prov_get_session and slot_login hand out a session with a handle. */
  lemma HandedOutIsOpen(run: seq<State>, steps: seq<Step>, k: nat, a: nat)
    requires IsRun(run, steps) && k <= |steps| && a < |run[k].pcs|
    requires run[k].pcs[a].Held? && run[k].pcs[a].p != ForRef
    ensures run[k].pcs[a].j < |run[k].sessions|
    ensures run[k].sessions[run[k].pcs[a].j].handle != CK_INVALID_HANDLE
  {
    RunKeeps(run, steps, k);
    assert Owns(run[k], a, run[k].pcs[a].j);
  }

  /** p11prov_try_session_ref hands out one without exactly when it does so straight from the
      check and the check found none; after opening there is one. */
  lemma ReferencedIsClosedExactlyWhen(s: State, s': State, step: Step, a: nat)
    requires Inv(s) && NextStep(s, s', step) && a < |s.pcs| && a < |s'.pcs|
    requires s'.pcs[a].Held? && s'.pcs[a].p == ForRef && !s.pcs[a].Held?
    ensures s'.pcs[a].j < |s.sessions| && Owned(s.pcs[a]) == Some(s'.pcs[a].j) && |s'.sessions| == |s.sessions|
    ensures s'.sessions[s'.pcs[a].j].handle == CK_INVALID_HANDLE
       <==> s.pcs[a].Check? && s.sessions[s'.pcs[a].j].handle == CK_INVALID_HANDLE
  {
    EntersHeld(s, s', step, a);
    assert Owns(s, a, Owned(s.pcs[a]).value);
  }

  lemma EntersHeld(s: State, s': State, step: Step, a: nat)
    requires NextStep(s, s', step) && a < |s.pcs| && a < |s'.pcs| && s'.pcs[a].Held? && !s.pcs[a].Held?
    ensures step.Act? && step.a == a && ActStep(s, a, step.pc, step.x, s') && s'.pcs[a] == step.pc
  {
  }

  /** No step of the provider closes the token session of the login session, or logs the token
      out while there is one. */
  lemma LoginOutlivesOthers(s: State, s': State, step: Step, j: nat)
    requires Inv(s) && s.resets == 0 && NextStep(s, s', step) && step != TokenReset
    requires j < |s.sessions| && s.sessions[j].isLogin
    ensures s'.token.loggedIn
    ensures s.sessions[j].handle != CK_INVALID_HANDLE ==> s.sessions[j].handle in s'.token.open
  {
    assert SessionOk(s.sessions[j], s.token, s.leaked);
    match step
    case Act(a, pc, x) => ActSparesLogin(s, a, pc, x, s', j);
    case TryClaim(a) => ClaimSparesLogin(s, a, s', j);
    case _ =>
  }

  lemma ActSparesLogin(s: State, a: nat, pc: Pc, x: Session, s': State, j: nat)
    requires Inv(s) && s.resets == 0 && ActStep(s, a, pc, x, s')
    requires j < |s.sessions| && s.sessions[j].isLogin
    ensures s'.token.loggedIn
    ensures s.sessions[j].handle != CK_INVALID_HANDLE ==> s.sessions[j].handle in s'.token.open
  {
  }

  lemma ClaimSparesLogin(s: State, a: nat, s': State, j: nat)
    requires Inv(s) && s.resets == 0 && TryClaimStep(s, a, s')
    requires j < |s.sessions| && s.sessions[j].isLogin
    ensures s'.token.loggedIn
    ensures s.sessions[j].handle != CK_INVALID_HANDLE ==> s.sessions[j].handle in s'.token.open
  {
  }

  // ----- the limits of a pool

  const MAX_CONCURRENT_SESSIONS: nat := 1024
  const CK_EFFECTIVELY_INFINITE: nat := 0

  /** The limits p11prov_session_pool_init sets from the token's and the configured ones. */
  predicate Limits(tokenMax: nat, configured: nat, s: State) {
    var max := if tokenMax != CK_EFFECTIVELY_INFINITE && tokenMax != UNAVAILABLE
               then tokenMax else MAX_CONCURRENT_SESSIONS;
    s.maxSessions == max && s.maxCached as int == if max < configured then max - 1 else configured
  }

  /** The pool is as large as the token says, or 1024 where it does not; the cache as large as
      configured, or one less than the pool where that is more than the pool holds. */
  lemma LimitsMeaning(tokenMax: nat, configured: nat, s: State)
    requires Limits(tokenMax, configured, s)
    ensures s.maxSessions > 0 && s.maxCached <= configured && s.maxCached <= s.maxSessions
    ensures s.maxSessions == if tokenMax == 0 || tokenMax == 0xffff_ffff_ffff_ffff then 1024 else tokenMax
    ensures if configured <= s.maxSessions then s.maxCached == configured else s.maxCached == s.maxSessions - 1
  {
  }

  lemma {:induction false} LimitsStay(run: seq<State>, steps: seq<Step>, k: nat)
    requires IsRun(run, steps) && k <= |steps|
    ensures run[k].maxSessions == run[0].maxSessions && run[k].maxCached == run[0].maxCached
  {
    if k > 0 {
      LimitsStay(run, steps, k - 1);
      assert NextStep(run[k - 1], run[k], steps[k - 1]);
    }
  }

  /** Whatever the token reports, the sessions kept open leave room for another one. */
  lemma KeptLeaveRoom(run: seq<State>, steps: seq<Step>, k: nat, tokenMax: nat, configured: nat)
    requires IsRun(run, steps) && k <= |steps| && Limits(tokenMax, configured, run[0])
    ensures |run[k].kept| < run[k].maxSessions && |run[k].kept| <= configured
  {
    LimitsStay(run, steps, k);
    CacheStaysBounded(run, steps, k);
  }
}
