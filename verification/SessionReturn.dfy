/** What a return, a check and a login come to. */
module SessionReturn {
  import opened Common
  import opened SessionPool
  import opened SessionInvariants
  import opened SessionSteps
  import opened SessionSafety
  import opened SessionProgress

  // ----- the decision of a return

  /** A referenced session is put back as it is; one that is broken and has a handle is closed
      first; for any other the open sessions are counted. */
  lemma ReturnOutcome(s: State, s': State, step: Step, a: nat)
    requires NextStep(s, s', step) && ByAgent(step) == Some(a) && a < |s.pcs| && s.pcs[a].Return?
    ensures var j := s.pcs[a].j;
      && j < |s.sessions| && s' == s.(pcs := s.pcs[a := s'.pcs[a]])
      && (s'.pcs[a] == Release(j)
          <==> s.sessions[j].refcnt > 0 || (s.sessions[j].isBroken && s.sessions[j].handle == CK_INVALID_HANDLE))
      && (s'.pcs[a] == Closing(j, InReturn)
          <==> s.sessions[j].refcnt <= 0 && s.sessions[j].isBroken && s.sessions[j].handle != CK_INVALID_HANDLE)
      && (s'.pcs[a] == ReturnLock(j) <==> s.sessions[j].refcnt <= 0 && !s.sessions[j].isBroken)
  {
    assert step.Act?;
    var j := s.pcs[a].j;
    assert s'.sessions == s.sessions;
  }

  function OpenBelow(xs: seq<Session>, i: nat): set<nat> {
    set k | 0 <= k < |xs| && k < i && xs[k].handle != CK_INVALID_HANDLE
  }

  lemma OpenBelowNext(xs: seq<Session>, i: nat)
    requires i < |xs|
    ensures |OpenBelow(xs, i + 1)| == |OpenBelow(xs, i)| + if xs[i].handle != CK_INVALID_HANDLE then 1 else 0
  {
    if xs[i].handle != CK_INVALID_HANDLE {
      assert OpenBelow(xs, i + 1) == OpenBelow(xs, i) + {i};
    } else {
      assert OpenBelow(xs, i + 1) == OpenBelow(xs, i);
    }
  }

  /** The sessions have the same handles. */
  predicate SameHandles(xs: seq<Session>, ys: seq<Session>) {
    |xs| == |ys| && forall k :: 0 <= k < |xs| ==> xs[k].handle == ys[k].handle
  }

  /** From state m on, until state k, agent a counts for session j, and no handle changes. */
  ghost predicate CountsSteadily(run: seq<State>, a: nat, m: nat, k: nat) {
    && m <= k < |run|
    && (forall l :: m <= l <= k ==> a < |run[l].pcs| && run[l].pcs[a].Counting?)
    && (forall l :: m <= l < k ==> SameHandles(run[l].sessions, run[l + 1].sessions))
  }

  lemma CountGoes(s: State, s': State, step: Step, a: nat)
    requires LockInv(s) && NextStep(s, s', step) && a < |s.pcs| && s.pcs[a].Counting?
    requires a < |s'.pcs| && s'.pcs[a].Counting?
    ensures var Counting(j, i, open) := s.pcs[a];
      s'.pcs[a] == s.pcs[a] || (i < |s.sessions| && s'.pcs[a]
          == Counting(j, i + 1, open + if s.sessions[i].handle != CK_INVALID_HANDLE then 1 else 0))
  {
    if ByAgent(step) != Some(a) { OthersLeaveHolder(s, s', step, a); }
  }

  lemma SameOpenBelow(xs: seq<Session>, ys: seq<Session>, i: nat)
    requires SameHandles(xs, ys)
    ensures OpenBelow(xs, i) == OpenBelow(ys, i)
  {
  }

  lemma CountStaysExact(s: State, s': State, step: Step, a: nat)
    requires LockInv(s) && NextStep(s, s', step) && a < |s.pcs| && s.pcs[a].Counting?
    requires a < |s'.pcs| && s'.pcs[a].Counting? && SameHandles(s.sessions, s'.sessions)
    requires s.pcs[a].open == |OpenBelow(s.sessions, s.pcs[a].i)|
    ensures s'.pcs[a].open == |OpenBelow(s'.sessions, s'.pcs[a].i)|
  {
    CountGoes(s, s', step, a);
    SameOpenBelow(s.sessions, s'.sessions, s'.pcs[a].i);
    if s.pcs[a].i < |s.sessions| { OpenBelowNext(s.sessions, s.pcs[a].i); }
  }

  lemma CountStarts(s: State, s': State, a: nat)
    requires NextStep(s, s', LockToCount(a))
    ensures a < |s'.pcs| && s'.pcs[a].Counting? && s'.pcs[a].open == |OpenBelow(s'.sessions, s'.pcs[a].i)|
  {
    assert OpenBelow(s'.sessions, 0) == {};
  }

  lemma RunCountStep(run: seq<State>, steps: seq<Step>, a: nat, k: nat)
    requires IsRun(run, steps) && k < |steps| && CountsSteadily(run, a, k, k + 1)
    requires run[k].pcs[a].open == |OpenBelow(run[k].sessions, run[k].pcs[a].i)|
    ensures run[k + 1].pcs[a].open == |OpenBelow(run[k + 1].sessions, run[k + 1].pcs[a].i)|
  {
    RunKeeps(run, steps, k);
    CountStaysExact(run[k], run[k + 1], steps[k], a);
  }

  /** A count that nobody disturbs is right. */
  lemma {:induction false} CountIsExact(run: seq<State>, steps: seq<Step>, a: nat, m: nat, k: nat)
    requires IsRun(run, steps) && CountsSteadily(run, a, m + 1, k) && m < |steps| && steps[m] == LockToCount(a)
    ensures run[k].pcs[a].open == |OpenBelow(run[k].sessions, run[k].pcs[a].i)|
    decreases k
  {
    if k == m + 1 {
      CountStarts(run[m], run[k], a);
    } else {
      CountIsExact(run, steps, a, m, k - 1);
      RunCountStep(run, steps, a, k - 1);
    }
  }

  /** The session counted for stays open exactly when the count is below the limit; if it is not,
      and there is a handle, that is closed next. */
  lemma CountDoneOutcome(s: State, s': State, a: nat)
    requires NextStep(s, s', CountDone(a))
    ensures a < |s.pcs| && s.pcs[a].Counting? && s.pcs[a].i == |s.sessions| && s.pcs[a].j < |s.sessions|
    ensures s'.sessions == s.sessions && s'.token == s.token && s'.poolLock == None && a < |s'.pcs|
    ensures var j, x := s.pcs[a].j, s.sessions[s.pcs[a].j];
      if s.pcs[a].open < s.maxCached || x.handle == CK_INVALID_HANDLE then s'.pcs[a] == Release(j)
      else s'.pcs[a] == Closing(j, InReturn)
  {
  }

  /** Over runs: where nobody opens or closes a session during the count, an unreferenced unbroken
      session that goes back stays open exactly when fewer sessions than the limit are open,
      itself included. */
  lemma KeptOpenExactlyWhen(run: seq<State>, steps: seq<Step>, a: nat, m: nat, k: nat)
    requires IsRun(run, steps) && m < k < |steps| && steps[m] == LockToCount(a) && steps[k] == CountDone(a)
    requires CountsSteadily(run, a, m + 1, k)
    ensures var j := run[k].pcs[a].j;
      && j < |run[k].sessions| && a < |run[k + 1].pcs| && run[k + 1].sessions == run[k].sessions
      && (run[k].sessions[j].handle != CK_INVALID_HANDLE ==>
            (run[k + 1].pcs[a] == Release(j)
             <==> |OpenBelow(run[k].sessions, |run[k].sessions|)| < run[k].maxCached))
  {
    assert NextStep(run[k], run[k + 1], steps[k]);
    CountIsExact(run, steps, a, m, k);
    CountDoneOutcome(run[k], run[k + 1], a);
  }

  // ----- closing

  /** A return that is bound to close session j. */
  predicate WillClose(s: State, a: nat, j: nat) {
    && a < |s.pcs| && j < |s.sessions|
    && match s.pcs[a]
       case Return(i) => i == j && s.sessions[j].isBroken && s.sessions[j].refcnt <= 0
       case Closing(i, cause) => i == j && cause == InReturn
       case Closed(i, cause) => i == j && cause == InReturn
       case Release(i) => i == j && s.sessions[j].handle == CK_INVALID_HANDLE
       case _ => false
  }

  lemma OthersLeaveUnreferenced(s: State, s': State, step: Step, a: nat, j: nat)
    requires OwnInv(s) && NextStep(s, s', step) && Owns(s, a, j) && ByAgent(step) != Some(a)
    ensures a < |s'.pcs| && s'.pcs[a] == s.pcs[a] && j < |s.sessions| && j < |s'.sessions|
    ensures s'.sessions[j].handle == s.sessions[j].handle && s'.sessions[j].isBroken == s.sessions[j].isBroken
    ensures s'.sessions[j].refcnt <= s.sessions[j].refcnt && s'.sessions[j].isLogin == s.sessions[j].isLogin
    ensures s'.sessions[j].loginState == s.sessions[j].loginState
  {
    if ByAgent(step).Some? && step.a < |s.pcs| && Owned(s.pcs[step.a]).Some? {
      assert Owns(s, step.a, Owned(s.pcs[step.a]).value);
    }
  }

  lemma WillCloseStays(s: State, s': State, step: Step, a: nat, j: nat)
    requires Inv(s) && NextStep(s, s', step) && WillClose(s, a, j)
    ensures WillClose(s', a, j)
            || (step == PutBack(a) && j < |s'.sessions| && s'.sessions[j].handle == CK_INVALID_HANDLE)
  {
    assert Owns(s, a, j);
    if ByAgent(step) != Some(a) { OthersLeaveUnreferenced(s, s', step, a, j); }
  }

  lemma RunWillClose(run: seq<State>, steps: seq<Step>, a: nat, j: nat, k: nat)
    requires IsRun(run, steps) && k < |steps| && WillClose(run[k], a, j)
    ensures steps[k] != PutBack(a) ==> WillClose(run[k + 1], a, j)
    ensures steps[k] == PutBack(a) ==>
              && j < |run[k + 1].sessions| && run[k + 1].sessions[j].handle == CK_INVALID_HANDLE
              && !run[k + 1].sessions[j].inUse
  {
    RunKeeps(run, steps, k);
    WillCloseStays(run[k], run[k + 1], steps[k], a, j);
    assert NextStep(run[k], run[k + 1], steps[k]);
  }

  lemma {:induction false} StillWillClose(run: seq<State>, steps: seq<Step>, a: nat, j: nat, m: nat, k: nat)
    requires IsRun(run, steps) && m <= k <= |steps| && WillClose(run[m], a, j)
    requires forall l :: m <= l < k ==> steps[l] != PutBack(a)
    ensures WillClose(run[k], a, j)
    decreases k
  {
    if m < k {
      StillWillClose(run, steps, a, j, m, k - 1);
      RunWillClose(run, steps, a, j, k - 1);
    }
  }

  /** Over runs: a broken session that nothing refers to when it goes back has no handle once it is
      back, whatever else happens. */
  lemma BrokenIsClosed(run: seq<State>, steps: seq<Step>, a: nat, j: nat, m: nat, k: nat)
    requires IsRun(run, steps) && m <= k < |steps| && a < |run[m].pcs| && run[m].pcs[a] == Return(j)
    requires j < |run[m].sessions| && run[m].sessions[j].isBroken && run[m].sessions[j].refcnt <= 0
    requires (forall l :: m <= l < k ==> steps[l] != PutBack(a)) && steps[k] == PutBack(a)
    ensures j < |run[k + 1].sessions| && !run[k + 1].sessions[j].inUse
    ensures run[k + 1].sessions[j].handle == CK_INVALID_HANDLE
  {
    StillWillClose(run, steps, a, j, m, k);
    RunWillClose(run, steps, a, j, k);
  }

  // ----- checks

  /** A check hands the session on only with a handle the token has open, and with what the token
      says of the login; or without one, for a reference. It asks to open where there is none.
      Where the token does not have the handle, the session loses it. */
  lemma CheckOutcome(s: State, s': State, step: Step, a: nat)
    requires Inv(s) && NextStep(s, s', step) && ByAgent(step) == Some(a) && a < |s.pcs| && s.pcs[a].Check?
    ensures var Check(p, j) := s.pcs[a];
      && j < |s.sessions| && a < |s'.pcs| && |s'.sessions| == |s.sessions| && s'.token == s.token
      && var x, y, q := s.sessions[j], s'.sessions[j], s'.pcs[a];
      && (x.handle == CK_INVALID_HANDLE ==> y == x && q == if p == ForRef then Held(p, j) else Open(p, j))
      && (x.handle != CK_INVALID_HANDLE && (q.Held? || q.Login?) ==>
            y == x.(loginState := s.token.loggedIn) && x.handle in s.token.open)
      && (x.handle != CK_INVALID_HANDLE && x.handle !in s.token.open ==>
            y.handle == CK_INVALID_HANDLE && !q.Held? && !q.Login?)
      && (q.Closing? ==> x.refcnt == 0)
      && (q.Held? ==> !p.ForLogin?) && (q.Login? ==> p.ForLogin? && q.keep == p.keep)
  {
    assert step.Act?;
    assert Owns(s, a, s.pcs[a].j);
  }

  /** And where the token has the session open with the right flags, it can be handed on. */
  lemma CheckCanHandOn(s: State, a: nat)
    requires a < |s.pcs| && s.pcs[a].Check? && s.pcs[a].j < |s.sessions|
    requires var x := s.sessions[s.pcs[a].j]; x.inUse && x.handle != CK_INVALID_HANDLE && x.handle in s.token.open
    ensures exists s', x' :: NextStep(s, s', Act(a, GoOn(s.pcs[a].p, s.pcs[a].j), x')) && a < |s'.pcs|
              && s'.pcs[a] == if s.pcs[a].p.ForLogin? then Login(s.pcs[a].j, s.pcs[a].p.keep)
                              else Held(s.pcs[a].p, s.pcs[a].j)
  {
    var Check(p, j) := s.pcs[a];
    var x' := s.sessions[j].(loginState := s.token.loggedIn);
    var s' := s.(pcs := s.pcs[a := GoOn(p, j)], sessions := s.sessions[j := x']);
    assert NextStep(s, s', Act(a, GoOn(p, j), x'));
  }

  /** Where it has not, or the flags are wrong, the session is given up without its handle, or as it
      is if something refers to it, and closed if nothing does. */
  lemma CheckCanFail(s: State, a: nat)
    requires a < |s.pcs| && s.pcs[a].Check? && s.pcs[a].j < |s.sessions|
    requires var x := s.sessions[s.pcs[a].j]; x.inUse && x.handle != CK_INVALID_HANDLE
    ensures var Check(p, j) := s.pcs[a];
      var x := s.sessions[j];
      var gone, seen := x.(handle := CK_INVALID_HANDLE, loginState := false), x.(loginState := s.token.loggedIn);
      && CanStep(s, a, if p == ForRef then Open(p, j) else GivesUp(p, j), gone)
      && (x.handle in s.token.open ==>
            CanStep(s, a, if x.refcnt != 0 then GivesUp(p, j) else Closing(j, InCheck(p)), seen))
  {
    var Check(p, j) := s.pcs[a];
    var x := s.sessions[j];
    var y := x.(handle := CK_INVALID_HANDLE, loginState := false);
    var q := if p == ForRef then Open(p, j) else GivesUp(p, j);
    var s1 := s.(pcs := s.pcs[a := q], sessions := s.sessions[j := y],
                 leaked := if x.handle in s.token.open then s.leaked + {x.handle} else s.leaked);
    assert NextStep(s, s1, Act(a, q, y));
    if x.handle in s.token.open {
      var z := x.(loginState := s.token.loggedIn);
      var r := if x.refcnt != 0 then GivesUp(p, j) else Closing(j, InCheck(p));
      var s2 := s.(pcs := s.pcs[a := r], sessions := s.sessions[j := z]);
      assert NextStep(s, s2, Act(a, r, z));
    }
  }

  function GivesUp(p: Purpose, j: nat): Pc {
    match p
    case ForGet => Return(j)
    case ForLogin(_) => LoginFailed(j)
    case ForRef => TryRelease(j)
  }

  ghost predicate CanStep(s: State, a: nat, pc: Pc, x: Session) {
    exists s' :: NextStep(s, s', Act(a, pc, x))
  }

  /** Opening can succeed with any handle the token does not have open, and it can fail. */
  lemma OpenCan(s: State, a: nat, h: nat)
    requires a < |s.pcs| && s.pcs[a].Open? && s.pcs[a].j < |s.sessions| && h != CK_INVALID_HANDLE && h !in s.token.open
    ensures var Open(p, j) := s.pcs[a];
      var x := s.sessions[j];
      && CanStep(s, a, if p.ForLogin? then Login(j, p.keep) else Held(p, j),
                 x.(handle := h, loginState := s.token.loggedIn))
      && CanStep(s, a, GivesUp(p, j), x.(handle := CK_INVALID_HANDLE, loginState := false))
  {
    var Open(p, j) := s.pcs[a];
    var x := s.sessions[j];
    var y := x.(handle := h, loginState := s.token.loggedIn);
    var q := if p.ForLogin? then Login(j, p.keep) else Held(p, j);
    var s1 := s.(pcs := s.pcs[a := q], sessions := s.sessions[j := y], token := s.token.(open := s.token.open + {h}));
    assert NextStep(s, s1, Act(a, q, y));
    var z := x.(handle := CK_INVALID_HANDLE, loginState := false);
    var s2 := s.(pcs := s.pcs[a := GivesUp(p, j)], sessions := s.sessions[j := z]);
    assert NextStep(s, s2, Act(a, GivesUp(p, j), z));
  }

  /** C_Login can be granted where the token is logged out and the session open in it, finds it done
      where it is logged in, and can fail. */
  lemma LoginCan(s: State, a: nat)
    requires a < |s.pcs| && s.pcs[a].Login? && s.pcs[a].j < |s.sessions| && !s.sessions[s.pcs[a].j].loginState
    ensures var Login(j, keep) := s.pcs[a];
      var x := s.sessions[j];
      && (!s.token.loggedIn && x.handle in s.token.open ==> CanStep(s, a, LoginRef(j, keep), x))
      && (s.token.loggedIn ==> CanStep(s, a, LoginDone(j, keep), x))
      && CanStep(s, a, LoginFailed(j), x)
  {
    var Login(j, keep) := s.pcs[a];
    var x := s.sessions[j];
    var s1 := s.(pcs := s.pcs[a := LoginRef(j, keep)], sessions := s.sessions[j := x],
                 token := s.token.(loggedIn := true));
    assert !s.token.loggedIn && x.handle in s.token.open ==> NextStep(s, s1, Act(a, LoginRef(j, keep), x));
    var s2 := s.(pcs := s.pcs[a := LoginDone(j, keep)], sessions := s.sessions[j := x]);
    assert s.token.loggedIn ==> NextStep(s, s2, Act(a, LoginDone(j, keep), x));
    var s3 := s.(pcs := s.pcs[a := LoginFailed(j)], sessions := s.sessions[j := x]);
    assert NextStep(s, s3, Act(a, LoginFailed(j), x));
  }

  // ----- logins

  /** With the session logged in there is no C_Login, and it is granted only to a token that is
      logged out; a grant takes a reference and sets the mark. */
  lemma LoginOutcome(s: State, s': State, step: Step, a: nat)
    requires Inv(s) && NextStep(s, s', step) && ByAgent(step) == Some(a) && a < |s.pcs|
    ensures a < |s'.pcs|
    ensures s.pcs[a].Login? ==>
      var Login(j, keep) := s.pcs[a];
      && j < |s.sessions| && s'.sessions == s.sessions
      && (s.sessions[j].loginState ==> s'.pcs[a] == LoginDone(j, keep) && s'.token == s.token)
      && (s'.pcs[a] == LoginRef(j, keep) ==> !s.token.loggedIn && s'.token == s.token.(loggedIn := true))
      && (s'.pcs[a] == LoginDone(j, keep) ==> s'.token == s.token && (s.sessions[j].loginState || s.token.loggedIn))
      && s'.pcs[a] in {LoginDone(j, keep), LoginRef(j, keep), LoginFailed(j)}
    ensures s.pcs[a].LoginRef? ==>
      var LoginRef(j, keep) := s.pcs[a];
      && j < |s.sessions| && s'.pcs[a] == LoginMark(j, keep) && s'.token == s.token
      && s'.sessions == s.sessions[j := s.sessions[j].(refcnt := s.sessions[j].refcnt + 1)]
    ensures s.pcs[a].LoginMark? ==>
      var LoginMark(j, keep) := s.pcs[a];
      && j < |s.sessions| && s'.pcs[a] == LoginDone(j, keep) && s'.token == s.token
      && s'.sessions == s.sessions[j := s.sessions[j].(isLogin := true)]
  {
    if s.pcs[a].Login? || s.pcs[a].LoginRef? || s.pcs[a].LoginMark? { assert Owns(s, a, s.pcs[a].j); }
  }

  /** After a failed login the session goes back, without the mark, and without its reference. */
  lemma LoginFailureOutcome(s: State, s': State, step: Step, a: nat)
    requires Inv(s) && NextStep(s, s', step) && ByAgent(step) == Some(a) && a < |s.pcs|
    requires s.pcs[a].LoginFailed? || s.pcs[a].Unmark?
    ensures var j := s.pcs[a].j;
      && j < |s.sessions| && j < |s'.sessions| && a < |s'.pcs| && s'.token == s.token
      && (s.pcs[a].LoginFailed? && s.sessions[j].isLogin ==>
            s'.pcs[a] == Unmark(j) && s'.sessions[j] == s.sessions[j].(refcnt := s.sessions[j].refcnt - 1))
      && (s.pcs[a].LoginFailed? && !s.sessions[j].isLogin ==> s'.pcs[a] == Return(j) && s'.sessions[j] == s.sessions[j])
      && (s.pcs[a].Unmark? ==> s'.pcs[a] == Return(j) && s'.sessions[j] == s.sessions[j].(isLogin := false))
  {
    assert Owns(s, a, s.pcs[a].j);
  }

  /** A login that succeeded is kept by its caller or given back at once. */
  lemma LoginDoneOutcome(s: State, s': State, step: Step, a: nat)
    requires Inv(s) && NextStep(s, s', step) && ByAgent(step) == Some(a) && a < |s.pcs| && s.pcs[a].LoginDone?
    ensures var LoginDone(j, keep) := s.pcs[a];
      && s' == s.(pcs := s.pcs[a := s'.pcs[a]])
      && s'.pcs[a] == if keep then Held(ForLogin(keep), j) else Return(j)
  {
    assert Owns(s, a, s.pcs[a].j);
    assert step.Act?;
    assert s'.sessions == s.sessions;
  }

  // ----- opening, closing, giving up

  /** Opening gives a handle the token did not have open, and the session is handed on with it, or
      given up; in the other case it stays without. */
  lemma OpenOutcome(s: State, s': State, step: Step, a: nat)
    requires Inv(s) && NextStep(s, s', step) && ByAgent(step) == Some(a) && a < |s.pcs| && s.pcs[a].Open?
    ensures var Open(p, j) := s.pcs[a];
      && j < |s.sessions| && j < |s'.sessions| && a < |s'.pcs|
      && var x, y, q := s.sessions[j], s'.sessions[j], s'.pcs[a];
      && (y.handle == CK_INVALID_HANDLE ==> s'.token == s.token && !q.Held? && !q.Login?)
      && (y.handle != CK_INVALID_HANDLE ==>
            y.handle !in s.token.open && s'.token == s.token.(open := s.token.open + {y.handle}))
      && (q.Held? || q.Login? ==> y == x.(handle := y.handle, loginState := s.token.loggedIn))
      && GoesOnOrGivesUp(p, j, q)
  {
    assert Owns(s, a, s.pcs[a].j);
  }

  /** For a login, for a session, and for a reference: on with it, or back with it. */
  predicate GoesOnOrGivesUp(p: Purpose, j: nat, q: Pc) {
    match p
    case ForLogin(keep) => q == Login(j, keep) || q == LoginFailed(j)
    case ForGet => q == Held(ForGet, j) || q == Return(j)
    case ForRef => q == Held(ForRef, j) || q == TryRelease(j)
  }

  /** C_CloseSession closes the session, logging out with the last one, or fails and leaves it open
      in the token; either way the session then forgets the handle, and on a return the mark that
      it is broken. */
  lemma CloseOutcome(s: State, s': State, step: Step, a: nat)
    requires Inv(s) && NextStep(s, s', step) && ByAgent(step) == Some(a) && a < |s.pcs|
    ensures s.pcs[a].Closing? ==>
      var Closing(j, cause) := s.pcs[a];
      && j < |s.sessions| && a < |s'.pcs| && s'.pcs[a] == Closed(j, cause)
      && (|| (s'.token.open == s.token.open - {s.sessions[j].handle} && s'.leaked == s.leaked
              && (s'.token.loggedIn <==> s.token.loggedIn && s'.token.open != {}))
          || (s'.token == s.token && (s.sessions[j].handle in s.token.open ==> s.sessions[j].handle in s'.leaked)))
    ensures s.pcs[a].Closed? ==>
      var Closed(j, cause) := s.pcs[a];
      && j < |s.sessions| && j < |s'.sessions| && a < |s'.pcs| && s'.token == s.token
      && s'.sessions[j].handle == CK_INVALID_HANDLE && !s'.sessions[j].loginState
      && s'.sessions[j].refcnt == s.sessions[j].refcnt && s'.sessions[j].isLogin == s.sessions[j].isLogin
      && (cause.InReturn? ==> s'.pcs[a] == Release(j) && !s'.sessions[j].isBroken)
      && (cause.InCheck? ==> s'.pcs[a] == Open(cause.p, j) && s'.sessions[j].isBroken == s.sessions[j].isBroken)
  {
    if s.pcs[a].Closing? || s.pcs[a].Closed? { assert Owns(s, a, s.pcs[a].j); }
  }

  // ----- what can be done when

  /** A request begins when its agent is idle and the pool unlocked; a reference is taken when its
      session is idle and unbroken; an object lets go of what it refers to. */
  lemma BeginsExactlyWhen(s: State, a: nat, p: Purpose, j: nat)
    ensures (exists s' :: NextStep(s, s', StartFetch(a, p)))
       <==> a < |s.pcs| && s.pcs[a] == Idle && s.poolLock == None && p != ForRef
    ensures (exists s' :: NextStep(s, s', TakeReferenced(a, j)))
       <==> a < |s.pcs| && s.pcs[a] == Idle && j < |s.sessions| && s.sessions[j].holders > 0
            && !s.sessions[j].inUse && !s.sessions[j].isBroken
    ensures (exists s' :: NextStep(s, s', DropReference(j))) <==> j < |s.sessions| && s.sessions[j].holders > 0
  {
    if a < |s.pcs| && s.pcs[a] == Idle && s.poolLock == None && p != ForRef {
      var first := if p.ForLogin? then LoginFirst else Referenced;
      var s' := s.(poolLock := Some(a), pcs := s.pcs[a := Scan(p, first, 0)]);
      assert NextStep(s, s', StartFetch(a, p));
    }
    if a < |s.pcs| && s.pcs[a] == Idle && j < |s.sessions| && s.sessions[j].holders > 0
       && !s.sessions[j].inUse && !s.sessions[j].isBroken {
      var s' := s.(pcs := s.pcs[a := Check(ForRef, j)], kept := s.kept - {j},
                   sessions := s.sessions[j := s.sessions[j].(inUse := true)]);
      assert NextStep(s, s', TakeReferenced(a, j));
    }
    if j < |s.sessions| && s.sessions[j].holders > 0 {
      var x := s.sessions[j];
      var s' := s.(sessions := s.sessions[j := x.(refcnt := x.refcnt - 1, holders := x.holders - 1)],
                   dropped := if x.refcnt == 1 then s.dropped + {j} else s.dropped);
      assert NextStep(s, s', DropReference(j));
    }
  }

  /** Whoever holds a session may mark it broken, let an object refer to it, or give it back; and
      does nothing else to it. */
  lemma HeldOutcome(s: State, s': State, step: Step, a: nat)
    requires Inv(s) && NextStep(s, s', step) && ByAgent(step) == Some(a) && a < |s.pcs| && s.pcs[a].Held?
    ensures var j := s.pcs[a].j;
      && j < |s.sessions| && j < |s'.sessions| && a < |s'.pcs| && s'.token == s.token
      && var x, y := s.sessions[j], s'.sessions[j];
      && ((s'.pcs[a] == Return(j) && y == x)
          || (s'.pcs[a] == s.pcs[a]
              && (y == x.(isBroken := true) || y == x.(refcnt := x.refcnt + 1, holders := x.holders + 1))))
  {
    assert Owns(s, a, s.pcs[a].j);
  }

  lemma HeldCan(s: State, a: nat)
    requires a < |s.pcs| && s.pcs[a].Held? && s.pcs[a].j < |s.sessions|
    ensures var j := s.pcs[a].j;
      var x := s.sessions[j];
      && CanStep(s, a, s.pcs[a], x.(isBroken := true))
      && CanStep(s, a, s.pcs[a], x.(refcnt := x.refcnt + 1, holders := x.holders + 1))
      && CanStep(s, a, Return(j), x)
  {
    var j := s.pcs[a].j;
    var x := s.sessions[j];
    var pc := s.pcs[a];
    assert NextStep(s, AfterOwn(s, a, j, pc, x.(isBroken := true)), Act(a, pc, x.(isBroken := true)));
    var y := x.(refcnt := x.refcnt + 1, holders := x.holders + 1);
    assert NextStep(s, AfterOwn(s, a, j, pc, y), Act(a, pc, y));
    assert NextStep(s, AfterOwn(s, a, j, Return(j), x), Act(a, Return(j), x));
  }

  function AfterOwn(s: State, a: nat, j: nat, pc: Pc, x: Session): State
    requires a < |s.pcs| && j < |s.sessions|
  {
    s.(pcs := s.pcs[a := pc], sessions := s.sessions[j := x])
  }

  /** Putting back makes the session idle and changes nothing else of it. */
  lemma PutBackOutcome(s: State, s': State, a: nat)
    requires NextStep(s, s', PutBack(a))
    ensures a < |s.pcs| && (s.pcs[a].Release? || s.pcs[a].TryRelease?) && s.pcs[a].j < |s.sessions|
    ensures s'.pcs == s.pcs[a := Idle] && s'.token == s.token && s'.poolLock == s.poolLock
    ensures s'.sessions == s.sessions[s.pcs[a].j := s.sessions[s.pcs[a].j].(inUse := false)]
  {
  }
}
