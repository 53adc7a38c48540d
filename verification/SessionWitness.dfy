/** Runs that reach what the safety theorems leave open. */
module SessionWitness {
  import opened Common
  import opened SessionPool
  import opened SessionInvariants
  import opened SessionSteps
  import opened SessionSafety
  import opened SessionProgress

  ghost predicate Reachable(s: State) {
    exists run: seq<State>, steps: seq<Step> :: IsRun(run, steps) && run[|steps|] == s
  }

  lemma Extend(s: State, step: Step, s': State)
    requires Reachable(s) && NextStep(s, s', step)
    ensures Reachable(s')
  {
    var run: seq<State>, steps: seq<Step> :| IsRun(run, steps) && run[|steps|] == s;
    var run', steps' := run + [s'], steps + [step];
    forall k | 0 <= k < |steps'| ensures NextStep(run'[k], run'[k + 1], steps'[k]) {
      if k < |steps| { assert NextStep(run[k], run[k + 1], steps[k]); }
    }
    assert IsRun(run', steps') && run'[|steps'|] == s';
  }

  /** With limits of max sessions and maxCached cached ones, and two agents. */
  function Fresh(max: nat, maxCached: nat): State {
    State([], max, maxCached, None, [Idle, Idle], Token({}, false), {}, {}, {}, 0)
  }

  lemma FreshReachable(max: nat, maxCached: nat)
    ensures Reachable(Fresh(max, maxCached))
  {
    var s := Fresh(max, maxCached);
    var run: seq<State>, steps: seq<Step> := [s], [];
    assert IsRun(run, steps) && run[|steps|] == s;
  }

  // ----- pieces of runs

  /** A scan whose unlocked looks all come out unpromising. */
  lemma {:induction false} ScanThrough(s: State, a: nat)
    requires Reachable(s) && a < |s.pcs| && s.pcs[a].Scan? && s.pcs[a].i <= |s.sessions|
    ensures Reachable(s.(pcs := s.pcs[a := Scan(s.pcs[a].p, Recycle, |s.sessions|)]))
    decreases PhasesLeft(s.pcs[a].phase, 0), |s.sessions| - s.pcs[a].i
  {
    var Scan(p, phase, i) := s.pcs[a];
    var end := s.(pcs := s.pcs[a := Scan(p, Recycle, |s.sessions|)]);
    if i < |s.sessions| {
      var s1 := s.(pcs := s.pcs[a := Scan(p, phase, i + 1)]);
      Extend(s, Look(a, NewSession.(isBroken := phase != Recycle), false), s1);
      ScanThrough(s1, a);
      assert end == s1.(pcs := s1.pcs[a := Scan(p, Recycle, |s1.sessions|)]);
    } else if phase != Recycle {
      var s1 := s.(pcs := s.pcs[a := Scan(p, NextPhase(phase), 0)]);
      Extend(s, TurnPhase(a), s1);
      ScanThrough(s1, a);
      assert end == s1.(pcs := s1.pcs[a := Scan(p, Recycle, |s1.sessions|)]);
    } else {
      assert end == s;
    }
  }

  /** Agent a got a new session. */
  function Fetched(s: State, a: nat, p: Purpose): State
    requires a < |s.pcs|
  {
    s.(pcs := s.pcs[a := Check(p, |s.sessions|)], sessions := s.sessions + [NewSession])
  }

  lemma FetchNew(s: State, a: nat, p: Purpose)
    requires Reachable(s) && a < |s.pcs| && s.pcs[a] == Idle && s.poolLock == None && p != ForRef
    requires |s.sessions| < s.maxSessions
    ensures Reachable(Fetched(s, a, p))
  {
    var n := |s.sessions|;
    var s1 := s.(poolLock := Some(a), pcs := s.pcs[a := Scan(p, if p.ForLogin? then LoginFirst else Referenced, 0)]);
    Extend(s, StartFetch(a, p), s1);
    ScanThrough(s1, a);
    var s2 := s1.(pcs := s1.pcs[a := Scan(p, Recycle, n)]);
    var s3 := s2.(pcs := s2.pcs[a := Taken(p, n)], sessions := s2.sessions + [NewSession]);
    Extend(s2, Allocate(a, true), s3);
    var s4 := s3.(poolLock := None, pcs := s3.pcs[a := Check(p, n)]);
    Extend(s3, UnlockTaken(a), s4);
    assert s4 == Fetched(s, a, p);
  }

  /** One move of the owner of session j. */
  function Moved(s: State, a: nat, j: nat, pc: Pc, x: Session, t: Token): State
    requires a < |s.pcs| && j < |s.sessions|
  {
    s.(pcs := s.pcs[a := pc], sessions := s.sessions[j := x], token := t)
  }

  lemma Move(s: State, a: nat, j: nat, pc: Pc, x: Session, t: Token)
    requires Reachable(s) && a < |s.pcs| && Owned(s.pcs[a]) == Some(j) && j < |s.sessions|
    requires OwnerMove(s.pcs[a], s.sessions[j], s.token, s.leaked, pc, x, t, s.leaked)
    ensures Reachable(Moved(s, a, j, pc, x, t))
  {
    Extend(s, Act(a, pc, x), Moved(s, a, j, pc, x, t));
  }

  /** Agent a opens a token session with handle h for its new session j. */
  lemma OpenNew(s: State, a: nat, p: Purpose, j: nat, h: nat)
    requires Reachable(s) && a < |s.pcs| && s.pcs[a] == Check(p, j) && p != ForRef
    requires j < |s.sessions| && s.sessions[j] == NewSession && h != CK_INVALID_HANDLE && h !in s.token.open
    ensures Reachable(Moved(s, a, j, GoOn(p, j), NewSession.(handle := h, loginState := s.token.loggedIn),
                            s.token.(open := s.token.open + {h})))
  {
    var x := NewSession.(handle := h, loginState := s.token.loggedIn);
    var t := s.token.(open := s.token.open + {h});
    Move(s, a, j, Open(p, j), NewSession, s.token);
    var s1 := Moved(s, a, j, Open(p, j), NewSession, s.token);
    Move(s1, a, j, GoOn(p, j), x, t);
    assert Moved(s1, a, j, GoOn(p, j), x, t) == Moved(s, a, j, GoOn(p, j), x, t);
  }

  /** The same, and logs in with it. */
  lemma LogInNew(s: State, a: nat, j: nat, h: nat)
    requires Reachable(s) && a < |s.pcs| && s.pcs[a] == Check(ForLogin(true), j) && !s.token.loggedIn
    requires j < |s.sessions| && s.sessions[j] == NewSession && h != CK_INVALID_HANDLE && h !in s.token.open
    ensures Reachable(Moved(s, a, j, LoginDone(j, true), NewSession.(handle := h, refcnt := 1, isLogin := true),
                            Token(s.token.open + {h}, true)))
  {
    OpenNew(s, a, ForLogin(true), j, h);
    var x, t := NewSession.(handle := h), Token(s.token.open + {h}, true);
    var s1 := Moved(s, a, j, Login(j, true), x, s.token.(open := s.token.open + {h}));
    Move(s1, a, j, LoginRef(j, true), x, t);
    var s2 := Moved(s, a, j, LoginRef(j, true), x, t);
    assert Moved(s1, a, j, LoginRef(j, true), x, t) == s2;
    Move(s2, a, j, LoginMark(j, true), x.(refcnt := 1), t);
    var s3 := Moved(s, a, j, LoginMark(j, true), x.(refcnt := 1), t);
    assert Moved(s2, a, j, LoginMark(j, true), x.(refcnt := 1), t) == s3;
    Move(s3, a, j, LoginDone(j, true), x.(refcnt := 1, isLogin := true), t);
    assert Moved(s3, a, j, LoginDone(j, true), x.(refcnt := 1, isLogin := true), t)
        == Moved(s, a, j, LoginDone(j, true), x.(refcnt := 1, isLogin := true), t);
  }

  // ----- what they reach

  /** One login session at most is not promised once the token was reset from outside: two
      logins under way at the reset both become the login session. */
  lemma ResetAllowsTwoLogins()
    ensures exists s :: Reachable(s) && s.resets == 1
              && |s.sessions| == 2 && s.sessions[0].isLogin && s.sessions[1].isLogin
  {
    var p := ForLogin(true);
    FreshReachable(2, 0);
    FetchNew(Fresh(2, 0), 0, p);
    var s1 := Fetched(Fresh(2, 0), 0, p);
    FetchNew(s1, 1, p);
    var s2 := Fetched(s1, 1, p);
    SecondLogin(s2);
  }

  lemma SecondLogin(s: State)
    requires Reachable(s) && s.pcs == [Check(ForLogin(true), 0), Check(ForLogin(true), 1)] && s.resets == 0
    requires s.sessions == [NewSession, NewSession] && s.token == Token({}, false)
    ensures exists s' :: Reachable(s') && s'.resets == 1
              && |s'.sessions| == 2 && s'.sessions[0].isLogin && s'.sessions[1].isLogin
  {
    LogInNew(s, 0, 0, 1);
    var x := NewSession.(refcnt := 1, isLogin := true);
    var s1 := Moved(s, 0, 0, LoginDone(0, true), x.(handle := 1), Token({} + {1}, true));
    assert s.token.open + {1} == {} + {1};
    var s2 := s1.(token := Token({}, false), resets := 1);
    Extend(s1, TokenReset, s2);
    LogInNew(s2, 1, 1, 2);
    var s3 := Moved(s2, 1, 1, LoginDone(1, true), x.(handle := 2), Token({} + {2}, true));
    assert Reachable(s3) && s3.resets == 1;
  }

  /** Agent 0 has opened session 0. */
  function WithSession(): State {
    Fresh(1, 0).(pcs := [Held(ForGet, 0), Idle], token := Token({1}, false), sessions := [NewSession.(handle := 1)])
  }

  /** And an object refers to it. */
  function WithReference(): State {
    WithSession().(sessions := [NewSession.(handle := 1, refcnt := 1, holders := 1)])
  }

  lemma SessionTaken()
    ensures Reachable(WithSession())
  {
    FreshReachable(1, 0);
    FetchNew(Fresh(1, 0), 0, ForGet);
    var s := Fetched(Fresh(1, 0), 0, ForGet);
    OpenNew(s, 0, ForGet, 0, 1);
    var t := Token({} + {1}, false);
    assert Moved(s, 0, 0, Held(ForGet, 0), NewSession.(handle := 1), t) == WithSession();
  }

  lemma ReferenceTaken()
    ensures Reachable(WithReference())
  {
    SessionTaken();
    var s := WithSession();
    var x := NewSession.(handle := 1, refcnt := 1, holders := 1);
    Move(s, 0, 0, Held(ForGet, 0), x, s.token);
    assert Moved(s, 0, 0, Held(ForGet, 0), x, s.token) == WithReference();
  }

  /** The same in the last step of its return, still referenced and thus open. */
  function ReleasedReferenced(): State {
    WithReference().(pcs := [Release(0), Idle])
  }

  lemma ReferencedReleased()
    ensures Reachable(ReleasedReferenced())
  {
    ReferenceTaken();
    var s := WithReference();
    var x := s.sessions[0];
    Move(s, 0, 0, Return(0), x, s.token);
    var s1 := Moved(s, 0, 0, Return(0), x, s.token);
    Move(s1, 0, 0, Release(0), x, s.token);
    assert Moved(s1, 0, 0, Release(0), x, s.token) == ReleasedReferenced();
  }

  /** And back in the pool. */
  function PutBackReferenced(): State {
    Fresh(1, 0).(token := Token({1}, false),
                 sessions := [NewSession.(handle := 1, refcnt := 1, holders := 1, inUse := false)])
  }

  lemma ReferencedPutBack()
    ensures Reachable(PutBackReferenced())
  {
    ReferencedReleased();
    Extend(ReleasedReferenced(), PutBack(0), PutBackReferenced());
  }

  /** A referenced session whose handle is gone, and which cannot be opened again, goes back. */
  lemma CheckFails(s: State, a: nat, j: nat, x: Session)
    requires Reachable(s) && a < |s.pcs| && s.pcs[a] == Check(ForRef, j) && j < |s.sessions|
    requires x == s.sessions[j].(handle := CK_INVALID_HANDLE, loginState := false)
    requires s.sessions[j].inUse && s.sessions[j].handle != CK_INVALID_HANDLE && s.sessions[j].handle !in s.token.open
    ensures Reachable(Moved(s, a, j, TryRelease(j), x, s.token))
  {
    Move(s, a, j, Open(ForRef, j), x, s.token);
    var s1 := Moved(s, a, j, Open(ForRef, j), x, s.token);
    Move(s1, a, j, TryRelease(j), x, s.token);
    assert Moved(s1, a, j, TryRelease(j), x, s.token) == Moved(s, a, j, TryRelease(j), x, s.token);
  }

  /** Put back and taken by reference again, it is handed out without a handle. */
  lemma TakenWithoutHandle(s: State, a: nat, j: nat, x: Session)
    requires Reachable(s) && a < |s.pcs| && s.pcs[a] == TryRelease(j) && j < |s.sessions| && s.sessions[j] == x
    requires x.inUse && x.handle == CK_INVALID_HANDLE && x.holders > 0 && !x.isBroken
    ensures Reachable(s.(pcs := s.pcs[a := Held(ForRef, j)], kept := s.kept - {j}))
  {
    var s1 := s.(pcs := s.pcs[a := Idle], sessions := s.sessions[j := x.(inUse := false)]);
    Extend(s, PutBack(a), s1);
    var s2 := s.(pcs := s.pcs[a := Check(ForRef, j)], kept := s.kept - {j});
    assert s1.sessions[j := x] == s.sessions;
    assert s1.pcs[a := Check(ForRef, j)] == s2.pcs;
    Extend(s1, TakeReferenced(a, j), s2);
    Move(s2, a, j, Held(ForRef, j), x, s2.token);
    assert Moved(s2, a, j, Held(ForRef, j), x, s2.token)
        == s.(pcs := s.pcs[a := Held(ForRef, j)], kept := s.kept - {j});
  }

  /** The session of PutBackReferenced, taken by reference after the token was reset. */
  function TakenAfterReset(): State {
    Fresh(1, 0).(resets := 1, pcs := [Check(ForRef, 0), Idle],
                 sessions := [NewSession.(handle := 1, refcnt := 1, holders := 1)])
  }

  lemma ResetTaken()
    ensures Reachable(TakenAfterReset())
  {
    ReferencedPutBack();
    var s := PutBackReferenced();
    var s1 := s.(token := Token({}, false), resets := 1);
    Extend(s, TokenReset, s1);
    Extend(s1, TakeReferenced(0, 0), TakenAfterReset());
  }

  /** p11prov_try_session_ref may hand out a session without a handle. */
  lemma ReferencedMayBeClosed()
    ensures exists s :: Reachable(s) && |s.sessions| == 1 && |s.pcs| == 2
              && s.pcs[0] == Held(ForRef, 0) && s.sessions[0].handle == CK_INVALID_HANDLE
  {
    ResetTaken();
    var s := TakenAfterReset();
    var x := s.sessions[0].(handle := CK_INVALID_HANDLE);
    CheckFails(s, 0, 0, x);
    var s1 := Moved(s, 0, 0, TryRelease(0), x, s.token);
    TakenWithoutHandle(s1, 0, 0, x);
    var end := s1.(pcs := s1.pcs[0 := Held(ForRef, 0)], kept := s1.kept - {0});
    assert Reachable(end) && end.pcs[0] == Held(ForRef, 0);
  }

  /** An owner on its way back counts the open sessions, holding the pool lock. */
  lemma ReturnCounts(s: State, a: nat, j: nat)
    requires Reachable(s) && a < |s.pcs| && s.pcs[a] == Held(ForGet, j) && j < |s.sessions| && s.poolLock == None
    requires s.sessions[j].refcnt == 0 && !s.sessions[j].isBroken
    ensures Reachable(s.(poolLock := Some(a), pcs := s.pcs[a := Counting(j, 0, 0)]))
  {
    var x := s.sessions[j];
    Move(s, a, j, Return(j), x, s.token);
    var s1 := s.(pcs := s.pcs[a := Return(j)]);
    assert Moved(s, a, j, Return(j), x, s.token) == s1;
    Move(s1, a, j, ReturnLock(j), x, s.token);
    var s2 := s.(pcs := s.pcs[a := ReturnLock(j)]);
    assert Moved(s1, a, j, ReturnLock(j), x, s.token) == s2;
    Extend(s2, LockToCount(a), s.(poolLock := Some(a), pcs := s.pcs[a := Counting(j, 0, 0)]));
  }

  // ----- sessions are used again

  /** From one state to another, by steps. */
  ghost predicate Leads(o: State, s: State) {
    exists run: seq<State>, steps: seq<Step> :: IsPath(run, steps) && run[0] == o && run[|steps|] == s
  }

  ghost predicate IsPath(run: seq<State>, steps: seq<Step>) {
    |run| == |steps| + 1 && forall k :: 0 <= k < |steps| ==> NextStep(run[k], run[k + 1], steps[k])
  }

  lemma LeadsNowhere(s: State)
    ensures Leads(s, s)
  {
    var run: seq<State>, steps: seq<Step> := [s], [];
    assert IsPath(run, steps) && run[0] == s && run[|steps|] == s;
  }

  lemma LeadsOn(o: State, s: State, step: Step, s': State)
    requires Leads(o, s) && NextStep(s, s', step)
    ensures Leads(o, s')
  {
    var run: seq<State>, steps: seq<Step> :| IsPath(run, steps) && run[0] == o && run[|steps|] == s;
    var run', steps' := run + [s'], steps + [step];
    forall k | 0 <= k < |steps'| ensures NextStep(run'[k], run'[k + 1], steps'[k]) {
      if k < |steps| { assert NextStep(run[k], run[k + 1], steps[k]); }
    }
    assert IsPath(run', steps') && run'[0] == o && run'[|steps'|] == s';
  }

  lemma LeadsByMove(o: State, s: State, a: nat, j: nat, pc: Pc, x: Session)
    requires Leads(o, s) && a < |s.pcs| && Owned(s.pcs[a]) == Some(j) && j < |s.sessions|
    requires OwnerMove(s.pcs[a], s.sessions[j], s.token, s.leaked, pc, x, s.token, s.leaked)
    ensures Leads(o, Moved(s, a, j, pc, x, s.token))
  {
    LeadsOn(o, s, Act(a, pc, x), Moved(s, a, j, pc, x, s.token));
  }

  /** One session in the pool, and both agents idle. */
  function OneIdle(maxCached: nat, x: Session, t: Token): State {
    Fresh(2, maxCached).(sessions := [x], token := t)
  }

  /** Agent 1 scans past a phase without stopping. */
  lemma ScanTo(o: State, s: State, p: Purpose, phase: Phase)
    requires Leads(o, s) && |s.pcs| == 2 && s.pcs[1] == Scan(p, phase, 0) && |s.sessions| == 1 && phase != Recycle
    ensures Leads(o, s.(pcs := s.pcs[1 := Scan(p, NextPhase(phase), 0)]))
  {
    var s1 := s.(pcs := s.pcs[1 := Scan(p, phase, 1)]);
    LeadsOn(o, s, Look(1, NewSession.(isBroken := true), false), s1);
    var s2 := s.(pcs := s.pcs[1 := Scan(p, NextPhase(phase), 0)]);
    assert s1.pcs[1 := Scan(p, NextPhase(phase), 0)] == s2.pcs;
    LeadsOn(o, s1, TurnPhase(1), s2);
  }

  /** What is there once agent 1 has taken the session in a scan. */
  function TakenBack(s: State, p: Purpose, x: Session): State
    requires |s.pcs| == 2
  {
    s.(pcs := s.pcs[1 := Check(p, 0)], poolLock := None, kept := s.kept - {0}, sessions := [x.(inUse := true)])
  }

  lemma TakeIn(o: State, s: State, p: Purpose, phase: Phase, x: Session)
    requires Leads(o, s) && |s.pcs| == 2 && s.pcs[1] == Scan(p, phase, 0) && s.sessions == [x] && s.poolLock == Some(1)
    requires phase != Recycle && Decide(phase, x) == Take && Promising(phase, x, true)
    ensures Leads(o, TakenBack(s, p, x))
  {
    var s1 := s.(pcs := s.pcs[1 := Claim(p, phase, 0)]);
    LeadsOn(o, s, Look(1, x, true), s1);
    var s2 := s.(pcs := s.pcs[1 := Taken(p, 0)], kept := s.kept - {0}, sessions := [x.(inUse := true)]);
    assert s1.pcs[1 := Taken(p, 0)] == s2.pcs;
    LeadsOn(o, s1, TryClaim(1), s2);
    assert s2.pcs[1 := Check(p, 0)] == TakenBack(s, p, x).pcs;
    LeadsOn(o, s2, UnlockTaken(1), TakenBack(s, p, x));
  }

  /** An idle session of the pool with handle 1 in an untouched token, and how it is held by
      agent 1 some steps later. */
  ghost predicate UsedAgain(o: State, s: State, p: Purpose) {
    && Reachable(o) && Leads(o, s) && o.resets == s.resets == 0
    && o.pcs == [Idle, Idle] && s.pcs == [Idle, Held(p, 0)] && |o.sessions| == |s.sessions| == 1
    && !o.sessions[0].inUse && o.sessions[0].handle == s.sessions[0].handle == 1
    && o.token == s.token && o.token.open == {1}
  }

  /** A session that was put back open is handed out again with the handle it had. */
  lemma OpenSessionIsReused()
    ensures exists o, s :: UsedAgain(o, s, ForGet)
  {
    CachedSession();
    var x := NewSession.(handle := 1, inUse := false);
    var o := OneIdle(2, x, Token({1}, false)).(kept := {0});
    LeadsNowhere(o);
    var s1 := o.(poolLock := Some(1), pcs := [Idle, Scan(ForGet, Referenced, 0)]);
    LeadsOn(o, o, StartFetch(1, ForGet), s1);
    ScanTo(o, s1, ForGet, Referenced);
    var s2 := o.(poolLock := Some(1), pcs := [Idle, Scan(ForGet, Cached, 0)]);
    assert s1.pcs[1 := Scan(ForGet, Cached, 0)] == s2.pcs;
    TakeIn(o, s2, ForGet, Cached, x);
    var s3 := TakenBack(s2, ForGet, x);
    assert s3.pcs == [Idle, Check(ForGet, 0)] && s3.sessions == [NewSession.(handle := 1)];
    var s := HandOnAgain(o, s3);
    assert UsedAgain(o, s, ForGet);
  }

  lemma HandOnAgain(o: State, s: State) returns (s': State)
    requires Leads(o, s) && s.pcs == [Idle, Check(ForGet, 0)] && s.token == Token({1}, false)
    requires s.sessions == [NewSession.(handle := 1)] && s.resets == 0 && s.leaked == {}
    ensures Leads(o, s') && s'.pcs == [Idle, Held(ForGet, 0)] && s'.sessions == s.sessions
    ensures s'.token == s.token && s'.resets == 0
  {
    var x := NewSession.(handle := 1);
    LeadsByMove(o, s, 1, 0, Held(ForGet, 0), x);
    s' := Moved(s, 1, 0, Held(ForGet, 0), x, s.token);
  }

  /** With room in the cache a return leaves the session open. */
  lemma CachedSession()
    ensures Reachable(OneIdle(2, NewSession.(handle := 1, inUse := false), Token({1}, false)).(kept := {0}))
  {
    FreshReachable(2, 2);
    FetchNew(Fresh(2, 2), 0, ForGet);
    var s := Fetched(Fresh(2, 2), 0, ForGet);
    OpenNew(s, 0, ForGet, 0, 1);
    var x := NewSession.(handle := 1);
    var s1 := OneIdle(2, x, Token({1}, false)).(pcs := [Held(ForGet, 0), Idle]);
    assert Moved(s, 0, 0, Held(ForGet, 0), x, Token({} + {1}, false)) == s1;
    ReturnCounts(s1, 0, 0);
    CountAndKeep(x);
  }

  lemma CountAndKeep(x: Session)
    requires x == NewSession.(handle := 1)
    requires Reachable(OneIdle(2, x, Token({1}, false)).(poolLock := Some(0), pcs := [Counting(0, 0, 0), Idle]))
    ensures Reachable(OneIdle(2, x.(inUse := false), Token({1}, false)).(kept := {0}))
  {
    var s := OneIdle(2, x, Token({1}, false));
    var s1 := s.(poolLock := Some(0), pcs := [Counting(0, 0, 0), Idle]);
    var s2 := s.(poolLock := Some(0), pcs := [Counting(0, 1, 1), Idle]);
    Extend(s1, CountOne(0), s2);
    var s3 := s.(pcs := [Release(0), Idle], kept := {0});
    assert {} + {0} == {0};
    Extend(s2, CountDone(0), s3);
    Extend(s3, PutBack(0), OneIdle(2, x.(inUse := false), Token({1}, false)).(kept := {0}));
  }

  /** The idle login session is had again for another login, without another C_Login: the token
      stays as it is, and so do the mark and the reference. */
  lemma LoginSessionIsReused()
    ensures exists o, s :: UsedAgain(o, s, ForLogin(true)) && s.sessions[0].isLogin && s.sessions[0].refcnt == 1
  {
    IdleLogin();
    var x := NewSession.(handle := 1, refcnt := 1, isLogin := true, inUse := false);
    var o := OneIdle(0, x, Token({1}, true));
    var p := ForLogin(true);
    LeadsNowhere(o);
    var s1 := o.(poolLock := Some(1), pcs := [Idle, Scan(p, LoginFirst, 0)]);
    LeadsOn(o, o, StartFetch(1, p), s1);
    TakeIn(o, s1, p, LoginFirst, x);
    var s2 := TakenBack(s1, p, x);
    assert s2.pcs == [Idle, Check(p, 0)] && s2.sessions == [x.(inUse := true)];
    var s := LoggedInAlready(o, s2);
    assert UsedAgain(o, s, p);
  }

  lemma LoggedInAlready(o: State, s: State) returns (s': State)
    requires Leads(o, s) && s.pcs == [Idle, Check(ForLogin(true), 0)] && s.token == Token({1}, true)
    requires s.sessions == [NewSession.(handle := 1, refcnt := 1, isLogin := true)] && s.resets == 0 && s.leaked == {}
    ensures Leads(o, s') && s'.pcs == [Idle, Held(ForLogin(true), 0)] && s'.token == s.token && s'.resets == 0
    ensures |s'.sessions| == 1 && s'.sessions[0] == s.sessions[0].(loginState := true)
  {
    var x := NewSession.(handle := 1, refcnt := 1, isLogin := true, loginState := true);
    LeadsByMove(o, s, 1, 0, Login(0, true), x);
    var s1 := Moved(s, 1, 0, Login(0, true), x, s.token);
    LeadsByMove(o, s1, 1, 0, LoginDone(0, true), x);
    var s2 := Moved(s1, 1, 0, LoginDone(0, true), x, s.token);
    LeadsByMove(o, s2, 1, 0, Held(ForLogin(true), 0), x);
    s' := Moved(s2, 1, 0, Held(ForLogin(true), 0), x, s.token);
  }

  lemma IdleLogin()
    ensures Reachable(OneIdle(0, NewSession.(handle := 1, refcnt := 1, isLogin := true, inUse := false),
                              Token({1}, true)))
  {
    FreshReachable(2, 0);
    FetchNew(Fresh(2, 0), 0, ForLogin(true));
    var s := Fetched(Fresh(2, 0), 0, ForLogin(true));
    LogInNew(s, 0, 0, 1);
    var x := NewSession.(handle := 1, refcnt := 1, isLogin := true);
    var s1 := OneIdle(0, x, Token({1}, true)).(pcs := [LoginDone(0, true), Idle]);
    assert Moved(s, 0, 0, LoginDone(0, true), x, Token({} + {1}, true)) == s1;
    LoginBack(s1, x);
  }

  lemma LoginBack(s: State, x: Session)
    requires x == NewSession.(handle := 1, refcnt := 1, isLogin := true)
    requires Reachable(s) && s == OneIdle(0, x, Token({1}, true)).(pcs := [LoginDone(0, true), Idle])
    ensures Reachable(OneIdle(0, x.(inUse := false), Token({1}, true)))
  {
    Move(s, 0, 0, Held(ForLogin(true), 0), x, s.token);
    var s1 := Moved(s, 0, 0, Held(ForLogin(true), 0), x, s.token);
    Move(s1, 0, 0, Return(0), x, s.token);
    var s2 := Moved(s1, 0, 0, Return(0), x, s.token);
    Move(s2, 0, 0, Release(0), x, s.token);
    var s3 := Moved(s2, 0, 0, Release(0), x, s.token);
    Extend(s3, PutBack(0), OneIdle(0, x.(inUse := false), Token({1}, true)));
  }
}
