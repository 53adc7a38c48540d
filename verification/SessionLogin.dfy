/** What a reset of the token from outside can break, and by which steps exactly. */
module SessionLogin {
  import opened Common
  import opened SessionPool
  import opened SessionInvariants
  import opened SessionSteps
  import opened SessionSafety
  import opened SessionWitness

  // ----- one login session

  /** A login is granted while another session is the login session, or its owner is making it
      so. The code does not look for one before it calls C_Login. */
  ghost predicate LoginBeside(s: State, s': State, step: Step) {
    && step.Act? && step.a < |s.pcs| && step.a < |s'.pcs|
    && s.pcs[step.a].Login? && s'.pcs[step.a].LoginRef?
    && exists k: nat :: k != s.pcs[step.a].j && Bearer(s, k)
  }

  /** Only a granted login makes a new bearer. */
  lemma NewBearer(s: State, s': State, step: Step, k: nat)
    requires Inv(s) && NextStep(s, s', step) && Bearer(s', k) && !Bearer(s, k)
    ensures step.Act? && step.a < |s.pcs| && step.a < |s'.pcs|
    ensures s.pcs[step.a].Login? && s.pcs[step.a].j == k && s'.pcs[step.a].LoginRef?
  {
    assert !s'.sessions[k].isLogin by {
      if s'.sessions[k].isLogin { NewLoginMark(s, s', step, k); }
    }
    var b: nat :| Owns(s', b, k) && LoggingIn(s'.pcs[b]);
    WhoLogsIn(s, s', step, b);
    assert !Owns(s, b, k) || !LoggingIn(s.pcs[b]);
  }

  lemma WhoLogsIn(s: State, s': State, step: Step, b: nat)
    requires NextStep(s, s', step) && b < |s'.pcs| && LoggingIn(s'.pcs[b])
    ensures b < |s.pcs| && Owned(s.pcs[b]) == Owned(s'.pcs[b])
    ensures LoggingIn(s.pcs[b]) || (step.Act? && step.a == b && s.pcs[b].Login? && s'.pcs[b].LoginRef?)
  {
  }

  /** The login mark is set only by an agent that is a bearer already. */
  lemma NewLoginMark(s: State, s': State, step: Step, k: nat)
    requires OwnInv(s) && NextStep(s, s', step)
    requires k < |s'.sessions| && s'.sessions[k].isLogin
    ensures Bearer(s, k)
  {
    if !(k < |s.sessions| && s.sessions[k].isLogin) {
      assert step.Act? && s.pcs[step.a].LoginMark?;
      assert Owns(s, step.a, k);
    }
  }

  lemma OthersStayBearers(s: State, s': State, step: Step, k: nat)
    requires Inv(s) && NextStep(s, s', step) && LoginBeside(s, s', step)
    requires k != s.pcs[step.a].j && Bearer(s, k)
    ensures Bearer(s', k) && Bearer(s', s.pcs[step.a].j)
  {
    assert Owns(s, step.a, s.pcs[step.a].j) && Owns(s', step.a, s.pcs[step.a].j);
    if !s.sessions[k].isLogin {
      var b: nat :| Owns(s, b, k) && LoggingIn(s.pcs[b]);
      assert b != step.a && Owns(s', b, k);
    }
  }

  lemma StepKeepsOneLogin(s: State, s': State, step: Step)
    requires Inv(s) && NextStep(s, s', step) && OneLogin(s)
    ensures OneLogin(s') <==> !LoginBeside(s, s', step)
  {
    if LoginBeside(s, s', step) {
      var k: nat :| k != s.pcs[step.a].j && Bearer(s, k);
      OthersStayBearers(s, s', step, k);
    } else {
      forall j: nat, k: nat | Bearer(s', j) && Bearer(s', k) ensures j == k {
        if !Bearer(s, j) { NewBearer(s, s', step, j); }
        if !Bearer(s, k) { NewBearer(s, s', step, k); }
      }
    }
  }

  ghost predicate OneLoginSoFar(run: seq<State>, k: nat) {
    k < |run| && forall i :: 0 <= i <= k ==> OneLogin(run[i])
  }

  ghost predicate NoLoginBeside(run: seq<State>, steps: seq<Step>, k: nat) {
    k < |run| && k <= |steps| && forall i :: 0 <= i < k ==> !LoginBeside(run[i], run[i + 1], steps[i])
  }

  /** Step l decides whether it stays so. */
  ghost predicate OneLoginDecided(run: seq<State>, steps: seq<Step>, l: int) {
    && 0 <= l < |steps| && l + 1 < |run|
    && (OneLogin(run[l]) ==> (OneLogin(run[l + 1]) <==> !LoginBeside(run[l], run[l + 1], steps[l])))
  }

  lemma {:induction false} OneLoginCollected(run: seq<State>, steps: seq<Step>, k: nat)
    requires k < |run| && k <= |steps| && OneLogin(run[0]) && forall l :: 0 <= l < k ==> OneLoginDecided(run, steps, l)
    ensures OneLoginSoFar(run, k) <==> NoLoginBeside(run, steps, k)
  {
    if k > 0 {
      OneLoginCollected(run, steps, k - 1);
      assert OneLoginDecided(run, steps, k - 1);
      OneLoginSoFarNext(run, steps, k - 1);
    }
  }

  lemma OneLoginSoFarNext(run: seq<State>, steps: seq<Step>, k: nat)
    requires k + 1 < |run| && k < |steps|
    ensures OneLoginSoFar(run, k + 1) <==> OneLoginSoFar(run, k) && OneLogin(run[k + 1])
    ensures NoLoginBeside(run, steps, k + 1)
       <==> NoLoginBeside(run, steps, k) && !LoginBeside(run[k], run[k + 1], steps[k])
  {
  }

  /** With or without resets: up to any point of a run there never was more than one login
      session, or one about to be, exactly when no login was granted beside another. */
  lemma OneLoginExactlyWhen(run: seq<State>, steps: seq<Step>, k: nat)
    requires IsRun(run, steps) && k <= |steps|
    ensures OneLoginSoFar(run, k) <==> NoLoginBeside(run, steps, k)
  {
    NobodyAtFirst(run[0]);
    forall l | 0 <= l < k ensures OneLoginDecided(run, steps, l) { RunStepDecides(run, steps, l); }
    OneLoginCollected(run, steps, k);
  }

  lemma NobodyAtFirst(s: State)
    requires Init(s)
    ensures OneLogin(s) && AllApart(s)
  {
    assert forall j: nat :: !Bearer(s, j);
  }

  lemma RunStepDecides(run: seq<State>, steps: seq<Step>, k: nat)
    requires IsRun(run, steps) && k < |steps|
    ensures OneLoginDecided(run, steps, k) && AllApartDecided(run, steps, k)
  {
    RunKeeps(run, steps, k);
    if OneLogin(run[k]) { StepKeepsOneLogin(run[k], run[k + 1], steps[k]); }
    if AllApart(run[k]) { StepKeepsApart(run[k], run[k + 1], steps[k]); }
  }

  // ----- distinct handles

  ghost predicate AllApart(s: State) {
    forall j: nat, k: nat :: j < k < |s.sessions| ==> Apart(s.sessions[j], s.sessions[k])
  }

  /** A session is opened with a handle that another one still records; the token may give it
      out again after a reset. */
  ghost predicate OpenTwice(s: State, s': State, step: Step) {
    && step.Act? && step.a < |s.pcs| && s.pcs[step.a].Open?
    && var j := s.pcs[step.a].j;
    && j < |s'.sessions| && Live(s'.sessions[j])
    && exists k: nat :: k < |s.sessions| && k != j && !Apart(s'.sessions[j], s.sessions[k])
  }

  /** Only opening gives a session a handle it did not have. */
  lemma NewHandle(s: State, s': State, step: Step, k: nat)
    requires Inv(s) && NextStep(s, s', step) && k < |s'.sessions| && Live(s'.sessions[k])
    requires !(k < |s.sessions| && Live(s.sessions[k]) && s.sessions[k].handle == s'.sessions[k].handle)
    ensures step.Act? && s.pcs[step.a].Open? && s.pcs[step.a].j == k
  {
    if step.Act? { assert Owns(s, step.a, Owned(s.pcs[step.a]).value); }
  }

  /** And an opening leaves the other sessions as they are. */
  lemma OpenLeavesOthers(s: State, s': State, step: Step, k: nat)
    requires NextStep(s, s', step) && step.Act? && k < |s.sessions| && Owned(s.pcs[step.a]) != Some(k)
    ensures |s'.sessions| == |s.sessions| && s'.sessions[k] == s.sessions[k]
  {
  }

  lemma ApartEitherWay(s: State, j: nat, k: nat)
    requires AllApart(s) && j < |s.sessions| && k < |s.sessions| && j != k
    ensures Apart(s.sessions[j], s.sessions[k])
  {
    if k < j { assert Apart(s.sessions[k], s.sessions[j]); }
  }

  lemma StaysApart(s: State, s': State, step: Step, j: nat, k: nat)
    requires Inv(s) && NextStep(s, s', step) && AllApart(s) && !OpenTwice(s, s', step)
    requires j < |s'.sessions| && k < |s'.sessions| && j != k
    ensures Apart(s'.sessions[j], s'.sessions[k])
  {
    if Live(s'.sessions[j]) && Live(s'.sessions[k]) {
      var newJ := !(j < |s.sessions| && Live(s.sessions[j]) && s.sessions[j].handle == s'.sessions[j].handle);
      var newK := !(k < |s.sessions| && Live(s.sessions[k]) && s.sessions[k].handle == s'.sessions[k].handle);
      if newJ {
        NewHandle(s, s', step, j);
        OpenLeavesOthers(s, s', step, k);
        assert Apart(s'.sessions[j], s.sessions[k]);
      } else if newK {
        NewHandle(s, s', step, k);
        OpenLeavesOthers(s, s', step, j);
        assert Apart(s'.sessions[k], s.sessions[j]);
      } else {
        ApartEitherWay(s, j, k);
      }
    }
  }

  lemma StepKeepsApart(s: State, s': State, step: Step)
    requires Inv(s) && NextStep(s, s', step) && AllApart(s)
    ensures AllApart(s') <==> !OpenTwice(s, s', step)
  {
    if OpenTwice(s, s', step) {
      var j := s.pcs[step.a].j;
      var k: nat :| k < |s.sessions| && k != j && !Apart(s'.sessions[j], s.sessions[k]);
      OpenLeavesOthers(s, s', step, k);
      if AllApart(s') { ApartEitherWay(s', j, k); }
    } else {
      forall j: nat, k: nat | j < k < |s'.sessions| ensures Apart(s'.sessions[j], s'.sessions[k]) {
        StaysApart(s, s', step, j, k);
      }
    }
  }

  ghost predicate ApartSoFar(run: seq<State>, k: nat) {
    k < |run| && forall i :: 0 <= i <= k ==> AllApart(run[i])
  }

  ghost predicate NoneOpenTwice(run: seq<State>, steps: seq<Step>, k: nat) {
    k < |run| && k <= |steps| && forall i :: 0 <= i < k ==> !OpenTwice(run[i], run[i + 1], steps[i])
  }

  /** Step l decides whether it stays so. */
  ghost predicate AllApartDecided(run: seq<State>, steps: seq<Step>, l: int) {
    && 0 <= l < |steps| && l + 1 < |run|
    && (AllApart(run[l]) ==> (AllApart(run[l + 1]) <==> !OpenTwice(run[l], run[l + 1], steps[l])))
  }

  lemma {:induction false} AllApartCollected(run: seq<State>, steps: seq<Step>, k: nat)
    requires k < |run| && k <= |steps| && AllApart(run[0]) && forall l :: 0 <= l < k ==> AllApartDecided(run, steps, l)
    ensures ApartSoFar(run, k) <==> NoneOpenTwice(run, steps, k)
  {
    if k > 0 {
      AllApartCollected(run, steps, k - 1);
      assert AllApartDecided(run, steps, k - 1);
      ApartSoFarNext(run, steps, k - 1);
    }
  }

  lemma ApartSoFarNext(run: seq<State>, steps: seq<Step>, k: nat)
    requires k + 1 < |run| && k < |steps|
    ensures ApartSoFar(run, k + 1) <==> ApartSoFar(run, k) && AllApart(run[k + 1])
    ensures NoneOpenTwice(run, steps, k + 1)
       <==> NoneOpenTwice(run, steps, k) && !OpenTwice(run[k], run[k + 1], steps[k])
  {
  }

  /** With or without resets: up to any point of a run no two sessions ever recorded the same
      handle, exactly when none was opened with a handle that another one recorded. */
  lemma HandlesApartExactlyWhen(run: seq<State>, steps: seq<Step>, k: nat)
    requires IsRun(run, steps) && k <= |steps|
    ensures ApartSoFar(run, k) <==> NoneOpenTwice(run, steps, k)
  {
    NobodyAtFirst(run[0]);
    forall l | 0 <= l < k ensures AllApartDecided(run, steps, l) { RunStepDecides(run, steps, l); }
    AllApartCollected(run, steps, k);
  }

  /** A run reaches two sessions with one handle: the token was reset in between. */
  lemma ResetAllowsSharedHandle()
    ensures exists s :: Reachable(s) && s.resets == 1 && |s.sessions| == 2
              && s.sessions[0].handle == s.sessions[1].handle == 1 && !AllApart(s)
  {
    FreshReachable(2, 0);
    FetchNew(Fresh(2, 0), 0, ForGet);
    var s1 := Fetched(Fresh(2, 0), 0, ForGet);
    FetchNew(s1, 1, ForGet);
    OpenTwoAlike(Fetched(s1, 1, ForGet));
  }

  lemma OpenTwoAlike(s: State)
    requires Reachable(s) && s.pcs == [Check(ForGet, 0), Check(ForGet, 1)] && s.resets == 0
    requires s.sessions == [NewSession, NewSession] && s.token == Token({}, false)
    ensures exists s' :: Reachable(s') && s'.resets == 1 && |s'.sessions| == 2
              && s'.sessions[0].handle == s'.sessions[1].handle == 1 && !AllApart(s')
  {
    var x := NewSession.(handle := 1);
    OpenNew(s, 0, ForGet, 0, 1);
    var s1 := Moved(s, 0, 0, Held(ForGet, 0), x, Token({} + {1}, false));
    var s2 := s1.(token := Token({}, false), resets := 1);
    Extend(s1, TokenReset, s2);
    OpenNew(s2, 1, ForGet, 1, 1);
    var s3 := Moved(s2, 1, 1, Held(ForGet, 1), x, Token({} + {1}, false));
    assert Reachable(s3) && !Apart(s3.sessions[0], s3.sessions[1]);
  }
}
