/** What each locked step of the session pool comes to, in terms of the session it is about, and
    what a request has looked at before it gets a new session. */
module SessionOutcome {
  import opened Common
  import opened SessionPool
  import opened SessionInvariants
  import opened SessionSteps
  import opened SessionSafety
  import opened SessionProgress

  // ----- taking a session in the scan

  /** Which session a phase of the scan is after. */
  predicate Wanted(phase: Phase, x: Session) {
    if phase == LoginFirst then x.isLogin && !x.isBroken
    else if phase == Recycle then x.isBroken && x.refcnt == 0
    else !x.isLogin && !x.isBroken
  }

  /** With the session locked: it is taken exactly when it is idle and wanted; the request is
      refused exactly when it is the login session, in use or broken; else the scan goes on. */
  lemma ClaimOutcome(s: State, s': State, a: nat)
    requires NextStep(s, s', TryClaim(a))
    ensures a < |s.pcs| && s.pcs[a].Claim? && s.pcs[a].i < |s.sessions|
    ensures a < |s'.pcs| && |s'.sessions| == |s.sessions|
    ensures var Claim(p, phase, i) := s.pcs[a];
      var x := s.sessions[i];
      && (s'.pcs[a] == Taken(p, i) <==> !x.inUse && Wanted(phase, x))
      && (s'.pcs[a] == Refused <==> phase == LoginFirst && x.isLogin && (x.inUse || x.isBroken))
      && (s'.pcs[a] in {Taken(p, i), Refused, Scan(p, phase, i + 1)})
  {
  }

  /** A session that is taken is in use and otherwise as it was; only recycling closes it. */
  lemma ClaimChanges(s: State, s': State, a: nat)
    requires NextStep(s, s', TryClaim(a))
    ensures var Claim(p, phase, i) := s.pcs[a];
      var x, y := s.sessions[i], s'.sessions[i];
      && (s'.pcs[a] != Taken(p, i) ==> s'.sessions == s.sessions && s'.token == s.token)
      && (forall k :: 0 <= k < |s.sessions| && k != i ==> s'.sessions[k] == s.sessions[k])
      && (s'.pcs[a] == Taken(p, i) ==>
            y.inUse && y.refcnt == x.refcnt && y.isLogin == x.isLogin && y.holders == x.holders)
      && (s'.pcs[a] == Taken(p, i) && phase != Recycle ==> y == x.(inUse := true) && s'.token == s.token)
      && (s'.pcs[a] == Taken(p, i) && phase == Recycle ==> y.handle == CK_INVALID_HANDLE)
  {
  }

  /** Over runs: a login request that locks the login session in its first scan owns it, if it is
      idle and unbroken, and is refused only if it is in use or broken. */
  lemma LoginRequestGetsLoginSession(run: seq<State>, steps: seq<Step>, k: nat, a: nat)
    requires IsRun(run, steps) && k < |steps| && steps[k] == TryClaim(a)
    requires a < |run[k].pcs| && run[k].pcs[a].Claim? && run[k].pcs[a].phase == LoginFirst
    ensures var i := run[k].pcs[a].i;
      && i < |run[k].sessions| && a < |run[k + 1].pcs| && run[k].pcs[a].p.ForLogin?
      && (run[k].sessions[i].isLogin && !run[k].sessions[i].inUse && !run[k].sessions[i].isBroken
          <==> Owns(run[k + 1], a, i))
      && (run[k + 1].pcs[a] == Refused
          <==> run[k].sessions[i].isLogin && (run[k].sessions[i].inUse || run[k].sessions[i].isBroken))
  {
    assert NextStep(run[k], run[k + 1], steps[k]);
    ClaimOutcome(run[k], run[k + 1], a);
    RunKeeps(run, steps, k);
  }

  /** Over runs: what the scan has just given out is unbroken or without a handle, and it is the
      login session only for a login request. */
  lemma TakenIsUsable(run: seq<State>, steps: seq<Step>, k: nat, a: nat, j: nat)
    requires IsRun(run, steps) && k < |steps| && steps[k] == TryClaim(a) && Owns(run[k + 1], a, j)
    ensures j < |run[k + 1].sessions| && a < |run[k].pcs| && run[k].pcs[a].Claim?
    ensures var x := run[k + 1].sessions[j];
      && (!x.isBroken || x.handle == CK_INVALID_HANDLE)
      && (x.isLogin ==> run[k].pcs[a].p.ForLogin? && run[k].pcs[a].phase == LoginFirst)
  {
    assert NextStep(run[k], run[k + 1], steps[k]);
    RunKeeps(run, steps, k);
    ClaimOutcome(run[k], run[k + 1], a);
    ClaimChanges(run[k], run[k + 1], a);
    RecycledIsClean(run[k], run[k + 1], a);
  }

  lemma RecycledIsClean(s: State, s': State, a: nat)
    requires Inv(s) && NextStep(s, s', TryClaim(a))
    ensures s'.pcs[a].Taken? && s.pcs[a].phase == Recycle ==>
      var x, y := s.sessions[s.pcs[a].i], s'.sessions[s.pcs[a].i];
      !y.isLogin && (!y.isBroken || x.handle == CK_INVALID_HANDLE)
  {
  }

  // ----- passing a session over

  /** The unlocked look goes on to lock the session exactly when what it saw is of use in the
      phase: the login session; an unbroken other one with the flags and a handle, and a
      reference first; any unbroken other one; a broken one. */
  lemma LookOutcome(s: State, s': State, a: nat, seen: Session, flagsMatch: bool)
    requires NextStep(s, s', Look(a, seen, flagsMatch))
    ensures a < |s.pcs| && s.pcs[a].Scan? && s.pcs[a].i < |s.sessions|
    ensures s' == s.(pcs := s'.pcs) && a < |s'.pcs|
    ensures var Scan(p, phase, i) := s.pcs[a];
      var unbroken := !seen.isLogin && !seen.isBroken;
      var open := unbroken && flagsMatch && seen.handle != CK_INVALID_HANDLE;
      && s'.pcs[a] in {Claim(p, phase, i), Scan(p, phase, i + 1)}
      && (s'.pcs[a] == Claim(p, phase, i) <==>
            match phase
            case LoginFirst => seen.isLogin
            case Referenced => open && seen.refcnt != 0
            case Cached => open
            case AnyFree => unbroken
            case Recycle => seen.isBroken)
  {
  }

  /** At step l the scan of agent a goes past session i in this phase. */
  ghost predicate Passes(run: seq<State>, a: nat, p: Purpose, phase: Phase, i: nat, l: nat) {
    && l + 1 < |run| && a < |run[l].pcs| && a < |run[l + 1].pcs| && i < |run[l].sessions|
    && (run[l].pcs[a] == Scan(p, phase, i) || run[l].pcs[a] == Claim(p, phase, i))
    && run[l + 1].pcs[a] == Scan(p, phase, i + 1)
  }

  /** It does so with a session not of use, or after an unlocked look that was wrong about it. */
  lemma PassedOver(run: seq<State>, steps: seq<Step>, a: nat, p: Purpose, i: nat, l: nat)
    requires IsRun(run, steps) && l < |steps| && Passes(run, a, p, AnyFree, i, l)
    ensures var x := run[l].sessions[i];
      x.inUse || x.isLogin || x.isBroken || (steps[l].Look? && steps[l].seen != x)
  {
    assert NextStep(run[l], run[l + 1], steps[l]);
    RunKeeps(run, steps, l);
    PassIsOwnStep(run[l], run[l + 1], steps[l], a, p, AnyFree, i);
    match steps[l]
    case TryClaim(b) => ClaimOutcome(run[l], run[l + 1], a);
    case Look(b, seen, flagsMatch) => LookOutcome(run[l], run[l + 1], a, seen, flagsMatch);
    case _ =>
  }

  lemma PassIsOwnStep(s: State, s': State, step: Step, a: nat, p: Purpose, phase: Phase, i: nat)
    requires Inv(s) && NextStep(s, s', step) && a < |s.pcs| && a < |s'.pcs|
    requires s.pcs[a] == Scan(p, phase, i) || s.pcs[a] == Claim(p, phase, i)
    requires s'.pcs[a] == Scan(p, phase, i + 1)
    ensures (step.Look? || step.TryClaim?) && step.a == a
  {
    if ByAgent(step) != Some(a) { OthersLeaveHolder(s, s', step, a); }
  }

  // ----- the order of the scan

  function FirstPhase(p: Purpose): Phase { if p.ForLogin? then LoginFirst else Referenced }

  function Order(phase: Phase): nat {
    match phase
    case LoginFirst => 0
    case Referenced => 1
    case Cached => 2
    case AnyFree => 3
    case Recycle => 4
  }

  /** In this place of the scan, session i has been passed in that phase. */
  predicate Behind(pc: Pc, phase: Phase, i: nat, n: nat)
    requires pc.Scan? || pc.Claim?
  {
    && Order(FirstPhase(pc.p)) <= Order(phase)
    && (if phase == pc.phase then i < pc.i else Order(phase) < Order(pc.phase) && i < n)
  }

  /** The scan that agent a is in at k began at step m, and passed what is behind it since. */
  ghost predicate Journey(run: seq<State>, steps: seq<Step>, a: nat, m: nat, k: nat) {
    && m < k < |run| && m < |steps| && a < |run[k].pcs| && Scanning(run[k].pcs[a])
    && steps[m] == StartFetch(a, run[k].pcs[a].p)
    && HoldsThroughout(run, a, m + 1, k)
    && InPlace(run[k].pcs[a], |run[k].sessions|)
    && Order(FirstPhase(run[k].pcs[a].p)) <= Order(run[k].pcs[a].phase)
    && forall phase, i: nat :: Behind(run[k].pcs[a], phase, i, |run[k].sessions|) ==>
         WasPassed(run, a, run[k].pcs[a].p, phase, i, m, k)
  }

  ghost predicate WasPassed(run: seq<State>, a: nat, p: Purpose, phase: Phase, i: nat, m: nat, k: nat) {
    exists l: nat :: m < l < k && Passes(run, a, p, phase, i, l)
  }

  lemma StillPassed(run: seq<State>, a: nat, p: Purpose, phase: Phase, i: nat, m: nat, k: nat)
    requires WasPassed(run, a, p, phase, i, m, k)
    ensures WasPassed(run, a, p, phase, i, m, k + 1)
  {
  }

  /** On the same session, on to the next one, or from the last one on to the next phase. */
  predicate ScanNext(pc: Pc, q: Pc, n: nat)
    requires Scanning(pc) && Scanning(q)
  {
    && q.p == pc.p
    && (|| (q.phase == pc.phase && q.i == pc.i)
        || (q == Scan(pc.p, pc.phase, pc.i + 1) && pc.i < n)
        || (q.i == 0 && pc.i == n && Order(q.phase) == Order(pc.phase) + 1))
  }

  /** Where a scan can go in one step of its own. */
  lemma ScanGoes(s: State, s': State, step: Step, a: nat)
    requires Inv(s) && NextStep(s, s', step) && a < |s.pcs| && (s.pcs[a].Scan? || s.pcs[a].Claim?)
    requires InPlace(s.pcs[a], |s.sessions|) && a < |s'.pcs| && (s'.pcs[a].Scan? || s'.pcs[a].Claim?)
    ensures |s'.sessions| == |s.sessions| && InPlace(s'.pcs[a], |s'.sessions|)
    ensures ScanNext(s.pcs[a], s'.pcs[a], |s.sessions|)
  {
    if ByAgent(step) != Some(a) { OthersLeaveHolder(s, s', step, a); }
  }

  lemma JourneyGoesOn(run: seq<State>, steps: seq<Step>, a: nat, m: nat, k: nat)
    requires IsRun(run, steps) && Journey(run, steps, a, m, k) && k < |steps|
    requires a < |run[k + 1].pcs| && (run[k + 1].pcs[a].Scan? || run[k + 1].pcs[a].Claim?)
    ensures Journey(run, steps, a, m, k + 1)
  {
    RunKeeps(run, steps, k);
    assert NextStep(run[k], run[k + 1], steps[k]);
    ScanGoes(run[k], run[k + 1], steps[k], a);
    var q := run[k + 1].pcs[a];
    var n := |run[k + 1].sessions|;
    forall phase, i: nat | Behind(q, phase, i, n)
      ensures WasPassed(run, a, q.p, phase, i, m, k + 1)
    {
      BehindWasPassed(run, a, m, k, phase, i);
    }
  }

  lemma BehindWasPassed(run: seq<State>, a: nat, m: nat, k: nat, phase: Phase, i: nat)
    requires m < k && k + 1 < |run| && a < |run[k].pcs| && a < |run[k + 1].pcs|
    requires Scanning(run[k].pcs[a]) && Scanning(run[k + 1].pcs[a]) && |run[k + 1].sessions| == |run[k].sessions|
    requires ScanNext(run[k].pcs[a], run[k + 1].pcs[a], |run[k].sessions|)
    requires Behind(run[k + 1].pcs[a], phase, i, |run[k].sessions|)
    requires Behind(run[k].pcs[a], phase, i, |run[k].sessions|) ==>
               WasPassed(run, a, run[k].pcs[a].p, phase, i, m, k)
    ensures WasPassed(run, a, run[k + 1].pcs[a].p, phase, i, m, k + 1)
  {
    var p := run[k].pcs[a].p;
    if Behind(run[k].pcs[a], phase, i, |run[k].sessions|) {
      StillPassed(run, a, p, phase, i, m, k);
    } else {
      assert Passes(run, a, p, phase, i, k);
    }
  }

  lemma JourneyBegins(run: seq<State>, steps: seq<Step>, a: nat, k: nat)
    requires IsRun(run, steps) && k < |steps| && a < |run[k].pcs| && a < |run[k + 1].pcs|
    requires !Scanning(run[k].pcs[a]) && (run[k + 1].pcs[a].Scan? || run[k + 1].pcs[a].Claim?)
    ensures Journey(run, steps, a, k, k + 1)
  {
    assert NextStep(run[k], run[k + 1], steps[k]);
    RunKeeps(run, steps, k);
    ScanBegins(run[k], run[k + 1], steps[k], a);
  }

  lemma ScanBegins(s: State, s': State, step: Step, a: nat)
    requires Inv(s) && NextStep(s, s', step) && a < |s.pcs| && a < |s'.pcs|
    requires !(s.pcs[a].Scan? || s.pcs[a].Claim?) && (s'.pcs[a].Scan? || s'.pcs[a].Claim?)
    ensures step == StartFetch(a, s'.pcs[a].p) && s'.pcs[a] == Scan(s'.pcs[a].p, FirstPhase(s'.pcs[a].p), 0)
    ensures |s'.sessions| == |s.sessions|
  {
    match step
    case Act(b, pc, x) => OwnerNotCounting(s, b, pc, x, s');
    case _ =>
  }

  /** Every scan in a run has such a beginning. */
  lemma {:induction false} EveryScanIsAJourney(run: seq<State>, steps: seq<Step>, a: nat, k: nat) returns (m: nat)
    requires IsRun(run, steps) && k <= |steps| && a < |run[k].pcs| && Scanning(run[k].pcs[a])
    ensures Journey(run, steps, a, m, k)
    decreases k
  {
    AgentsStay(run, steps, k);
    var j := k - 1;
    AgentsStay(run, steps, j);
    if run[j].pcs[a].Scan? || run[j].pcs[a].Claim? {
      m := EveryScanIsAJourney(run, steps, a, j);
      JourneyGoesOn(run, steps, a, m, j);
    } else {
      m := j;
      JourneyBegins(run, steps, a, j);
    }
  }

  lemma {:induction false} AgentsStay(run: seq<State>, steps: seq<Step>, k: nat)
    requires IsRun(run, steps) && k <= |steps|
    ensures |run[k].pcs| == |run[0].pcs|
  {
    if k > 0 {
      AgentsStay(run, steps, k - 1);
      assert NextStep(run[k - 1], run[k], steps[k - 1]);
    }
  }

  /** A request gets a new session only after its scan has gone past every session of the pool in
      each of the phases that are for it: past the login session first, for a login, and last past
      the broken ones. */
  lemma NewOnlyAfterAll(run: seq<State>, steps: seq<Step>, k: nat, a: nat, memory: bool)
      returns (m: nat)
    requires IsRun(run, steps) && k < |steps| && steps[k] == Allocate(a, memory)
    ensures m < k && a < |run[k].pcs| && run[k].pcs[a].Scan? && steps[m] == StartFetch(a, run[k].pcs[a].p)
    ensures HoldsThroughout(run, a, m + 1, k)
    ensures forall phase, i: nat ::
              i < |run[k].sessions| && (phase == LoginFirst ==> run[k].pcs[a].p.ForLogin?) ==>
              WasPassed(run, a, run[k].pcs[a].p, phase, i, m, k)
  {
    assert NextStep(run[k], run[k + 1], steps[k]);
    m := EveryScanIsAJourney(run, steps, a, k);
    assert forall phase, i: nat ::
        i < |run[k].sessions| && (phase == LoginFirst ==> run[k].pcs[a].p.ForLogin?) ==>
        Behind(run[k].pcs[a], phase, i, |run[k].sessions|);
  }

  /** So a new session is not taken from the token while one could be had from the pool, as far as
      the looks were right: each was in use, the login session, or broken, when its turn came. */
  lemma NewOnlyIfNoneToBeHad(run: seq<State>, steps: seq<Step>, k: nat, a: nat, memory: bool, i: nat)
      returns (l: nat)
    requires IsRun(run, steps) && k < |steps| && steps[k] == Allocate(a, memory) && i < |run[k].sessions|
    ensures l < k && i < |run[l].sessions|
    ensures var x := run[l].sessions[i];
      x.inUse || x.isLogin || x.isBroken || (steps[l].Look? && steps[l].seen != x)
  {
    var m := NewOnlyAfterAll(run, steps, k, a, memory);
    var p := run[k].pcs[a].p;
    assert WasPassed(run, a, p, AnyFree, i, m, k);
    l :| m < l < k && Passes(run, a, p, AnyFree, i, l);
    PassedOver(run, steps, a, p, i, l);
  }

  /** What is new is unbroken, unreferenced, without a handle, and the request's own; without room
      or memory the request is refused. */
  lemma AllocateOutcome(s: State, s': State, a: nat, memory: bool)
    requires NextStep(s, s', Allocate(a, memory))
    ensures a < |s.pcs| && s.pcs[a].Scan? && a < |s'.pcs| && s'.token == s.token
    ensures if |s.sessions| >= s.maxSessions || !memory then s'.pcs[a] == Refused && s'.sessions == s.sessions
            else && s'.pcs[a] == Taken(s.pcs[a].p, |s.sessions|)
                 && |s'.sessions| == |s.sessions| + 1 && s'.sessions[..|s.sessions|] == s.sessions
                 && var x := s'.sessions[|s.sessions|];
                 && x.inUse && x.handle == CK_INVALID_HANDLE && x.refcnt == 0 && x.holders == 0
                 && !x.isLogin && !x.isBroken && !x.loginState
  {
  }
}
