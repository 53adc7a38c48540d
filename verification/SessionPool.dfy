/** The pool of token sessions as a transition system: any number of agents interleave at
    the granularity of lock acquisitions, critical sections, token calls and unlocked
    accesses of src/session.c. An agent is one request with the session it obtains. */
module SessionPool {
  import opened Common

  /** holders counts the objects that reference the session, and stale marks a handle
      given to C_CloseSession but not yet cleared; the code has neither field. */
  datatype Session = Session(handle: nat, loginState: bool, inUse: bool, refcnt: int,
                             isLogin: bool, isBroken: bool, holders: nat, stale: bool)

  /** The token of section 5.6 of PKCS #11: open sessions, and whether the user is logged in. */
  datatype Token = Token(open: set<nat>, loggedIn: bool)

  /** slot_login (keeping the session or not), p11prov_get_session, or p11prov_try_session_ref. */
  datatype Purpose = ForLogin(keep: bool) | ForGet | ForRef

  datatype Phase = LoginFirst | Referenced | Cached | AnyFree | Recycle

  datatype CloseCause = InCheck(p: Purpose) | InReturn

  datatype Pc =
    | Idle
    // fetch_session, under the pool lock
    | Scan(p: Purpose, phase: Phase, i: nat)     // before the unlocked look at session i
    | Claim(p: Purpose, phase: Phase, i: nat)    // before locking session i
    | Refused
    | Taken(p: Purpose, j: nat)
    // session_check and token_session_open
    | Check(p: Purpose, j: nat)
    | Closing(j: nat, cause: CloseCause)         // before C_CloseSession
    | Closed(j: nat, cause: CloseCause)          // after it
    | Open(p: Purpose, j: nat)
    // token_login and slot_login
    | Login(j: nat, keep: bool)
    | LoginRef(j: nat, keep: bool)               // C_Login granted
    | LoginMark(j: nat, keep: bool)              // reference taken
    | LoginDone(j: nat, keep: bool)
    | LoginFailed(j: nat)
    | Unmark(j: nat)                             // reference dropped
    // in the hands of the caller
    | Held(p: Purpose, j: nat)
    | TryRelease(j: nat)
    // p11prov_return_session
    | Return(j: nat)
    | ReturnLock(j: nat)
    | Counting(j: nat, i: nat, open: nat)        // under the pool lock
    | Release(j: nat)

  /** kept: sessions return_session decided to leave open and unreferenced, not taken since;
      dropped: sessions whose last reference was dropped since a return last counted for them;
      leaked: handles still open in the token that no session records;
      resets: how often the token was reset from outside. All four are for observation. */
  datatype State = State(sessions: seq<Session>, maxSessions: nat, maxCached: nat,
                         poolLock: Option<nat>, pcs: seq<Pc>, token: Token,
                         kept: set<nat>, dropped: set<nat>, leaked: set<nat>, resets: nat)

  // ----- who owns what

  function Owned(pc: Pc): Option<nat> {
    match pc
    case Idle => None
    case Scan(_, _, _) => None
    case Claim(_, _, _) => None
    case Refused => None
    case _ => Some(pc.j)
  }

  predicate HoldsPoolLock(pc: Pc) {
    pc.Scan? || pc.Claim? || pc.Refused? || pc.Taken? || pc.Counting?
  }

  // ----- the token

  /** C_CloseSession: it may fail, leaving the session open; closing the last one logs out. */
  predicate CloseCall(t: Token, leaked: set<nat>, h: nat, t': Token, leaked': set<nat>) {
    || (t' == t && leaked' == if h in t.open then leaked + {h} else leaked)
    || (t' == Token(t.open - {h}, t.loggedIn && t.open - {h} != {}) && leaked' == leaked)
  }

  // ----- what the owner of a session does on its own

  /** After a failed check or open. */
  function GiveUp(p: Purpose, j: nat): Pc {
    match p
    case ForGet => Return(j)
    case ForLogin(_) => LoginFailed(j)
    case ForRef => TryRelease(j)
  }

  /** With a checked or opened handle. */
  function GoOn(p: Purpose, j: nat): Pc {
    match p
    case ForLogin(keep) => Login(j, keep)
    case _ => Held(p, j)
  }

  /** session_check: flagsMatch and infoOk are the token's to decide. */
  predicate CheckMove(p: Purpose, j: nat, x: Session, t: Token, leaked: set<nat>,
                      pc': Pc, x': Session, t': Token, leaked': set<nat>) {
    && t' == t
    && (
      || (!x.inUse && pc' == GiveUp(p, j) && x' == x && leaked' == leaked)
      || (x.inUse && x.handle == CK_INVALID_HANDLE && x' == x && leaked' == leaked
          && pc' == if p == ForRef then Held(p, j) else Open(p, j))
      || (x.inUse && x.handle != CK_INVALID_HANDLE && leaked' == leaked
          && x' == x.(loginState := t.loggedIn) && x.handle in t.open
          && (pc' == GoOn(p, j)
              || pc' == if x.refcnt != 0 then GiveUp(p, j) else Closing(j, InCheck(p))))
      || (x.inUse && x.handle != CK_INVALID_HANDLE
          && x' == x.(handle := CK_INVALID_HANDLE, loginState := false)
          && leaked' == (if x.handle in t.open then leaked + {x.handle} else leaked)
          && pc' == if p == ForRef then Open(p, j) else GiveUp(p, j)))
  }

  ghost predicate OpenMove(p: Purpose, j: nat, x: Session, t: Token, pc': Pc, x': Session, t': Token) {
    || (t' == t && pc' == GiveUp(p, j) && x' == x.(handle := CK_INVALID_HANDLE, loginState := false))
    || (exists h :: h != CK_INVALID_HANDLE && h !in t.open && t' == t.(open := t.open + {h})
          && ((pc' == GoOn(p, j) && x' == x.(handle := h, loginState := t.loggedIn))
              || (pc' == GiveUp(p, j) && x' == x.(handle := h))))
  }

  /** C_Login is granted only when logged out, on an open session. */
  predicate LoginMove(j: nat, keep: bool, x: Session, t: Token, pc': Pc, t': Token) {
    || (x.loginState && pc' == LoginDone(j, keep) && t' == t)
    || (!x.loginState && !t.loggedIn && x.handle in t.open && pc' == LoginRef(j, keep) && t' == t.(loggedIn := true))
    || (!x.loginState && t.loggedIn && pc' == LoginDone(j, keep) && t' == t)
    || (!x.loginState && pc' == LoginFailed(j) && t' == t)
  }

  /** token_session_close is skipped without a handle. */
  function CloseOrRelease(j: nat, x: Session): Pc {
    if x.handle != CK_INVALID_HANDLE then Closing(j, InReturn) else Release(j)
  }

  ghost predicate OwnerMove(pc: Pc, x: Session, t: Token, leaked: set<nat>,
                      pc': Pc, x': Session, t': Token, leaked': set<nat>) {
    match pc
    case Check(p, j) => CheckMove(p, j, x, t, leaked, pc', x', t', leaked')
    case Closing(j, cause) =>
      pc' == Closed(j, cause) && x' == x.(stale := true) && CloseCall(t, leaked, x.handle, t', leaked')
    case Closed(j, cause) =>
      && t' == t && leaked' == leaked
      && (match cause
          case InCheck(p) =>
            pc' == Open(p, j) && x' == x.(handle := CK_INVALID_HANDLE, loginState := false, stale := false)
          case InReturn =>
            pc' == Release(j)
            && x' == x.(handle := CK_INVALID_HANDLE, loginState := false, stale := false, isBroken := false))
    case Open(p, j) => leaked' == leaked && OpenMove(p, j, x, t, pc', x', t')
    case Login(j, keep) => leaked' == leaked && x' == x && LoginMove(j, keep, x, t, pc', t')
    case LoginRef(j, keep) =>
      pc' == LoginMark(j, keep) && x' == x.(refcnt := x.refcnt + 1) && t' == t && leaked' == leaked
    case LoginMark(j, keep) =>
      pc' == LoginDone(j, keep) && x' == x.(isLogin := true) && t' == t && leaked' == leaked
    case LoginDone(j, keep) =>
      pc' == (if keep then Held(ForLogin(keep), j) else Return(j)) && x' == x && t' == t && leaked' == leaked
    case LoginFailed(j) =>
      && t' == t && leaked' == leaked
      && (if x.isLogin then pc' == Unmark(j) && x' == x.(refcnt := x.refcnt - 1) else pc' == Return(j) && x' == x)
    case Unmark(j) =>
      pc' == Return(j) && x' == x.(isLogin := false) && t' == t && leaked' == leaked
    case Held(p, j) =>
      && t' == t && leaked' == leaked
      && (|| (pc' == pc && x' == x.(isBroken := true))
          || (pc' == pc && x' == x.(refcnt := x.refcnt + 1, holders := x.holders + 1))
          || (pc' == Return(j) && x' == x))
    case Return(j) =>
      && t' == t && leaked' == leaked && x' == x
      && pc' == (if x.refcnt > 0 then Release(j) else if x.isBroken then CloseOrRelease(j, x) else ReturnLock(j))
    case _ => false
  }

  // ----- the unlocked look of fetch_session

  /** Whether session i is worth locking, by what an unlocked read shows of it. */
  predicate Promising(phase: Phase, seen: Session, flagsMatch: bool) {
    match phase
    case LoginFirst => seen.isLogin
    case Referenced =>
      !seen.isLogin && !seen.isBroken && flagsMatch && seen.handle != CK_INVALID_HANDLE && seen.refcnt != 0
    case Cached => !seen.isLogin && !seen.isBroken && flagsMatch && seen.handle != CK_INVALID_HANDLE
    case AnyFree => !seen.isLogin && !seen.isBroken
    case Recycle => seen.isBroken
  }

  /** What the critical section on the session finds. */
  datatype Verdict = Take | Pass | Fail

  function Decide(phase: Phase, x: Session): Verdict {
    match phase
    case LoginFirst =>
      if !x.isLogin then Pass else if x.inUse || x.isBroken then Fail else Take
    case Recycle => if !x.inUse && x.isBroken && x.refcnt == 0 then Take else Pass
    case _ => if !x.inUse && !x.isLogin && !x.isBroken then Take else Pass
  }

  function NextPhase(phase: Phase): Phase {
    match phase
    case LoginFirst => Referenced
    case Referenced => Cached
    case Cached => AnyFree
    case _ => Recycle
  }

  const NewSession: Session := Session(CK_INVALID_HANDLE, false, true, 0, false, false, 0, false)

  // ----- the steps

  datatype Step =
    | StartFetch(a: nat, p: Purpose)
    | Look(a: nat, seen: Session, flagsMatch: bool)
    | TryClaim(a: nat)
    | TurnPhase(a: nat)
    | Allocate(a: nat, memory: bool)
    | UnlockTaken(a: nat)
    | UnlockRefused(a: nat)
    | TakeReferenced(a: nat, j: nat)
    | Act(a: nat, pc: Pc, x: Session)
    | LockToCount(a: nat)
    | CountOne(a: nat)
    | CountDone(a: nat)
    | PutBack(a: nat)
    | DropReference(j: nat)
    | TokenReset

  ghost predicate Moves(s: State, a: nat, pc: Pc, s': State) {
    a < |s.pcs| && s' == s.(pcs := s.pcs[a := pc])
  }

  ghost predicate TryClaimStep(s: State, a: nat, s': State) {
    && a < |s.pcs| && s.pcs[a].Claim?
    && var pc := s.pcs[a];
    && pc.i < |s.sessions|
    && var x := s.sessions[pc.i];
    match Decide(pc.phase, x)
    case Pass => Moves(s, a, Scan(pc.p, pc.phase, pc.i + 1), s')
    case Fail => Moves(s, a, Refused, s')
    case Take =>
      if pc.phase == Recycle then
        // token_session_close and the claim, in one critical section
        && s' == s.(pcs := s.pcs[a := Taken(pc.p, pc.i)],
                    token := s'.token, leaked := s'.leaked, kept := s.kept - {pc.i},
                    sessions := s.sessions[pc.i := if x.handle == CK_INVALID_HANDLE then x.(inUse := true)
                      else x.(inUse := true, handle := CK_INVALID_HANDLE, loginState := false, isBroken := false)])
        && (if x.handle == CK_INVALID_HANDLE then s'.token == s.token && s'.leaked == s.leaked
            else CloseCall(s.token, s.leaked, x.handle, s'.token, s'.leaked))
      else
        s' == s.(pcs := s.pcs[a := Taken(pc.p, pc.i)], kept := s.kept - {pc.i},
                 sessions := s.sessions[pc.i := x.(inUse := true)])
  }

  ghost predicate AllocateStep(s: State, a: nat, memory: bool, s': State) {
    && a < |s.pcs| && s.pcs[a].Scan? && s.pcs[a].phase == Recycle && s.pcs[a].i == |s.sessions|
    && if |s.sessions| >= s.maxSessions || !memory then Moves(s, a, Refused, s')
       else s' == s.(pcs := s.pcs[a := Taken(s.pcs[a].p, |s.sessions|)], sessions := s.sessions + [NewSession])
  }

  /** The locked part of p11prov_try_session_ref, for a session some object references. */
  ghost predicate TakeReferencedStep(s: State, a: nat, j: nat, s': State) {
    && a < |s.pcs| && s.pcs[a] == Idle && j < |s.sessions|
    && var x := s.sessions[j];
    && x.holders > 0 && !x.inUse && !x.isBroken
    && s' == s.(pcs := s.pcs[a := Check(ForRef, j)], kept := s.kept - {j},
                sessions := s.sessions[j := x.(inUse := true)])
  }

  ghost predicate ActStep(s: State, a: nat, pc: Pc, x: Session, s': State) {
    && a < |s.pcs| && Owned(s.pcs[a]).Some?
    && var j := Owned(s.pcs[a]).value;
    && j < |s.sessions|
    && OwnerMove(s.pcs[a], s.sessions[j], s.token, s.leaked, pc, x, s'.token, s'.leaked)
    && s' == s.(pcs := s.pcs[a := pc], sessions := s.sessions[j := x], token := s'.token, leaked := s'.leaked)
  }

  ghost predicate CountOneStep(s: State, a: nat, s': State) {
    && a < |s.pcs| && s.pcs[a].Counting? && s.pcs[a].i < |s.sessions|
    && var pc := s.pcs[a];
    Moves(s, a, Counting(pc.j, pc.i + 1, pc.open + if s.sessions[pc.i].handle != CK_INVALID_HANDLE then 1 else 0), s')
  }

  /** The pool is unlocked and the count compared; from here on the session counts as kept. */
  ghost predicate CountDoneStep(s: State, a: nat, s': State) {
    && a < |s.pcs| && s.pcs[a].Counting? && s.pcs[a].i == |s.sessions| && s.pcs[a].j < |s.sessions|
    && var j := s.pcs[a].j;
    && var x := s.sessions[j];
    if s.pcs[a].open >= s.maxCached
    then s' == s.(pcs := s.pcs[a := CloseOrRelease(j, x)], poolLock := None, dropped := s.dropped - {j})
    else s' == s.(pcs := s.pcs[a := Release(j)], poolLock := None, dropped := s.dropped - {j},
                  kept := if x.handle != CK_INVALID_HANDLE then s.kept + {j} else s.kept)
  }

  ghost predicate PutBackStep(s: State, a: nat, s': State) {
    && a < |s.pcs| && (s.pcs[a].Release? || s.pcs[a].TryRelease?) && s.pcs[a].j < |s.sessions|
    && var j := s.pcs[a].j;
    s' == s.(pcs := s.pcs[a := Idle], sessions := s.sessions[j := s.sessions[j].(inUse := false)])
  }

  ghost predicate DropReferenceStep(s: State, j: nat, s': State) {
    && j < |s.sessions| && s.sessions[j].holders > 0
    && var x := s.sessions[j];
    s' == s.(sessions := s.sessions[j := x.(refcnt := x.refcnt - 1, holders := x.holders - 1)],
             dropped := if x.refcnt == 1 then s.dropped + {j} else s.dropped)
  }

  ghost predicate NextStep(s: State, s': State, step: Step) {
    match step
    case StartFetch(a, p) =>
      && a < |s.pcs| && s.pcs[a] == Idle && s.poolLock == None && p != ForRef
      && s' == s.(poolLock := Some(a), pcs := s.pcs[a := Scan(p, if p.ForLogin? then LoginFirst else Referenced, 0)])
    case Look(a, seen, flagsMatch) =>
      && a < |s.pcs| && s.pcs[a].Scan? && s.pcs[a].i < |s.sessions|
      && var pc := s.pcs[a];
      Moves(s, a, if Promising(pc.phase, seen, flagsMatch) then Claim(pc.p, pc.phase, pc.i)
                  else Scan(pc.p, pc.phase, pc.i + 1), s')
    case TryClaim(a) => TryClaimStep(s, a, s')
    case TurnPhase(a) =>
      && a < |s.pcs| && s.pcs[a].Scan? && s.pcs[a].i == |s.sessions| && s.pcs[a].phase != Recycle
      && Moves(s, a, Scan(s.pcs[a].p, NextPhase(s.pcs[a].phase), 0), s')
    case Allocate(a, memory) => AllocateStep(s, a, memory, s')
    case UnlockTaken(a) =>
      && a < |s.pcs| && s.pcs[a].Taken?
      && s' == s.(poolLock := None, pcs := s.pcs[a := Check(s.pcs[a].p, s.pcs[a].j)])
    case UnlockRefused(a) =>
      a < |s.pcs| && s.pcs[a].Refused? && s' == s.(poolLock := None, pcs := s.pcs[a := Idle])
    case TakeReferenced(a, j) => TakeReferencedStep(s, a, j, s')
    case Act(a, pc, x) => ActStep(s, a, pc, x, s')
    case LockToCount(a) =>
      && a < |s.pcs| && s.pcs[a].ReturnLock? && s.poolLock == None
      && s' == s.(poolLock := Some(a), pcs := s.pcs[a := Counting(s.pcs[a].j, 0, 0)])
    case CountOne(a) => CountOneStep(s, a, s')
    case CountDone(a) => CountDoneStep(s, a, s')
    case PutBack(a) => PutBackStep(s, a, s')
    case DropReference(j) => DropReferenceStep(s, j, s')
    case TokenReset => s' == s.(token := Token({}, false), resets := s.resets + 1)
  }

  ghost predicate Init(s: State) {
    && s.sessions == [] && s.poolLock == None && s.kept == {} && s.dropped == {} && s.leaked == {} && s.resets == 0
    && (forall a :: 0 <= a < |s.pcs| ==> s.pcs[a] == Idle)
    && (s.token.loggedIn ==> s.token.open != {})
  }

  /** A run: consecutive states are related by steps. */
  ghost predicate IsRun(run: seq<State>, steps: seq<Step>) {
    && |run| == |steps| + 1 && Init(run[0])
    && forall k :: 0 <= k < |steps| ==> NextStep(run[k], run[k + 1], steps[k])
  }
}
