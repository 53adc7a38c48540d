/** What every reachable state of the session pool satisfies, and the steps that keep it. */
module SessionInvariants {
  import opened Common
  import opened SessionPool

  // ----- ownership and locking

  ghost predicate Owns(s: State, a: nat, j: nat) { a < |s.pcs| && Owned(s.pcs[a]) == Some(j) }

  /** At most one owner each, and in_use exactly while there is one. */
  ghost predicate OwnInv(s: State) {
    && (forall a: nat, j: nat :: Owns(s, a, j) ==> j < |s.sessions| && s.sessions[j].inUse)
    && (forall a: nat, b: nat, j: nat :: Owns(s, a, j) && Owns(s, b, j) ==> a == b)
    && (forall j: nat :: j < |s.sessions| && s.sessions[j].inUse ==> exists a: nat :: Owns(s, a, j))
  }

  /** The login session is looked for first only on behalf of a login. */
  predicate ScanOk(pc: Pc) {
    (pc.Scan? || pc.Claim?) && pc.phase == LoginFirst ==> pc.p.ForLogin?
  }

  ghost predicate LockInv(s: State) {
    && (forall a: nat :: a < |s.pcs| && HoldsPoolLock(s.pcs[a]) ==> s.poolLock == Some(a))
    && (forall a: nat :: a < |s.pcs| ==> ScanOk(s.pcs[a]))
    && |s.sessions| <= s.maxSessions
  }

  // ----- references

  /** References the provider itself holds at this point, beyond the objects'. */
  function Claims(pc: Pc, x: Session): nat {
    match pc
    case LoginMark(_, _) => if x.isLogin then 2 else 1
    case Unmark(_) => 0
    case _ => if x.isLogin then 1 else 0
  }

  predicate ForOthers(p: Purpose, x: Session) { p == ForGet ==> !x.isLogin }

  /** What an owner at a given point may rely on about its session. */
  predicate LocalOk(pc: Pc, x: Session) {
    && x.refcnt >= x.holders + Claims(pc, x)
    && (x.stale <==> pc.Closed?)
    && (match pc
        case Taken(p, _) => ForOthers(p, x)
        case Check(p, _) => ForOthers(p, x)
        case Open(p, _) => ForOthers(p, x) && x.handle == CK_INVALID_HANDLE
        case Held(p, _) => ForOthers(p, x) && (p != ForRef ==> x.handle != CK_INVALID_HANDLE)
        case Closing(_, cause) => x.refcnt == 0 && x.handle != CK_INVALID_HANDLE
        case Closed(_, cause) => x.refcnt == 0 && x.handle != CK_INVALID_HANDLE
        case ReturnLock(_) => x.refcnt == 0
        case Counting(_, _, _) => x.refcnt == 0
        case Login(_, _) => x.handle != CK_INVALID_HANDLE
        case LoginRef(_, _) => x.handle != CK_INVALID_HANDLE
        case LoginMark(_, _) => x.handle != CK_INVALID_HANDLE
        case LoginDone(_, _) => x.handle != CK_INVALID_HANDLE
        case _ => true)
  }

  /** A session nobody owns: a login session is always referenced. */
  predicate IdleOk(x: Session) {
    x.refcnt >= x.holders + (if x.isLogin then 1 else 0) && !x.stale
  }

  ghost predicate LocalInv(s: State) {
    && (forall a: nat, j: nat :: Owns(s, a, j) && j < |s.sessions| ==> LocalOk(s.pcs[a], s.sessions[j]))
    && (forall j: nat :: j < |s.sessions| && !s.sessions[j].inUse ==> IdleOk(s.sessions[j]))
  }

  // ----- the cache of open sessions

  function Below(kept: set<nat>, n: nat): set<nat> { set k | k in kept && k < n }

  /** Nobody took session k since its owner decided to put it back. */
  ghost predicate Unheld(s: State, k: nat) {
    forall a: nat :: Owns(s, a, k) ==> s.pcs[a].Release?
  }

  ghost predicate CountOk(s: State, a: nat)
    requires a < |s.pcs| && s.pcs[a].Counting?
  {
    var pc := s.pcs[a];
    && pc.j < |s.sessions|
    && pc.i <= |s.sessions|
    && pc.open >= |Below(s.kept, pc.i)|
         + (if pc.j < pc.i && s.sessions[pc.j].handle != CK_INVALID_HANDLE then 1 else 0)
  }

  ghost predicate KeptInv(s: State) {
    && (forall k :: k in s.kept ==>
          k < |s.sessions| && s.sessions[k].handle != CK_INVALID_HANDLE && s.sessions[k].refcnt == 0 && Unheld(s, k))
    && (s.kept == {} || |s.kept| < s.maxCached)
    && (forall a: nat :: a < |s.pcs| && s.pcs[a].Counting? ==> CountOk(s, a))
  }

  // ----- the login, as long as the token is not reset from outside

  predicate Live(x: Session) { x.handle != CK_INVALID_HANDLE && !x.stale }

  predicate LoggingIn(pc: Pc) { pc.LoginRef? || pc.LoginMark? }

  predicate TokenOk(t: Token, leaked: set<nat>) {
    leaked <= t.open && (t.loggedIn ==> t.open != {})
  }

  /** The token is logged in, and this session or a forgotten handle keeps it so. */
  predicate Anchored(x: Session, t: Token, leaked: set<nat>) { t.loggedIn && (leaked != {} || Live(x)) }

  predicate SessionOk(x: Session, t: Token, leaked: set<nat>) {
    && (Live(x) ==> x.handle in t.open && x.handle !in leaked)
    && (x.loginState ==> x.handle != CK_INVALID_HANDLE && (x.stale || t.loggedIn))
    && (x.isLogin ==> Anchored(x, t, leaked))
  }

  predicate OwnerOk(pc: Pc, x: Session, t: Token, leaked: set<nat>) {
    LoggingIn(pc) || pc.LoginDone? ==> Anchored(x, t, leaked)
  }

  predicate Apart(x: Session, y: Session) { Live(x) && Live(y) ==> x.handle != y.handle }

  ghost predicate TokenInv(s: State) {
    && TokenOk(s.token, s.leaked)
    && (forall k: nat :: k < |s.sessions| ==> SessionOk(s.sessions[k], s.token, s.leaked))
    && (forall j: nat, k: nat :: j < k < |s.sessions| ==> Apart(s.sessions[j], s.sessions[k]))
    && (forall a: nat, j: nat :: Owns(s, a, j) && j < |s.sessions| ==>
          OwnerOk(s.pcs[a], s.sessions[j], s.token, s.leaked))
  }

  /** Session k is the login session, or its owner is making it so. */
  ghost predicate Bearer(s: State, k: nat) {
    k < |s.sessions| && (s.sessions[k].isLogin || exists a: nat :: Owns(s, a, k) && LoggingIn(s.pcs[a]))
  }

  ghost predicate OneLogin(s: State) {
    forall j: nat, k: nat :: Bearer(s, j) && Bearer(s, k) ==> j == k
  }

  ghost predicate Inv(s: State) {
    && OwnInv(s) && LockInv(s) && LocalInv(s) && KeptInv(s)
    && (s.resets == 0 ==> TokenInv(s) && OneLogin(s))
  }

  // ----- one agent moves on one session

  /** Only agent a and session j change, and a owns nothing but j, before and after. */
  ghost predicate Touch(s: State, a: nat, j: nat, s': State) {
    && a < |s.pcs| && j < |s.sessions|
    && s'.pcs == s.pcs[a := if a < |s'.pcs| then s'.pcs[a] else Idle]
    && s'.sessions == s.sessions[j := if j < |s'.sessions| then s'.sessions[j] else s.sessions[j]]
    && (Owned(s.pcs[a]) == if s.sessions[j].inUse then Some(j) else None)
    && (Owned(s'.pcs[a]) == if s'.sessions[j].inUse then Some(j) else None)
    && s'.maxCached == s.maxCached && s'.maxSessions == s.maxSessions && s'.resets == s.resets
  }

  lemma TouchOthers(s: State, a: nat, j: nat, s': State)
    requires Touch(s, a, j, s') && OwnInv(s)
    ensures forall b: nat, k: nat :: b != a ==> (Owns(s', b, k) <==> Owns(s, b, k))
    ensures forall b: nat, k: nat :: b != a && Owns(s, b, k) ==> k != j && s'.pcs[b] == s.pcs[b]
    ensures forall k: nat :: Owns(s', a, k) ==> k == j
  {
    if s.sessions[j].inUse { assert Owns(s, a, j); }
  }

  lemma TouchOwn(s: State, a: nat, j: nat, s': State)
    requires Touch(s, a, j, s') && OwnInv(s)
    ensures OwnInv(s')
  {
    TouchOthers(s, a, j, s');
    if s.sessions[j].inUse { assert Owns(s, a, j); }
    if s'.sessions[j].inUse { assert Owns(s', a, j); }
    forall k: nat | k < |s'.sessions| && s'.sessions[k].inUse
      ensures exists b: nat :: Owns(s', b, k)
    {
      if k != j {
        var b: nat :| Owns(s, b, k);
        assert b != a;
        assert Owns(s', b, k);
      }
    }
  }

  lemma TouchLocal(s: State, a: nat, j: nat, s': State)
    requires Touch(s, a, j, s') && OwnInv(s) && LocalInv(s)
    requires if s'.sessions[j].inUse then LocalOk(s'.pcs[a], s'.sessions[j]) else IdleOk(s'.sessions[j])
    ensures LocalInv(s')
  {
    TouchOthers(s, a, j, s');
  }

  lemma TouchLock(s: State, a: nat, j: nat, s': State)
    requires Touch(s, a, j, s') && LockInv(s)
    requires s'.poolLock == s.poolLock || (s'.poolLock == Some(a) && s.poolLock == None)
             || (s'.poolLock == None && s.poolLock == Some(a))
    requires (HoldsPoolLock(s'.pcs[a]) ==> s'.poolLock == Some(a)) && ScanOk(s'.pcs[a])
    ensures LockInv(s')
  {
  }

  /** The kept sessions that are still kept keep what makes them so. */
  lemma TouchMembers(s: State, a: nat, j: nat, s': State, k: nat)
    requires Touch(s, a, j, s') && OwnInv(s) && KeptInv(s) && k in s.kept && k != j
    ensures k < |s'.sessions| && s'.sessions[k] == s.sessions[k] && Unheld(s', k)
  {
  }

  lemma TouchCount(s: State, a: nat, j: nat, s': State, b: nat)
    requires Touch(s, a, j, s') && OwnInv(s) && s'.kept == s.kept - {j}
    requires b != a && b < |s.pcs| && s.pcs[b].Counting? && CountOk(s, b)
    ensures s'.pcs[b] == s.pcs[b] && CountOk(s', b)
  {
    TouchOthers(s, a, j, s');
    assert Owns(s, b, s.pcs[b].j);
    Fewer(Below(s.kept, s.pcs[b].i), j);
    assert Below(s'.kept, s.pcs[b].i) == Below(s.kept, s.pcs[b].i) - {j};
  }

  /** Session j is left out of the kept ones. */
  lemma TouchKept(s: State, a: nat, j: nat, s': State)
    requires Touch(s, a, j, s') && OwnInv(s) && KeptInv(s)
    requires s'.kept == s.kept - {j} && !s'.pcs[a].Counting?
    ensures KeptInv(s')
  {
    Fewer(s.kept, j);
    forall b: nat | b < |s'.pcs| && s'.pcs[b].Counting? ensures CountOk(s', b) {
      assert b != a && CountOk(s, b);
      TouchCount(s, a, j, s', b);
    }
    forall k | k in s'.kept
      ensures k < |s'.sessions| && s'.sessions[k] == s.sessions[k] && Unheld(s', k)
    {
      TouchMembers(s, a, j, s', k);
    }
  }

  lemma Fewer(kept: set<nat>, j: nat)
    ensures |kept - {j}| <= |kept|
  {
    if j in kept { assert kept == kept - {j} + {j}; }
  }

  lemma NotKept(s: State, a: nat, j: nat)
    requires KeptInv(s) && Owns(s, a, j) && !s.pcs[a].Release?
    ensures j !in s.kept
  {
  }

  // ----- the token's side of it

  /** What a step on session x may do to the token without disturbing other sessions. */
  predicate Harmless(x: Session, t: Token, leaked: set<nat>, x': Session, t': Token, leaked': set<nat>) {
    var own := if Live(x) then {x.handle} else {};
    && TokenOk(t', leaked')
    && t.open - own <= t'.open
    && leaked <= leaked' <= leaked + own
    && (t.loggedIn ==> t'.loggedIn || t'.open == {})
    && (Live(x') ==> x'.handle !in t.open || (Live(x) && x.handle == x'.handle))
  }

  lemma OthersSurvive(x: Session, t: Token, leaked: set<nat>, x': Session, t': Token, leaked': set<nat>, y: Session)
    requires Harmless(x, t, leaked, x', t', leaked')
    requires SessionOk(y, t, leaked) && Apart(x, y)
    ensures SessionOk(y, t', leaked') && Apart(x', y)
    ensures Anchored(y, t, leaked) ==> Anchored(y, t', leaked')
  {
  }

  lemma TouchToken(s: State, a: nat, j: nat, s': State)
    requires Touch(s, a, j, s') && OwnInv(s) && TokenInv(s)
    requires Harmless(s.sessions[j], s.token, s.leaked, s'.sessions[j], s'.token, s'.leaked)
    requires SessionOk(s'.sessions[j], s'.token, s'.leaked)
    requires OwnerOk(s'.pcs[a], s'.sessions[j], s'.token, s'.leaked)
    ensures TokenInv(s')
  {
    TouchOthers(s, a, j, s');
    forall k: nat | k < |s.sessions| && k != j
      ensures s'.sessions[k] == s.sessions[k]
      ensures SessionOk(s.sessions[k], s'.token, s'.leaked) && Apart(s'.sessions[j], s.sessions[k])
      ensures Anchored(s.sessions[k], s.token, s.leaked) ==> Anchored(s.sessions[k], s'.token, s'.leaked)
    {
      assert Apart(s.sessions[j], s.sessions[k]) by {
        if j < k { assert Apart(s.sessions[j], s.sessions[k]); } else { assert Apart(s.sessions[k], s.sessions[j]); }
      }
      OthersSurvive(s.sessions[j], s.token, s.leaked, s'.sessions[j], s'.token, s'.leaked, s.sessions[k]);
    }
    forall b: nat, k: nat | Owns(s', b, k) && k < |s'.sessions|
      ensures OwnerOk(s'.pcs[b], s'.sessions[k], s'.token, s'.leaked)
    {
      if b != a { assert Owns(s, b, k) && k != j; }
    }
  }

  /** Where the token is logged out nobody bears the login. */
  lemma BearersAnchored(s: State, k: nat)
    requires TokenInv(s) && Bearer(s, k)
    ensures s.token.loggedIn
  {
  }

  lemma TouchOneLogin(s: State, a: nat, j: nat, s': State)
    requires Touch(s, a, j, s') && OwnInv(s) && TokenInv(s) && OneLogin(s)
    requires (s'.sessions[j].isLogin || LoggingIn(s'.pcs[a]))
             ==> (s.sessions[j].isLogin || LoggingIn(s.pcs[a]) || !s.token.loggedIn)
    ensures OneLogin(s')
  {
    TouchOthers(s, a, j, s');
    if s.sessions[j].inUse { assert Owns(s, a, j); }
    forall k: nat | Bearer(s', k)
      ensures Bearer(s, k) || (k == j && !s.token.loggedIn)
    {
      if !s'.sessions[k].isLogin {
        var b: nat :| Owns(s', b, k) && LoggingIn(s'.pcs[b]);
        if b != a { assert Owns(s, b, k); }
      }
    }
    forall k: nat | Bearer(s, k) ensures s.token.loggedIn { BearersAnchored(s, k); }
  }

  /** A step on session j that does not concern the login. */
  lemma TouchPlain(s: State, a: nat, j: nat, s': State)
    requires Touch(s, a, j, s') && OwnInv(s) && TokenInv(s) && OneLogin(s)
    requires s'.token == s.token && s'.leaked == s.leaked && !LoggingIn(s'.pcs[a]) && !s'.pcs[a].LoginDone?
    requires var x, y := s.sessions[j], s'.sessions[j];
             y.handle == x.handle && y.stale == x.stale && y.isLogin == x.isLogin && y.loginState == x.loginState
    ensures TokenInv(s') && OneLogin(s')
  {
    assert SessionOk(s.sessions[j], s.token, s.leaked);
    TouchToken(s, a, j, s');
    TouchOneLogin(s, a, j, s');
  }

  // ----- agents that own nothing

  predicate Bystander(pc: Pc) { pc.Idle? || pc.Scan? || pc.Claim? || pc.Refused? }

  /** Only the program counter of a changes, among the ones that own nothing. */
  ghost predicate Aside(s: State, a: nat, s': State) {
    && a < |s.pcs| && |s'.pcs| == |s.pcs| && Bystander(s.pcs[a]) && Bystander(s'.pcs[a])
    && s' == s.(pcs := s.pcs[a := s'.pcs[a]], poolLock := s'.poolLock)
  }

  lemma BystanderOwns(s: State, a: nat, s': State)
    requires Aside(s, a, s')
    ensures forall b: nat, j: nat :: (Owns(s', b, j) <==> Owns(s, b, j)) && (Owns(s, b, j) ==> b != a)
    ensures forall b: nat :: b < |s.pcs| && b != a ==> s'.pcs[b] == s.pcs[b]
  {
  }

  lemma BystanderOwn(s: State, a: nat, s': State)
    requires Aside(s, a, s') && OwnInv(s) && LocalInv(s)
    ensures OwnInv(s') && LocalInv(s')
  {
    BystanderOwns(s, a, s');
  }

  lemma BystanderKept(s: State, a: nat, s': State)
    requires Aside(s, a, s') && KeptInv(s)
    ensures KeptInv(s')
  {
  }

  lemma BystanderToken(s: State, a: nat, s': State)
    requires Aside(s, a, s') && TokenInv(s) && OneLogin(s)
    ensures TokenInv(s') && OneLogin(s')
  {
    BystanderOwns(s, a, s');
    forall k: nat | Bearer(s', k) ensures Bearer(s, k) {
      if !s.sessions[k].isLogin {
        var b: nat :| Owns(s', b, k) && LoggingIn(s'.pcs[b]);
        assert Owns(s, b, k);
      }
    }
  }

  lemma BystanderStep(s: State, a: nat, s': State)
    requires Inv(s) && Aside(s, a, s') && LockInv(s')
    ensures Inv(s')
  {
    BystanderOwn(s, a, s');
    BystanderKept(s, a, s');
    if s.resets == 0 { BystanderToken(s, a, s'); }
  }
}
