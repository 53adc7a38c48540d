/** The AES cipher context: session acquisition and return around token operations, and
    the TLS record branches of update. Replies of the session pool and of the token are
    parameters. */
module CipherContext {
  import opened Common
  import opened Words
  import opened ConstantTime
  import opened TlsCbc

  datatype Op = Encrypt | Decrypt | NoOp

  /** What an initialisation asks for. */
  type Direction = op: Op | op != NoOp witness Encrypt
  datatype SessionState = Unused | Initialized | Finalized
  datatype Rv = CallOk | BufferTooSmall | CallFailed

  /** How the pool answers a request for a session, and the token the calls made on it. */
  datatype Reply = Reply(acquire: Option<nat>, initOk: bool, rv: Rv)

  /** A session came in, or went out with the operation still active on it (if any). */
  datatype Event = Acquired(s: nat) | Returned(s: nat, active: Option<Op>, broken: bool)

  /** The session side of a context; active is the token's operation on the held session. */
  datatype View = View(operation: Op, session: Option<nat>, state: SessionState,
                       active: Option<Op>, log: seq<Event>)

  // ----- the steps, as values

  /** A part call keeps the operation active unless it fails (section 5.2 of PKCS #11). */
  function AfterPart(active: Option<Op>, op: Op, rv: Rv): Option<Op> {
    if active == Some(op) && rv == CallFailed then None else active
  }

  /** A single-shot or final call ends the operation unless the buffer is too small. */
  function AfterClosing(active: Option<Op>, op: Op, rv: Rv): Option<Op> {
    if active == Some(op) && rv != BufferTooSmall then None else active
  }

  /** A call for another operation than the active one cannot succeed. */
  function CallRv(active: Option<Op>, op: Op, rv: Rv): Rv {
    if active == Some(op) then rv else CallFailed
  }

  function SessionInitStep(v: View, r: Reply): (View, bool)
    requires v.session.None?
  {
    match r.acquire
    case None => (v, false)
    case Some(s) =>
      var v1 := v.(session := Some(s), active := None, log := v.log + [Acquired(s)]);
      if v.operation != NoOp && r.initOk
      then (v1.(state := Initialized, active := Some(v.operation)), true)
      else (v1, false)
  }

  function ReturnStep(v: View, broken: bool): View {
    match v.session
    case None => v
    case Some(s) => v.(session := None, active := None, log := v.log + [Returned(s, v.active, broken)])
  }

  /** The operation of update, on a held session. */
  function OperateStep(v: View, tls: bool, fits: bool, rv: Rv): View {
    if v.operation == NoOp || (tls && !fits) then v
    else if tls then
      ReturnStep(v.(state := Finalized, active := AfterClosing(v.active, v.operation, rv)), false)
    else v.(active := AfterPart(v.active, v.operation, rv))
  }

  /** Whether update comes to its operation, and what it operates on. */
  predicate HasSession(v: View, r: Reply) { v.session.Some? || SessionInitStep(v, r).1 }

  function WithSession(v: View, r: Reply): View {
    if v.session.Some? then v else SessionInitStep(v, r).0
  }

  function UpdateStep(v: View, tls: bool, fits: bool, r: Reply): View {
    if HasSession(v, r) then OperateStep(WithSession(v, r), tls, fits, r.rv) else WithSession(v, r)
  }

  /** The token has this operation under way on the session held, or starts it on one had now. */
  predicate Starting(v: View, op: Op, r: Reply) {
    if v.session.Some? then v.active == Some(op) else r.acquire.Some? && r.initOk
  }

  predicate CallsDecrypt(v: View, rv: Rv) {
    v.operation == Decrypt && CallRv(v.active, Decrypt, rv) == CallOk
  }

  function FinalStep(v: View, r: Reply): View {
    if v.session.None? then v
    else ReturnStep(v.(state := Finalized, active := AfterClosing(v.active, v.operation, r.rv)), false)
  }

  /** Re-initialisation stores the operation before it notices that a session is held. */
  function OpInitStep(v: View, op: Op): View { v.(operation := op) }

  /** The operation freectx tries to cancel: by a null mechanism, or by C_SessionCancel. */
  function CancelTarget(op: Op): Op { if op == Encrypt then Encrypt else Decrypt }

  function FreeStep(v: View, cancelled: bool): View {
    if v.session.None? then v
    else if v.state == Initialized then
      var left := if cancelled && v.active == Some(CancelTarget(v.operation)) then None else v.active;
      ReturnStep(v.(state := Finalized, active := left), !cancelled)
    else ReturnStep(v, false)
  }

  // ----- runs

  /** The calls of a context. Whether an update is of a TLS record may change from call to call,
      also with a session held, which the source refuses (src/cipher.c:854-857): what holds of
      all these runs holds of the source's. */
  datatype Call =
    | OpInit(op: Direction)
    | Update(tls: bool, fits: bool, r: Reply)
    | Final(r: Reply)

  function Step(v: View, c: Call): View {
    match c
    case OpInit(op) => OpInitStep(v, op)
    case Update(tls, fits, r) => UpdateStep(v, tls, fits, r)
    case Final(r) => FinalStep(v, r)
  }

  function Run(v: View, calls: seq<Call>): View
    decreases |calls|
  {
    if calls == [] then v else Step(Run(v, calls[..|calls| - 1]), calls[|calls| - 1])
  }

  const NewContext: View := View(NoOp, None, Unused, None, [])

  /** Replays a log: the session it leaves held, or None if a session is acquired while
      one is held or another one than the held one is returned. */
  function Replay(log: seq<Event>): Option<Option<nat>> {
    if log == [] then Some(None)
    else
      match (Replay(log[..|log| - 1]), log[|log| - 1])
      case (Some(None), Acquired(s)) => Some(Some(s))
      case (Some(Some(h)), Returned(s, _, _)) => if s == h then Some(None) else None
      case (_, _) => None
  }

  function Count(log: seq<Event>, acquired: bool): nat {
    if log == [] then 0
    else Count(log[..|log| - 1], acquired) + if log[|log| - 1].Acquired? == acquired then 1 else 0
  }

  ghost predicate Balanced(v: View) {
    && Replay(v.log) == Some(v.session)
    && (v.active.Some? ==> v.session.Some? && v.state == Initialized && v.active != Some(NoOp))
  }

  lemma LogAppend(log: seq<Event>, e: Event)
    ensures (log + [e])[..|log + [e]| - 1] == log && (log + [e])[|log + [e]| - 1] == e
  {
  }

  lemma SessionInitKeepsBalance(v: View, r: Reply)
    requires Balanced(v) && v.session.None?
    ensures Balanced(SessionInitStep(v, r).0)
    ensures SessionInitStep(v, r).1 ==> SessionInitStep(v, r).0.session.Some?
  {
    if r.acquire.Some? { LogAppend(v.log, Acquired(r.acquire.value)); }
  }

  lemma ReturnKeepsBalance(v: View, broken: bool)
    requires Replay(v.log) == Some(v.session)
    ensures Balanced(ReturnStep(v, broken)) || v.session.None?
    ensures ReturnStep(v, broken).session.None?
  {
    if v.session.Some? { LogAppend(v.log, Returned(v.session.value, v.active, broken)); }
  }

  lemma StepKeepsBalance(v: View, c: Call)
    requires Balanced(v)
    ensures Balanced(Step(v, c))
  {
    match c
    case OpInit(op) =>
    case Update(tls, fits, r) =>
      var v1 := v;
      if v.session.None? {
        SessionInitKeepsBalance(v, r);
        v1 := SessionInitStep(v, r).0;
      }
      ReturnKeepsBalance(v1.(state := Finalized, active := AfterClosing(v1.active, v1.operation, r.rv)), false);
    case Final(r) =>
      ReturnKeepsBalance(v.(state := Finalized, active := AfterClosing(v.active, v.operation, r.rv)), false);
  }

  lemma {:induction false} RunKeepsBalance(calls: seq<Call>)
    ensures Balanced(Run(NewContext, calls))
  {
    if calls != [] {
      RunKeepsBalance(calls[..|calls| - 1]);
      StepKeepsBalance(Run(NewContext, calls[..|calls| - 1]), calls[|calls| - 1]);
    }
  }

  lemma {:induction false} ReplayCounts(log: seq<Event>)
    requires Replay(log).Some?
    ensures Count(log, true) - Count(log, false) == if Replay(log).value.Some? then 1 else 0
  {
    if log != [] { ReplayCounts(log[..|log| - 1]); }
  }

  /** Conservation: over any run, sessions come in and go out alternately, the one held is
      the one acquired last, and freeing the context leaves none. */
  lemma SessionsAreConserved(calls: seq<Call>, cancelled: bool)
    ensures var v := Run(NewContext, calls);
      && Replay(v.log) == Some(v.session)
      && Count(v.log, true) - Count(v.log, false) == (if v.session.Some? then 1 else 0)
    ensures var f := FreeStep(Run(NewContext, calls), cancelled);
      f.session.None? && Replay(f.log) == Some(None) && Count(f.log, true) == Count(f.log, false)
  {
    var v := Run(NewContext, calls);
    RunKeepsBalance(calls);
    ReplayCounts(v.log);
    var left := if v.state == Initialized && cancelled && v.active == Some(CancelTarget(v.operation))
                then None else v.active;
    ReturnKeepsBalance(v.(state := Finalized, active := left), !cancelled);
    ReturnKeepsBalance(v, false);
    assert Replay(FreeStep(v, cancelled).log) == Some(None);
    ReplayCounts(FreeStep(v, cancelled).log);
  }

  // ----- no operation is left hanging on a returned session

  ghost predicate CleanLog(log: seq<Event>) {
    forall i :: 0 <= i < |log| && log[i].Returned? ==> log[i].active.None? || log[i].broken
  }

  /** The caller never turns a context with a held session to the other direction, and
      the token never answers a closing call with a too small buffer. */
  predicate Orderly(v: View, c: Call) {
    match c
    case OpInit(op) => v.session.None? || op == v.operation
    case Update(tls, _, r) => tls ==> r.rv != BufferTooSmall
    case Final(r) => r.rv != BufferTooSmall
  }

  predicate OrderlyRun(v: View, calls: seq<Call>) {
    calls == [] ||
    (OrderlyRun(v, calls[..|calls| - 1]) && Orderly(Run(v, calls[..|calls| - 1]), calls[|calls| - 1]))
  }

  ghost predicate Clean(v: View) {
    CleanLog(v.log) && (v.active.Some? ==> v.active == Some(v.operation) && v.operation != NoOp)
  }

  lemma {:induction false} OrderlyRunsStayClean(calls: seq<Call>)
    requires OrderlyRun(NewContext, calls)
    ensures Clean(Run(NewContext, calls))
  {
    if calls != [] {
      var v := Run(NewContext, calls[..|calls| - 1]);
      OrderlyRunsStayClean(calls[..|calls| - 1]);
      RunKeepsBalance(calls[..|calls| - 1]);
      assert Clean(Step(v, calls[|calls| - 1]));
    }
  }

  // ----- exactly when one is

  /** Giving the session back leaves nothing behind: no operation was begun on it, or it is of
      the direction the context has now, and the closing call ends it. */
  predicate Settled(v: View, rv: Rv) {
    v.active.None? || (v.active == Some(v.operation) && rv != BufferTooSmall)
  }

  /** A final call, or an update of a TLS record that comes to its operation, is settled. */
  predicate Settles(v: View, c: Call) {
    match c
    case OpInit(_) => true
    case Update(tls, fits, r) =>
      tls && fits && v.operation != NoOp && HasSession(v, r) ==> Settled(WithSession(v, r), r.rv)
    case Final(r) => Settled(v, r.rv)
  }

  predicate SettledRun(calls: seq<Call>) {
    calls == [] ||
    (SettledRun(calls[..|calls| - 1]) && Settles(Run(NewContext, calls[..|calls| - 1]), calls[|calls| - 1]))
  }

  lemma CleanAppend(log: seq<Event>, e: Event)
    ensures CleanLog(log + [e]) <==> CleanLog(log) && (e.Returned? ==> e.active.None? || e.broken)
  {
    var more := log + [e];
    assert more[|log|] == e;
    assert forall i :: 0 <= i < |log| ==> more[i] == log[i];
  }

  lemma StepStaysClean(v: View, c: Call)
    requires Balanced(v)
    ensures CleanLog(Step(v, c).log) <==> CleanLog(v.log) && Settles(v, c)
  {
    match c
    case OpInit(op) =>
    case Update(tls, fits, r) =>
      var v1 := WithSession(v, r);
      if v1.log != v.log { CleanAppend(v.log, Acquired(r.acquire.value)); }
      if v1.session.Some? {
        CleanAppend(v1.log, Returned(v1.session.value, AfterClosing(v1.active, v1.operation, r.rv), false));
      }
    case Final(r) =>
      if v.session.Some? {
        CleanAppend(v.log, Returned(v.session.value, AfterClosing(v.active, v.operation, r.rv), false));
      }
  }

  lemma {:induction false} RunStaysClean(calls: seq<Call>)
    ensures CleanLog(Run(NewContext, calls).log) <==> SettledRun(calls)
  {
    if calls != [] {
      var init := calls[..|calls| - 1];
      RunStaysClean(init);
      RunKeepsBalance(init);
      StepStaysClean(Run(NewContext, init), calls[|calls| - 1]);
    }
  }

  lemma OrderlyRunsSettle(calls: seq<Call>)
    requires OrderlyRun(NewContext, calls)
    ensures SettledRun(calls)
  {
    OrderlyRunsStayClean(calls);
    RunStaysClean(calls);
  }

  /** What the last initialisation asked for. */
  function LastAsked(calls: seq<Call>): Op {
    if calls == [] then NoOp
    else if calls[|calls| - 1].OpInit? then calls[|calls| - 1].op
    else LastAsked(calls[..|calls| - 1])
  }

  lemma {:induction false} OperationIsLastAsked(calls: seq<Call>)
    ensures Run(NewContext, calls).operation == LastAsked(calls)
  {
    if calls != [] { OperationIsLastAsked(calls[..|calls| - 1]); }
  }

  /** Over a run ended by freectx every session goes back without an operation active, or
      marked broken, whatever the token says to the cancellation, exactly when each final call
      and TLS record of the run is settled, and what is begun and not finished at the end is
      what was asked for last. */
  lemma NoOperationLeftHanging(calls: seq<Call>)
    ensures CleanLog(Run(NewContext, calls).log) <==> SettledRun(calls)
    ensures (forall cancelled :: CleanLog(FreeStep(Run(NewContext, calls), cancelled).log))
       <==> SettledRun(calls) && forall op :: Begun(calls, op) ==> op == LastAsked(calls)
  {
    var v := Run(NewContext, calls);
    RunStaysClean(calls);
    RunKeepsBalance(calls);
    OperationIsLastAsked(calls);
    forall op ensures Begun(calls, op) <==> v.active == Some(op) { BegunIsActive(calls, op); }
    if v.active.Some? { ActiveIsAskedFor(calls); }
    FreeStaysClean(v, true);
    FreeStaysClean(v, false);
    assert CleanLog(FreeStep(v, true).log) ==> forall cancelled :: CleanLog(FreeStep(v, cancelled).log);
  }

  /** Nothing is begun before something is asked for. */
  lemma {:induction false} ActiveIsAskedFor(calls: seq<Call>)
    ensures Run(NewContext, calls).active.Some? ==> Run(NewContext, calls).operation != NoOp
  {
    if calls != [] { ActiveIsAskedFor(calls[..|calls| - 1]); }
  }

  /** A context whose direction is never turned with a session held, and whose final calls and
      TLS records find room, always gives its sessions back clean, freectx included. */
  lemma OrderlyRunsEndClean(calls: seq<Call>, cancelled: bool)
    requires OrderlyRun(NewContext, calls)
    ensures CleanLog(FreeStep(Run(NewContext, calls), cancelled).log)
  {
    OrderlyRunsSettle(calls);
    OrderlyRunsStayClean(calls);
    OperationIsLastAsked(calls);
    forall op | Begun(calls, op) ensures op == LastAsked(calls) { BegunIsActive(calls, op); }
    NoOperationLeftHanging(calls);
  }

  /** freectx marks a session broken exactly when an operation was started on it since it was
      taken, no final call or record ended that, and the token refuses to cancel. */
  lemma FreeMarksBrokenExactlyWhen(v: View, cancelled: bool)
    requires v.session.Some?
    ensures var f := FreeStep(v, cancelled);
      && |f.log| == |v.log| + 1 && f.log[..|v.log|] == v.log && f.log[|v.log|].Returned?
      && f.log[|v.log|].s == v.session.value
      && (f.log[|v.log|].broken <==> v.state == Initialized && !cancelled)
  {
  }

  lemma FreeStaysClean(v: View, cancelled: bool)
    requires Balanced(v)
    ensures CleanLog(FreeStep(v, cancelled).log)
       <==> CleanLog(v.log) && (|| v.active.None? || !cancelled || v.active == Some(v.operation)
                                || (v.active == Some(Decrypt) && v.operation == NoOp))
  {
    if v.session.Some? {
      var left := if cancelled && v.active == Some(CancelTarget(v.operation)) then None else v.active;
      CleanAppend(v.log, Returned(v.session.value, left, !cancelled));
      CleanAppend(v.log, Returned(v.session.value, v.active, false));
    }
  }

  // ----- what is begun, in terms of the calls

  /** A call takes a session and starts an operation on it, in the direction last asked for. */
  predicate StartsOn(v: View, c: Call, op: Op) {
    c.Update? && op != NoOp && v.session.None? && v.operation == op && c.r.acquire.Some? && c.r.initOk
  }

  /** A call leaves no session held, or is a part call that fails in this direction. */
  predicate EndsOn(v: View, c: Call, op: Op) {
    || Step(v, c).session.None?
    || (c.Update? && !c.tls && c.r.rv == CallFailed && v.operation == op)
  }

  predicate Starts(calls: seq<Call>, i: nat, op: Op) {
    i < |calls| && StartsOn(Run(NewContext, calls[..i]), calls[i], op)
  }

  predicate Ends(calls: seq<Call>, k: nat, op: Op) {
    k < |calls| && EndsOn(Run(NewContext, calls[..k]), calls[k], op)
  }

  /** Something started, and did not end since. */
  ghost predicate Going(starts: nat -> bool, ends: nat -> bool, n: nat) {
    exists i: nat :: i < n && starts(i) && forall k: nat :: i <= k < n ==> !ends(k)
  }

  /** An operation of this direction is begun, and not finished. */
  ghost predicate Begun(calls: seq<Call>, op: Op) {
    Going((i: nat) => Starts(calls, i, op), (k: nat) => Ends(calls, k, op), |calls|)
  }

  lemma GoingNext(starts: nat -> bool, ends: nat -> bool, n: nat)
    ensures Going(starts, ends, n + 1) <==> (Going(starts, ends, n) || starts(n)) && !ends(n)
  {
    if Going(starts, ends, n) && !ends(n) {
      var i: nat :| i < n && starts(i) && forall k: nat :: i <= k < n ==> !ends(k);
      assert forall k: nat :: i <= k < n + 1 ==> !ends(k);
    }
    if Going(starts, ends, n + 1) && !starts(n) {
      var i: nat :| i < n + 1 && starts(i) && forall k: nat :: i <= k < n + 1 ==> !ends(k);
      assert i < n && !ends(n);
    }
  }

  lemma GoingSame(starts: nat -> bool, ends: nat -> bool, starts': nat -> bool, ends': nat -> bool, n: nat)
    requires forall i: nat :: i < n ==> starts(i) == starts'(i) && ends(i) == ends'(i)
    ensures Going(starts, ends, n) ==> Going(starts', ends', n)
  {
    if Going(starts, ends, n) {
      var i: nat :| i < n && starts(i) && forall k: nat :: i <= k < n ==> !ends(k);
      assert starts'(i) && forall k: nat :: i <= k < n ==> !ends'(k);
    }
  }

  lemma StepBegins(v: View, c: Call, op: Op)
    requires Balanced(v)
    ensures Step(v, c).active == Some(op) <==> (v.active == Some(op) || StartsOn(v, c, op)) && !EndsOn(v, c, op)
  {
  }

  lemma SameBefore(calls: seq<Call>, n: nat, i: nat, op: Op)
    requires i < n <= |calls|
    ensures Starts(calls[..n], i, op) <==> Starts(calls, i, op)
    ensures Ends(calls[..n], i, op) <==> Ends(calls, i, op)
  {
    assert calls[..n][..i] == calls[..i];
  }

  lemma BegunBefore(calls: seq<Call>, op: Op)
    requires calls != []
    ensures Begun(calls, op) <==>
      (Begun(calls[..|calls| - 1], op) || Starts(calls, |calls| - 1, op)) && !Ends(calls, |calls| - 1, op)
  {
    var n := |calls| - 1;
    var init := calls[..n];
    forall i: nat | i < n
      ensures Starts(init, i, op) == Starts(calls, i, op) && Ends(init, i, op) == Ends(calls, i, op)
    {
      SameBefore(calls, n, i, op);
    }
    var starts, ends := (i: nat) => Starts(calls, i, op), (k: nat) => Ends(calls, k, op);
    var starts', ends' := (i: nat) => Starts(init, i, op), (k: nat) => Ends(init, k, op);
    GoingSame(starts, ends, starts', ends', n);
    GoingSame(starts', ends', starts, ends, n);
    GoingNext(starts, ends, n);
  }

  /** The token's operation is the one the calls have begun and not finished. */
  lemma {:induction false} BegunIsActive(calls: seq<Call>, op: Op)
    ensures Run(NewContext, calls).active == Some(op) <==> Begun(calls, op)
  {
    if calls != [] {
      BegunIsActive(calls[..|calls| - 1], op);
      RunKeepsBalance(calls[..|calls| - 1]);
      StepBegins(Run(NewContext, calls[..|calls| - 1]), calls[|calls| - 1], op);
      BegunBefore(calls, op);
    }
  }

  /** freectx itself leaves an operation on an unbroken session, for some answer of the token,
      exactly when one is begun in the direction freectx does not cancel. */
  lemma FreeLeavesOperationExactlyWhen(calls: seq<Call>)
    ensures var v := Run(NewContext, calls);
      (exists cancelled :: CleanLog(v.log) && !CleanLog(FreeStep(v, cancelled).log))
      <==> CleanLog(v.log) && exists op :: Begun(calls, op) && op != LastAsked(calls)
  {
    var v := Run(NewContext, calls);
    RunKeepsBalance(calls);
    forall op ensures Begun(calls, op) <==> v.active == Some(op) { BegunIsActive(calls, op); }
    OperationIsLastAsked(calls);
    if v.active.Some? {
      ActiveIsAskedFor(calls);
      assert Begun(calls, v.active.value);
    }
    FreeStaysClean(v, true);
    FreeStaysClean(v, false);
  }

  // ----- and how it comes about

  const SomeReply: Reply := Reply(Some(7), true, CallOk)

  /** An encrypting context that holds a session, turned to decryption. */
  const Turned: seq<Call> := [OpInit(Encrypt), Update(false, true, SomeReply), OpInit(Decrypt)]

  lemma TurnedView()
    ensures Run(NewContext, Turned) == View(Decrypt, Some(7), Initialized, Some(Encrypt), [Acquired(7)])
  {
    var a, b, c := Turned[0], Turned[1], Turned[2];
    assert Turned[..2] == [a, b] && [a, b][..1] == [a] && [a][..0] == [];
    assert Run(NewContext, []) == NewContext;
    assert Run(NewContext, [a]) == View(Encrypt, None, Unused, None, []);
    assert Run(NewContext, [a, b]) == View(Encrypt, Some(7), Initialized, Some(Encrypt), [Acquired(7)]);
  }

  /** The same in TLS mode: the session is held since there was no room for the padding. */
  const TurnedTls: seq<Call> := [OpInit(Encrypt), Update(true, false, SomeReply), OpInit(Decrypt)]

  lemma TurnedTlsView()
    ensures Run(NewContext, TurnedTls) == View(Decrypt, Some(7), Initialized, Some(Encrypt), [Acquired(7)])
  {
    var a, b, c := TurnedTls[0], TurnedTls[1], TurnedTls[2];
    assert TurnedTls[..2] == [a, b] && [a, b][..1] == [a] && [a][..0] == [];
    assert Run(NewContext, []) == NewContext;
    assert Run(NewContext, [a]) == View(Encrypt, None, Unused, None, []);
    assert Run(NewContext, [a, b]) == View(Encrypt, Some(7), Initialized, Some(Encrypt), [Acquired(7)]);
  }

  /** Freeing it, a final call and a TLS record all give the session back encrypting. */
  lemma TurnedContextLeavesOperation()
    ensures var log := [Acquired(7), Returned(7, Some(Encrypt), false)];
      && FreeStep(Run(NewContext, Turned), true).log == log
      && Run(NewContext, Turned + [Final(SomeReply)]).log == log
      && Run(NewContext, TurnedTls + [Update(true, true, SomeReply)]).log == log
  {
    TurnedView();
    TurnedTlsView();
    assert (Turned + [Final(SomeReply)])[..3] == Turned;
    assert (TurnedTls + [Update(true, true, SomeReply)])[..3] == TurnedTls;
  }

  /** So does a TLS record the token finds no room for, without any turning. */
  lemma TooSmallLeavesOperation()
    ensures Run(NewContext, [OpInit(Encrypt), Update(true, true, SomeReply.(rv := BufferTooSmall))]).log
         == [Acquired(7), Returned(7, Some(Encrypt), false)]
  {
    var a, b := OpInit(Encrypt), Update(true, true, SomeReply.(rv := BufferTooSmall));
    assert [a, b][..1] == [a] && [a][..0] == [];
    assert Run(NewContext, []) == NewContext;
    assert Run(NewContext, [a]) == View(Encrypt, None, Unused, None, []);
  }

  // ----- the context object

  /** tlsunpad with its early exits: a failing random generator leaves no length. */
  function UnpadOrFail(record: seq<byte>, version: nat, macSize: nat, random: seq<byte>, randomOk: bool): Unpadded
    requires macSize <= |random|
  {
    OrFail(Unpad(record, version, macSize, random), macSize, randomOk)
  }

  function OrFail(u: Unpadded, macSize: nat, randomOk: bool): Unpadded {
    if !u.Outside? && !u.TooSmall? && macSize > 0 && !randomOk then NoRandom else u
  }

  /** What the masked subtraction takes off a record. */
  lemma MaskedLength(pass: ulong, body: seq<byte>, macSize: nat, padsize: byte)
    requires macSize < |body| && pass == if LengthFits(body, macSize, padsize) then ALL_ONES else 0
    ensures |body| - macSize - And(pass, padsize + 1) == ContentLength(body, macSize, padsize)
    ensures var n := ContentLength(body, macSize, padsize); n + macSize <= |body| <= n + macSize + 256
  {
    And64(padsize + 1);
  }

  lemma SliceOfSlice(s: seq<byte>, off: nat, n: nat, at: nat, k: nat)
    requires off + n <= |s| && at + k <= n
    ensures s[off..off + n][at..at + k] == s[off + at..off + at + k]
  {
    var a, b := s[off..off + n][at..at + k], s[off + at..off + at + k];
    assert forall i :: 0 <= i < k ==> a[i] == b[i];
  }

  /** A cipher of whole blocks keeps the length. */
  ghost predicate KeepsLength(f: seq<byte> -> seq<byte>) {
    forall x :: |f(x)| == |x|
  }

  class CipherCtx {
    var pad: bool
    var operation: Op
    var session: Option<nat>
    var sessionState: SessionState
    var tlsver: nat
    var tlsmacsize: nat
    var tlsmac: array?<byte>
    // the token's side of the held session, and what was asked of the session pool
    var active: Option<Op>
    var log: seq<Event>

    ghost function TheView(): View
      reads this
    {
      View(operation, session, sessionState, active, log)
    }

    ghost predicate Valid()
      reads this
    {
      tlsmacsize <= EVP_MAX_MD_SIZE && Balanced(TheView())
    }

    constructor ()
      ensures Valid() && TheView() == NewContext && tlsver == 0 && tlsmacsize == 0
    {
      pad, operation, session, sessionState := true, NoOp, None, Unused;
      tlsver, tlsmacsize, tlsmac := 0, 0, null;
      active, log := None, [];
    }

    method SessionInit(r: Reply) returns (ok: bool)
      requires Valid() && session.None?
      modifies this`session, this`sessionState, this`active, this`log
      ensures Valid() && (TheView(), ok) == SessionInitStep(old(TheView()), r)
    {
      SessionInitKeepsBalance(TheView(), r);
      if r.acquire.None? { return false; }
      session := r.acquire;
      active, log := None, log + [Acquired(r.acquire.value)];
      ok := operation != NoOp && r.initOk;
      if ok {
        sessionState := Initialized;
        active := Some(operation);
      }
    }

    method ReturnSession(broken: bool)
      requires Replay(log) == Some(session) && session.Some? && tlsmacsize <= EVP_MAX_MD_SIZE
      modifies this`session, this`active, this`log
      ensures Valid() && TheView() == ReturnStep(old(TheView()), broken)
    {
      ReturnKeepsBalance(TheView(), broken);
      log := log + [Returned(session.value, active, broken)];
      session, active := None, None;
    }

    /** Removes padding and MAC from a decrypted record in out[..inlen]; the MAC buffer
        is fresh. Of an empty record the source reads octets that are not there, and the
        result says no more than that. */
    method TlsUnpad(out: array<byte>, inlen: nat, random: seq<byte>, randomOk: bool)
      returns (result: Unpadded)
      requires tlsmacsize <= EVP_MAX_MD_SIZE == |random|
      requires inlen <= out.Length && inlen % AESBLOCK == 0 && inlen < TWO_63
      modifies this`tlsmac
      ensures result.Outside? <==> inlen == 0
      ensures result == UnpadOrFail(out[..inlen], tlsver, tlsmacsize, random, randomOk)
      ensures result.Accepted? && tlsmacsize > 0 ==> tlsmac != null && tlsmac[..] == result.mac
      ensures tlsmac != old(tlsmac) ==> tlsmac != null && fresh(tlsmac) && tlsmac.Length == tlsmacsize
    {
      if inlen == 0 { return Outside; }
      var off, olen := 0, inlen;
      if tlsver != TLS1_0 {
        off, olen := AESBLOCK, inlen - AESBLOCK;
      }
      ghost var record := out[..inlen];
      assert Body(record, tlsver) == out[off..off + olen];
      result := UnpadInPlace(out, off, olen, out[inlen - 1], random, randomOk);
      assert out[..inlen] == record;
    }

    /** The same behind the explicit IV. */
    method UnpadInPlace(out: array<byte>, off: nat, olen: nat, padsize: byte, random: seq<byte>, randomOk: bool)
      returns (result: Unpadded)
      requires tlsmacsize <= EVP_MAX_MD_SIZE == |random|
      requires off + olen <= out.Length && olen < TWO_63 && (olen > 0 ==> padsize == out[off + olen - 1])
      modifies this`tlsmac
      ensures result == OrFail(UnpadBody(out[off..off + olen], padsize, tlsmacsize, random), tlsmacsize, randomOk)
      ensures result.Accepted? && tlsmacsize > 0 ==> tlsmac != null && tlsmac[..] == result.mac
      ensures tlsmac != old(tlsmac) ==> tlsmac != null && fresh(tlsmac) && tlsmac.Length == tlsmacsize
    {
      var overhead := tlsmacsize + 1;
      ghost var body := out[off..off + olen];
      if olen < overhead { return TooSmall; }
      var pass := PassMask(out, off, olen, overhead, padsize);
      MaskedLength(pass, body, tlsmacsize, padsize);
      var len := olen - tlsmacsize - And(pass, padsize + 1);
      if tlsmacsize > 0 {
        if !randomOk {
          tlsmac := new byte[tlsmacsize](_ => 0);
          return NoRandom;
        }
        tlsmac := CopyMac(out, off, olen, len, pass, random, tlsmacsize);
        result := Accepted(len, tlsmac[..]);
      } else if pass == ALL_ONES {
        result := Accepted(len, []);
      } else {
        result := Rejected(len);
      }
    }

    /** The MAC in a fresh zeroed buffer, or random octets of the same length. */
    static method CopyMac(out: array<byte>, off: nat, olen: nat, len: nat, pass: ulong,
                          random: seq<byte>, macSize: nat) returns (mac: array<byte>)
      requires off + olen <= out.Length && olen < TWO_63
      requires len + macSize <= olen <= len + macSize + 256 && macSize <= |random|
      requires pass == 0 || pass == ALL_ONES
      ensures fresh(mac) && mac.Length == macSize
      ensures mac[..] == if pass == 0 then random[..macSize] else out[off..off + olen][len..len + macSize]
    {
      mac := new byte[macSize](_ => 0);
      ExtractMac(out, off, olen, len, pass, random, mac);
      SliceOfSlice(out[..], off, olen, len, macSize);
      assert out[..][off + len..off + len + macSize] == out[off + len..off + len + macSize];
      assert out[..][off..off + olen] == out[off..off + olen];
    }

    /** The scan and its renormalisation; what is left is the length test. */
    static method PassMask(out: array<byte>, off: nat, olen: nat, overhead: nat, padsize: byte) returns (pass: ulong)
      requires off + olen <= out.Length && 1 <= overhead <= olen < TWO_63
      requires padsize == out[off + olen - 1]
      ensures pass == if LengthFits(out[off..off + olen], overhead - 1, padsize) then ALL_ONES else 0
    {
      var scanned := ScanPadding(out, off, olen, overhead, padsize);
      Renormalised(scanned);
      pass := EqualMask(scanned, 255);
    }

    method Fill(out: array<byte>, content: seq<byte>)
      requires |content| <= out.Length
      modifies out
      ensures out[..|content|] == content && out[|content|..] == old(out[|content|..])
    {
      forall i | 0 <= i < |content| { out[i] := content[i]; }
    }

    /** The TLS branch for encryption: pads in place and encrypts in a single shot. */
    method EncryptRecord(out: array<byte>, outsize: nat, inl: nat, cipher: seq<byte> -> seq<byte>, rv: Rv)
      returns (ok: bool, outl: nat)
      requires Valid() && session.Some? && operation == Encrypt && KeepsLength(cipher)
      requires inl <= outsize <= out.Length
      modifies this`sessionState, this`session, this`active, this`log, out
      ensures Valid()
      ensures TheView() == OperateStep(old(TheView()), true, inl + PadSize(inl) <= outsize, rv)
      ensures ok ==> outl <= out.Length && out[..outl] == cipher(Pad(old(out[..inl])))
      ensures ok <==> (inl + PadSize(inl) <= outsize && old(active) == Some(Encrypt) && rv == CallOk)
      ensures forall k :: 0 <= k < out.Length && (k >= inl + PadSize(inl) || inl + PadSize(inl) > outsize) ==>
                out[k] == old(out[k])
    {
      var padsize := PadSize(inl);
      if outsize < inl + padsize { return false, 0; }
      var inlen := inl + padsize;
      ghost var data := out[..inl];
      var i := inl;
      while i < inlen
        modifies out
        invariant inl <= i <= inlen
        invariant out[..inl] == data
        invariant forall k :: inlen <= k < out.Length ==> out[k] == old(out[k])
        invariant forall k :: inl <= k < i ==> out[k] == padsize - 1
      {
        out[i] := padsize - 1;
        i := i + 1;
      }
      assert out[..inlen] == Pad(data);
      ok := active == Some(Encrypt) && rv == CallOk;
      if ok {
        ghost var tail := out[inlen..];
        Fill(out, cipher(out[..inlen]));
        assert forall k :: inlen <= k < out.Length ==> out[k] == out[inlen..][k - inlen] == tail[k - inlen];
      }
      outl := inlen;
      sessionState := Finalized;
      active := AfterClosing(active, operation, rv);
      ReturnSession(false);
    }

    /** The TLS branch for decryption: decrypts in a single shot and removes the padding. What
        the source does with an empty record that the token decrypts is not defined. */
    method DecryptRecord(out: array<byte>, inl: nat, cipher: seq<byte> -> seq<byte>, rv: Rv,
                         random: seq<byte>, randomOk: bool)
      returns (ok: bool, outl: nat, defined: bool)
      requires Valid() && session.Some? && operation == Decrypt && KeepsLength(cipher)
      requires inl <= out.Length && inl < TWO_63 && |random| == EVP_MAX_MD_SIZE
      modifies this`sessionState, this`session, this`active, this`log, this`tlsmac, out
      ensures Valid()
      ensures TheView() == OperateStep(old(TheView()), true, inl % AESBLOCK == 0, rv)
      ensures defined <==> !(inl == 0 && CallRv(old(active), Decrypt, rv) == CallOk)
      ensures ok <==> (inl % AESBLOCK == 0 && old(active) == Some(Decrypt) && rv == CallOk
        && UnpadOrFail(cipher(old(out[..inl])), tlsver, tlsmacsize, random, randomOk).Accepted?)
      // no MAC of an earlier record is left
      ensures inl % AESBLOCK == 0 && old(active) == Some(Decrypt) && rv == CallOk ==> tlsmac == null || fresh(tlsmac)
      ensures ok ==> var u := UnpadOrFail(cipher(old(out[..inl])), tlsver, tlsmacsize, random, randomOk);
        out[..inl] == cipher(old(out[..inl])) && outl == u.len
        && (tlsmacsize > 0 ==> tlsmac != null && tlsmac[..] == u.mac)
    {
      if inl % AESBLOCK != 0 { return false, 0, true; }
      ghost var plain := cipher(out[..inl]);
      ok := active == Some(Decrypt) && rv == CallOk;
      if ok { Fill(out, cipher(out[..inl])); }
      sessionState := Finalized;
      active := AfterClosing(active, operation, rv);
      ReturnSession(false);
      if !ok { return false, 0, true; }
      assert out[..inl] == plain;
      tlsmac := null;
      var u := TlsUnpad(out, inl, random, randomOk);
      assert out[..inl] == plain;
      ok, defined := u.Accepted?, !u.Outside?;
      outl := if ok then u.len else 0;
    }

    /** The operation of update, with a session held. */
    method Operate(out: array<byte>, outsize: nat, inl: nat, rv: Rv,
                   cipher: seq<byte> -> seq<byte>, part: seq<byte>, random: seq<byte>, randomOk: bool)
      returns (ok: bool, outl: nat, defined: bool)
      requires Valid() && session.Some? && KeepsLength(cipher) && |random| == EVP_MAX_MD_SIZE
      requires |part| <= outsize <= out.Length
      requires tlsver != 0 ==> inl <= outsize && inl < TWO_63
      modifies this`sessionState, this`session, this`active, this`log, this`tlsmac, out
      ensures Valid()
      ensures TheView() == OperateStep(old(TheView()), tlsver != 0, old(RecordFits(outsize, inl)), rv)
      ensures defined <==> !(tlsver != 0 && inl == 0 && CallsDecrypt(old(TheView()), rv))
      // outside TLS mode: the token's part call succeeds, or nothing is written
      ensures tlsver == 0 ==> (ok <==> operation != NoOp && old(active) == Some(operation) && rv == CallOk)
      ensures tlsver == 0 ==> if ok then outl == |part| && out[..outl] == part && out[outl..] == old(out[outl..])
                              else out[..] == old(out[..])
      // in TLS mode: the record fits, the call succeeds, and what is decrypted can be unpadded
      ensures tlsver != 0 && operation == Encrypt ==>
        (ok <==> inl + PadSize(inl) <= outsize && old(active) == Some(Encrypt) && rv == CallOk)
      ensures tlsver != 0 && operation == Decrypt ==>
        (ok <==> && inl % AESBLOCK == 0 && old(active) == Some(Decrypt) && rv == CallOk
                 && UnpadOrFail(cipher(old(out[..inl])), tlsver, tlsmacsize, random, randomOk).Accepted?)
      ensures tlsver != 0 && operation == NoOp ==> !ok
      ensures ok && tlsver != 0 ==> Recorded(old(out[..]), out, inl, outl, cipher, random, randomOk)
      // a record that fits ends the session, whatever the token says; else it is held on
      ensures session == if tlsver != 0 && operation != NoOp
                            && (if operation == Encrypt then inl + PadSize(inl) <= outsize else inl % AESBLOCK == 0)
                         then None else old(session)
    {
      assert inl <= outsize ==> out[..][..inl] == out[..inl];
      ok, outl, defined := false, 0, true;
      if operation == Encrypt && tlsver != 0 {
        ok, outl := EncryptRecord(out, outsize, inl, cipher, rv);
      } else if operation == Decrypt && tlsver != 0 {
        ok, outl, defined := DecryptRecord(out, inl, cipher, rv, random, randomOk);
      } else if operation != NoOp {
        ok := CallRv(active, operation, rv) == CallOk;
        active := AfterPart(active, operation, rv);
        if ok {
          Fill(out, part);
          outl := |part|;
        }
      }
    }

    /** Acquires a session if none is held; ok tells whether there is one to operate on. */
    method EnsureSession(r: Reply) returns (ok: bool)
      requires Valid()
      modifies this`session, this`sessionState, this`active, this`log
      ensures Valid() && (ok ==> session.Some?)
      ensures ok == HasSession(old(TheView()), r) && TheView() == WithSession(old(TheView()), r)
    {
      ok := true;
      if session.None? { ok := SessionInit(r); }
    }

    /** p11prov_cipher_update; input is the input buffer and out the output buffer. Outside
        TLS mode the token's output replaces the start of out; defined tells whether the source's
        result is. */
    method Update(out: array<byte>, outsize: nat, input: array?<byte>, inl: nat, r: Reply,
                  cipher: seq<byte> -> seq<byte>, part: seq<byte>, random: seq<byte>, randomOk: bool)
      returns (ok: bool, outl: nat, defined: bool)
      requires Valid() && KeepsLength(cipher) && |random| == EVP_MAX_MD_SIZE
      requires |part| <= outsize <= out.Length < TWO_63
      modifies this`sessionState, this`session, this`active, this`log, this`tlsmac, out
      ensures Valid()
      ensures tlsver != 0 && !RecordAccepted(out, outsize, input, inl) ==> !ok && TheView() == old(TheView())
      ensures tlsver == 0 || RecordAccepted(out, outsize, input, inl) ==>
        TheView() == UpdateStep(old(TheView()), tlsver != 0, old(RecordFits(outsize, inl)), r)
      ensures !defined <==> (
        && tlsver != 0 && inl == 0 && RecordAccepted(out, outsize, input, inl)
        && HasSession(old(TheView()), r) && CallsDecrypt(WithSession(old(TheView()), r), r.rv))
      // a session is held with the operation on it, or one is had and the operation started
      ensures tlsver == 0 ==> (ok <==> Starting(old(TheView()), operation, r) && operation != NoOp && r.rv == CallOk)
      ensures tlsver == 0 ==> if ok then outl == |part| && out[..outl] == part && out[outl..] == old(out[outl..])
                              else out[..] == old(out[..])
      // the input is the output buffer, with padding on, and the record fits
      ensures tlsver != 0 && operation == Encrypt ==>
        (ok <==> && input == out && inl <= outsize && pad && inl + PadSize(inl) <= outsize
                 && Starting(old(TheView()), Encrypt, r) && r.rv == CallOk)
      ensures tlsver != 0 && operation == Decrypt ==>
        (ok <==> && input == out && inl <= outsize && pad && inl % AESBLOCK == 0
                 && Starting(old(TheView()), Decrypt, r) && r.rv == CallOk
                 && UnpadOrFail(cipher(old(out[..])[..inl]), tlsver, tlsmacsize, random, randomOk).Accepted?)
      ensures tlsver != 0 && operation == NoOp ==> !ok
      ensures ok && tlsver != 0 ==> Recorded(old(out[..]), out, inl, outl, cipher, random, randomOk)
    {
      ok, outl, defined := false, 0, true;
      if tlsver != 0 && (input != out || outsize < inl || !pad) { return; }
      ok := EnsureSession(r);
      if ok {
        ok, outl, defined := Operate(out, outsize, inl, r.rv, cipher, part, random, randomOk);
      }
    }

    /** What the record at the front of a buffer became: padded and encrypted, or decrypted
        and, by the length returned and the MAC kept, unpadded. */
    ghost predicate Recorded(buffer: seq<byte>, out: array<byte>, inl: nat, outl: nat,
                             cipher: seq<byte> -> seq<byte>, random: seq<byte>, randomOk: bool)
      reads this, out, tlsmac
    {
      && tlsmacsize <= |random|
      && inl <= |buffer| == out.Length && outl <= out.Length
      && var given := buffer[..inl];
      && (operation == Encrypt ==> out[..outl] == cipher(Pad(given)))
      && (operation == Decrypt ==>
            && |cipher(given)| == inl && inl % AESBLOCK == 0 && inl > 0
            && var u := UnpadOrFail(cipher(given), tlsver, tlsmacsize, random, randomOk);
            && u.Accepted? && out[..inl] == cipher(given) && outl == u.len
            && (tlsmacsize > 0 ==> tlsmac != null && tlsmac[..] == u.mac))
    }

    predicate RecordAccepted(out: array<byte>, outsize: nat, input: array?<byte>, inl: nat)
      reads this
    {
      input == out && inl <= outsize && pad
    }

    predicate RecordFits(outsize: nat, inl: nat)
      reads this
    {
      if operation == Encrypt then inl + PadSize(inl) <= outsize else inl % AESBLOCK == 0
    }

    method Finish(r: Reply) returns (ok: bool)
      requires Valid()
      modifies this`sessionState, this`session, this`active, this`log
      ensures Valid() && TheView() == FinalStep(old(TheView()), r) && session.None?
      ensures ok <==> old(session).Some? && old(operation) != NoOp && old(active) == Some(operation) && r.rv == CallOk
    {
      if session.None? { return false; }
      ok := operation != NoOp && CallRv(active, operation, r.rv) == CallOk;
      sessionState := Finalized;
      active := AfterClosing(active, operation, r.rv);
      ReturnSession(false);
    }

    /** freectx: a hanging operation is cancelled by a null initialisation, then by
        C_SessionCancel; failing both, the session is marked broken. */
    method Free(nullInitOk: bool, sessionCancelOk: bool)
      requires Valid()
      modifies this`sessionState, this`session, this`active, this`log
      ensures TheView() == FreeStep(old(TheView()), nullInitOk || sessionCancelOk)
      ensures session.None? && Replay(log) == Some(None)
      ensures old(session).None? ==> log == old(log)
      // what goes back: cancelled in the direction of the context, or broken
      ensures old(session).Some? ==>
        var started, cancelled := old(sessionState) == Initialized, nullInitOk || sessionCancelOk;
        var left := if started && cancelled && old(active) == Some(if operation == Encrypt then Encrypt else Decrypt)
                    then None else old(active);
        log == old(log) + [Returned(old(session).value, left, started && !cancelled)]
    {
      var broken := false;
      if session.Some? {
        if sessionState == Initialized {
          var cancelled := nullInitOk;
          if !cancelled { cancelled := sessionCancelOk; }
          if cancelled && active == Some(CancelTarget(operation)) { active := None; }
          if !cancelled { broken := true; }
          sessionState := Finalized;
        }
        ReturnSession(broken);
      }
    }
  }

  /** What one context encrypts as a TLS record another one decrypts, in the same buffer: the
      length of the content and its MAC. Both go through exactly when the token calls do and
      there is room for the padding and random octets. */
  method RecordRoundTrip(e: CipherCtx, d: CipherCtx, out: array<byte>, outsize: nat,
                         ghost iv: seq<byte>, ghost content: seq<byte>, ghost mac: seq<byte>,
                         enc: seq<byte> -> seq<byte>, dec: seq<byte> -> seq<byte>,
                         inl: nat, rvEnc: Rv, rvDec: Rv, random: seq<byte>, randomOk: bool)
    returns (sent: bool, received: bool, outl: nat)
    requires e != d && e.Valid() && d.Valid() && e.session.Some? && d.session.Some?
    requires e.operation == Encrypt && e.active == Some(Encrypt)
    requires d.operation == Decrypt && d.active == Some(Decrypt)
    requires KeepsLength(enc) && KeepsLength(dec) && forall x :: dec(enc(x)) == x
    requires inl <= outsize <= out.Length < TWO_63 && out[..inl] == iv + content + mac
    requires (if d.tlsver == TLS1_0 then iv == [] else |iv| == AESBLOCK) && |mac| == d.tlsmacsize
    requires |random| == EVP_MAX_MD_SIZE
    modifies e`sessionState, e`session, e`active, e`log
    modifies d`sessionState, d`session, d`active, d`log, d`tlsmac, out
    ensures sent <==> rvEnc == CallOk && inl + PadSize(inl) <= outsize
    ensures received <==> sent && rvDec == CallOk && (|mac| == 0 || randomOk)
    ensures received ==> outl == |content| && (|mac| > 0 ==> d.tlsmac != null && d.tlsmac[..] == mac)
    ensures received ==> e.session.None? && d.session.None?
  {
    ghost var record := Pad(iv + content + mac);
    PadThenUnpad(iv, content, mac, d.tlsver, random);
    var encl;
    received, outl := false, 0;
    sent, encl := e.EncryptRecord(out, outsize, inl, enc, rvEnc);
    if !sent { return; }
    assert out[..encl] == enc(record);
    var defined;
    received, outl, defined := d.DecryptRecord(out, encl, dec, rvDec, random, randomOk);
  }
}
