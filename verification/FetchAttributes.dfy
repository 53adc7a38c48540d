/** Fetching attributes of a token object: one batch query to size the buffers and one to
    fill them, or attribute by attribute when the token does not take the batch. */
module FetchAttributes {
  import opened Common
  import opened Words

  /** ulValueLen; Unavailable is CK_UNAVAILABLE_INFORMATION. */
  datatype Len = Unavailable | Size(n: nat)

  /** CK_ATTRIBUTE; no buffer is a null pValue. */
  datatype Attr = Attr(kind: nat, buffer: Option<seq<byte>>, len: Len)

  datatype FetchAttr = FetchAttr(attr: Attr, allocate: bool, required: bool)

  datatype Status = Fine | Sensitive | TypeInvalid | TooSmall | GeneralError

  /** A token object: the attributes it tells, those it keeps to itself, and those it
      reports unavailable without an error, which a conforming token does not do. */
  datatype Token = Token(told: map<nat, seq<byte>>, kept: set<nat>, absent: set<nat>)

  // ----- C_GetAttributeValue (section 5.7 of PKCS #11)

  function StatusOf(t: Token, a: Attr): Status {
    if a.kind !in t.told then
      (if a.kind in t.absent then Fine else if a.kind in t.kept then Sensitive else TypeInvalid)
    else if a.buffer.None? then Fine
    else if a.len.Size? && |t.told[a.kind]| <= a.len.n <= |a.buffer.value| then Fine
    else TooSmall
  }

  function Answer(t: Token, a: Attr): Attr {
    if StatusOf(t, a) != Fine || a.kind !in t.told then a.(len := Unavailable)
    else
      var v := t.told[a.kind];
      if a.buffer.None? then a.(len := Size(|v|))
      else a.(len := Size(|v|), buffer := Some(v + a.buffer.value[|v|..]))
  }

  /** The token chooses which of several errors it reports; it reports one that occurs. */
  ghost predicate Conforming(pick: seq<Status> -> Status) {
    forall ss :: if forall i :: 0 <= i < |ss| ==> ss[i] == Fine then pick(ss) == Fine
                 else pick(ss) != Fine && pick(ss) in ss
  }

  method GetAttributeValue(t: Token, pick: seq<Status> -> Status, q: seq<Attr>)
    returns (rv: Status, r: seq<Attr>)
    requires Conforming(pick)
    ensures |r| == |q| && forall i :: 0 <= i < |q| ==> r[i] == Answer(t, q[i])
    ensures rv == pick(Statuses(t, q))
    ensures rv == Fine <==> forall i :: 0 <= i < |q| ==> StatusOf(t, q[i]) == Fine
    ensures rv != Fine ==> exists i :: 0 <= i < |q| && StatusOf(t, q[i]) == rv
  {
    r := seq(|q|, i requires 0 <= i < |q| => Answer(t, q[i]));
    rv := pick(Statuses(t, q));
    assert forall i :: 0 <= i < |q| ==> Statuses(t, q)[i] == StatusOf(t, q[i]);
  }

  function Statuses(t: Token, q: seq<Attr>): seq<Status> {
    seq(|q|, i requires 0 <= i < |q| => StatusOf(t, q[i]))
  }

  // ----- what fetching means

  /** The token tells the attribute, and it fits the caller's buffer if there is one. */
  predicate Readable(t: Token, f: FetchAttr) { f.attr.kind in t.told && Roomy(t, f) }

  predicate Roomy(t: Token, f: FetchAttr) {
    f.attr.kind in t.told && f.attr.buffer.Some? ==> f.attr.len.Size? && |t.told[f.attr.kind]| <= f.attr.len.n
  }

  /** Buffers to allocate start out null; the caller's own are as long as they say. */
  predicate Prepared(t: Token, f: FetchAttr) {
    if f.allocate then f.attr.buffer.None? && f.attr.len == Size(0)
    else f.attr.buffer.Some? && f.attr.len.Size? && f.attr.len.n <= |f.attr.buffer.value|
  }

  function Zeros(n: nat): seq<byte> { seq(n, _ => 0) }

  /** Not readable, but no error for the token. */
  predicate Absent(t: Token, f: FetchAttr) { f.attr.kind !in t.told && f.attr.kind in t.absent }

  /** A readable attribute carries the token's octets, followed by a zero if it was
      allocated; another one keeps its buffer, and is marked unavailable by the path that
      goes one by one. */
  function Fetched(t: Token, f: FetchAttr, batch: bool): FetchAttr
    requires Prepared(t, f)
  {
    if !Readable(t, f) then (if batch then f else f.(attr := f.attr.(len := Unavailable)))
    else
      var v := t.told[f.attr.kind];
      var rest := if f.allocate then [0] else f.attr.buffer.value[|v|..];
      f.(attr := f.attr.(len := Size(|v|), buffer := Some(v + rest)))
  }

  /** Whether the first query of all attributes goes through. */
  predicate Batchable(t: Token, fs: seq<FetchAttr>) {
    forall i :: 0 <= i < |fs| ==> Readable(t, fs[i]) || Absent(t, fs[i])
  }

  predicate AllPrepared(t: Token, fs: seq<FetchAttr>) {
    forall i :: 0 <= i < |fs| ==> Prepared(t, fs[i])
  }

  /** What a fetch promises: every required attribute is readable. */
  predicate Promised(t: Token, fs: seq<FetchAttr>) {
    forall i :: 0 <= i < |fs| && fs[i].required ==> Readable(t, fs[i])
  }

  /** What going one by one settles for. */
  predicate Tolerated(t: Token, fs: seq<FetchAttr>) {
    forall i :: 0 <= i < |fs| && fs[i].required ==> Readable(t, fs[i]) || Absent(t, fs[i])
  }

  function Attrs(fs: seq<FetchAttr>): seq<Attr> { seq(|fs|, i requires 0 <= i < |fs| => fs[i].attr) }

  /** What the token says to the query of all attributes. */
  function FirstAnswer(t: Token, pick: seq<Status> -> Status, fs: seq<FetchAttr>): Status {
    pick(Statuses(t, Attrs(fs)))
  }

  lemma StatusMeaning(t: Token, f: FetchAttr)
    requires Prepared(t, f)
    ensures StatusOf(t, f.attr) == Fine <==> Readable(t, f) || Absent(t, f)
    ensures StatusOf(t, f.attr) != GeneralError
    ensures StatusOf(t, f.attr) == TooSmall ==> !Roomy(t, f)
  {
  }

  lemma FirstAnswerMeaning(t: Token, pick: seq<Status> -> Status, fs: seq<FetchAttr>)
    requires Conforming(pick) && AllPrepared(t, fs)
    ensures FirstAnswer(t, pick, fs) == Fine <==> Batchable(t, fs)
    ensures FirstAnswer(t, pick, fs) != GeneralError
    ensures FirstAnswer(t, pick, fs) == TooSmall ==> exists i :: 0 <= i < |fs| && !Roomy(t, fs[i])
  {
    var ss := Statuses(t, Attrs(fs));
    forall i | 0 <= i < |fs|
      ensures ss[i] == StatusOf(t, fs[i].attr) && ss[i] != GeneralError
      ensures ss[i] == Fine <==> Readable(t, fs[i]) || Absent(t, fs[i])
      ensures ss[i] == TooSmall ==> !Roomy(t, fs[i])
    {
      StatusMeaning(t, fs[i]);
    }
  }

  /** When the fetch succeeds. */
  predicate Succeeds(t: Token, pick: seq<Status> -> Status, fs: seq<FetchAttr>) {
    if Batchable(t, fs) then Promised(t, fs)
    else |fs| > 1 && Tolerated(t, fs) && FirstAnswer(t, pick, fs) != TooSmall
  }

  /** With a conforming token and more than one attribute, success means that every
      required attribute is readable, unless the token's answer to the query of all of them
      is that a buffer is too small. */
  lemma ConformingVerdict(t: Token, pick: seq<Status> -> Status, fs: seq<FetchAttr>)
    requires t.absent == {} && |fs| > 1
    ensures Succeeds(t, pick, fs) <==> Promised(t, fs) && (Batchable(t, fs) || FirstAnswer(t, pick, fs) != TooSmall)
  {
    assert forall i :: 0 <= i < |fs| ==> !Absent(t, fs[i]);
    if Batchable(t, fs) {
      assert Promised(t, fs);
    }
  }

  /** Where the caller's buffers are large enough the token has no reason to say so. */
  lemma RoomyVerdict(t: Token, pick: seq<Status> -> Status, fs: seq<FetchAttr>)
    requires Conforming(pick) && AllPrepared(t, fs) && t.absent == {} && |fs| > 1
    requires forall i :: 0 <= i < |fs| ==> Roomy(t, fs[i])
    ensures Succeeds(t, pick, fs) <==> Promised(t, fs)
  {
    FirstAnswerMeaning(t, pick, fs);
    ConformingVerdict(t, pick, fs);
  }

  /** With any token the verdict is off in two cases only: the token says too small to a query
      of all although every required attribute is readable; or a required attribute is
      reported unavailable without error while another one makes the query of all fail, no
      required one being worse than that. */
  lemma VerdictIsRightExactlyWhen(t: Token, pick: seq<Status> -> Status, fs: seq<FetchAttr>)
    requires |fs| > 1
    ensures (Succeeds(t, pick, fs) <==> Promised(t, fs))
       <==> (|| Batchable(t, fs)
             || (if FirstAnswer(t, pick, fs) == TooSmall then !Promised(t, fs)
                 else !Tolerated(t, fs) || !exists i :: 0 <= i < |fs| && fs[i].required && Absent(t, fs[i])))
  {
    if i :| 0 <= i < |fs| && fs[i].required && Absent(t, fs[i]) {
      assert !Readable(t, fs[i]) && !Promised(t, fs);
    }
  }

  // ----- the same over all answers a token may give

  /** The token keeps the attribute to itself, or does not know it. */
  predicate Refused(t: Token, f: FetchAttr) { f.attr.kind !in t.told && f.attr.kind !in t.absent }

  /** An optional attribute can make the fetch fail: the caller's buffer for it is too small,
      with every required attribute readable. */
  ghost predicate SmallBufferSpoils(t: Token, fs: seq<FetchAttr>) {
    Promised(t, fs) && exists i :: 0 <= i < |fs| && !Roomy(t, fs[i])
  }

  /** A required attribute can be missed: it is reported unavailable without error, none is
      worse than that, and some attribute is refused. */
  ghost predicate RefusalHidesAbsence(t: Token, fs: seq<FetchAttr>) {
    && Tolerated(t, fs)
    && (exists i :: 0 <= i < |fs| && fs[i].required && Absent(t, fs[i]))
    && (exists i :: 0 <= i < |fs| && Refused(t, fs[i]))
  }

  function FirstFailing(ss: seq<Status>): (s: Status)
    ensures if forall i :: 0 <= i < |ss| ==> ss[i] == Fine then s == Fine else s != Fine && s in ss
  {
    if ss == [] then Fine else if ss[0] != Fine then ss[0] else FirstFailing(ss[1..])
  }

  /** Tokens that report one error rather than another. */
  function Preferring(s: Status, ss: seq<Status>): Status {
    if s in ss then s else FirstFailing(ss)
  }

  function ReportSmall(ss: seq<Status>): Status { Preferring(TooSmall, ss) }

  function ReportRefusal(ss: seq<Status>): Status {
    if Sensitive in ss then Sensitive else Preferring(TypeInvalid, ss)
  }

  lemma ReportsConform()
    ensures Conforming(ReportSmall) && Conforming(ReportRefusal)
  {
  }

  lemma SmallAnswered(t: Token, fs: seq<FetchAttr>, i: nat)
    requires i < |fs| && AllPrepared(t, fs) && !Roomy(t, fs[i])
    ensures FirstAnswer(t, ReportSmall, fs) == TooSmall && !Batchable(t, fs)
  {
    assert Statuses(t, Attrs(fs))[i] == TooSmall;
  }

  lemma RefusalAnswered(t: Token, fs: seq<FetchAttr>, i: nat)
    requires i < |fs| && Refused(t, fs[i])
    ensures FirstAnswer(t, ReportRefusal, fs) != TooSmall && !Batchable(t, fs)
  {
    assert Statuses(t, Attrs(fs))[i] in {Sensitive, TypeInvalid};
  }

  /** Where something fails and nothing is refused, every answer is that a buffer is too small. */
  lemma OnlySmall(t: Token, pick: seq<Status> -> Status, fs: seq<FetchAttr>)
    requires Conforming(pick) && AllPrepared(t, fs) && !Batchable(t, fs)
    requires forall i :: 0 <= i < |fs| ==> !Refused(t, fs[i])
    ensures FirstAnswer(t, pick, fs) == TooSmall
  {
    FirstAnswerMeaning(t, pick, fs);
    var ss := Statuses(t, Attrs(fs));
    forall i | 0 <= i < |fs| ensures ss[i] == StatusOf(t, fs[i].attr) && ss[i] in {Fine, TooSmall} {
      StatusMeaning(t, fs[i]);
    }
  }

  /** Success means that every required attribute is readable. */
  ghost predicate Right(t: Token, pick: seq<Status> -> Status, fs: seq<FetchAttr>) {
    Succeeds(t, pick, fs) <==> Promised(t, fs)
  }

  lemma RightUnlessSpoiled(t: Token, pick: seq<Status> -> Status, fs: seq<FetchAttr>)
    requires |fs| > 1 && AllPrepared(t, fs) && Conforming(pick)
    requires !SmallBufferSpoils(t, fs) && !RefusalHidesAbsence(t, fs)
    ensures Right(t, pick, fs)
  {
    FirstAnswerMeaning(t, pick, fs);
    if !Batchable(t, fs) && !Promised(t, fs) && Tolerated(t, fs) {
      var i :| 0 <= i < |fs| && fs[i].required && !Readable(t, fs[i]);
      assert Absent(t, fs[i]);
      OnlySmall(t, pick, fs);
    }
  }

  lemma SmallBufferIsWrong(t: Token, fs: seq<FetchAttr>)
    requires AllPrepared(t, fs) && SmallBufferSpoils(t, fs)
    ensures !Right(t, ReportSmall, fs)
  {
    var i :| 0 <= i < |fs| && !Roomy(t, fs[i]);
    SmallAnswered(t, fs, i);
  }

  lemma HiddenAbsenceIsWrong(t: Token, fs: seq<FetchAttr>)
    requires |fs| > 1 && RefusalHidesAbsence(t, fs)
    ensures !Right(t, ReportRefusal, fs)
  {
    var i :| 0 <= i < |fs| && Refused(t, fs[i]);
    RefusalAnswered(t, fs, i);
    var j :| 0 <= j < |fs| && fs[j].required && Absent(t, fs[j]);
    assert !Readable(t, fs[j]);
  }

  /** Whatever a conforming choice of errors the token makes, success means that every required
      attribute is readable, exactly when neither of the two can happen: known before the call
      from the attributes asked for and what the token has of them. */
  lemma EveryVerdictIsRightExactlyWhen(t: Token, fs: seq<FetchAttr>)
    requires |fs| > 1 && AllPrepared(t, fs)
    ensures (forall pick: seq<Status> -> Status | Conforming(pick) :: Right(t, pick, fs))
       <==> !SmallBufferSpoils(t, fs) && !RefusalHidesAbsence(t, fs)
  {
    ReportsConform();
    if SmallBufferSpoils(t, fs) {
      SmallBufferIsWrong(t, fs);
    } else if RefusalHidesAbsence(t, fs) {
      HiddenAbsenceIsWrong(t, fs);
    } else {
      forall pick: seq<Status> -> Status | Conforming(pick) ensures Right(t, pick, fs) {
        RightUnlessSpoiled(t, pick, fs);
      }
    }
  }

  /** For a single attribute there is no second path: it must be readable, or optional and
      reported unavailable without error. */
  lemma SingleVerdict(t: Token, pick: seq<Status> -> Status, f: FetchAttr)
    ensures Succeeds(t, pick, [f]) <==> Readable(t, f) || (Absent(t, f) && !f.required)
  {
    assert [f][0] == f;
  }

  // ----- the two paths, for one attribute

  /** After the first query: lengths are known, and buffers to allocate are zeroed with
      one octet to spare. */
  function Sized(t: Token, f: FetchAttr): FetchAttr
    requires Prepared(t, f)
  {
    var a := Answer(t, f.attr);
    if !Readable(t, f) then f
    else f.(attr := if f.allocate then a.(buffer := Some(Zeros(a.len.n + 1))) else a)
  }

  /** After the second query has written to the buffer. */
  function Filled(f: FetchAttr, buffer: Option<seq<byte>>): FetchAttr {
    f.(attr := f.attr.(buffer := buffer))
  }

  /** Two queries fetch: sizing first, and for allocated attributes filling then. */
  lemma TwoQueriesFetch(t: Token, f: FetchAttr, batch: bool)
    requires Prepared(t, f) && Readable(t, f)
    ensures StatusOf(t, f.attr) == Fine
    ensures !f.allocate ==> Sized(t, f) == Fetched(t, f, batch)
    ensures f.allocate ==>
      && StatusOf(t, Sized(t, f).attr) == Fine
      && f.(attr := Answer(t, Sized(t, f).attr)) == Fetched(t, f, batch)
      && Fills(t, f, Answer(t, Sized(t, f).attr).buffer)
  {
    var v := t.told[f.attr.kind];
    assert Zeros(|v| + 1)[|v|..] == [0];
  }

  /** The buffer completes the attribute, now or again. */
  ghost predicate Fills(t: Token, f: FetchAttr, buffer: Option<seq<byte>>)
    requires Prepared(t, f)
  {
    Filled(Sized(t, f), buffer) == Fetched(t, f, true) && Filled(Fetched(t, f, true), buffer) == Fetched(t, f, true)
  }

  /** What the failed batch has already written to the caller's own buffers. */
  function AfterBatch(t: Token, f: FetchAttr): FetchAttr {
    f.(attr := f.attr.(buffer := Answer(t, f.attr).buffer))
  }

  lemma BatchWritesAgree(t: Token, f: FetchAttr)
    requires Prepared(t, f)
    ensures Prepared(t, AfterBatch(t, f)) && Fetched(t, AfterBatch(t, f), false) == Fetched(t, f, false)
    ensures Readable(t, AfterBatch(t, f)) == Readable(t, f) && Absent(t, AfterBatch(t, f)) == Absent(t, f)
  {
    if Readable(t, f) && !f.allocate {
      var v, b := t.told[f.attr.kind], f.attr.buffer.value;
      assert (v + b[|v|..])[|v|..] == b[|v|..];
    }
  }

  // ----- the code

  /** The loop that sizes the buffers; r is the re-request list and whose tells which
      attribute's buffer each entry of it shares. */
  method SizeAll(attrs: array<FetchAttr>, t: Token, q: seq<Attr>) returns (rv: Status, r: seq<Attr>, whose: seq<nat>)
    requires AllPrepared(t, attrs[..]) && Batchable(t, attrs[..]) && |q| == attrs.Length
    requires forall i :: 0 <= i < attrs.Length ==> q[i] == Answer(t, attrs[i].attr)
    modifies attrs
    ensures rv == Fine <==> Promised(t, old(attrs[..]))
    ensures |r| == |whose|
    ensures forall k :: 0 <= k < |r| ==>
      && whose[k] < attrs.Length && old(attrs[..])[whose[k]].allocate && Readable(t, old(attrs[..])[whose[k]])
      && r[k] == Sized(t, old(attrs[..])[whose[k]]).attr
    ensures rv == Fine ==> forall j :: 0 <= j < attrs.Length ==> attrs[j] == Sized(t, old(attrs[..])[j])
    ensures rv == Fine ==>
      forall j :: 0 <= j < attrs.Length && old(attrs[..])[j].allocate && Readable(t, old(attrs[..])[j]) ==> j in whose
  {
    r, whose := [], [];
    ghost var before := attrs[..];
    var i := 0;
    while i < attrs.Length
      invariant 0 <= i <= attrs.Length && |r| == |whose|
      invariant forall k :: 0 <= k < |r| ==>
        && whose[k] < i && before[whose[k]].allocate && Readable(t, before[whose[k]])
        && r[k] == Sized(t, before[whose[k]]).attr
      invariant forall j :: 0 <= j < i && before[j].allocate && Readable(t, before[j]) ==> j in whose
      invariant forall j :: 0 <= j < i && before[j].required ==> Readable(t, before[j])
      invariant forall j :: 0 <= j < attrs.Length ==> attrs[j] == if j < i then Sized(t, before[j]) else before[j]
    {
      var a := q[i];
      if Readable(t, before[i]) { TwoQueriesFetch(t, before[i], true); }
      if a.len == Unavailable {
        if attrs[i].required { return GeneralError, r, whose; }
        i := i + 1;
        continue;
      }
      if attrs[i].allocate {
        a := a.(buffer := Some(Zeros(a.len.n + 1)));
        r, whose := r + [a], whose + [i];
      }
      attrs[i] := attrs[i].(attr := a);
      i := i + 1;
    }
    rv := Fine;
  }

  /** The batch path, after a successful first query. */
  method FetchBatch(attrs: array<FetchAttr>, t: Token, pick: seq<Status> -> Status, q: seq<Attr>)
    returns (rv: Status)
    requires Conforming(pick) && AllPrepared(t, attrs[..]) && Batchable(t, attrs[..]) && |q| == attrs.Length
    requires forall i :: 0 <= i < attrs.Length ==> q[i] == Answer(t, attrs[i].attr)
    modifies attrs
    ensures rv == Fine <==> Promised(t, old(attrs[..]))
    ensures rv == Fine ==> forall i :: 0 <= i < attrs.Length ==> attrs[i] == Fetched(t, old(attrs[..])[i], true)
  {
    ghost var before := attrs[..];
    var r, whose;
    rv, r, whose := SizeAll(attrs, t, q);
    if rv != Fine { return; }
    forall j | 0 <= j < attrs.Length && !(before[j].allocate && Readable(t, before[j]))
      ensures attrs[j] == Fetched(t, before[j], true)
    {
      if Readable(t, before[j]) { TwoQueriesFetch(t, before[j], true); }
    }
    if |r| > 0 {
      forall k | 0 <= k < |r|
        ensures StatusOf(t, r[k]) == Fine && Fills(t, before[whose[k]], Answer(t, r[k]).buffer)
      {
        TwoQueriesFetch(t, before[whose[k]], true);
      }
      var filled;
      rv, filled := GetAttributeValue(t, pick, r);
      FillAll(attrs, t, whose, filled, before);
    }
  }

  /** The second query writes through the buffers the re-request list shares. */
  method FillAll(attrs: array<FetchAttr>, t: Token, whose: seq<nat>, filled: seq<Attr>, ghost before: seq<FetchAttr>)
    requires AllPrepared(t, before) && |before| == attrs.Length && |filled| == |whose|
    requires forall j :: 0 <= j < attrs.Length ==> attrs[j] == Sized(t, before[j])
    requires forall j :: 0 <= j < attrs.Length ==> attrs[j] == Fetched(t, before[j], true) || j in whose
    requires forall k :: 0 <= k < |whose| ==> whose[k] < attrs.Length && Fills(t, before[whose[k]], filled[k].buffer)
    modifies attrs
    ensures forall j :: 0 <= j < attrs.Length ==> attrs[j] == Fetched(t, before[j], true)
  {
    var k := 0;
    while k < |whose|
      invariant 0 <= k <= |whose|
      invariant forall j :: 0 <= j < attrs.Length ==>
        attrs[j] == Sized(t, before[j]) || attrs[j] == Fetched(t, before[j], true)
      invariant forall j :: 0 <= j < attrs.Length ==> attrs[j] == Fetched(t, before[j], true) || j in whose[k..]
    {
      assert whose[k..] == [whose[k]] + whose[k + 1..];
      attrs[whose[k]] := Filled(attrs[whose[k]], filled[k].buffer);
      k := k + 1;
    }
  }

  /** One turn of the one-by-one loop; ok tells whether the fetch goes on. */
  method FetchOne(t: Token, pick: seq<Status> -> Status, f: FetchAttr) returns (g: FetchAttr, rv: Status, ok: bool)
    requires Conforming(pick) && Prepared(t, f)
    ensures ok <==> (f.required ==> Readable(t, f) || Absent(t, f))
    ensures ok ==> g == Fetched(t, f, false)
    ensures !ok ==> rv != Fine
  {
    g, ok := f, true;
    var a;
    if Readable(t, f) { TwoQueriesFetch(t, f, false); }
    if f.allocate {
      rv, a := GetAttributeValue(t, pick, [f.attr]);
      g := f.(attr := a[0]);
      if rv != Fine { return g, rv, !f.required; }
      if a[0].len == Unavailable { return; }
      g := g.(attr := a[0].(buffer := Some(Zeros(a[0].len.n + 1))));
    }
    rv, a := GetAttributeValue(t, pick, [g.attr]);
    g := g.(attr := a[0]);
    if rv != Fine {
      if f.required { return g, rv, false; }
      if f.allocate && g.attr.buffer.Some? { g := g.(attr := g.attr.(buffer := None, len := Unavailable)); }
    }
  }

  /** p11prov_fetch_attributes. */
  method Fetch(attrs: array<FetchAttr>, t: Token, pick: seq<Status> -> Status) returns (rv: Status)
    requires Conforming(pick) && AllPrepared(t, attrs[..])
    modifies attrs
    ensures rv == Fine <==> Succeeds(t, pick, old(attrs[..]))
    ensures rv == Fine ==> forall i :: 0 <= i < attrs.Length ==>
              attrs[i] == Fetched(t, old(attrs[..])[i], Batchable(t, old(attrs[..])))
    // what a readable attribute carries: the token's octets, and a zero behind them if allocated
    ensures rv == Fine ==> forall i :: 0 <= i < attrs.Length && Readable(t, old(attrs[..])[i]) ==>
              Carries(attrs[i], t.told[old(attrs[..])[i].attr.kind], old(attrs[..])[i])
    // an allocated one that is not readable has no buffer to free
    ensures rv == Fine ==> forall i :: 0 <= i < attrs.Length && attrs[i].allocate && !Readable(t, old(attrs[..])[i]) ==>
              attrs[i].attr.buffer == None
  {
    ghost var before := attrs[..];
    var q := seq(attrs.Length, i requires 0 <= i < attrs.Length reads attrs => attrs[i].attr);
    assert q == Attrs(before);
    FirstAnswerMeaning(t, pick, before);
    forall i | 0 <= i < attrs.Length
      ensures Readable(t, before[i]) ==>
                Carries(Fetched(t, before[i], Batchable(t, before)), t.told[before[i].attr.kind], before[i])
      ensures !Readable(t, before[i]) && before[i].allocate ==>
                Fetched(t, before[i], Batchable(t, before)).attr.buffer == None
    {
      FetchedCarries(t, before[i], Batchable(t, before));
    }
    rv, q := GetAttributeValue(t, pick, q);
    if rv == Fine {
      rv := FetchBatch(attrs, t, pick, q);
      return;
    }
    // the failed query has written to the caller's own buffers
    forall i | 0 <= i < attrs.Length { attrs[i] := AfterBatch(t, attrs[i]); }
    forall i | 0 <= i < attrs.Length
      ensures Prepared(t, attrs[i]) && Fetched(t, attrs[i], false) == Fetched(t, before[i], false)
      ensures Readable(t, attrs[i]) == Readable(t, before[i]) && Absent(t, attrs[i]) == Absent(t, before[i])
    {
      BatchWritesAgree(t, before[i]);
    }
    if attrs.Length > 1 && (rv == Sensitive || rv == TypeInvalid) {
      rv := OneByOne(attrs, t, pick);
    }
  }

  /** The attribute as asked for, with the value's length, and the value in its buffer: one octet
      longer, and that zero, if it was allocated, and else the caller's, unchanged behind. */
  predicate Carries(g: FetchAttr, v: seq<byte>, f: FetchAttr) {
    && g.attr.kind == f.attr.kind && g.allocate == f.allocate && g.required == f.required
    && g.attr.len == Size(|v|) && g.attr.buffer.Some?
    && var b := g.attr.buffer.value;
    && |v| <= |b| && b[..|v|] == v
    && if f.allocate then b[|v|..] == [0]
       else f.attr.buffer.Some? && |b| == |f.attr.buffer.value| && b[|v|..] == f.attr.buffer.value[|v|..]
  }

  lemma FetchedCarries(t: Token, f: FetchAttr, batch: bool)
    requires Prepared(t, f)
    ensures Readable(t, f) ==> Carries(Fetched(t, f, batch), t.told[f.attr.kind], f)
    ensures !Readable(t, f) && f.allocate ==> Fetched(t, f, batch).attr.buffer == None
  {
  }

  method OneByOne(attrs: array<FetchAttr>, t: Token, pick: seq<Status> -> Status) returns (rv: Status)
    requires Conforming(pick) && AllPrepared(t, attrs[..])
    modifies attrs
    ensures rv == Fine <==> Tolerated(t, old(attrs[..]))
    ensures rv == Fine ==> forall i :: 0 <= i < attrs.Length ==> attrs[i] == Fetched(t, old(attrs[..])[i], false)
  {
    ghost var before := attrs[..];
    var i := 0;
    while i < attrs.Length
      invariant 0 <= i <= attrs.Length
      invariant forall j :: 0 <= j < i && before[j].required ==> Readable(t, before[j]) || Absent(t, before[j])
      invariant forall j :: 0 <= j < attrs.Length ==>
        attrs[j] == if j < i then Fetched(t, before[j], false) else before[j]
    {
      var g, one, ok := FetchOne(t, pick, attrs[i]);
      attrs[i] := g;
      if !ok { return one; }
      i := i + 1;
    }
    rv := Fine;
  }
}
