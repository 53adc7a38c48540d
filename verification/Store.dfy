/** The store context: objects are gathered from every slot once, and then handed out one
    by one until the end is reported. */
module Store {
  import opened Common
  import opened SlotWalk

  /** An object found: whether it passes the search filters, whether it can be described
      to the caller, and whether the caller's callback takes it. */
  datatype Item = Item(id: nat, matches: bool, describable: bool, taken: bool)

  /** A token: its slot and the outcome of searching it for objects. */
  datatype Token = Token(slot: Slot, findOk: bool, items: seq<Item>)

  datatype Load = NotLoaded | Loaded | Failed

  function SlotsOf(ts: seq<Token>): seq<Slot> {
    seq(|ts|, i requires 0 <= i < |ts| => ts[i].slot)
  }

  // ----- what a pass over the slots gathers

  /** The objects of the tokens visited from position k on, in list order. */
  function Gathered(ts: seq<Token>, k: nat): seq<Item>
    decreases |ts| - k
  {
    if k >= |ts| then []
    else (if ts[k].slot.viable && ts[k].slot.acquires then ts[k].items else []) + Gathered(ts, k + 1)
  }

  /** Whether one of the visited tokens was searched without error. */
  predicate AnySearched(ts: seq<Token>, k: nat)
    decreases |ts| - k
  {
    k < |ts| && ((ts[k].slot.viable && ts[k].slot.acquires && ts[k].findOk) || AnySearched(ts, k + 1))
  }

  lemma {:induction false} GatheredSkip(ts: seq<Token>, k: nat, v: nat)
    requires k <= v <= |ts|
    requires forall i :: k <= i < v ==> !ts[i].slot.viable
    ensures Gathered(ts, k) == Gathered(ts, v)
    ensures AnySearched(ts, k) == AnySearched(ts, v)
    decreases v - k
  {
    if k < v { GatheredSkip(ts, k + 1, v); }
  }

  ghost predicate Walkable(ts: seq<Token>) { Distinct(SlotsOf(ts)) && Obliging(SlotsOf(ts), 0) }

  /** One turn of the loop: a session is found on the next viable slot, whose objects are
      gathered, or the walk is over. */
  lemma Turn(ts: seq<Token>, slotid: nat, k: nat)
    requires Walkable(ts) && Seek(SlotsOf(ts), slotid) == k
    ensures var slots := SlotsOf(ts);
      var r, v := Request(slots, slotid), NextViable(slots, k);
      && (r.ok ==> v < |ts| && Seek(slots, r.slotid) == v && Gathered(ts, k) == ts[v].items + Gathered(ts, v + 1))
      && (r.ok ==> AnySearched(ts, k) == (ts[v].findOk || AnySearched(ts, v + 1)))
      && (r.ok ==> (r.next == UNAVAILABLE <==> v + 1 == |ts|))
      && (r.ok && r.next != UNAVAILABLE ==> Seek(slots, r.next) == v + 1)
      && (!r.ok ==> r.next == UNAVAILABLE && Gathered(ts, k) == [] && !AnySearched(ts, k))
  {
    var slots := SlotsOf(ts);
    var v := NextViable(slots, k);
    forall i | k <= i < v ensures !ts[i].slot.viable { assert slots[i] == ts[i].slot; }
    GatheredSkip(ts, k, v);
    if v < |ts| {
      SeekAt(slots, v);
      if v + 1 < |ts| { SeekAt(slots, v + 1); }
    }
  }

  /** A turn that gets a session gets it on the next viable slot. */
  lemma TurnAt(ts: seq<Token>, slotid: nat)
    requires Distinct(SlotsOf(ts)) && Request(SlotsOf(ts), slotid).ok
    ensures Seek(SlotsOf(ts), Request(SlotsOf(ts), slotid).slotid) < |ts|
  {
    SeekAt(SlotsOf(ts), NextViable(SlotsOf(ts), Seek(SlotsOf(ts), slotid)));
  }

  /** Between turns: position k is next, and what is gathered and what is left make up
      the whole. */
  ghost predicate Underway(ts: seq<Token>, slotid: nat, k: nat, more: bool,
                           items: seq<Item>, start: seq<Item>, searched: bool) {
    && (if more then k <= |ts| && Seek(SlotsOf(ts), slotid) == k else k == |ts|)
    && items + Gathered(ts, k) == start + Gathered(ts, 0)
    && (searched || AnySearched(ts, k)) == AnySearched(ts, 0)
  }

  lemma UnderwayStep(ts: seq<Token>, slotid: nat, k: nat, items: seq<Item>, start: seq<Item>, searched: bool)
    requires Walkable(ts) && Underway(ts, slotid, k, true, items, start, searched)
    ensures var r := Request(SlotsOf(ts), slotid);
      var at := Seek(SlotsOf(ts), r.slotid);
      if r.ok then k <= at < |ts| &&
        Underway(ts, r.next, at + 1, r.next != UNAVAILABLE, items + ts[at].items, start, searched || ts[at].findOk)
      else r.next == UNAVAILABLE && Underway(ts, r.slotid, |ts|, false, items + [], start, searched)
  {
    Turn(ts, slotid, k);
    var v := NextViable(SlotsOf(ts), k);
    if v < |ts| { Regroup(items, ts[v].items, Gathered(ts, v + 1)); }
    assert items + [] == items;
  }

  lemma UnderwayEnd(ts: seq<Token>, slotid: nat, k: nat, items: seq<Item>, start: seq<Item>, searched: bool)
    requires Underway(ts, slotid, k, false, items, start, searched)
    ensures items == start + Gathered(ts, 0) && searched == AnySearched(ts, 0)
  {
    assert items + [] == items;
  }

  /** Nothing is gathered exactly when no slot that gives a session shows an object. */
  lemma {:induction false} GatheredNothingExactlyWhen(ts: seq<Token>, k: nat)
    requires k <= |ts|
    ensures Gathered(ts, k) == []
       <==> forall i :: k <= i < |ts| && ts[i].slot.viable && ts[i].slot.acquires ==> ts[i].items == []
    decreases |ts| - k
  {
    if k < |ts| { GatheredNothingExactlyWhen(ts, k + 1); }
  }

  /** What is gathered is what those slots show. */
  lemma {:induction false} GatheredMeaning(ts: seq<Token>, k: nat, x: Item)
    requires k <= |ts|
    ensures x in Gathered(ts, k)
       <==> exists i :: k <= i < |ts| && ts[i].slot.viable && ts[i].slot.acquires && x in ts[i].items
    decreases |ts| - k
  {
    if k < |ts| { GatheredMeaning(ts, k + 1, x); }
  }

  lemma {:induction false} AnySearchedMeaning(ts: seq<Token>, k: nat)
    requires k <= |ts|
    ensures AnySearched(ts, k)
       <==> exists i :: k <= i < |ts| && ts[i].slot.viable && ts[i].slot.acquires && ts[i].findOk
    decreases |ts| - k
  {
    if k < |ts| { AnySearchedMeaning(ts, k + 1); }
  }

  /** How tokens answer, without and with a login. */
  datatype World = World(plain: seq<Token>, loggedIn: seq<Token>)

  // ----- what handing out means

  predicate Deliverable(i: Item) { i.matches && i.describable }

  function Deliveries(items: seq<Item>): seq<Item> {
    if items == [] then []
    else (if Deliverable(items[0]) then [items[0]] else []) + Deliveries(items[1..])
  }

  /** The first match, or the end. */
  function FirstMatch(items: seq<Item>): (n: nat)
    ensures n <= |items|
    ensures n < |items| ==> items[n].matches
    ensures forall i :: 0 <= i < n ==> !items[i].matches
  {
    if items == [] || items[0].matches then 0 else 1 + FirstMatch(items[1..])
  }

  /** Handing out succeeds throughout when the last object matches and every match can be
      described and is taken. */
  predicate AllWell(items: seq<Item>) {
    items != [] && items[|items| - 1].matches
    && forall i :: 0 <= i < |items| && items[i].matches ==> items[i].describable && items[i].taken
  }

  lemma {:induction false} DeliveriesSkip(items: seq<Item>, n: nat)
    requires n <= |items| && forall i :: 0 <= i < n ==> !items[i].matches
    ensures Deliveries(items) == Deliveries(items[n..])
  {
    if n > 0 {
      DeliveriesSkip(items[1..], n - 1);
      assert items[1..][n - 1..] == items[n..];
    } else {
      assert items[0..] == items;
    }
  }

  /** What is to be delivered: the matches that can be described, as often as they are there, and
      in the order in which they are there. */
  lemma {:induction false} DeliveriesMeaning(items: seq<Item>, x: Item)
    ensures multiset(Deliveries(items))[x] == if x.matches && x.describable then multiset(items)[x] else 0
    ensures x in Deliveries(items) <==> x in items && x.matches && x.describable
  {
    if items != [] {
      assert items == [items[0]] + items[1..];
      DeliveriesMeaning(items[1..], x);
    }
  }

  lemma {:induction false} DeliveriesOrdered(items: seq<Item>, more: seq<Item>)
    ensures Deliveries(items + more) == Deliveries(items) + Deliveries(more)
  {
    if items == [] {
      assert items + more == more;
    } else {
      assert (items + more)[1..] == items[1..] + more;
      DeliveriesOrdered(items[1..], more);
      Regroup(if Deliverable(items[0]) then [items[0]] else [], Deliveries(items[1..]), Deliveries(more));
    }
  }

  /** One load: the position reached, what was delivered, and what the caller is told. */
  datatype Hand = Hand(fetched: nat, delivered: seq<Item>, ok: bool)

  function HandOut(items: seq<Item>, from: nat, delivered: seq<Item>): Hand
    requires from <= |items|
  {
    var rest := items[from..];
    var n := FirstMatch(rest);
    if n == |rest| then Hand(|items|, delivered, false)
    else Hand(from + n + 1, delivered + (if Deliverable(rest[n]) then [rest[n]] else []),
              rest[n].describable && rest[n].taken)
  }

  class StoreCtx {
    var loaded: Load
    var objects: seq<Item>
    var fetched: nat
    var session: bool
    var delivered: seq<Item>
    // sessions taken from and given back to the pools
    var acquired: nat
    var returned: nat

    ghost predicate Valid()
      reads this
    {
      fetched <= |objects| && acquired == returned + (if session then 1 else 0)
    }

    constructor ()
      ensures Valid() && loaded == NotLoaded && objects == [] && fetched == 0 && delivered == [] && !session
    {
      loaded, objects, fetched, session, delivered := NotLoaded, [], 0, false, [];
      acquired, returned := 0, 0;
    }

    method ReleaseSession()
      requires Valid()
      modifies this`session, this`returned
      ensures Valid() && !session
    {
      if session {
        session := false;
        returned := returned + 1;
      }
    }

    /** One turn of the loop of store_fetch: the session of the turn before is given back,
        and the objects of the next token are gathered. */
    method TakeTurn(ts: seq<Token>, slotid: nat, prompter: bool) returns (r: Reply, at: nat)
      requires Valid() && Distinct(SlotsOf(ts))
      modifies this`loaded, this`objects, this`session, this`acquired, this`returned
      ensures Valid() && r == Request(SlotsOf(ts), slotid)
      ensures r.ok ==> at < |ts| && at == Seek(SlotsOf(ts), r.slotid)
      ensures objects == old(objects) + if r.ok then ts[at].items else []
      ensures loaded == Loaded <==> old(loaded) == Loaded || (r.ok && ts[at].findOk)
    {
      ReleaseSession();
      r := GetSession(SlotsOf(ts), slotid);
      at := 0;
      if r.ok {
        TurnAt(ts, slotid);
        session, acquired := true, acquired + 1;
        at := Seek(SlotsOf(ts), r.slotid);
        objects := objects + ts[at].items;
        if ts[at].findOk { loaded := Loaded; }
      } else {
        assert objects + [] == objects;
        if prompter && loaded == NotLoaded { loaded := Failed; }
      }
    }

    /** One pass of store_fetch over the slots. */
    method Pass(ts: seq<Token>, prompter: bool)
      requires Valid() && Walkable(ts) && loaded == NotLoaded
      modifies this`loaded, this`objects, this`session, this`acquired, this`returned
      ensures Valid() && objects == old(objects) + Gathered(ts, 0)
      ensures loaded == Loaded <==> AnySearched(ts, 0)
    {
      var slotid: nat, more := UNAVAILABLE, true;
      ghost var k: nat := 0;
      assert Underway(ts, slotid, k, more, objects, old(objects), false);
      while more
        modifies this`loaded, this`objects, this`session, this`acquired, this`returned
        invariant Valid() && Underway(ts, slotid, k, more, objects, old(objects), loaded == Loaded)
        decreases more, |ts| - k
      {
        UnderwayStep(ts, slotid, k, objects, old(objects), loaded == Loaded);
        var r, at := TakeTurn(ts, slotid, prompter);
        slotid := if r.ok then r.next else r.slotid;
        more := r.next != UNAVAILABLE;
        k := if r.ok then at + 1 else |ts|;
      }
      UnderwayEnd(ts, slotid, k, objects, old(objects), loaded == Loaded);
    }

    /** store_fetch; afterwards the store is loaded or has failed. */
    method StoreFetch(w: World, login: bool, never: bool, prompter: bool)
      requires Valid() && loaded == NotLoaded && objects == []
      requires Walkable(w.plain) && Walkable(w.loggedIn)
      modifies this`loaded, this`objects, this`session, this`acquired, this`returned
      ensures Valid()
      // asked for, or with nothing found and a login not ruled out, the tokens are seen logged in
      ensures login || (!never && Gathered(w.plain, 0) == []) ==>
        objects == Gathered(w.loggedIn, 0) && loaded == if AnySearched(w.loggedIn, 0) then Loaded else Failed
      ensures !login && (never || Gathered(w.plain, 0) != []) ==>
        objects == Gathered(w.plain, 0) && loaded == if AnySearched(w.plain, 0) then Loaded else Failed
    {
      Pass(if login then w.loggedIn else w.plain, prompter);
      if !login && |objects| == 0 && !never {
        loaded := NotLoaded;
        Pass(w.loggedIn, prompter);
      }
      if loaded == NotLoaded { loaded := Failed; }
    }

    /** p11prov_store_load: hands out the next match; ok is what the caller is told. */
    method StoreLoad(w: World, login: bool, never: bool, prompter: bool) returns (ok: bool)
      requires Valid()
      requires loaded == NotLoaded ==> objects == [] && Walkable(w.plain) && Walkable(w.loggedIn)
      modifies this
      ensures Valid() && loaded != NotLoaded
      ensures old(loaded) == NotLoaded && (login || (!never && Gathered(w.plain, 0) == [])) ==>
        objects == Gathered(w.loggedIn, 0) && loaded == if AnySearched(w.loggedIn, 0) then Loaded else Failed
      ensures old(loaded) == NotLoaded && !login && (never || Gathered(w.plain, 0) != []) ==>
        objects == Gathered(w.plain, 0) && loaded == if AnySearched(w.plain, 0) then Loaded else Failed
      ensures old(loaded) != NotLoaded ==> objects == old(objects) && loaded == old(loaded)
      ensures loaded == Failed ==> !ok && fetched == old(fetched) && delivered == old(delivered)
      ensures loaded == Loaded ==>
        old(fetched) <= |objects| && Hand(fetched, delivered, ok) == HandOut(objects, old(fetched), old(delivered))
    {
      if loaded == NotLoaded { StoreFetch(w, login, never, prompter); }
      if loaded != Loaded { return false; }
      ok := NextOne();
    }

    /** The next match among the objects loaded. */
    method NextOne() returns (ok: bool)
      requires Valid()
      modifies this`fetched, this`delivered
      ensures Valid() && old(fetched) <= |objects|
      ensures Hand(fetched, delivered, ok) == HandOut(objects, old(fetched), old(delivered))
    {
      ghost var rest, from := objects[fetched..], fetched;
      var found, item := false, Item(0, false, false, false);
      while fetched < |objects|
        modifies this`fetched
        invariant from <= fetched <= |objects|
        invariant !found && forall i :: 0 <= i < fetched - from ==> !rest[i].matches
      {
        item := objects[fetched];
        fetched := fetched + 1;
        if !item.matches { continue; }
        found := true;
        break;
      }
      if !found {
        FirstMatchIs(rest, |rest|);
        return false;
      }
      FirstMatchIs(rest, fetched - from - 1);
      if !item.describable { return false; }
      delivered := delivered + [item];
      ok := item.taken;
    }

    predicate Eof()
      reads this
    {
      loaded == Failed || (loaded == Loaded && fetched >= |objects|)
    }

    /** The loop of p11prov_store_direct_fetch; ts are the tokens as they are seen in the end. */
    method Drain(w: World, login: bool, never: bool, prompter: bool, ghost ts: seq<Token>) returns (ok: bool)
      requires Valid() && loaded == NotLoaded && objects == [] && fetched == 0 && delivered == [] && !session
      requires Walkable(w.plain) && Walkable(w.loggedIn)
      requires ts == if login || (!never && Gathered(w.plain, 0) == []) then w.loggedIn else w.plain
      modifies this
      ensures Valid()
      ensures AnySearched(ts, 0) ==> delivered == Deliveries(Gathered(ts, 0)) && (ok <==> AllWell(Gathered(ts, 0)))
      ensures !AnySearched(ts, 0) ==> delivered == [] && !ok
    {
      ok := true;
      var end := false;
      ghost var items := Gathered(ts, 0);
      while !end
        modifies this
        invariant Valid() && end == Eof()
        invariant loaded == NotLoaded ==> ok && objects == [] && fetched == 0 && delivered == []
        invariant loaded == Failed ==> !AnySearched(ts, 0) && !ok && delivered == []
        invariant loaded == Loaded ==>
          AnySearched(ts, 0) && objects == items && Progress(items, fetched, delivered, ok)
        decreases loaded == NotLoaded, |items| - fetched, !end
      {
        if loaded == NotLoaded { ProgressStart(items); }
        ghost var from, sofar, before := fetched, delivered, ok;
        var one := StoreLoad(w, login, never, prompter);
        if loaded == Loaded { ProgressStep(items, from, sofar, before); }
        if !one { ok := false; }
        end := Eof();
      }
      if loaded == Loaded { assert items[fetched..] == []; }
    }

    /** p11prov_store_direct_fetch: every match that can be described is handed out once, in
        order; the verdict also counts a last load that finds nothing more. */
    method DirectFetch(w: World, login: bool, never: bool, prompter: bool) returns (ok: bool)
      requires Valid() && loaded == NotLoaded && objects == [] && fetched == 0 && delivered == [] && !session
      requires Walkable(w.plain) && Walkable(w.loggedIn)
      modifies this
      ensures Valid() && acquired == returned
      ensures var ts := if login || (!never && Gathered(w.plain, 0) == []) then w.loggedIn else w.plain;
        && (AnySearched(ts, 0) ==> delivered == Deliveries(Gathered(ts, 0)) && (ok <==> AllWell(Gathered(ts, 0))))
        && (!AnySearched(ts, 0) ==> delivered == [] && !ok)
      // in particular what only a login shows is not missed, unless logging in is ruled out
      ensures (login || (!never && Gathered(w.plain, 0) == [])) && AnySearched(w.loggedIn, 0) ==>
        forall x :: x in Gathered(w.loggedIn, 0) && x.matches && x.describable ==> x in delivered
    {
      ghost var ts := if login || (!never && Gathered(w.plain, 0) == []) then w.loggedIn else w.plain;
      ok := Drain(w, login, never, prompter, ts);
      ghost var out := delivered;
      forall x | AnySearched(ts, 0) && x in Gathered(ts, 0) && x.matches && x.describable ensures x in out {
        DeliveriesMeaning(Gathered(ts, 0), x);
      }
      ReleaseSession();
    }
  }

  /** Handing out succeeds throughout exactly when the last object matches, and every object
      that matches can be described and is taken. */
  lemma AllWellMeaning(items: seq<Item>)
    ensures AllWell(items) <==>
      && items != [] && items[|items| - 1].matches
      && (forall x :: x in items && x.matches ==> x.describable && x.taken)
  {
  }

  lemma FirstMatchIs(items: seq<Item>, n: nat)
    requires n <= |items| && (forall i :: 0 <= i < n ==> !items[i].matches) && (n < |items| ==> items[n].matches)
    ensures FirstMatch(items) == n
  {
  }

  /** All matches before a position were described and taken. */
  predicate WellUpTo(items: seq<Item>, k: nat)
    requires k <= |items|
  {
    forall i :: 0 <= i < k && items[i].matches ==> items[i].describable && items[i].taken
  }

  /** Where handing out has got to: what is delivered, and the verdict so far. */
  ghost predicate Progress(items: seq<Item>, fetched: nat, delivered: seq<Item>, ok: bool) {
    && fetched <= |items|
    && delivered + Deliveries(items[fetched..]) == Deliveries(items)
    && ok == if fetched < |items| then WellUpTo(items, fetched) else AllWell(items)
  }

  ghost predicate Ready(items: seq<Item>, fetched: nat, delivered: seq<Item>, ok: bool) {
    && fetched <= |items|
    && delivered + Deliveries(items[fetched..]) == Deliveries(items)
    && ok == WellUpTo(items, fetched)
    && (fetched == |items| ==> items == [])
  }

  lemma ProgressStart(items: seq<Item>)
    ensures Ready(items, 0, [], true)
  {
    assert items[0..] == items && [] + Deliveries(items) == Deliveries(items);
  }

  lemma ProgressStep(items: seq<Item>, from: nat, delivered: seq<Item>, ok: bool)
    requires Ready(items, from, delivered, ok) || (Progress(items, from, delivered, ok) && from < |items|)
    ensures var h := HandOut(items, from, delivered);
      Progress(items, h.fetched, h.delivered, ok && h.ok) && (from < |items| ==> h.fetched > from)
  {
    var rest := items[from..];
    var n := FirstMatch(rest);
    DeliveriesSkip(rest, n);
    forall i | from <= i < from + n ensures !items[i].matches { assert items[i] == rest[i - from]; }
    if n < |rest| {
      assert rest[n] == items[from + n];
      assert rest[n..][1..] == items[from + n + 1..];
      Regroup(delivered, if Deliverable(rest[n]) then [rest[n]] else [], Deliveries(items[from + n + 1..]));
      WellNext(items, from, n);
    } else {
      assert rest[n..] == [] && items[|items|..] == [];
      assert delivered + [] == delivered;
    }
  }

  lemma WellNext(items: seq<Item>, from: nat, n: nat)
    requires from + n < |items| && items[from + n].matches
    requires forall i :: from <= i < from + n ==> !items[i].matches
    ensures WellUpTo(items, from + n + 1)
       == (WellUpTo(items, from) && items[from + n].describable && items[from + n].taken)
    ensures from + n + 1 == |items| ==> AllWell(items) == WellUpTo(items, |items|)
  {
  }
}
