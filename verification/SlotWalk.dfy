/** Walking the slot list: p11prov_get_session finds the next viable slot and tells where
    to go on; the store feeds that back to see every token. */
module SlotWalk {
  import opened Common

  /** viable: the slot passes its checks and, where asked for, the login;
      acquires: a session can be had on it. Both are stable during a walk. */
  datatype Slot = Slot(id: nat, viable: bool, acquires: bool)

  predicate Distinct(slots: seq<Slot>) {
    && (forall i :: 0 <= i < |slots| ==> slots[i].id != UNAVAILABLE)
    && (forall i, j :: 0 <= i < j < |slots| ==> slots[i].id != slots[j].id)
  }

  // ----- one request

  /** Where a request starts: at the given slot, or at the front. */
  function Seek(slots: seq<Slot>, id: nat): (k: nat)
    ensures k <= |slots|
  {
    if slots == [] || id == UNAVAILABLE || slots[0].id == id then 0 else 1 + Seek(slots[1..], id)
  }

  function NextViable(slots: seq<Slot>, from: nat): (k: nat)
    requires from <= |slots|
    ensures from <= k <= |slots|
    ensures k < |slots| ==> slots[k].viable
    ensures forall i :: from <= i < k ==> !slots[i].viable
    decreases |slots| - from
  {
    if from == |slots| || slots[from].viable then from else NextViable(slots, from + 1)
  }

  function IdAt(slots: seq<Slot>, k: nat): nat {
    if k < |slots| then slots[k].id else UNAVAILABLE
  }

  /** What a request leaves: success, the slot id, and the id to continue with. */
  datatype Reply = Reply(ok: bool, slotid: nat, next: nat)

  function Request(slots: seq<Slot>, id: nat): Reply {
    var k := NextViable(slots, Seek(slots, id));
    if k == |slots| then Reply(false, id, UNAVAILABLE)
    else Reply(slots[k].acquires, slots[k].id, IdAt(slots, k + 1))
  }

  lemma {:induction false} SeekMeaning(slots: seq<Slot>, id: nat)
    requires id != UNAVAILABLE
    ensures Seek(slots, id) < |slots| ==> slots[Seek(slots, id)].id == id
    ensures forall i :: 0 <= i < Seek(slots, id) ==> slots[i].id != id
  {
    if slots != [] && slots[0].id != id { SeekMeaning(slots[1..], id); }
  }

  lemma SeekAt(slots: seq<Slot>, k: nat)
    requires Distinct(slots) && k < |slots|
    ensures Seek(slots, slots[k].id) == k
  {
    SeekMeaning(slots, slots[k].id);
  }

  /** p11prov_fetch_slot: the slot at a caller's index, which then moves on. */
  method FetchSlot(slots: seq<Slot>, idx: int) returns (slot: int, next: int)
    ensures 0 <= idx < |slots| ==> slot == idx && next == idx + 1
    ensures !(0 <= idx < |slots|) ==> slot == -1 && next == idx
  {
    if idx < 0 || idx >= |slots| { return -1, idx; }
    return idx, idx + 1;
  }

  /** The cycling branch of p11prov_get_session, up to the session itself. */
  method GetSession(slots: seq<Slot>, slotid: nat) returns (r: Reply)
    ensures r == Request(slots, slotid)
  {
    var id := slotid;
    var found := false;
    var slot, idx := FetchSlot(slots, 0);
    ghost var start := Seek(slots, slotid);
    if slotid != UNAVAILABLE { SeekMeaning(slots, slotid); }
    while slot != -1
      invariant if slot == -1 then idx == |slots| else 0 <= slot < |slots| && idx == slot + 1
      invariant !found
      invariant id != UNAVAILABLE ==> id == slotid && forall i :: 0 <= i < idx - 1 ==> slots[i].id != slotid
      invariant id != UNAVAILABLE ==> idx - 1 <= start && (slot == -1 ==> start == |slots|)
      invariant id == UNAVAILABLE ==> start <= idx
      invariant id == UNAVAILABLE ==>
        forall i :: start <= i < (if slot == -1 then |slots| else slot) ==> !slots[i].viable
      invariant id == UNAVAILABLE && slot != -1 ==> start <= slot
      decreases |slots| - idx, slot
    {
      if id != UNAVAILABLE && id != slots[slot].id {
        slot, idx := FetchSlot(slots, idx);
        continue;
      }
      id := UNAVAILABLE;
      if !slots[slot].viable {
        slot, idx := FetchSlot(slots, idx);
        continue;
      }
      id := slots[slot].id;
      found := true;
      break;
    }
    if found {
      var nextSlot, _ := FetchSlot(slots, idx);
      var next := if nextSlot != -1 then slots[nextSlot].id else UNAVAILABLE;
      r := Reply(slots[slot].acquires, id, next);
    } else {
      r := Reply(false, slotid, UNAVAILABLE);
    }
  }

  // ----- the walk

  /** The turns of the store's loop: the slots it got a session on, or None when the fuel
      runs out first. A failed request that names a next slot is simply repeated. */
  function Walk(slots: seq<Slot>, slotid: nat, fuel: nat): Option<seq<nat>>
    decreases fuel
  {
    if fuel == 0 then None
    else
      var r := Request(slots, slotid);
      var here := if r.ok then [r.slotid] else [];
      if r.next == UNAVAILABLE then Some(here)
      else
        match Walk(slots, if r.ok then r.next else r.slotid, fuel - 1)
        case Some(rest) => Some(here + rest)
        case None => None
  }

  /** The slots to visit from position k on, in list order. */
  function Visits(slots: seq<Slot>, k: nat): seq<nat>
    decreases |slots| - k
  {
    if k >= |slots| then []
    else (if slots[k].viable && slots[k].acquires then [slots[k].id] else []) + Visits(slots, k + 1)
  }

  /** Every viable slot that is not the last of the list gives a session. */
  predicate Obliging(slots: seq<Slot>, k: nat) {
    forall i :: k <= i < |slots| - 1 && slots[i].viable ==> slots[i].acquires
  }

  lemma {:induction false} VisitsSkip(slots: seq<Slot>, k: nat, v: nat)
    requires k <= v <= |slots|
    requires forall i :: k <= i < v ==> !slots[i].viable
    ensures Visits(slots, k) == Visits(slots, v)
    decreases v - k
  {
    if k < v { VisitsSkip(slots, k + 1, v); }
  }

  ghost predicate At(slots: seq<Slot>, slotid: nat, k: nat) {
    k <= |slots| && Seek(slots, slotid) == k
  }

  /** From any position the walk ends when the rest of the list is obliging, having
      visited each viable slot once, in order. */
  lemma {:induction false} WalkEnds(slots: seq<Slot>, slotid: nat, k: nat, fuel: nat)
    requires Distinct(slots) && At(slots, slotid, k) && Obliging(slots, k)
    requires fuel > |slots| - k
    ensures Walk(slots, slotid, fuel) == Some(Visits(slots, k))
    decreases |slots| - k
  {
    var v := NextViable(slots, k);
    VisitsSkip(slots, k, v);
    if v < |slots| {
      if v + 1 < |slots| {
        SeekAt(slots, v + 1);
        WalkEnds(slots, slots[v + 1].id, v + 1, fuel - 1);
      } else {
        assert Visits(slots, v + 1) == [];
        assert Visits(slots, v) == if slots[v].acquires then [slots[v].id] else [];
      }
    }
  }

  /** A viable slot without a session, other than the last, is asked for again and again. */
  lemma {:induction false} WalkSticks(slots: seq<Slot>, v: nat, fuel: nat)
    requires Distinct(slots) && v + 1 < |slots| && slots[v].viable && !slots[v].acquires
    ensures Walk(slots, slots[v].id, fuel) == None
  {
    if fuel > 0 {
      SeekAt(slots, v);
      WalkSticks(slots, v, fuel - 1);
    }
  }

  lemma StuckAhead(slots: seq<Slot>, k: nat)
    requires k <= |slots| && !Obliging(slots, k)
    ensures var v := NextViable(slots, k);
      v + 1 < |slots| && slots[v].viable && (slots[v].acquires ==> !Obliging(slots, v + 1))
  {
    var v := NextViable(slots, k);
    var i :| k <= i < |slots| - 1 && slots[i].viable && !slots[i].acquires;
    assert v <= i;
  }

  lemma {:induction false} WalkReachesStuck(slots: seq<Slot>, slotid: nat, k: nat, fuel: nat)
    requires Distinct(slots) && At(slots, slotid, k) && !Obliging(slots, k)
    ensures Walk(slots, slotid, fuel) == None
    decreases fuel
  {
    if fuel > 0 {
      var v := NextViable(slots, k);
      StuckAhead(slots, k);
      if slots[v].acquires {
        SeekAt(slots, v + 1);
        WalkReachesStuck(slots, slots[v + 1].id, v + 1, fuel - 1);
      } else {
        WalkSticks(slots, v, fuel - 1);
      }
    }
  }

  /** The walk over all slots ends exactly when every viable slot but possibly the last of
      the list gives a session; it then visits every viable slot with a session once, in
      list order. */
  lemma WalkEndsExactlyWhen(slots: seq<Slot>)
    requires Distinct(slots)
    ensures (exists fuel: nat :: Walk(slots, UNAVAILABLE, fuel).Some?) <==> Obliging(slots, 0)
    ensures Obliging(slots, 0) ==>
      forall fuel: nat :: fuel > |slots| ==> Walk(slots, UNAVAILABLE, fuel) == Some(Visits(slots, 0))
  {
    if Obliging(slots, 0) {
      forall fuel: nat | fuel > |slots| ensures Walk(slots, UNAVAILABLE, fuel) == Some(Visits(slots, 0)) {
        WalkEnds(slots, UNAVAILABLE, 0, fuel);
      }
      assert Walk(slots, UNAVAILABLE, |slots| + 1).Some?;
    } else {
      forall fuel: nat ensures Walk(slots, UNAVAILABLE, fuel) == None {
        WalkReachesStuck(slots, UNAVAILABLE, 0, fuel);
      }
    }
  }

  /** Where the slots visited are in the list. */
  function Places(slots: seq<Slot>, k: nat): (at: seq<nat>)
    requires k <= |slots|
    ensures |at| == |Visits(slots, k)|
    ensures forall m :: 0 <= m < |at| ==> k <= at[m] < |slots|
    decreases |slots| - k
  {
    if k >= |slots| then []
    else (if slots[k].viable && slots[k].acquires then [k] else []) + Places(slots, k + 1)
  }

  /** Each slot visited gives a session, and they are visited in list order. */
  lemma {:induction false} VisitsInOrder(slots: seq<Slot>, k: nat, m: nat, n: nat)
    requires k <= |slots| && m <= n < |Places(slots, k)|
    ensures var i := Places(slots, k)[n];
      slots[i].viable && slots[i].acquires && Visits(slots, k)[n] == slots[i].id
    ensures m < n ==> Places(slots, k)[m] < Places(slots, k)[n]
    decreases |slots| - k
  {
    if k < |slots| {
      if slots[k].viable && slots[k].acquires {
        if n > 0 { VisitsInOrder(slots, k + 1, if m > 0 then m - 1 else 0, n - 1); }
      } else {
        VisitsInOrder(slots, k + 1, m, n);
      }
    }
  }

  /** With sessions on all viable slots the visits are exactly the viable slots. */
  lemma {:induction false} VisitsAreViable(slots: seq<Slot>, k: nat)
    requires k <= |slots|
    requires forall i :: 0 <= i < |slots| && slots[i].viable ==> slots[i].acquires
    ensures forall i :: k <= i < |slots| ==> (slots[i].viable ==> slots[i].id in Visits(slots, k))
    ensures forall d :: d in Visits(slots, k) ==> exists i :: k <= i < |slots| && slots[i].viable && slots[i].id == d
    decreases |slots| - k
  {
    if k < |slots| {
      VisitsAreViable(slots, k + 1);
      assert slots[k].viable ==> slots[k].id in Visits(slots, k);
    }
  }
}
