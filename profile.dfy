/** The recurring-list bookkeeping of the profile dialog: item equality,
    the normal form sent to the server, list equality against the last server
    snapshot (which guards closing), local add/update and delete, and the
    create/update/delete partition computed when syncing. */
module Profile {
  import opened Wrappers
  import opened Seqs
  import opened OrderedMap
  import opened Recurrence

  /** What `x.stepUp || {}` reads as when the item has no step-up rule. */
  const EmptyStep := StepUp(false, "", "", None, None)

  function StepOf(it: RecurringItem): StepUp {
    it.stepUp.GetOr(EmptyStep)
  }

  /** The step-up half of `eqItem`: fields compared after defaulting. */
  predicate EqStep(a: StepUp, b: StepUp) {
    && a.enabled == b.enabled
    && a.mode == b.mode
    && a.every == b.every
    && a.value.GetOr(0) == b.value.GetOr(0)
    && a.from == b.from
  }

  /** `eqItem(a, b)`: false when either is missing; `Number(a.amount) ===
      Number(b.amount)` is false when either is NaN. */
  predicate EqItem(a: Option<RecurringItem>, b: Option<RecurringItem>) {
    && a.Some? && b.Some?
    && a.value.id == b.value.id
    && a.value.kind == b.value.kind
    && a.value.title == b.value.title
    && a.value.amount.Some? && a.value.amount == b.value.amount
    && a.value.recurrence == b.value.recurrence
    && a.value.startDate == b.value.startDate
    && a.value.endDate == b.value.endDate
    && EqStep(StepOf(a.value), StepOf(b.value))
  }

  /** `eqItem` is symmetric and transitive, and holds of an item and itself
      exactly when its amount is a number. */
  lemma EqItemSymmetric(a: Option<RecurringItem>, b: Option<RecurringItem>)
    ensures EqItem(a, b) <==> EqItem(b, a)
  {}

  lemma EqItemTransitive(a: Option<RecurringItem>, b: Option<RecurringItem>, c: Option<RecurringItem>)
    requires EqItem(a, b) && EqItem(b, c)
    ensures EqItem(a, c)
  {}

  lemma EqItemReflexive(x: RecurringItem)
    ensures EqItem(Some(x), Some(x)) <==> x.amount.Some?
  {}

  /** `normalizeForWire(x)`: a full step-up rule with defaults filled in. */
  function NormalizeForWire(x: RecurringItem): (r: RecurringItem)
    ensures r.id == x.id && r.kind == x.kind && r.title == x.title && r.amount == x.amount
    ensures r.recurrence == x.recurrence && r.startDate == x.startDate && r.endDate == x.endDate
    ensures r.stepUp.Some? && r.stepUp.value.mode != "" && r.stepUp.value.every != ""
    ensures r.stepUp.value.value.Some?
  {
    var step := StepOf(x);
    x.(stepUp := Some(StepUp(
      step.enabled,
      if step.mode == "" then "amount" else step.mode,
      if step.every == "" then "12m" else step.every,
      Some(step.value.GetOr(0)),
      step.from)))
  }

  /** Normalising twice is normalising once. */
  lemma NormalizeIdempotent(x: RecurringItem)
    ensures NormalizeForWire(NormalizeForWire(x)) == NormalizeForWire(x)
  {}

  /** The normal form compares equal to the item exactly when the item's
      amount is a number and its step-up rule already names a mode and a cadence. */
  lemma NormalizeEqItem(x: RecurringItem)
    ensures EqItem(Some(NormalizeForWire(x)), Some(x)) <==>
      x.amount.Some? && x.stepUp.Some? && x.stepUp.value.mode != "" && x.stepUp.value.every != ""
  {}

  /** The ids of a list, in order. */
  function Ids(s: seq<RecurringItem>): (ids: seq<string>)
    ensures |ids| == |s| && forall i :: 0 <= i < |s| ==> ids[i] == s[i].id
  {
    seq(|s|, i requires 0 <= i < |s| => s[i].id)
  }

  /** `new Map(s.map(x => [x.id, x])).get(id)`: the last item with that id. */
  function ById(s: seq<RecurringItem>, id: string): (r: Option<RecurringItem>)
    ensures r.None? <==> id !in Ids(s)
    ensures r.Some? ==> r.value in s && r.value.id == id
  {
    if s == [] then None
    else
      var init, last := s[..|s| - 1], s[|s| - 1];
      assert Ids(s) == Ids(init) + [last.id];
      if last.id == id then Some(last) else ById(init, id)
  }

  /** `isEqualList(a, b)`: same length, and every item of `a` equals the item
      the map of `b` holds for its id. */
  predicate EqualList(a: seq<RecurringItem>, b: seq<RecurringItem>) {
    |a| == |b| && forall i :: 0 <= i < |a| ==> HasEqualPartner(b, a[i])
  }

  /** The item the map of `b` holds for `x`'s id equals `x`. */
  predicate HasEqualPartner(b: seq<RecurringItem>, x: RecurringItem) {
    EqItem(Some(x), ById(b, x.id))
  }

  /** A list with distinct ids and numeric amounts equals itself: right after
      a sync refetches such a list, nothing is dirty and the dialog may close. */
  lemma EqualListReflexive(a: seq<RecurringItem>)
    requires Distinct(Ids(a))
    requires forall i :: 0 <= i < |a| ==> a[i].amount.Some?
    ensures EqualList(a, a)
  {
    forall i | 0 <= i < |a| ensures ById(a, a[i].id) == Some(a[i]) {
      ByIdDistinct(a, i);
    }
  }

  lemma {:induction false} ByIdDistinct(s: seq<RecurringItem>, i: int)
    requires Distinct(Ids(s)) && 0 <= i < |s|
    ensures ById(s, s[i].id) == Some(s[i])
    decreases |s|
  {
    var init := s[..|s| - 1];
    if i < |s| - 1 {
      assert Ids(s)[i] != Ids(s)[|s| - 1];
      assert Ids(init) == Ids(s)[..|s| - 1];
      ByIdDistinct(init, i);
    }
  }

  /** `isEqualList` as written: build the map of `b`, then scan `a` and stop
      at the first item without an equal partner. */
  method IsEqualList(a: seq<RecurringItem>, b: seq<RecurringItem>) returns (eq: bool)
    ensures eq == EqualList(a, b)
  {
    if |a| != |b| { return false; }
    var mapB := IdMap(b);
    for i := 0 to |a|
      invariant forall j :: 0 <= j < i ==> HasEqualPartner(b, a[j])
    {
      var other := if a[i].id in mapB then Some(mapB[a[i].id]) else None;
      assert other == ById(b, a[i].id);
      if !EqItem(Some(a[i]), other) {
        assert !HasEqualPartner(b, a[i]);
        return false;
      }
    }
    return true;
  }

  /** `new Map(b.map(x => [x.id, x]))`: each id holds the last item with it. */
  method IdMap(b: seq<RecurringItem>) returns (mapB: map<string, RecurringItem>)
    ensures forall id :: ById(b, id) == (if id in mapB then Some(mapB[id]) else None)
  {
    mapB := map[];
    for i := 0 to |b|
      invariant forall id :: ById(b[..i], id) == (if id in mapB then Some(mapB[id]) else None)
    {
      assert b[..i + 1][..i] == b[..i];
      mapB := mapB[b[i].id := b[i]];
    }
    assert b[..|b|] == b;
  }

  /** `prev.map(it => it.id === x.id ? x : it)`. */
  function ReplaceById(p: seq<RecurringItem>, x: RecurringItem): (r: seq<RecurringItem>)
    ensures |r| == |p|
    ensures forall i :: 0 <= i < |p| ==> r[i] == (if p[i].id == x.id then x else p[i])
  {
    seq(|p|, i requires 0 <= i < |p| => if p[i].id == x.id then x else p[i])
  }

  /** The list after `handleAddOrUpdate(x)`: items with `x`'s id replaced in
      place when there are any, else `x` appended. */
  function Upsert(p: seq<RecurringItem>, x: RecurringItem): (r: seq<RecurringItem>)
    ensures x.id in Ids(p) ==> |r| == |p|
    ensures x.id in Ids(p) ==> forall i :: 0 <= i < |p| && p[i].id != x.id ==> r[i] == p[i]
    ensures x.id !in Ids(p) ==> r == p + [x]
  {
    if x.id in Ids(p) then ReplaceById(p, x) else p + [x]
  }

  /** The list after `handleDelete(id)`: the items with other ids, in order. */
  function RemoveId(p: seq<RecurringItem>, id: string): (r: seq<RecurringItem>)
    ensures |r| <= |p|
    ensures id !in Ids(r)
  {
    if p == [] then []
    else
      var init, last := p[..|p| - 1], p[|p| - 1];
      var r0 := RemoveId(init, id);
      var r := if last.id == id then r0 else r0 + [last];
      assert forall j :: 0 <= j < |r| ==> r[j].id != id by {
        forall j | 0 <= j < |r| ensures r[j].id != id {
          if j < |r0| { assert r0[j].id == Ids(r0)[j]; }
        }
      }
      r
  }

  /** Deleting keeps every item with another id and adds nothing. */
  lemma {:induction false} RemoveIdSpec(p: seq<RecurringItem>, id: string)
    ensures forall i :: 0 <= i < |p| && p[i].id != id ==> p[i] in RemoveId(p, id)
    ensures forall x :: x in RemoveId(p, id) ==> x in p
    decreases |p|
  {
    if p != [] {
      var init, last := p[..|p| - 1], p[|p| - 1];
      RemoveIdSpec(init, id);
      forall i | 0 <= i < |p| && p[i].id != id ensures p[i] in RemoveId(p, id) {
        if i < |p| - 1 {
          assert p[i] == init[i];
        }
      }
    }
  }

  /** After an add or update, looking the item up by its id finds it. */
  lemma UpsertFinds(p: seq<RecurringItem>, x: RecurringItem)
    ensures ById(Upsert(p, x), x.id) == Some(x)
  {
    var r := Upsert(p, x);
    if x.id in Ids(p) {
      var k := |r| - 1;
      assert r == r[..k] + [r[k]];
      if r[k].id != x.id {
        assert ById(r, x.id) == ById(r[..k], x.id);
      }
      UpsertFindsReplaced(p, x, |p|);
    }
  }

  lemma {:induction false} UpsertFindsReplaced(p: seq<RecurringItem>, x: RecurringItem, n: nat)
    requires n <= |p| && x.id in Ids(p[..n])
    ensures ById(ReplaceById(p, x)[..n], x.id) == Some(x)
    decreases n
  {
    var r := ReplaceById(p, x);
    assert r[..n][..n - 1] == r[..n - 1];
    if p[n - 1].id != x.id {
      assert Ids(p[..n]) == Ids(p[..n - 1]) + [p[n - 1].id];
      UpsertFindsReplaced(p, x, n - 1);
    }
  }

  /** Deleting an item's id after adding or updating it leaves the same list as
      deleting that id straight away. */
  lemma {:induction false} DeleteAfterUpsert(p: seq<RecurringItem>, x: RecurringItem)
    ensures RemoveId(Upsert(p, x), x.id) == RemoveId(p, x.id)
  {
    if x.id in Ids(p) {
      RemoveReplaced(p, x);
    } else {
      var q := p + [x];
      assert q[..|q| - 1] == p;
    }
  }

  lemma {:induction false} RemoveReplaced(p: seq<RecurringItem>, x: RecurringItem)
    ensures RemoveId(ReplaceById(p, x), x.id) == RemoveId(p, x.id)
    decreases |p|
  {
    if p != [] {
      var r := ReplaceById(p, x);
      assert r[..|r| - 1] == ReplaceById(p[..|p| - 1], x);
      RemoveReplaced(p[..|p| - 1], x);
    }
  }

  /** Deleting twice is deleting once. */
  lemma {:induction false} RemoveIdIdempotent(p: seq<RecurringItem>, id: string)
    ensures RemoveId(RemoveId(p, id), id) == RemoveId(p, id)
  {
    NoIdUnchanged(RemoveId(p, id), id);
  }

  lemma {:induction false} NoIdUnchanged(p: seq<RecurringItem>, id: string)
    requires id !in Ids(p)
    ensures RemoveId(p, id) == p
    decreases |p|
  {
    if p != [] {
      var init, last := p[..|p| - 1], p[|p| - 1];
      IdsLast(p);
      NoIdUnchanged(init, id);
      assert p == init + [last];
    }
  }

  lemma IdsLast(p: seq<RecurringItem>)
    requires p != []
    ensures Ids(p) == Ids(p[..|p| - 1]) + [p[|p| - 1].id]
  {}

  /** The profile dialog's list state: the local items and the snapshot of
      what the server last held. */
  class ProfileState {
    var items: seq<RecurringItem>
    var snapshot: seq<RecurringItem>
    var isOpen: bool

    constructor(server: seq<RecurringItem>)
      ensures items == server && snapshot == server && isOpen
    {
      items := server;
      snapshot := server;
      isOpen := true;
    }

    /** `handleAddOrUpdate(newItem)`: a local change only. */
    method AddOrUpdate(x: RecurringItem)
      modifies this
      ensures items == Upsert(old(items), x)
      ensures snapshot == old(snapshot) && isOpen == old(isOpen)
    {
      items := Upsert(items, x);
    }

    /** `handleDelete(id)`: a local change only. */
    method Delete(id: string)
      modifies this
      ensures items == RemoveId(old(items), id)
      ensures snapshot == old(snapshot) && isOpen == old(isOpen)
    {
      items := RemoveId(items, id);
    }

    /** `onClose`: refused while the items differ from the snapshot. */
    method OnClose() returns (closed: bool)
      modifies this
      ensures closed <==> EqualList(items, snapshot)
      ensures isOpen == (old(isOpen) && !closed)
      ensures items == old(items) && snapshot == old(snapshot)
    {
      var same := IsEqualList(items, snapshot);
      var dirty := !same;
      if dirty {
        return false;
      }
      isOpen := false;
      return true;
    }

    /** The end of `syncNow`: without a token nothing happens; when the
        requests or the refetch fail the local state is kept (the error goes to
        a toast); otherwise the refetched list, `[]` when it is null, becomes
        both the items and the snapshot. */
    method FinishSync(hasToken: bool, refreshed: Result<Option<seq<RecurringItem>>, string>)
      modifies this
      ensures hasToken && refreshed.Ok? ==>
        items == refreshed.value.GetOr([]) && snapshot == refreshed.value.GetOr([])
      ensures !(hasToken && refreshed.Ok?) ==> items == old(items) && snapshot == old(snapshot)
      ensures isOpen == old(isOpen)
    {
      if !hasToken { return; }
      if refreshed.Ok? {
        var next := refreshed.value.GetOr([]);
        items := next;
        snapshot := next;
      }
    }
  }

  /** What the sync partition promises: create the ids only held locally,
      update the ids held on both sides whose items differ, delete the ids only
      held by the server; every request carries the normal form of the local
      item and names each id once. */
  ghost predicate DiffSpec(local: seq<RecurringItem>, server: seq<RecurringItem>,
                     creates: seq<RecurringItem>, updates: seq<RecurringItem>, deletes: seq<string>) {
    && (forall id :: id in Ids(creates) <==> id in Ids(local) && id !in Ids(server))
    && (forall id :: id in Ids(updates) <==>
          id in Ids(local) && id in Ids(server) && !EqItem(ById(local, id), ById(server, id)))
    && (forall id :: id in deletes <==> id in Ids(server) && id !in Ids(local))
    && (forall i :: 0 <= i < |creates| ==>
          ById(local, creates[i].id).Some? && creates[i] == NormalizeForWire(ById(local, creates[i].id).value))
    && (forall i :: 0 <= i < |updates| ==>
          ById(local, updates[i].id).Some? && updates[i] == NormalizeForWire(ById(local, updates[i].id).value))
    && Distinct(Ids(creates)) && Distinct(Ids(updates)) && Distinct(deletes)
  }

  /** `new Map(s.map(x => [x.id, x]))`, keeping first-insertion order. */
  method MapById(s: seq<RecurringItem>) returns (m: seq<(string, RecurringItem)>)
    ensures Distinct(Keys(m))
    ensures forall id :: Get(m, id) == ById(s, id)
  {
    m := [];
    for i := 0 to |s|
      invariant Distinct(Keys(m))
      invariant forall id :: Get(m, id) == ById(s[..i], id)
    {
      assert s[..i + 1][..i] == s[..i];
      SetKeepsDistinct(m, s[i].id, s[i]);
      forall id | id != s[i].id ensures Get(Set(m, s[i].id, s[i]), id) == Get(m, id) {
        SetOthers(m, s[i].id, s[i], id);
      }
      m := Set(m, s[i].id, s[i]);
    }
    assert s[..|s|] == s;
  }

  /** The normal forms of the local items whose ids, taken in the order of
      `keys`, pass `sel`. */
  function Pick(local: seq<RecurringItem>, keys: seq<string>, sel: string -> bool): seq<RecurringItem>
  {
    if keys == [] then []
    else
      var id := keys[|keys| - 1];
      var l := ById(local, id);
      Pick(local, keys[..|keys| - 1], sel) + (if sel(id) && l.Some? then [NormalizeForWire(l.value)] else [])
  }

  /** Over distinct keys, `Pick` names each selected local id once, with the
      normal form of its local item. */
  lemma PickSpec(local: seq<RecurringItem>, keys: seq<string>, sel: string -> bool)
    requires Distinct(keys)
    ensures forall id :: id in Ids(Pick(local, keys, sel)) <==> id in keys && sel(id) && id in Ids(local)
    ensures forall i :: 0 <= i < |Pick(local, keys, sel)| ==>
      var c := Pick(local, keys, sel)[i];
      ById(local, c.id).Some? && c == NormalizeForWire(ById(local, c.id).value)
    ensures Distinct(Ids(Pick(local, keys, sel)))
  {
    PickIds(local, keys, sel);
    PickEntries(local, keys, sel);
  }

  lemma PickIds(local: seq<RecurringItem>, keys: seq<string>, sel: string -> bool)
    requires Distinct(keys)
    ensures forall id :: id in Ids(Pick(local, keys, sel)) <==> id in keys && sel(id) && id in Ids(local)
    ensures Distinct(Ids(Pick(local, keys, sel)))
  {
    PickIdsFiltered(local, keys, sel);
    FilterSpec(keys, (id: string) => sel(id) && id in Ids(local));
  }

  /** The ids `Pick` yields are the keys that pass `sel` and name a local item. */
  lemma {:induction false} PickIdsFiltered(local: seq<RecurringItem>, keys: seq<string>, sel: string -> bool)
    ensures Ids(Pick(local, keys, sel)) == Filter(keys, (id: string) => sel(id) && id in Ids(local))
    decreases |keys|
  {
    if keys != [] {
      var init, id := keys[..|keys| - 1], keys[|keys| - 1];
      PickIdsFiltered(local, init, sel);
      var p0 := Pick(local, init, sel);
      var l := ById(local, id);
      var tail := if sel(id) && l.Some? then [NormalizeForWire(l.value)] else [];
      assert Pick(local, keys, sel) == p0 + tail;
      assert Ids(p0 + tail) == Ids(p0) + Ids(tail);
    }
  }

  lemma {:induction false} PickEntries(local: seq<RecurringItem>, keys: seq<string>, sel: string -> bool)
    ensures forall i :: 0 <= i < |Pick(local, keys, sel)| ==>
      var c := Pick(local, keys, sel)[i];
      ById(local, c.id).Some? && c == NormalizeForWire(ById(local, c.id).value)
    decreases |keys|
  {
    if keys != [] {
      var init, id := keys[..|keys| - 1], keys[|keys| - 1];
      PickEntries(local, init, sel);
      var p0 := Pick(local, init, sel);
      var l := ById(local, id);
      var tail := if sel(id) && l.Some? then [NormalizeForWire(l.value)] else [];
      assert Pick(local, keys, sel) == p0 + tail;
    }
  }

  lemma PickStep(local: seq<RecurringItem>, keys: seq<string>, k: int, sel: string -> bool)
    requires 0 <= k < |keys|
    ensures Pick(local, keys[..k + 1], sel) == Pick(local, keys[..k], sel)
      + (if sel(keys[k]) && ById(local, keys[k]).Some? then [NormalizeForWire(ById(local, keys[k]).value)] else [])
  {
    PrefixSnoc(keys, k);
  }

  /** The first partition loop of `syncNow`: walk the local map and sort
      each id into a create, an update or nothing. */
  method LocalPass(local: seq<RecurringItem>, server: seq<RecurringItem>,
                   localById: seq<(string, RecurringItem)>, serverById: seq<(string, RecurringItem)>)
    returns (creates: seq<RecurringItem>, updates: seq<RecurringItem>)
    requires Distinct(Keys(localById))
    requires forall id :: Get(localById, id) == ById(local, id)
    requires forall id :: Get(serverById, id) == ById(server, id)
    ensures forall id :: id in Ids(creates) <==> id in Ids(local) && id !in Ids(server)
    ensures forall id :: id in Ids(updates) <==>
      id in Ids(local) && id in Ids(server) && !EqItem(ById(local, id), ById(server, id))
    ensures forall i :: 0 <= i < |creates| ==>
      ById(local, creates[i].id).Some? && creates[i] == NormalizeForWire(ById(local, creates[i].id).value)
    ensures forall i :: 0 <= i < |updates| ==>
      ById(local, updates[i].id).Some? && updates[i] == NormalizeForWire(ById(local, updates[i].id).value)
    ensures Distinct(Ids(creates)) && Distinct(Ids(updates))
  {
    var isNew := (id: string) => id !in Ids(server);
    var changed := (id: string) => id in Ids(server) && !EqItem(ById(local, id), ById(server, id));
    var keys := Keys(localById);
    creates, updates := [], [];
    for k := 0 to |localById|
      invariant creates == Pick(local, keys[..k], isNew)
      invariant updates == Pick(local, keys[..k], changed)
    {
      var (id, l) := localById[k];
      GetEntry(localById, k);
      assert ById(local, id) == Some(l);
      PickStep(local, keys, k, isNew);
      PickStep(local, keys, k, changed);
      var s := Get(serverById, id);
      if s.None? {
        creates := creates + [NormalizeForWire(l)];
      } else if !EqItem(Some(l), s) {
        updates := updates + [NormalizeForWire(l)];
      }
    }
    assert keys[..|localById|] == keys;
    PickSpec(local, keys, isNew);
    PickSpec(local, keys, changed);
    forall id ensures id in keys <==> id in Ids(local) {
      assert Get(localById, id) == ById(local, id);
    }
  }

  /** The second partition loop of `syncNow`: the server ids the local map lacks. */
  method ServerPass(local: seq<RecurringItem>, server: seq<RecurringItem>,
                    localById: seq<(string, RecurringItem)>, serverById: seq<(string, RecurringItem)>)
    returns (deletes: seq<string>)
    requires Distinct(Keys(serverById))
    requires forall id :: Get(localById, id) == ById(local, id)
    requires forall id :: Get(serverById, id) == ById(server, id)
    ensures forall id :: id in deletes <==> id in Ids(server) && id !in Ids(local)
    ensures Distinct(deletes)
  {
    deletes := [];
    for k := 0 to |serverById|
      invariant forall id :: id in deletes <==> id in Keys(serverById)[..k] && id !in Ids(local)
      invariant Distinct(deletes)
    {
      var id := serverById[k].0;
      assert Keys(serverById)[..k + 1] == Keys(serverById)[..k] + [id];
      assert id !in Keys(serverById)[..k] by {
        assert Keys(serverById)[k] == id;
      }
      if Get(localById, id).None? {
        deletes := deletes + [id];
      }
    }
    assert Keys(serverById)[..|serverById|] == Keys(serverById);
    forall id ensures id in Keys(serverById) <==> id in Ids(server) {
      assert Get(serverById, id) == ById(server, id);
    }
    forall id ensures id in Keys(localById) <==> id in Ids(local) {
      assert Get(localById, id) == ById(local, id);
    }
  }

  /** The partition of `syncNow`: map both lists by id, then the two passes. */
  method SyncDiff(local: seq<RecurringItem>, server: seq<RecurringItem>)
    returns (creates: seq<RecurringItem>, updates: seq<RecurringItem>, deletes: seq<string>)
    ensures DiffSpec(local, server, creates, updates, deletes)
  {
    var serverById := MapById(server);
    var localById := MapById(local);
    creates, updates := LocalPass(local, server, localById, serverById);
    deletes := ServerPass(local, server, localById, serverById);
  }

  /** `new Map(s.map(x => [x.id, x]))` as a mathematical map. */
  function ToMap(s: seq<RecurringItem>): (m: map<string, RecurringItem>)
    ensures forall id :: id in m <==> id in Ids(s)
    ensures forall id :: id in m ==> ById(s, id) == Some(m[id])
  {
    if s == [] then map[]
    else
      var init, last := s[..|s| - 1], s[|s| - 1];
      assert Ids(s) == Ids(init) + [last.id];
      ToMap(init)[last.id := last]
  }

  /** The server's items by id once every create, update and delete request
      of a sync has been applied. */
  function Applied(server: seq<RecurringItem>, creates: seq<RecurringItem>,
                    updates: seq<RecurringItem>, deletes: seq<string>): map<string, RecurringItem> {
    (ToMap(server) + ToMap(creates) + ToMap(updates)) - (set d | d in deletes)
  }

  /** After the requests of a sync the server holds exactly the local ids, each
      with the normal form of the local item, or with an item that already
      compared equal to it. */
  lemma DiffReconciles(local: seq<RecurringItem>, server: seq<RecurringItem>,
                       creates: seq<RecurringItem>, updates: seq<RecurringItem>, deletes: seq<string>)
    requires DiffSpec(local, server, creates, updates, deletes)
    ensures forall id :: id in Applied(server, creates, updates, deletes) <==> id in Ids(local)
    ensures forall id :: id in Applied(server, creates, updates, deletes) ==>
      var now := Applied(server, creates, updates, deletes)[id];
      now == NormalizeForWire(ById(local, id).value) || (now == ById(server, id).value && EqItem(ById(local, id), Some(now)))
  {
    var a := Applied(server, creates, updates, deletes);
    forall id | id in a
      ensures var now := a[id];
        now == NormalizeForWire(ById(local, id).value) || (now == ById(server, id).value && EqItem(ById(local, id), Some(now)))
    {
      if id in ToMap(updates) {
        var i :| 0 <= i < |updates| && Ids(updates)[i] == id;
        assert ById(updates, id) == Some(a[id]);
      } else if id in ToMap(creates) {
        var i :| 0 <= i < |creates| && Ids(creates)[i] == id;
        assert ById(creates, id) == Some(a[id]);
      }
    }
  }
}
