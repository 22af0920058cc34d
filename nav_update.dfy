/** The navigation transaction of the admin service: nav items are upserted
    by key, then each entry of the request's dropdown record replaces the
    dropdown panel of the nav item with that key. */
module NavUpdate {
  import opened Common
  import opened Records
  import opened Store

  /** The five tables the transaction touches. */
  datatype NavTables = NavTables(
    items: map<Id, NavItem>, byKey: map<string, Id>,
    dropdowns: map<Id, DropdownData>, dropdownOf: map<Id, Id>,
    dropItems: map<Id, DropdownItem>)

  /** The unique indexes on `NavItem.key` and `DropdownData.navItemId` agree
      with their tables and every dropdown item belongs to a dropdown. */
  ghost predicate Consistent(n: NavTables) {
    NavConsistent(n.items, n.byKey, n.dropdowns, n.dropdownOf, n.dropItems)
  }

  // ---------------------------------------------------------------------
  // Phase 1: upsert every nav item by key

  /** `upsert({ where: { key }, update: data, create: data })`. A new row's id
      is also kept clear of the owners recorded in the dropdown index, so a
      new nav item never inherits a dropdown left behind by a deleted one. */
  function Upsert(n: NavTables, item: NavItemInput): NavTables {
    var data := NavItemData(item);
    if item.key in n.byKey then n.(items := n.items[n.byKey[item.key] := data])
    else
      var id := FreshId(n.items.Keys + n.dropdownOf.Keys);
      n.(items := n.items[id := data], byKey := n.byKey[item.key := id])
  }

  function UpsertAll(n: NavTables, items: seq<NavItemInput>): NavTables
    decreases |items|
  {
    if items == [] then n else UpsertAll(Upsert(n, items[0]), items[1..])
  }

  /** The keys a request names. */
  function RequestKeys(items: seq<NavItemInput>): (r: set<string>)
    ensures forall i :: 0 <= i < |items| ==> items[i].key in r
    ensures forall k :: k in r ==> exists i :: 0 <= i < |items| && items[i].key == k
  {
    set i | 0 <= i < |items| :: items[i].key
  }

  /** `j` is the last request item with key `k`. */
  predicate LastWithKey(items: seq<NavItemInput>, k: string, j: int) {
    0 <= j < |items| && items[j].key == k
    && forall i :: j < i < |items| ==> items[i].key != k
  }

  /** One upsert keeps the indexes consistent and leaves the dropdown tables
      alone. */
  lemma UpsertStep(n: NavTables, item: NavItemInput)
    requires Consistent(n)
    ensures var f := Upsert(n, item);
      && Consistent(f)
      && f.dropdowns == n.dropdowns && f.dropdownOf == n.dropdownOf && f.dropItems == n.dropItems
  {
    UpsertIndexed(n, item);
  }

  /** One upsert keeps the key index in step with the nav item rows. */
  lemma UpsertIndexed(n: NavTables, item: NavItemInput)
    requires NavIndexed(n.items, n.byKey)
    ensures NavIndexed(Upsert(n, item).items, Upsert(n, item).byKey)
  {
    var f := Upsert(n, item);
    if item.key !in n.byKey {
      var id := FreshId(n.items.Keys + n.dropdownOf.Keys);
      assert id !in n.items;
      assert f.items == n.items[id := NavItemData(item)];
      forall k | k in f.byKey ensures f.byKey[k] in f.items && f.items[f.byKey[k]].key == k {
        if k != item.key { assert f.byKey[k] == n.byKey[k]; }
      }
    }
  }

  /** One upsert adds the item's key, keeps the other keys on their rows
      and keeps every row. */
  lemma UpsertStepKeys(n: NavTables, item: NavItemInput)
    ensures var f := Upsert(n, item);
      && f.byKey.Keys == n.byKey.Keys + {item.key}
      && (forall k :: k in n.byKey ==> f.byKey[k] == n.byKey[k])
      && n.items.Keys <= f.items.Keys
  {
    if item.key in n.byKey {
      assert Upsert(n, item).byKey == n.byKey;
    }
  }

  /** One upsert writes the item to its key's row, keeps every row and
      leaves the rows of other keys as they were. */
  lemma UpsertStepRows(n: NavTables, item: NavItemInput)
    requires Consistent(n)
    ensures var f := Upsert(n, item);
      && item.key in f.byKey && f.byKey[item.key] in f.items
      && f.items[f.byKey[item.key]] == NavItemData(item)
      && (forall id :: id in n.items && n.items[id].key != item.key ==> f.items[id] == n.items[id])
  {
    if item.key !in n.byKey {
      var id := FreshId(n.items.Keys + n.dropdownOf.Keys);
      assert id !in n.items;
    }
  }

  lemma RequestKeysCons(items: seq<NavItemInput>)
    requires items != []
    ensures RequestKeys(items) == {items[0].key} + RequestKeys(items[1..])
  {
    forall k | k in RequestKeys(items) ensures k in {items[0].key} + RequestKeys(items[1..]) {
      var i :| 0 <= i < |items| && items[i].key == k;
      if i > 0 { assert items[1..][i - 1] == items[i]; }
    }
  }

  /** Phase 1 keeps the indexes consistent and leaves the dropdown tables
      alone. */
  lemma {:induction false} UpsertAllIndex(n: NavTables, items: seq<NavItemInput>)
    requires Consistent(n)
    ensures var f := UpsertAll(n, items);
      && Consistent(f)
      && f.dropdowns == n.dropdowns && f.dropdownOf == n.dropdownOf && f.dropItems == n.dropItems
    decreases |items|
  {
    if items != [] {
      UpsertStep(n, items[0]);
      UpsertAllIndex(Upsert(n, items[0]), items[1..]);
    }
  }

  /** Phase 1 adds exactly the requested keys, keeps every key on its row
      and every row in the table. */
  lemma {:induction false} UpsertAllKeys(n: NavTables, items: seq<NavItemInput>)
    ensures var f := UpsertAll(n, items);
      && f.byKey.Keys == n.byKey.Keys + RequestKeys(items)
      && (forall k :: k in n.byKey ==> f.byKey[k] == n.byKey[k])
      && n.items.Keys <= f.items.Keys
    decreases |items|
  {
    if items != [] {
      var n' := Upsert(n, items[0]);
      assert UpsertAll(n, items) == UpsertAll(n', items[1..]);
      UpsertStepKeys(n, items[0]);
      UpsertAllKeys(n', items[1..]);
      assert n.byKey.Keys + RequestKeys(items) == n'.byKey.Keys + RequestKeys(items[1..]) by {
        RequestKeysCons(items);
      }
    }
  }

  /** Nav items whose key the request does not name keep their contents. */
  lemma {:induction false} UpsertAllUntouched(n: NavTables, items: seq<NavItemInput>)
    requires Consistent(n)
    ensures var f := UpsertAll(n, items);
      forall id :: id in n.items && n.items[id].key !in RequestKeys(items) ==> id in f.items && f.items[id] == n.items[id]
    decreases |items|
  {
    if items != [] {
      UpsertStep(n, items[0]);
      UpsertStepKeys(n, items[0]);
      UpsertStepRows(n, items[0]);
      UpsertAllUntouched(Upsert(n, items[0]), items[1..]);
      RequestKeysCons(items);
    }
  }

  /** Every requested key's row holds the last request item with that key. */
  lemma {:induction false} UpsertAllLastWins(n: NavTables, items: seq<NavItemInput>, k: string, j: int)
    requires Consistent(n) && LastWithKey(items, k, j)
    ensures var f := UpsertAll(n, items);
      k in f.byKey && f.byKey[k] in f.items && f.items[f.byKey[k]] == NavItemData(items[j])
    decreases |items|
  {
    var n' := Upsert(n, items[0]);
    UpsertStep(n, items[0]);
    UpsertStepKeys(n, items[0]);
    UpsertStepRows(n, items[0]);
    if j == 0 {
      forall i | 0 <= i < |items[1..]| ensures items[1..][i].key != k {
        assert items[1..][i] == items[i + 1];
      }
      UpsertAllUntouched(n', items[1..]);
      UpsertAllKeys(n', items[1..]);
      assert n'.items[n'.byKey[k]].key == k;
    } else {
      assert LastWithKey(items[1..], k, j - 1);
      UpsertAllLastWins(n', items[1..], k, j - 1);
    }
  }

  // ---------------------------------------------------------------------
  // Phase 2: one dropdown entry at a time

  /** The items of dropdown `did`. */
  function ItemsOf(t: map<Id, DropdownItem>, did: Id): (r: map<Id, DropdownItem>)
    ensures forall k :: k in r <==> k in t && t[k].dropdownDataId == did
  {
    map k | k in t && t[k].dropdownDataId == did :: t[k]
  }

  /** `deleteMany({ where: { dropdownDataId: did } })`. */
  function WithoutItemsOf(t: map<Id, DropdownItem>, did: Id): (r: map<Id, DropdownItem>)
    ensures forall k :: k in r <==> k in t && t[k].dropdownDataId != did
  {
    map k | k in t && t[k].dropdownDataId != did :: t[k]
  }

  /** The dropdown a nav item gets for `title`: the existing one retitled,
      or a new one under a fresh id. */
  function DropdownFor(n: NavTables, nid: Id, title: string): (Id, NavTables) {
    if nid in n.dropdownOf && n.dropdownOf[nid] in n.dropdowns then
      var did := n.dropdownOf[nid];
      (did, n.(dropdowns := n.dropdowns[did := n.dropdowns[did].(title := title)],
               dropItems := WithoutItemsOf(n.dropItems, did)))
    else
      var did := FreshId(n.dropdowns.Keys);
      (did, n.(dropdowns := n.dropdowns[did := DropdownData(nid, title)],
               dropdownOf := n.dropdownOf[nid := did]))
  }

  /** The loop body for one entry of the dropdown record: nothing happens
      unless a nav item has the key and the entry's value is an object.
      `used` holds the item ids deleted earlier in the transaction; the
      database never hands out an id again, so the new items avoid those
      and the ones this entry's `deleteMany` removes. */
  function ApplyDropdown(n: NavTables, used: set<Id>, key: string, data: Option<DropdownInput>): NavTables {
    if key in n.byKey && data.Some? then
      var (did, n1) := DropdownFor(n, n.byKey[key], OrDefault(data.value.title, DefaultDropdownTitle));
      if data.value.items.Some? then
        n1.(dropItems := Append(n1.dropItems, used + n.dropItems.Keys, DropdownItemRows(data.value.items.value, did)))
      else n1
    else n
  }

  /** The dropdown entries in order; each entry adds the item ids it saw to `used`. */
  function ApplyAll(n: NavTables, used: set<Id>, entries: seq<(string, Option<DropdownInput>)>): NavTables
    decreases |entries|
  {
    if entries == [] then n
    else ApplyAll(ApplyDropdown(n, used, entries[0].0, entries[0].1), used + n.dropItems.Keys, entries[1..])
  }

  /** The rows a dropdown entry asks for. */
  function RequestedRows(d: DropdownInput, did: Id): seq<DropdownItem> {
    if d.items.Some? then DropdownItemRows(d.items.value, did) else []
  }

  /** A nav item that has a dropdown keeps it: same id, new title, items deleted. */
  lemma DropdownReused(n: NavTables, nid: Id, title: string)
    requires Consistent(n) && nid in n.dropdownOf
    ensures var (did, f) := DropdownFor(n, nid, title);
      && did == n.dropdownOf[nid]
      && f.dropdownOf == n.dropdownOf && f.items == n.items && f.byKey == n.byKey
      && f.dropdowns == n.dropdowns[did := DropdownData(nid, title)]
      && f.dropItems == WithoutItemsOf(n.dropItems, did)
  {
  }

  /** A nav item without a dropdown gets a new one under an unused id. */
  lemma DropdownCreated(n: NavTables, nid: Id, title: string)
    requires Consistent(n) && nid !in n.dropdownOf
    ensures var (did, f) := DropdownFor(n, nid, title);
      && did !in n.dropdowns
      && f.dropdownOf == n.dropdownOf[nid := did] && f.items == n.items && f.byKey == n.byKey
      && f.dropdowns == n.dropdowns[did := DropdownData(nid, title)]
      && f.dropItems == n.dropItems
      && ItemsOf(n.dropItems, did) == map[]
  {
    var did := FreshId(n.dropdowns.Keys);
    forall k | k in n.dropItems ensures n.dropItems[k].dropdownDataId != did {
      assert n.dropItems[k].dropdownDataId in n.dropdowns;
    }
  }

  /** Giving a nav item its dropdown keeps the nav tables consistent. */
  lemma DropdownForConsistent(n: NavTables, nid: Id, title: string)
    requires Consistent(n)
    ensures Consistent(DropdownFor(n, nid, title).1)
  {
    var (did, f) := DropdownFor(n, nid, title);
    if nid in n.dropdownOf {
      DropdownReused(n, nid, title);
    } else {
      DropdownCreated(n, nid, title);
      forall k | k in f.dropdownOf ensures f.dropdownOf[k] in f.dropdowns && f.dropdowns[f.dropdownOf[k]].navItemId == k {
        if k != nid { assert f.dropdownOf[k] == n.dropdownOf[k]; }
      }
    }
  }

  /** The dropdown a nav item is given has no items left, and every other
      dropdown keeps its items. */
  lemma DropdownForItems(n: NavTables, nid: Id, title: string)
    requires Consistent(n)
    ensures var (did, f) := DropdownFor(n, nid, title);
      && ItemsOf(f.dropItems, did) == map[]
      && (forall o :: o != did ==> ItemsOf(f.dropItems, o) == ItemsOf(n.dropItems, o))
  {
    var (did, f) := DropdownFor(n, nid, title);
    if nid in n.dropdownOf {
      DropdownReused(n, nid, title);
      assert ItemsOf(f.dropItems, did) == map[];
      forall o | o != did ensures ItemsOf(f.dropItems, o) == ItemsOf(n.dropItems, o) { }
    } else {
      DropdownCreated(n, nid, title);
    }
  }

  /** The nav item ends up with a dropdown of the given title: the one it had,
      or one under an unused id; other dropdowns and nav items stay. */
  lemma DropdownForFacts(n: NavTables, nid: Id, title: string)
    requires Consistent(n)
    ensures var (did, f) := DropdownFor(n, nid, title);
      && Consistent(f)
      && nid in f.dropdownOf && f.dropdownOf[nid] == did && did in f.dropdowns
      && f.dropdowns[did].title == title && f.dropdowns[did].navItemId == nid
      && (nid in n.dropdownOf ==> did == n.dropdownOf[nid])
      && (nid !in n.dropdownOf ==> did !in n.dropdowns)
      && ItemsOf(f.dropItems, did) == map[]
      && (forall o :: o != did ==> ItemsOf(f.dropItems, o) == ItemsOf(n.dropItems, o))
      && (forall x :: x in n.dropdowns && x != did ==> x in f.dropdowns && f.dropdowns[x] == n.dropdowns[x])
      && (forall m :: m in n.dropdownOf && m != nid ==> m in f.dropdownOf && f.dropdownOf[m] == n.dropdownOf[m])
      && f.items == n.items && f.byKey == n.byKey
  {
    DropdownForConsistent(n, nid, title);
    DropdownForItems(n, nid, title);
    if nid in n.dropdownOf {
      DropdownReused(n, nid, title);
    } else {
      DropdownCreated(n, nid, title);
    }
  }

  /** Appending rows that all belong to `did` adds exactly those rows to
      `did`'s items and leaves every other dropdown's items alone. */
  lemma AppendItemsFacts(t: map<Id, DropdownItem>, avoid: set<Id>, did: Id, rows: seq<DropdownItem>)
    requires forall i :: 0 <= i < |rows| ==> rows[i].dropdownDataId == did
    ensures var f, ids := Append(t, avoid, rows), AppendedIds(t, avoid, rows);
      && |ids| == |rows|
      && (forall k :: k in ItemsOf(f, did) <==> k in ItemsOf(t, did) || k in ids)
      && (forall i :: 0 <= i < |rows| ==> ids[i] in f && f[ids[i]] == rows[i])
      && (forall k :: k in f && k !in t ==> f[k].dropdownDataId == did)
  {
    AppendContents(t, avoid, rows);
    var f, ids := Append(t, avoid, rows), AppendedIds(t, avoid, rows);
    forall k | k in f && k !in t ensures f[k].dropdownDataId == did {
      var i :| 0 <= i < |ids| && ids[i] == k;
    }
  }

  lemma AppendItemsOthers(t: map<Id, DropdownItem>, avoid: set<Id>, did: Id, rows: seq<DropdownItem>)
    requires forall i :: 0 <= i < |rows| ==> rows[i].dropdownDataId == did
    ensures forall o :: o != did ==> ItemsOf(Append(t, avoid, rows), o) == ItemsOf(t, o)
  {
    AppendItemsFacts(t, avoid, did, rows);
    AppendContents(t, avoid, rows);
  }

  /** One applied entry, as far as the tables' structure goes: the nav item
      has a dropdown with the entry's title (or "Dropdown Title"), the same
      dropdown as before when it had one; every other dropdown, its items and
      all nav items are unchanged. */
  lemma ApplyDropdownShape(n: NavTables, used: set<Id>, key: string, d: DropdownInput)
    requires Consistent(n) && key in n.byKey
    ensures var f := ApplyDropdown(n, used, key, Some(d)); var nid := n.byKey[key];
      && Consistent(f)
      && nid in f.dropdownOf && f.dropdownOf[nid] in f.dropdowns
      && f.dropdowns[f.dropdownOf[nid]].title == OrDefault(d.title, DefaultDropdownTitle)
      && (nid in n.dropdownOf ==> f.dropdownOf[nid] == n.dropdownOf[nid])
      && (nid !in n.dropdownOf ==> f.dropdownOf[nid] !in n.dropdowns)
      && (forall o :: o != f.dropdownOf[nid] ==> ItemsOf(f.dropItems, o) == ItemsOf(n.dropItems, o))
      && (forall x :: x in n.dropdowns && x != f.dropdownOf[nid] ==> x in f.dropdowns && f.dropdowns[x] == n.dropdowns[x])
      && (forall m :: m in n.dropdownOf && m != nid ==> m in f.dropdownOf && f.dropdownOf[m] == n.dropdownOf[m])
      && f.items == n.items && f.byKey == n.byKey
  {
    var nid := n.byKey[key];
    var title := OrDefault(d.title, DefaultDropdownTitle);
    DropdownForFacts(n, nid, title);
    var (did, n1) := DropdownFor(n, nid, title);
    var rows := RequestedRows(d, did);
    var f := ApplyDropdown(n, used, key, Some(d));
    assert f == n1.(dropItems := Append(n1.dropItems, used + n.dropItems.Keys, rows));
    AppendItemsFacts(n1.dropItems, used + n.dropItems.Keys, did, rows);
    AppendItemsOthers(n1.dropItems, used + n.dropItems.Keys, did, rows);
    AppendContents(n1.dropItems, used + n.dropItems.Keys, rows);
  }

  /** The new items of an applied entry sit under the ids `AppendedIds`
      lists for them, and the dropdown has no other items. */
  lemma ApplyDropdownItemIds(n: NavTables, used: set<Id>, key: string, d: DropdownInput)
    requires Consistent(n) && key in n.byKey
    ensures var nid := n.byKey[key];
      var (did, n1) := DropdownFor(n, nid, OrDefault(d.title, DefaultDropdownTitle));
      var f := ApplyDropdown(n, used, key, Some(d));
      var rows, ids := RequestedRows(d, did), AppendedIds(n1.dropItems, used + n.dropItems.Keys, RequestedRows(d, did));
      && nid in f.dropdownOf && f.dropdownOf[nid] == did
      && |ids| == |rows|
      && ItemsOf(f.dropItems, did).Keys == Elems(ids)
      && (forall i :: 0 <= i < |rows| ==> ids[i] in ItemsOf(f.dropItems, did) && ItemsOf(f.dropItems, did)[ids[i]] == rows[i])
      && (forall i, j :: 0 <= i < j < |ids| ==> ids[i] != ids[j])
      && (forall i :: 0 <= i < |ids| ==> ids[i] !in n.dropItems && ids[i] !in used)
  {
    var nid := n.byKey[key];
    var title := OrDefault(d.title, DefaultDropdownTitle);
    DropdownForFacts(n, nid, title);
    var (did, n1) := DropdownFor(n, nid, title);
    var rows := RequestedRows(d, did);
    var f := ApplyDropdown(n, used, key, Some(d));
    assert f == n1.(dropItems := Append(n1.dropItems, used + n.dropItems.Keys, rows));
    AppendItemsFacts(n1.dropItems, used + n.dropItems.Keys, did, rows);
    AppendedIdsFresh(n1.dropItems, used + n.dropItems.Keys, rows);
  }

  /** One applied entry, as far as the items go: the nav item's dropdown holds
      exactly the requested items, numbered from 1 in request order. */
  lemma ApplyDropdownItems(n: NavTables, used: set<Id>, key: string, d: DropdownInput)
    requires Consistent(n) && key in n.byKey
    ensures var f := ApplyDropdown(n, used, key, Some(d)); var nid := n.byKey[key];
      nid in f.dropdownOf && Exactly(ItemsOf(f.dropItems, f.dropdownOf[nid]), RequestedRows(d, f.dropdownOf[nid]))
  {
    var nid := n.byKey[key];
    var (did, n1) := DropdownFor(n, nid, OrDefault(d.title, DefaultDropdownTitle));
    ApplyDropdownItemIds(n, used, key, d);
    var f := ApplyDropdown(n, used, key, Some(d));
    ExactlyFromIds(ItemsOf(f.dropItems, did), RequestedRows(d, did), AppendedIds(n1.dropItems, used + n.dropItems.Keys, RequestedRows(d, did)));
  }

  /** An entry for another nav item leaves this nav item's dropdown, its title
      and its items as they were. */
  lemma ApplyDropdownFrame(n: NavTables, used: set<Id>, key: string, data: Option<DropdownInput>, nid: Id)
    requires Consistent(n) && nid in n.dropdownOf
    requires key in n.byKey ==> n.byKey[key] != nid
    ensures var f := ApplyDropdown(n, used, key, data); var did := n.dropdownOf[nid];
      && nid in f.dropdownOf && f.dropdownOf[nid] == did
      && did in f.dropdowns && f.dropdowns[did] == n.dropdowns[did]
      && ItemsOf(f.dropItems, did) == ItemsOf(n.dropItems, did)
  {
    if key in n.byKey && data.Some? {
      var other := n.byKey[key];
      var did := n.dropdownOf[nid];
      ApplyDropdownShape(n, used, key, data.value);
      var f := ApplyDropdown(n, used, key, data);
      if other in n.dropdownOf {
        assert n.dropdowns[n.dropdownOf[other]].navItemId == other;
      }
      assert f.dropdownOf[other] != did;
    }
  }

  /** Phase 2 as a whole keeps the indexes consistent and the nav items as
      they were. */
  lemma {:induction false} ApplyAllKeeps(n: NavTables, used: set<Id>, entries: seq<(string, Option<DropdownInput>)>)
    requires Consistent(n)
    ensures Consistent(ApplyAll(n, used, entries))
    ensures ApplyAll(n, used, entries).items == n.items && ApplyAll(n, used, entries).byKey == n.byKey
    decreases |entries|
  {
    if entries != [] {
      var e := entries[0];
      if e.0 in n.byKey && e.1.Some? { ApplyDropdownShape(n, used, e.0, e.1.value); }
      ApplyAllKeeps(ApplyDropdown(n, used, e.0, e.1), used + n.dropItems.Keys, entries[1..]);
    }
  }

  /** Entries for other nav items leave this nav item's dropdown alone. */
  lemma {:induction false} ApplyAllFrame(n: NavTables, used: set<Id>, entries: seq<(string, Option<DropdownInput>)>, nid: Id)
    requires Consistent(n) && nid in n.dropdownOf
    requires forall i :: 0 <= i < |entries| && entries[i].0 in n.byKey ==> n.byKey[entries[i].0] != nid
    ensures var f := ApplyAll(n, used, entries); var did := n.dropdownOf[nid];
      && nid in f.dropdownOf && f.dropdownOf[nid] == did
      && did in f.dropdowns && f.dropdowns[did] == n.dropdowns[did]
      && ItemsOf(f.dropItems, did) == ItemsOf(n.dropItems, did)
    decreases |entries|
  {
    if entries != [] {
      var e := entries[0];
      ApplyDropdownFrame(n, used, e.0, e.1, nid);
      var n' := ApplyDropdown(n, used, e.0, e.1);
      if e.0 in n.byKey && e.1.Some? { ApplyDropdownShape(n, used, e.0, e.1.value); }
      forall i | 0 <= i < |entries[1..]| && entries[1..][i].0 in n'.byKey ensures n'.byKey[entries[1..][i].0] != nid {
        assert entries[1..][i] == entries[i + 1];
      }
      ApplyAllFrame(n', used + n.dropItems.Keys, entries[1..], nid);
    }
  }

  /** The last entry for a key decides that nav item's dropdown: its title,
      and exactly its requested items. */
  lemma {:induction false} ApplyAllLastWins(n: NavTables, used: set<Id>, entries: seq<(string, Option<DropdownInput>)>, j: int)
    requires Consistent(n)
    requires 0 <= j < |entries| && entries[j].0 in n.byKey && entries[j].1.Some?
    requires forall i :: j < i < |entries| ==> entries[i].0 != entries[j].0
    ensures var f := ApplyAll(n, used, entries); var nid := n.byKey[entries[j].0]; var d := entries[j].1.value;
      && nid in f.dropdownOf && f.dropdownOf[nid] in f.dropdowns
      && f.dropdowns[f.dropdownOf[nid]].title == OrDefault(d.title, DefaultDropdownTitle)
      && Exactly(ItemsOf(f.dropItems, f.dropdownOf[nid]), RequestedRows(d, f.dropdownOf[nid]))
    decreases |entries|
  {
    var e := entries[0];
    var n' := ApplyDropdown(n, used, e.0, e.1);
    if e.0 in n.byKey && e.1.Some? { ApplyDropdownShape(n, used, e.0, e.1.value); }
    assert ApplyAll(n, used, entries) == ApplyAll(n', used + n.dropItems.Keys, entries[1..]);
    if j == 0 {
      var nid := n.byKey[e.0];
      ApplyDropdownItems(n, used, e.0, e.1.value);
      var rest := entries[1..];
      forall i | 0 <= i < |rest| && rest[i].0 in n'.byKey ensures n'.byKey[rest[i].0] != nid {
        assert rest[i] == entries[i + 1];
        assert n.items[n.byKey[rest[i].0]].key == rest[i].0;
      }
      ApplyAllFrame(n', used + n.dropItems.Keys, rest, nid);
    } else {
      ApplyAllLastWins(n', used + n.dropItems.Keys, entries[1..], j - 1);
    }
  }

  /** One entry never gives a new item an id that was in use before it or
      earlier in the transaction: an item id that survives keeps its row,
      and an id that is new to the table is not in `used`. */
  lemma ApplyDropdownNoReuse(n: NavTables, used: set<Id>, key: string, data: Option<DropdownInput>)
    requires Consistent(n)
    ensures var f := ApplyDropdown(n, used, key, data);
      && (forall k :: k in f.dropItems && k in n.dropItems ==> f.dropItems[k] == n.dropItems[k])
      && (forall k :: k in f.dropItems && k !in n.dropItems ==> k !in used)
  {
    if key in n.byKey && data.Some? {
      var d := data.value;
      var nid := n.byKey[key];
      var (did, n1) := DropdownFor(n, nid, OrDefault(d.title, DefaultDropdownTitle));
      DropdownForFacts(n, nid, OrDefault(d.title, DefaultDropdownTitle));
      var avoid := used + n.dropItems.Keys;
      var rows := RequestedRows(d, did);
      assert ApplyDropdown(n, used, key, data) == n1.(dropItems := Append(n1.dropItems, avoid, rows));
      assert forall k :: k in n1.dropItems ==> k in n.dropItems && n1.dropItems[k] == n.dropItems[k] by {
        if nid in n.dropdownOf { DropdownReused(n, nid, OrDefault(d.title, DefaultDropdownTitle)); }
        else { DropdownCreated(n, nid, OrDefault(d.title, DefaultDropdownTitle)); }
      }
      AppendContents(n1.dropItems, avoid, rows);
      AppendedIdsFresh(n1.dropItems, avoid, rows);
    }
  }

  /** The whole dropdown loop never reuses an item id: every item that was
      there before and is still there is unchanged, and every new item's id
      was neither in the table nor in `used`. */
  lemma {:induction false} ApplyAllNoReuse(n: NavTables, used: set<Id>, entries: seq<(string, Option<DropdownInput>)>)
    requires Consistent(n)
    ensures var f := ApplyAll(n, used, entries);
      && (forall k :: k in f.dropItems && k in n.dropItems ==> f.dropItems[k] == n.dropItems[k])
      && (forall k :: k in f.dropItems && k !in n.dropItems ==> k !in used)
    decreases |entries|
  {
    if entries != [] {
      var e := entries[0];
      var n' := ApplyDropdown(n, used, e.0, e.1);
      ApplyDropdownNoReuse(n, used, e.0, e.1);
      if e.0 in n.byKey && e.1.Some? { ApplyDropdownShape(n, used, e.0, e.1.value); }
      ApplyAllNoReuse(n', used + n.dropItems.Keys, entries[1..]);
    }
  }

  /** The whole transaction keeps the navigation tables consistent. */
  lemma NavigationKeepsConsistent(n: NavTables, items: seq<NavItemInput>, entries: seq<(string, Option<DropdownInput>)>)
    requires Consistent(n)
    ensures Consistent(ApplyAll(UpsertAll(n, items), {}, entries))
  {
    UpsertAllIndex(n, items);
    ApplyAllKeeps(UpsertAll(n, items), {}, entries);
  }

  // ---------------------------------------------------------------------
  // The tables as the store holds them, and deleting one nav item

  function TablesOf(db: Store): NavTables
    reads db
  {
    NavTables(db.navItems, db.navByKey, db.dropdowns, db.dropdownOf, db.dropdownItems)
  }

  /** `navItem.delete({ where: { id } })`: the row and its key go, nothing else. */
  function RemoveNavItem(n: NavTables, id: Id): NavTables
    requires id in n.items
  {
    n.(items := n.items - {id}, byKey := n.byKey - {n.items[id].key})
  }

  /** Deleting a nav item keeps the indexes consistent, drops exactly that
      row and its key, and leaves every other nav item and all dropdowns alone. */
  lemma RemoveNavItemFacts(n: NavTables, id: Id)
    requires Consistent(n) && id in n.items
    ensures var f := RemoveNavItem(n, id);
      && Consistent(f)
      && id !in f.items && n.items[id].key !in f.byKey
      && f.items.Keys == n.items.Keys - {id}
      && (forall o :: o in f.items ==> f.items[o] == n.items[o])
      && (forall k :: k in f.byKey ==> f.byKey[k] == n.byKey[k])
      && f.dropdowns == n.dropdowns && f.dropdownOf == n.dropdownOf && f.dropItems == n.dropItems
  {
    var f := RemoveNavItem(n, id);
    forall o | o in f.items ensures f.items[o].key in f.byKey && f.byKey[f.items[o].key] == o {
      assert n.byKey[n.items[o].key] == o;
    }
  }

  // ---------------------------------------------------------------------
  // The transaction's two loops over the tables

  /** Phase 1: one `upsert` per request item, in request order. */
  method UpsertNavItems(n: NavTables, navItems: seq<NavItemInput>) returns (f: NavTables)
    ensures f == UpsertAll(n, navItems)
  {
    var items, byKey := n.items, n.byKey;
    for i := 0 to |navItems|
      invariant UpsertAll(n.(items := items, byKey := byKey), navItems[i..]) == UpsertAll(n, navItems)
    {
      var item := navItems[i];
      var data := NavItemData(item);
      if item.key in byKey {
        items := items[byKey[item.key] := data];
      } else {
        var id := FreshId(items.Keys + n.dropdownOf.Keys);
        items, byKey := items[id := data], byKey[item.key := id];
      }
      assert navItems[i..][1..] == navItems[i + 1..];
    }
    assert navItems[|navItems|..] == [];
    f := n.(items := items, byKey := byKey);
  }

  /** Phase 2: for each entry of the dropdown record, find the nav item by
      key, retitle or create its dropdown, and recreate its items. */
  method ApplyDropdowns(n: NavTables, entries: seq<(string, Option<DropdownInput>)>) returns (f: NavTables)
    ensures f == ApplyAll(n, {}, entries)
  {
    var dropdowns, dropdownOf, dropItems := n.dropdowns, n.dropdownOf, n.dropItems;
    var used: set<Id> := {};
    for i := 0 to |entries|
      invariant ApplyAll(n.(dropdowns := dropdowns, dropdownOf := dropdownOf, dropItems := dropItems), used, entries[i..])
             == ApplyAll(n, {}, entries)
    {
      var (key, data) := entries[i];
      // every item id seen so far, including those about to be deleted
      var seen := used + dropItems.Keys;
      if key in n.byKey && data.Some? {
        var nid := n.byKey[key];
        var title := OrDefault(data.value.title, DefaultDropdownTitle);
        var did;
        if nid in dropdownOf && dropdownOf[nid] in dropdowns {
          did := dropdownOf[nid];
          dropdowns := dropdowns[did := dropdowns[did].(title := title)];
          dropItems := WithoutItemsOf(dropItems, did);
        } else {
          did := FreshId(dropdowns.Keys);
          dropdowns, dropdownOf := dropdowns[did := DropdownData(nid, title)], dropdownOf[nid := did];
        }
        if data.value.items.Some? {
          dropItems := CreateEach(dropItems, seen, DropdownItemRows(data.value.items.value, did));
        }
      }
      used := seen;
      assert entries[i..][1..] == entries[i + 1..];
    }
    assert entries[|entries|..] == [];
    f := n.(dropdowns := dropdowns, dropdownOf := dropdownOf, dropItems := dropItems);
  }
}
