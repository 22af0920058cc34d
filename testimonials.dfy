/** The testimonial reconciliation of the admin service: rows whose id the
    request does not name are deleted, request items with a known id update
    their row, and all other items create a row. */
module TestimonialSync {
  import opened Common
  import opened Records
  import opened Store

  /** An id the request means as a row id: present, non-empty and not a
      client-side placeholder starting with "temp-". */
  predicate IsRealId(id: Option<string>) {
    id.Some? && id.value != "" && !StartsWith(id.value, "temp-")
  }

  /** The ids the request keeps. */
  function RealIds(items: seq<TestimonialInput>): (r: set<Id>)
    ensures forall i :: 0 <= i < |items| && IsRealId(items[i].id) ==> items[i].id.value in r
    ensures forall x :: x in r ==> exists i :: 0 <= i < |items| && items[i].id == Some(x) && IsRealId(items[i].id)
  {
    set i | 0 <= i < |items| && IsRealId(items[i].id) :: items[i].id.value
  }

  /** Every id the request mentions, placeholders included. New rows never
      get one of these ids, as a database-generated id never equals an id the
      client made up. */
  function MentionedIds(items: seq<TestimonialInput>): (r: set<Id>)
    ensures forall i :: 0 <= i < |items| && items[i].id.Some? ==> items[i].id.value in r
  {
    set i | 0 <= i < |items| && items[i].id.Some? :: items[i].id.value
  }

  /** The rows left after step 3 deleted every row the request does not keep. */
  function Kept<R>(t: map<Id, R>, items: seq<TestimonialInput>): (r: map<Id, R>)
    ensures forall x :: x in r <==> x in t && x in RealIds(items)
    ensures forall x :: x in r ==> r[x] == t[x]
  {
    map x | x in t && x in RealIds(items) :: t[x]
  }

  /** A request item takes the update branch when its real id names a row of `keys`. */
  predicate Hits(item: TestimonialInput, keys: set<Id>) {
    IsRealId(item.id) && item.id.value in keys
  }

  /** How many request items take the update branch. */
  function CountHits(items: seq<TestimonialInput>, keys: set<Id>): (n: nat)
    ensures n <= |items|
  {
    if items == [] then 0 else (if Hits(items[0], keys) then 1 else 0) + CountHits(items[1..], keys)
  }

  /** The loop's running state; `R` is the row type, kept abstract so that the
      loop's properties do not depend on how a row is built. */
  datatype SyncState<R> = SyncState(table: map<Id, R>, created: nat, updated: nat)

  /** One pass of the step-4 loop body: `apply` gives the row after
      `update({ data })`, `make` the row `create({ data })` adds. */
  function Step<R>(s: SyncState<R>, avoid: set<Id>, item: TestimonialInput,
                   make: TestimonialInput -> R, apply: (R, TestimonialInput) -> R): SyncState<R> {
    if Hits(item, s.table.Keys) then
      var id := item.id.value;
      SyncState(s.table[id := apply(s.table[id], item)], s.created, s.updated + 1)
    else
      SyncState(s.table[FreshId(avoid + s.table.Keys) := make(item)], s.created + 1, s.updated)
  }

  /** The step-4 loop over the remaining request items. */
  function Sync<R>(s: SyncState<R>, avoid: set<Id>, items: seq<TestimonialInput>,
                   make: TestimonialInput -> R, apply: (R, TestimonialInput) -> R): SyncState<R>
    decreases |items|
  {
    if items == [] then s else Sync(Step(s, avoid, items[0], make, apply), avoid, items[1..], make, apply)
  }

  datatype Counts = Counts(createdCount: nat, updatedCount: nat, deletedCount: nat)

  /** The transaction of `updateTestimonials`: the new table and the counts it reports. */
  function Reconcile(t: map<Id, Testimonial>, items: seq<TestimonialInput>): (Counts, map<Id, Testimonial>) {
    var s := Sync(SyncState(Kept(t, items), 0, 0), Avoid(t, items), items, TestimonialData, ApplyTestimonial);
    (Counts(s.created, s.updated, |t.Keys - RealIds(items)|), s.table)
  }

  /** The error `updateTestimonials` reports when the transaction fails. */
  function FaultError(f: Fault): (e: Error)
    ensures f == UniqueViolation ==> e == BadRequest("Duplicate testimonial detected")
    ensures f == RecordMissing ==> e == NotFound("Testimonial not found")
    ensures f.OtherFault? && f.message != "" ==> e == BadRequest(f.message)
    ensures f.OtherFault? && f.message == "" ==> e == BadRequest("Failed to update testimonials")
  {
    match f
    case UniqueViolation => BadRequest("Duplicate testimonial detected")
    case RecordMissing => NotFound("Testimonial not found")
    case OtherFault(m) => BadRequest(if m != "" then m else "Failed to update testimonials")
  }

  // ---------------------------------------------------------------------
  // Properties of the loop

  /** A second update of the same row overrides the first completely. */
  lemma ApplyTwice(x: Testimonial, a: TestimonialInput, b: TestimonialInput)
    ensures ApplyTestimonial(ApplyTestimonial(x, a), b) == ApplyTestimonial(x, b)
  {
  }

  /** `j` is the last request item naming `x`. */
  predicate LastNaming(items: seq<TestimonialInput>, x: Id, j: int) {
    0 <= j < |items| && items[j].id == Some(x)
    && forall k :: j < k < |items| ==> items[k].id != Some(x)
  }

  /** Counting over two key sets that agree on every real id of the request
      gives the same number. */
  lemma {:induction false} CountHitsAgree(items: seq<TestimonialInput>, a: set<Id>, b: set<Id>)
    requires forall i :: 0 <= i < |items| && IsRealId(items[i].id) ==> (items[i].id.value in a <==> items[i].id.value in b)
    ensures CountHits(items, a) == CountHits(items, b)
  {
    if items != [] {
      forall i | 0 <= i < |items[1..]| && IsRealId(items[1..][i].id)
        ensures items[1..][i].id.value in a <==> items[1..][i].id.value in b
      {
        assert items[1..][i] == items[i + 1];
      }
      CountHitsAgree(items[1..], a, b);
    }
  }

  /** `s` agrees with `keys` on every id in `avoid`, which holds every id the
      items mention. */
  ghost predicate Agrees<R>(s: SyncState<R>, avoid: set<Id>, items: seq<TestimonialInput>, keys: set<Id>) {
    && (forall i :: 0 <= i < |items| && items[i].id.Some? ==> items[i].id.value in avoid)
    && (forall x :: x in avoid ==> (x in s.table <==> x in keys))
  }

  /** One pass of the loop body: an update exactly when the item names a row
      of `keys`, no row removed, rows outside `avoid` untouched, and a created
      row made from the item under an id outside `avoid`. */
  lemma StepFacts<R>(s: SyncState<R>, avoid: set<Id>, item: TestimonialInput, keys: set<Id>,
                     make: TestimonialInput -> R, apply: (R, TestimonialInput) -> R)
    requires item.id.Some? ==> item.id.value in avoid
    requires forall x :: x in avoid ==> (x in s.table <==> x in keys)
    ensures var s' := Step(s, avoid, item, make, apply);
      && (Hits(item, keys) ==> s'.updated == s.updated + 1 && s'.created == s.created && s'.table.Keys == s.table.Keys)
      && (!Hits(item, keys) ==> s'.updated == s.updated && s'.created == s.created + 1 && |s'.table| == |s.table| + 1)
      && (forall x :: x in avoid ==> (x in s'.table <==> x in keys))
      && (forall x :: x in s.table ==> x in s'.table)
      && (forall x :: x in s.table && x !in avoid ==> s'.table[x] == s.table[x])
      && (forall x :: x in s'.table && x !in s.table ==> x !in avoid && !Hits(item, keys) && s'.table[x] == make(item))
  {
    assert Hits(item, s.table.Keys) <==> Hits(item, keys);
  }

  lemma AgreesTail<R>(s: SyncState<R>, avoid: set<Id>, items: seq<TestimonialInput>, keys: set<Id>,
                      make: TestimonialInput -> R, apply: (R, TestimonialInput) -> R)
    requires items != [] && Agrees(s, avoid, items, keys)
    ensures Agrees(Step(s, avoid, items[0], make, apply), avoid, items[1..], keys)
  {
    StepFacts(s, avoid, items[0], keys, make, apply);
    forall i | 0 <= i < |items[1..]| && items[1..][i].id.Some? ensures items[1..][i].id.value in avoid {
      assert items[1..][i] == items[i + 1];
    }
  }

  /** The loop counts every item once, and counts as updates exactly the items
      whose id names a row. */
  lemma {:induction false} SyncCounts<R>(s: SyncState<R>, avoid: set<Id>, items: seq<TestimonialInput>, keys: set<Id>,
                                         make: TestimonialInput -> R, apply: (R, TestimonialInput) -> R)
    requires Agrees(s, avoid, items, keys)
    ensures var f := Sync(s, avoid, items, make, apply);
      && f.created + f.updated == s.created + s.updated + |items|
      && f.updated == s.updated + CountHits(items, keys)
      && |f.table| == |s.table| + (f.created - s.created)
    decreases |items|
  {
    if items != [] {
      StepFacts(s, avoid, items[0], keys, make, apply);
      AgreesTail(s, avoid, items, keys, make, apply);
      SyncCounts(Step(s, avoid, items[0], make, apply), avoid, items[1..], keys, make, apply);
    }
  }

  /** The loop removes no row, still agrees with `keys` on `avoid`, and
      leaves rows outside `avoid` alone. */
  lemma {:induction false} SyncKeys<R>(s: SyncState<R>, avoid: set<Id>, items: seq<TestimonialInput>, keys: set<Id>,
                                       make: TestimonialInput -> R, apply: (R, TestimonialInput) -> R)
    requires Agrees(s, avoid, items, keys)
    ensures var f := Sync(s, avoid, items, make, apply);
      && (forall x :: x in avoid ==> (x in f.table <==> x in keys))
      && (forall x :: x in s.table ==> x in f.table)
      && (forall x :: x in s.table && x !in avoid ==> f.table[x] == s.table[x])
    decreases |items|
  {
    if items != [] {
      StepFacts(s, avoid, items[0], keys, make, apply);
      AgreesTail(s, avoid, items, keys, make, apply);
      SyncKeys(Step(s, avoid, items[0], make, apply), avoid, items[1..], keys, make, apply);
    }
  }

  /** Every row the loop adds is made from an item that did not take the
      update branch, and the added rows are exactly the created ones, one
      per such item. */
  lemma SyncCreated<R>(s: SyncState<R>, avoid: set<Id>, items: seq<TestimonialInput>, keys: set<Id>,
                                          make: TestimonialInput -> R, apply: (R, TestimonialInput) -> R)
    requires Agrees(s, avoid, items, keys)
    ensures var f := Sync(s, avoid, items, make, apply);
      forall x :: x in f.table && x !in s.table ==>
        x !in avoid && exists i :: 0 <= i < |items| && !Hits(items[i], keys) && f.table[x] == make(items[i])
    ensures Exactly(Added(Sync(s, avoid, items, make, apply).table, s.table), NewRows(items, keys, make))
  {
    SyncCreatedFrom(s, avoid, items, keys, make, apply);
    SyncCreatedRows(s, avoid, items, keys, make, apply);
    ExactlyFromIds(Added(Sync(s, avoid, items, make, apply).table, s.table), NewRows(items, keys, make),
                   CreatedIds(s, avoid, items, make, apply));
  }

  lemma {:induction false} SyncCreatedFrom<R>(s: SyncState<R>, avoid: set<Id>, items: seq<TestimonialInput>, keys: set<Id>,
                                              make: TestimonialInput -> R, apply: (R, TestimonialInput) -> R)
    requires Agrees(s, avoid, items, keys)
    ensures var f := Sync(s, avoid, items, make, apply);
      forall x :: x in f.table && x !in s.table ==>
        x !in avoid && exists i :: 0 <= i < |items| && !Hits(items[i], keys) && f.table[x] == make(items[i])
    decreases |items|
  {
    if items != [] {
      var s' := Step(s, avoid, items[0], make, apply);
      StepFacts(s, avoid, items[0], keys, make, apply);
      AgreesTail(s, avoid, items, keys, make, apply);
      SyncCreatedFrom(s', avoid, items[1..], keys, make, apply);
      SyncKeys(s', avoid, items[1..], keys, make, apply);
      var f := Sync(s', avoid, items[1..], make, apply);
      assert Sync(s, avoid, items, make, apply) == f;
      forall x | x in f.table && x !in s.table
        ensures x !in avoid && exists i :: 0 <= i < |items| && !Hits(items[i], keys) && f.table[x] == make(items[i])
      {
        if x in s'.table {
          assert f.table[x] == s'.table[x];
          assert !Hits(items[0], keys) && f.table[x] == make(items[0]);
        } else {
          var i :| 0 <= i < |items[1..]| && !Hits(items[1..][i], keys) && f.table[x] == make(items[1..][i]);
          assert items[1..][i] == items[i + 1];
        }
      }
    }
  }

  /** The rows the create branch makes, in request order: one per item
      whose id names no row of `keys`. */
  function NewRows<R>(items: seq<TestimonialInput>, keys: set<Id>, make: TestimonialInput -> R): seq<R>
    decreases |items|
  {
    if items == [] then []
    else (if Hits(items[0], keys) then [] else [make(items[0])]) + NewRows(items[1..], keys, make)
  }

  /** The ids the loop gives the rows it creates, in order. */
  function CreatedIds<R>(s: SyncState<R>, avoid: set<Id>, items: seq<TestimonialInput>,
                         make: TestimonialInput -> R, apply: (R, TestimonialInput) -> R): seq<Id>
    decreases |items|
  {
    if items == [] then []
    else (if Hits(items[0], s.table.Keys) then [] else [FreshId(avoid + s.table.Keys)])
         + CreatedIds(Step(s, avoid, items[0], make, apply), avoid, items[1..], make, apply)
  }

  /** The rows the loop adds are the created rows, numbered one to one by
      the ids the loop gives them: every item that misses gets a row of its
      own. */
  lemma {:induction false} SyncCreatedRows<R>(s: SyncState<R>, avoid: set<Id>, items: seq<TestimonialInput>, keys: set<Id>,
                                              make: TestimonialInput -> R, apply: (R, TestimonialInput) -> R)
    requires Agrees(s, avoid, items, keys)
    ensures RowsUnder(Added(Sync(s, avoid, items, make, apply).table, s.table), NewRows(items, keys, make),
                      CreatedIds(s, avoid, items, make, apply))
    decreases |items|
  {
    if items == [] {
      assert Added(s.table, s.table) == map[];
    } else {
      var s' := Step(s, avoid, items[0], make, apply);
      StepFacts(s, avoid, items[0], keys, make, apply);
      AgreesTail(s, avoid, items, keys, make, apply);
      SyncCreatedRows(s', avoid, items[1..], keys, make, apply);
      var ft := Sync(s', avoid, items[1..], make, apply).table;
      var rest, ids' := NewRows(items[1..], keys, make), CreatedIds(s', avoid, items[1..], make, apply);
      if Hits(items[0], keys) {
        AddedAfterUpdate(ft, s.table, s'.table);
      } else {
        var id := FreshId(avoid + s.table.Keys);
        SyncKeys(s', avoid, items[1..], keys, make, apply);
        AddedAfterCreate(ft, s.table, id, make(items[0]), rest, ids');
      }
    }
  }

  /** An update step adds no id, so it changes nothing the loop adds later. */
  lemma AddedAfterUpdate<R>(ft: map<Id, R>, st: map<Id, R>, st': map<Id, R>)
    requires st'.Keys == st.Keys
    ensures Added(ft, st') == Added(ft, st)
  {
  }

  /** A create step puts its row first among the rows the loop adds. */
  lemma AddedAfterCreate<R>(ft: map<Id, R>, st: map<Id, R>, id: Id, v: R, rows: seq<R>, ids: seq<Id>)
    requires id !in st && id in ft && ft[id] == v
    requires RowsUnder(Added(ft, st[id := v]), rows, ids)
    ensures RowsUnder(Added(ft, st), [v] + rows, [id] + ids)
  {
    assert Added(ft, st) == Added(ft, st[id := v])[id := v];
    RowsUnderCons(Added(ft, st[id := v]), rows, ids, id, v);
  }

  /** Two key sets that agree on every real id of the request pick the same
      created rows. */
  lemma {:induction false} NewRowsAgree<R>(items: seq<TestimonialInput>, a: set<Id>, b: set<Id>, make: TestimonialInput -> R)
    requires forall i :: 0 <= i < |items| && IsRealId(items[i].id) ==> (items[i].id.value in a <==> items[i].id.value in b)
    ensures NewRows(items, a, make) == NewRows(items, b, make)
    decreases |items|
  {
    if items != [] {
      forall i | 0 <= i < |items[1..]| && IsRealId(items[1..][i].id)
        ensures items[1..][i].id.value in a <==> items[1..][i].id.value in b
      {
        assert items[1..][i] == items[i + 1];
      }
      NewRowsAgree(items[1..], a, b, make);
    }
  }

  /** A row no remaining item names keeps its contents. */
  lemma {:induction false} SyncUntouched<R>(s: SyncState<R>, avoid: set<Id>, items: seq<TestimonialInput>, x: Id,
                                            make: TestimonialInput -> R, apply: (R, TestimonialInput) -> R)
    requires x in s.table
    requires forall k :: 0 <= k < |items| ==> items[k].id != Some(x)
    ensures x in Sync(s, avoid, items, make, apply).table
    ensures Sync(s, avoid, items, make, apply).table[x] == s.table[x]
    decreases |items|
  {
    if items != [] {
      SyncUntouched(Step(s, avoid, items[0], make, apply), avoid, items[1..], x, make, apply);
    }
  }

  /** A row that the request names holds the data of the last item naming it,
      when a later update overrides an earlier one. */
  lemma {:induction false} SyncLastWins<R>(s: SyncState<R>, avoid: set<Id>, items: seq<TestimonialInput>, x: Id, j: int,
                                           make: TestimonialInput -> R, apply: (R, TestimonialInput) -> R)
    requires x in s.table && IsRealId(Some(x)) && LastNaming(items, x, j)
    requires forall r, a, b :: apply(apply(r, a), b) == apply(r, b)
    ensures x in Sync(s, avoid, items, make, apply).table
    ensures Sync(s, avoid, items, make, apply).table[x] == apply(s.table[x], items[j])
    decreases |items|
  {
    var s' := Step(s, avoid, items[0], make, apply);
    assert x in s'.table;
    if j == 0 {
      assert s'.table[x] == apply(s.table[x], items[0]);
      SyncUntouched(s', avoid, items[1..], x, make, apply);
    } else {
      assert LastNaming(items[1..], x, j - 1);
      SyncLastWins(s', avoid, items[1..], x, j - 1, make, apply);
      if items[0].id != Some(x) {
        assert s'.table[x] == s.table[x];
      }
    }
  }

  lemma DeletedCardinality<R>(t: map<Id, R>, keep: set<Id>)
    ensures |t.Keys - keep| + |t.Keys * keep| == |t|
  {
    assert t.Keys == (t.Keys - keep) + (t.Keys * keep);
    assert (t.Keys - keep) * (t.Keys * keep) == {};
  }

  /** The state the loop starts from, and the ids new rows avoid. */
  function Avoid<R>(t: map<Id, R>, items: seq<TestimonialInput>): set<Id> {
    t.Keys + MentionedIds(items)
  }

  lemma StartAgrees<R>(t: map<Id, R>, items: seq<TestimonialInput>)
    ensures Agrees(SyncState(Kept(t, items), 0, 0), Avoid(t, items), items, Kept(t, items).Keys)
  {
  }

  /** The counts `updateTestimonials` reports: every item is counted once as
      created or updated, the updates are exactly the items whose real id names
      an existing row, and the table grows by the created count and shrinks by
      the deleted count. */
  lemma {:induction false} ReconcileCounts(t: map<Id, Testimonial>, items: seq<TestimonialInput>)
    ensures var (c, r) := Reconcile(t, items);
      && c.createdCount + c.updatedCount == |items|
      && c.updatedCount == CountHits(items, t.Keys)
      && |r| + c.deletedCount == |t| + c.createdCount
  {
    KeptSyncCounts(t, items, TestimonialData, ApplyTestimonial);
  }

  /** The counts of the loop started from the kept rows, for any row type. */
  lemma {:induction false} KeptSyncCounts<R>(t: map<Id, R>, items: seq<TestimonialInput>,
                                             make: TestimonialInput -> R, apply: (R, TestimonialInput) -> R)
    ensures var s := Sync(SyncState(Kept(t, items), 0, 0), Avoid(t, items), items, make, apply);
      && s.created + s.updated == |items|
      && s.updated == CountHits(items, t.Keys)
      && |s.table| + |t.Keys - RealIds(items)| == |t| + s.created
  {
    var kept := Kept(t, items);
    var s := Sync(SyncState(kept, 0, 0), Avoid(t, items), items, make, apply);
    StartAgrees(t, items);
    SyncCounts(SyncState(kept, 0, 0), Avoid(t, items), items, kept.Keys, make, apply);
    assert s.updated == CountHits(items, t.Keys) by {
      forall i | 0 <= i < |items| && IsRealId(items[i].id)
        ensures items[i].id.value in kept.Keys <==> items[i].id.value in t.Keys
      {
      }
      CountHitsAgree(items, kept.Keys, t.Keys);
    }
    assert |kept| == |t.Keys * RealIds(items)| by {
      assert kept.Keys == t.Keys * RealIds(items);
    }
    DeletedCardinality(t, RealIds(items));
  }

  /** An existing row survives exactly when the request names it by a real
      id, and then holds the data of the last item naming it (its category
      kept). */
  lemma {:induction false} ReconcileExisting(t: map<Id, Testimonial>, items: seq<TestimonialInput>)
    ensures var (_, r) := Reconcile(t, items);
      && (forall x :: x in t ==> (x in r <==> x in RealIds(items)))
      && (forall x, j :: x in t && x in r && LastNaming(items, x, j) ==> r[x] == ApplyTestimonial(t[x], items[j]))
  {
    var kept := Kept(t, items);
    var s0 := SyncState(kept, 0, 0);
    StartAgrees(t, items);
    SyncKeys(s0, Avoid(t, items), items, kept.Keys, TestimonialData, ApplyTestimonial);
    var f := Sync(s0, Avoid(t, items), items, TestimonialData, ApplyTestimonial);
    forall r, a, b ensures ApplyTestimonial(ApplyTestimonial(r, a), b) == ApplyTestimonial(r, b) {
      ApplyTwice(r, a, b);
    }
    forall x, j | x in t && x in f.table && LastNaming(items, x, j)
      ensures f.table[x] == ApplyTestimonial(t[x], items[j])
    {
      assert x in kept;
      SyncLastWins(s0, Avoid(t, items), items, x, j, TestimonialData, ApplyTestimonial);
    }
  }

  /** Every row that was not in the table before is a new row made from an
      item that did not take the update branch, and the new rows are exactly
      the created ones: each such item has a row of its own. */
  lemma {:induction false} ReconcileCreated(t: map<Id, Testimonial>, items: seq<TestimonialInput>)
    ensures var (_, r) := Reconcile(t, items);
      forall x :: x in r && x !in t ==>
        exists i :: 0 <= i < |items| && !Hits(items[i], t.Keys) && r[x] == TestimonialData(items[i])
    ensures var (_, r) := Reconcile(t, items);
      Exactly(Added(r, t), NewRows(items, t.Keys, TestimonialData))
  {
    ReconcileCreatedFrom(t, items);
    ReconcileCreatedExactly(t, items);
  }

  lemma {:induction false} ReconcileCreatedFrom(t: map<Id, Testimonial>, items: seq<TestimonialInput>)
    ensures var (_, r) := Reconcile(t, items);
      forall x :: x in r && x !in t ==>
        exists i :: 0 <= i < |items| && !Hits(items[i], t.Keys) && r[x] == TestimonialData(items[i])
  {
    var kept := Kept(t, items);
    var s0 := SyncState(kept, 0, 0);
    StartAgrees(t, items);
    SyncCreated(s0, Avoid(t, items), items, kept.Keys, TestimonialData, ApplyTestimonial);
    var f := Sync(s0, Avoid(t, items), items, TestimonialData, ApplyTestimonial);
    forall x | x in f.table && x !in t
      ensures exists i :: 0 <= i < |items| && !Hits(items[i], t.Keys) && f.table[x] == TestimonialData(items[i])
    {
      var i :| 0 <= i < |items| && !Hits(items[i], kept.Keys) && f.table[x] == TestimonialData(items[i]);
    }
  }

  /** The rows the transaction adds are exactly the created rows, one each. */
  lemma {:induction false} ReconcileCreatedExactly(t: map<Id, Testimonial>, items: seq<TestimonialInput>)
    ensures var (_, r) := Reconcile(t, items);
      Exactly(Added(r, t), NewRows(items, t.Keys, TestimonialData))
  {
    var kept := Kept(t, items);
    var s0 := SyncState(kept, 0, 0);
    var avoid := Avoid(t, items);
    StartAgrees(t, items);
    SyncKeys(s0, avoid, items, kept.Keys, TestimonialData, ApplyTestimonial);
    SyncCreatedRows(s0, avoid, items, kept.Keys, TestimonialData, ApplyTestimonial);
    var f := Sync(s0, avoid, items, TestimonialData, ApplyTestimonial);
    assert Added(f.table, kept) == Added(f.table, t);
    NewRowsAgree(items, kept.Keys, t.Keys, TestimonialData);
    var ids := CreatedIds(s0, avoid, items, TestimonialData, ApplyTestimonial);
    ExactlyFromIds(Added(f.table, t), NewRows(items, t.Keys, TestimonialData), ids);
  }

  /** An item that misses is among the created rows. */
  lemma {:induction false} NewRowsHas<R>(items: seq<TestimonialInput>, keys: set<Id>, make: TestimonialInput -> R, i: int)
    requires 0 <= i < |items| && !Hits(items[i], keys)
    ensures make(items[i]) in NewRows(items, keys, make)
    decreases |items|
  {
    if i > 0 {
      assert items[1..][i - 1] == items[i];
      NewRowsHas(items[1..], keys, make, i - 1);
    }
  }

  /** No created item is lost: every item whose id names no stored row has
      its data in a row the transaction added. */
  lemma ReconcileCreatesEach(t: map<Id, Testimonial>, items: seq<TestimonialInput>, i: int)
    requires 0 <= i < |items| && !Hits(items[i], t.Keys)
    ensures var (_, r) := Reconcile(t, items);
      exists x :: x in r && x !in t && r[x] == TestimonialData(items[i])
  {
    var r := Reconcile(t, items).1;
    ReconcileCreatedExactly(t, items);
    ExactlyValues(Added(r, t), NewRows(items, t.Keys, TestimonialData));
    NewRowsHas(items, t.Keys, TestimonialData, i);
    var x :| x in Added(r, t) && Added(r, t)[x] == TestimonialData(items[i]);
  }

  // ---------------------------------------------------------------------
  // The transaction as it runs

  lemma SyncUnfold<R>(s: SyncState<R>, avoid: set<Id>, items: seq<TestimonialInput>,
                      make: TestimonialInput -> R, apply: (R, TestimonialInput) -> R)
    requires items != []
    ensures Sync(s, avoid, items, make, apply) == Sync(Step(s, avoid, items[0], make, apply), avoid, items[1..], make, apply)
  {
  }

  lemma StepUpdates<R>(s: SyncState<R>, avoid: set<Id>, item: TestimonialInput,
                       make: TestimonialInput -> R, apply: (R, TestimonialInput) -> R)
    requires IsRealId(item.id) && item.id.value in s.table
    ensures Step(s, avoid, item, make, apply)
         == SyncState(s.table[item.id.value := apply(s.table[item.id.value], item)], s.created, s.updated + 1)
  {
    assert Hits(item, s.table.Keys);
  }

  lemma StepCreates<R>(s: SyncState<R>, avoid: set<Id>, item: TestimonialInput,
                       make: TestimonialInput -> R, apply: (R, TestimonialInput) -> R)
    requires !(IsRealId(item.id) && item.id.value in s.table)
    ensures Step(s, avoid, item, make, apply)
         == SyncState(s.table[FreshId(avoid + s.table.Keys) := make(item)], s.created + 1, s.updated)
  {
    assert !Hits(item, s.table.Keys);
  }

  /** Steps 1 to 4 of `updateTestimonials`: collect the existing and the
      incoming ids, delete the difference, then update or create one row per
      request item while counting. */
  method RunReconcile(t: map<Id, Testimonial>, items: seq<TestimonialInput>) returns (c: Counts, table: map<Id, Testimonial>)
    ensures (c, table) == Reconcile(t, items)
  {
    var existing := t.Keys;
    var incoming := RealIds(items);
    var toDelete := existing - incoming;
    var s := RunSync(Kept(t, items), Avoid(t, items), items, TestimonialData, ApplyTestimonial);
    c, table := Counts(s.created, s.updated, |toDelete|), s.table;
  }

  /** The step-4 loop: `make` builds a created row, `apply` an updated one. */
  method RunSync<R>(kept: map<Id, R>, avoid: set<Id>, items: seq<TestimonialInput>,
                    make: TestimonialInput -> R, apply: (R, TestimonialInput) -> R) returns (s: SyncState<R>)
    ensures s == Sync(SyncState(kept, 0, 0), avoid, items, make, apply)
  {
    var table := kept;
    var created: nat, updated: nat := 0, 0;
    for i := 0 to |items|
      invariant Sync(SyncState(table, created, updated), avoid, items[i..], make, apply)
             == Sync(SyncState(kept, 0, 0), avoid, items, make, apply)
    {
      var item := items[i];
      ghost var s := SyncState(table, created, updated);
      assert items[i..][0] == item && items[i..][1..] == items[i + 1..];
      SyncUnfold(s, avoid, items[i..], make, apply);
      if IsRealId(item.id) && item.id.value in table {
        StepUpdates(s, avoid, item, make, apply);
        table := table[item.id.value := apply(table[item.id.value], item)];
        updated := updated + 1;
      } else {
        StepCreates(s, avoid, item, make, apply);
        table := table[FreshId(avoid + table.Keys) := make(item)];
        created := created + 1;
      }
      assert SyncState(table, created, updated) == Step(s, avoid, item, make, apply);
    }
    assert items[|items|..] == [];
    s := SyncState(table, created, updated);
  }
}
