/** The content database as the services see it through the Prisma client:
    one table per model, keyed by row id, plus the unique indexes the
    services look rows up by. */
module Store {
  import opened Common
  import opened Records

  /** `byKey` is the unique index on `NavItem.key`: it maps each key a row
      holds to that row, and nothing else. */
  ghost predicate NavIndexed(rows: map<Id, NavItem>, byKey: map<string, Id>) {
    && (forall id :: id in rows ==> rows[id].key in byKey && byKey[rows[id].key] == id)
    && (forall k :: k in byKey ==> byKey[k] in rows && rows[byKey[k]].key == k)
  }

  /** `dropdownOf` is the unique index on `DropdownData.navItemId`. */
  ghost predicate DropdownIndexed(rows: map<Id, DropdownData>, dropdownOf: map<Id, Id>) {
    && (forall id :: id in rows ==> rows[id].navItemId in dropdownOf && dropdownOf[rows[id].navItemId] == id)
    && (forall k :: k in dropdownOf ==> dropdownOf[k] in rows && rows[dropdownOf[k]].navItemId == k)
  }

  /** `byKey` is the unique index on `SectionContent.sectionKey`. */
  ghost predicate SectionIndexed(rows: map<Id, SectionContent>, byKey: map<string, Id>) {
    && (forall id :: id in rows ==> rows[id].sectionKey in byKey && byKey[rows[id].sectionKey] == id)
    && (forall k :: k in byKey ==> byKey[k] in rows && rows[byKey[k]].sectionKey == k)
  }

  /** `byKey` is the unique index on `PageContent.pageKey`. */
  ghost predicate PageIndexed(rows: map<Id, PageContent>, byKey: map<string, Id>) {
    && (forall id :: id in rows ==> rows[id].pageKey in byKey && byKey[rows[id].pageKey] == id)
    && (forall k :: k in byKey ==> byKey[k] in rows && rows[byKey[k]].pageKey == k)
  }

  /** The unique constraint on `Service.slug`. */
  ghost predicate SlugsUnique(services: map<Id, Service>) {
    forall a, b :: a in services && b in services && a != b ==> services[a].slug != services[b].slug
  }

  /** The navigation tables agree with their two indexes and every dropdown
      item belongs to a dropdown. */
  ghost predicate NavConsistent(items: map<Id, NavItem>, byKey: map<string, Id>, dropdowns: map<Id, DropdownData>,
                                dropdownOf: map<Id, Id>, dropItems: map<Id, DropdownItem>) {
    && NavIndexed(items, byKey)
    && DropdownIndexed(dropdowns, dropdownOf)
    && (forall i :: i in dropItems ==> dropItems[i].dropdownDataId in dropdowns)
  }

  class Store {
    var navItems: map<Id, NavItem>
    var navByKey: map<string, Id>
    var dropdowns: map<Id, DropdownData>
    /** The unique index on `DropdownData.navItemId`. */
    var dropdownOf: map<Id, Id>
    var dropdownItems: map<Id, DropdownItem>
    var themes: map<Id, ThemeConfig>
    var heroContents: map<Id, HeroContent>
    var heroDashboards: map<Id, HeroDashboard>
    var services: map<Id, Service>
    var testimonials: map<Id, Testimonial>
    var stats: map<Id, Stat>
    var sections: map<Id, SectionContent>
    var sectionByKey: map<string, Id>
    var footerSections: map<Id, FooterSection>
    var footerLinks: map<Id, FooterLink>
    var contactInfos: map<Id, ContactInfo>
    var socialLinks: map<Id, SocialLink>
    var pages: map<Id, PageContent>
    var pageByKey: map<string, Id>
    var ctas: map<Id, CallToAction>
    var submissions: map<Id, ContactSubmission>
    var files: map<Id, FileUpload>

    /** The nav tables are consistent. */
    ghost predicate NavValid()
      reads this`navItems, this`navByKey, this`dropdowns, this`dropdownOf, this`dropdownItems
    {
      NavConsistent(navItems, navByKey, dropdowns, dropdownOf, dropdownItems)
    }

    /** Service slugs are unique. */
    ghost predicate ServicesValid()
      reads this`services
    {
      SlugsUnique(services)
    }

    /** The section key index agrees with its table. */
    ghost predicate SectionsValid()
      reads this`sections, this`sectionByKey
    {
      SectionIndexed(sections, sectionByKey)
    }

    /** Every footer link belongs to a footer section. */
    ghost predicate FooterValid()
      reads this`footerSections, this`footerLinks
    {
      forall l :: l in footerLinks ==> footerLinks[l].footerSectionId in footerSections
    }

    /** The page key index agrees with its table. */
    ghost predicate PagesValid()
      reads this`pages, this`pageByKey
    {
      PageIndexed(pages, pageByKey)
    }

    /** The unique indexes and foreign keys the schema enforces. A write
        keeps the part of it that reads the tables the write changes; its
        `modifies` frame keeps the rest. */
    ghost predicate Valid()
      reads this`navItems, this`navByKey, this`dropdowns, this`dropdownOf, this`dropdownItems
      reads this`services, this`sections, this`sectionByKey, this`footerSections, this`footerLinks
      reads this`pages, this`pageByKey
    {
      NavValid() && ServicesValid() && SectionsValid() && FooterValid() && PagesValid()
    }

    constructor ()
      ensures Valid()
      ensures navItems == map[] && dropdowns == map[] && dropdownItems == map[]
      ensures services == map[] && testimonials == map[] && files == map[]
    {
      navItems, navByKey, dropdowns, dropdownOf, dropdownItems := map[], map[], map[], map[], map[];
      themes, heroContents, heroDashboards, services, testimonials := map[], map[], map[], map[], map[];
      stats, sections, sectionByKey, footerSections, footerLinks := map[], map[], map[], map[], map[];
      contactInfos, socialLinks, pages, pageByKey, ctas := map[], map[], map[], map[], map[];
      submissions, files := map[], map[];
    }

    /** Commits the nav tables of a transaction that kept them consistent. */
    method SetNav(items: map<Id, NavItem>, byKey: map<string, Id>, dropdowns: map<Id, DropdownData>,
                  dropdownOf: map<Id, Id>, dropItems: map<Id, DropdownItem>)
      requires NavConsistent(items, byKey, dropdowns, dropdownOf, dropItems)
      modifies this`navItems, this`navByKey, this`dropdowns, this`dropdownOf, this`dropdownItems
      ensures NavValid()
      ensures navItems == items && navByKey == byKey && this.dropdowns == dropdowns
      ensures this.dropdownOf == dropdownOf && dropdownItems == dropItems
    {
      navItems, navByKey, this.dropdowns, this.dropdownOf, dropdownItems := items, byKey, dropdowns, dropdownOf, dropItems;
    }
  }

  // ---------------------------------------------------------------------
  // Writes

  /** The table after `create` is called once per row, in order: each new row
      gets an id that is neither in `avoid` nor already in the table. */
  function Append<R>(t: map<Id, R>, avoid: set<Id>, rows: seq<R>): map<Id, R>
    decreases |rows|
  {
    if rows == [] then t
    else var id := FreshId(avoid + t.Keys); Append(t[id := rows[0]], avoid, rows[1..])
  }

  /** The ids `Append` gives the rows, in order. */
  function AppendedIds<R>(t: map<Id, R>, avoid: set<Id>, rows: seq<R>): seq<Id>
    decreases |rows|
  {
    if rows == [] then []
    else var id := FreshId(avoid + t.Keys); [id] + AppendedIds(t[id := rows[0]], avoid, rows[1..])
  }

  /** The ids given to created rows are distinct, new to the table and
      outside `avoid`. */
  lemma {:induction false} AppendedIdsFresh<R>(t: map<Id, R>, avoid: set<Id>, rows: seq<R>)
    ensures |AppendedIds(t, avoid, rows)| == |rows|
    ensures forall i :: 0 <= i < |rows| ==>
      AppendedIds(t, avoid, rows)[i] !in avoid && AppendedIds(t, avoid, rows)[i] !in t
    ensures forall i, j :: 0 <= i < j < |rows| ==> AppendedIds(t, avoid, rows)[i] != AppendedIds(t, avoid, rows)[j]
    decreases |rows|
  {
    if rows != [] {
      var id := FreshId(avoid + t.Keys);
      var t' := t[id := rows[0]];
      AppendedIdsFresh(t', avoid, rows[1..]);
      var ids' := AppendedIds(t', avoid, rows[1..]);
      assert AppendedIds(t, avoid, rows) == [id] + ids';
    }
  }

  /** Creating rows adds exactly one row per input, under the id listed for it
      and holding that input's data, and leaves the existing rows as they were. */
  lemma {:induction false} AppendContents<R>(t: map<Id, R>, avoid: set<Id>, rows: seq<R>)
    ensures |Append(t, avoid, rows)| == |t| + |rows| && |AppendedIds(t, avoid, rows)| == |rows|
    ensures forall k :: k in t ==> k in Append(t, avoid, rows) && Append(t, avoid, rows)[k] == t[k]
    ensures forall i :: 0 <= i < |rows| ==>
      AppendedIds(t, avoid, rows)[i] in Append(t, avoid, rows)
      && Append(t, avoid, rows)[AppendedIds(t, avoid, rows)[i]] == rows[i]
    ensures forall k :: k in Append(t, avoid, rows) ==> k in t || k in AppendedIds(t, avoid, rows)
    decreases |rows|
  {
    AppendedIdsFresh(t, avoid, rows);
    if rows != [] {
      var id := FreshId(avoid + t.Keys);
      var t' := t[id := rows[0]];
      AppendContents(t', avoid, rows[1..]);
      var ids' := AppendedIds(t', avoid, rows[1..]);
      var r := Append(t, avoid, rows);
      assert r == Append(t', avoid, rows[1..]);
      assert AppendedIds(t, avoid, rows) == [id] + ids';
      forall i | 0 < i < |rows|
        ensures AppendedIds(t, avoid, rows)[i] in r && r[AppendedIds(t, avoid, rows)[i]] == rows[i]
      {
        assert AppendedIds(t, avoid, rows)[i] == ids'[i - 1];
        assert rows[1..][i - 1] == rows[i];
      }
    }
  }

  /** `ids` are distinct, are all the keys of `its`, and the i-th of them
      holds the i-th row. */
  ghost predicate RowsUnder<R>(its: map<Id, R>, rows: seq<R>, ids: seq<Id>) {
    && |ids| == |rows| && its.Keys == Elems(ids)
    && (forall i, j :: 0 <= i < j < |ids| ==> ids[i] != ids[j])
    && (forall i :: 0 <= i < |rows| ==> ids[i] in its && its[ids[i]] == rows[i])
  }

  /** A table holds exactly `rows`, one row each: its rows can be numbered
      one to one with the requested ones, so a repeated row is stored as
      often as it was requested. */
  ghost predicate Exactly<R>(its: map<Id, R>, rows: seq<R>) {
    exists ids :: RowsUnder(its, rows, ids)
  }

  lemma ExactlyFromIds<R>(its: map<Id, R>, rows: seq<R>, ids: seq<Id>)
    requires |ids| == |rows| && its.Keys == Elems(ids)
    requires forall i, j :: 0 <= i < j < |ids| ==> ids[i] != ids[j]
    requires forall i :: 0 <= i < |rows| ==> ids[i] in its && its[ids[i]] == rows[i]
    ensures Exactly(its, rows)
  {
    assert RowsUnder(its, rows, ids);
  }

  /** Putting one more row in front, under an id not yet used. */
  lemma RowsUnderCons<R>(its: map<Id, R>, rows: seq<R>, ids: seq<Id>, id: Id, v: R)
    requires RowsUnder(its, rows, ids) && id !in its
    ensures RowsUnder(its[id := v], [v] + rows, [id] + ids)
  {
    var its', rows', ids' := its[id := v], [v] + rows, [id] + ids;
    assert Elems(ids') == {id} + Elems(ids);
    forall i, j | 0 <= i < j < |ids'| ensures ids'[i] != ids'[j] {
      if i > 0 { assert ids'[i] == ids[i - 1] && ids'[j] == ids[j - 1]; }
      else { assert ids'[j] == ids[j - 1] && ids[j - 1] in its; }
    }
    forall i | 0 <= i < |rows'| ensures ids'[i] in its' && its'[ids'[i]] == rows'[i] {
      if i > 0 { assert ids'[i] == ids[i - 1] && rows'[i] == rows[i - 1] && ids[i - 1] in its; }
    }
  }

  /** A table holding exactly `rows` has one entry per row, and its values
      are the requested rows. */
  lemma ExactlyValues<R>(its: map<Id, R>, rows: seq<R>)
    requires Exactly(its, rows)
    ensures |its| == |rows| && its.Values == Elems(rows)
  {
    var ids :| RowsUnder(its, rows, ids);
    ValuesFromIds(its, rows, ids);
  }

  /** A row requested twice is stored twice, under two different ids. */
  lemma ExactlyKeepsCopies<R>(its: map<Id, R>, rows: seq<R>, i: nat, j: nat)
    requires Exactly(its, rows) && i < j < |rows| && rows[i] == rows[j]
    ensures exists a, b :: a in its && b in its && a != b && its[a] == rows[i] && its[b] == rows[i]
  {
    var ids :| RowsUnder(its, rows, ids);
    assert ids[i] in its && ids[j] in its && ids[i] != ids[j];
  }

  lemma ValuesFromIds<R>(its: map<Id, R>, rows: seq<R>, ids: seq<Id>)
    requires |ids| == |rows| && its.Keys == Elems(ids)
    requires forall i, j :: 0 <= i < j < |ids| ==> ids[i] != ids[j]
    requires forall i :: 0 <= i < |rows| ==> ids[i] in its && its[ids[i]] == rows[i]
    ensures |its| == |rows| && its.Values == Elems(rows)
  {
    ExactlySize(its, ids);
    forall v | v in its.Values ensures v in Elems(rows) {
      var k :| k in its && its[k] == v;
      var i :| 0 <= i < |ids| && ids[i] == k;
    }
    forall v | v in Elems(rows) ensures v in its.Values {
      var i :| 0 <= i < |rows| && rows[i] == v;
      assert its[ids[i]] == v;
    }
  }

  lemma ExactlySize<R>(its: map<Id, R>, ids: seq<Id>)
    requires its.Keys == Elems(ids)
    requires forall i, j :: 0 <= i < j < |ids| ==> ids[i] != ids[j]
    ensures |its| == |ids|
  {
    DistinctCard(ids);
    assert |its| == |its.Keys|;
  }

  /** Creating `rows` one by one in an empty table leaves exactly those rows. */
  lemma AppendExactly<R>(avoid: set<Id>, rows: seq<R>)
    ensures Exactly(Append(map[], avoid, rows), rows)
  {
    AppendContents(map[], avoid, rows);
    AppendedIdsFresh(map[], avoid, rows);
    var t, ids := Append(map[], avoid, rows), AppendedIds(map[], avoid, rows);
    forall k | k in Elems(ids) ensures k in t {
      var i :| 0 <= i < |ids| && ids[i] == k;
    }
    assert t.Keys == Elems(ids);
    ExactlyFromIds(t, rows, ids);
  }

  /** The request index a created row comes from. */
  lemma AppendOrigin<R>(avoid: set<Id>, rows: seq<R>, k: Id) returns (i: nat)
    requires k in Append(map[], avoid, rows)
    ensures i < |rows| == |AppendedIds(map[], avoid, rows)|
    ensures AppendedIds(map[], avoid, rows)[i] == k && Append(map[], avoid, rows)[k] == rows[i]
  {
    AppendContents(map[], avoid, rows);
    var ids := AppendedIds(map[], avoid, rows);
    assert k in ids;
    i :| 0 <= i < |ids| && ids[i] == k;
  }

  /** The rows of `r` that `t` did not have. */
  function Added<R>(r: map<Id, R>, t: map<Id, R>): (a: map<Id, R>)
    ensures forall k :: k in a <==> k in r && k !in t
    ensures forall k :: k in a ==> a[k] == r[k]
  {
    map k | k in r && k !in t :: r[k]
  }

  /** The rows appending adds to a part of `prior`, when the part lacks
      only ids it avoids, are the appended ones ... */
  lemma AddedKeys<R>(kept: map<Id, R>, prior: map<Id, R>, avoid: set<Id>, rows: seq<R>)
    requires kept.Keys <= prior.Keys <= avoid + kept.Keys
    ensures Added(Append(kept, avoid, rows), prior).Keys == Elems(AppendedIds(kept, avoid, rows))
  {
    var ids := AppendedIds(kept, avoid, rows);
    var added := Added(Append(kept, avoid, rows), prior);
    AppendContents(kept, avoid, rows);
    AppendedIdsFresh(kept, avoid, rows);
    forall k | k in Elems(ids) ensures k in added {
      var i :| 0 <= i < |ids| && ids[i] == k;
    }
  }

  /** ... each under the id listed for it. */
  lemma AddedValues<R>(kept: map<Id, R>, prior: map<Id, R>, avoid: set<Id>, rows: seq<R>)
    requires kept.Keys <= prior.Keys <= avoid + kept.Keys
    ensures |AppendedIds(kept, avoid, rows)| == |rows|
    ensures forall i :: 0 <= i < |rows| ==>
      AppendedIds(kept, avoid, rows)[i] in Added(Append(kept, avoid, rows), prior)
      && Added(Append(kept, avoid, rows), prior)[AppendedIds(kept, avoid, rows)[i]] == rows[i]
  {
    AppendContents(kept, avoid, rows);
    AppendedIdsFresh(kept, avoid, rows);
  }

  /** Appending to a part of `prior` while avoiding the ids of `prior` the
      part lacks adds exactly the appended rows. */
  lemma AppendAddsExactly<R>(kept: map<Id, R>, prior: map<Id, R>, avoid: set<Id>, rows: seq<R>)
    requires kept.Keys <= prior.Keys <= avoid + kept.Keys
    ensures Exactly(Added(Append(kept, avoid, rows), prior), rows)
  {
    AppendedIdsFresh(kept, avoid, rows);
    AddedKeys(kept, prior, avoid, rows);
    AddedValues(kept, prior, avoid, rows);
    ExactlyFromIds(Added(Append(kept, avoid, rows), prior), rows, AppendedIds(kept, avoid, rows));
  }

  /** The rows of `t` that satisfy `p`, as `where` selects them. */
  function Where<R>(t: map<Id, R>, p: R -> bool): (r: map<Id, R>)
    ensures forall k :: k in r <==> k in t && p(t[k])
    ensures forall k :: k in r ==> r[k] == t[k]
  {
    map k | k in t && p(t[k]) :: t[k]
  }

  /** `create` called once per row, in order. */
  method CreateEach<R>(t: map<Id, R>, avoid: set<Id>, rows: seq<R>) returns (r: map<Id, R>)
    ensures r == Append(t, avoid, rows)
  {
    r := t;
    for i := 0 to |rows|
      invariant Append(r, avoid, rows[i..]) == Append(t, avoid, rows)
    {
      assert rows[i..][1..] == rows[i + 1..];
      r := r[FreshId(avoid + r.Keys) := rows[i]];
    }
    assert rows[|rows|..] == [];
  }

  /** Creating row `i` is one step of `Append` over the rows from `i` on. */
  lemma AppendStep<R>(t: map<Id, R>, avoid: set<Id>, rows: seq<R>, i: nat)
    requires i < |rows|
    ensures Append(t[FreshId(avoid + t.Keys) := rows[i]], avoid, rows[i + 1..]) == Append(t, avoid, rows[i..])
  {
    assert rows[i..][0] == rows[i] && rows[i..][1..] == rows[i + 1..];
  }

  // ---------------------------------------------------------------------
  // Reads

  /** The (id, row) pairs of a table. */
  ghost function Pairs<R>(m: map<Id, R>): set<(Id, R)> {
    set id | id in m :: (id, m[id])
  }

  /** `r` lists every row of `m` exactly once, in some order. */
  ghost predicate Listing<R>(r: seq<(Id, R)>, m: map<Id, R>) {
    multiset(r) == multiset(Pairs(m))
  }

  /** `orderBy: { <column>: 'asc' }` with `key` giving the column. */
  predicate OrderedBy<R>(r: seq<(Id, R)>, key: R -> int) {
    forall i, j :: 0 <= i < j < |r| ==> key(r[i].1) <= key(r[j].1)
  }

  /** A sequence with the multiset of a set holds no element twice. */
  lemma NoRepeats<T>(r: seq<T>, s: set<T>)
    requires multiset(r) == multiset(s)
    ensures forall i, j :: 0 <= i < j < |r| ==> r[i] != r[j]
  {
    forall i, j | 0 <= i < j < |r| ensures r[i] != r[j] {
      assert r == r[..j] + [r[j]] + r[j + 1..];
      assert multiset(r)[r[j]] == multiset(r[..j])[r[j]] + 1 + multiset(r[j + 1..])[r[j]];
      assert r[i] in r[..j];
    }
  }

  /** What a listing says about its entries: each is a row of the table under
      its own id, no id appears twice, and every row appears. */
  lemma ListingFacts<R>(r: seq<(Id, R)>, m: map<Id, R>)
    requires Listing(r, m)
    ensures forall i :: 0 <= i < |r| ==> r[i].0 in m && m[r[i].0] == r[i].1
    ensures forall id :: id in m ==> (id, m[id]) in r
    ensures forall i, j :: 0 <= i < j < |r| ==> r[i].0 != r[j].0
  {
    forall i | 0 <= i < |r| ensures r[i].0 in m && m[r[i].0] == r[i].1 {
      assert r[i] in multiset(r);
    }
    forall id | id in m ensures (id, m[id]) in r {
      assert (id, m[id]) in multiset(Pairs(m));
    }
    NoRepeats(r, Pairs(m));
  }

  /** A table has as many (id, row) pairs as rows. */
  lemma {:induction false} PairsCard<R>(m: map<Id, R>)
    ensures |Pairs(m)| == |m|
    decreases |m|
  {
    if m != map[] {
      var k :| k in m;
      var rest := m - {k};
      PairsCard(rest);
      forall p | p in Pairs(m) ensures p in Pairs(rest) + {(k, m[k])} {
        var j :| j in m && p == (j, m[j]);
        if j != k { assert j in rest; }
      }
      forall p | p in Pairs(rest) ensures p in Pairs(m) {
        var j :| j in rest && p == (j, rest[j]);
        assert j in m;
      }
      assert (k, m[k]) in Pairs(m);
      assert Pairs(m) == Pairs(rest) + {(k, m[k])};
      assert (k, m[k]) !in Pairs(rest);
    }
  }

  /** A listing has one entry per row. */
  lemma ListingLength<R>(r: seq<(Id, R)>, m: map<Id, R>)
    requires Listing(r, m)
    ensures |r| == |m|
  {
    PairsCard(m);
    assert |multiset(r)| == |r|;
  }

  lemma PairsStep<R>(m: map<Id, R>, rest: set<Id>, id: Id)
    requires id in rest && rest <= m.Keys
    ensures multiset(Pairs(m - (rest - {id}))) == multiset(Pairs(m - rest)) + multiset{(id, m[id])}
  {
    var before, after := m - rest, m - (rest - {id});
    forall p | p in Pairs(after) ensures p in Pairs(before) + {(id, m[id])} {
      var k :| k in after && p == (k, after[k]);
      if k != id { assert k in before; }
    }
    forall p | p in Pairs(before) + {(id, m[id])} ensures p in Pairs(after) {
      if p == (id, m[id]) {
        assert id in after;
      } else {
        var k :| k in before && p == (k, before[k]);
        assert k in after;
      }
    }
    assert Pairs(after) == Pairs(before) + {(id, m[id])};
    assert id !in before;
  }

  /** Rows of `m` ordered by `key`, as the engine returns them. */
  function SortRows<R(!new)>(xs: seq<(Id, R)>, key: R -> int): (r: seq<(Id, R)>)
    ensures OrderedBy(r, key) && multiset(r) == multiset(xs)
  {
    var le := (a: (Id, R), b: (Id, R)) => key(a.1) <= key(b.1);
    assert TotalPreorder(le);
    SortBy(xs, le)
  }

  /** `findMany({ where, orderBy })` over the rows `m` that the `where` selects:
      every selected row once, ordered by `key` (the order among rows with
      equal keys is the engine's). */
  method FindMany<R(!new)>(m: map<Id, R>, key: R -> int) returns (r: seq<(Id, R)>)
    ensures Listing(r, m) && OrderedBy(r, key)
  {
    var l: seq<(Id, R)> := [];
    var rest := m.Keys;
    while rest != {}
      invariant rest <= m.Keys
      invariant multiset(l) == multiset(Pairs(m - rest))
      decreases |rest|
    {
      var id :| id in rest;
      PairsStep(m, rest, id);
      l := l + [(id, m[id])];
      rest := rest - {id};
    }
    assert m - rest == m;
    r := SortRows(l, key);
  }

  /** `findFirst({ where })` over the rows `m` that the `where` selects: some
      selected row, or none when there is none (which one is the engine's). */
  method FindFirst<R>(m: map<Id, R>) returns (r: Option<(Id, R)>)
    ensures r.None? <==> m == map[]
    ensures r.Some? ==> r.value.0 in m && m[r.value.0] == r.value.1
  {
    if m == map[] {
      r := None;
    } else {
      var id :| id in m;
      r := Some((id, m[id]));
    }
  }

  /** `distinct` over one column: every value once, in the engine's order. */
  method ListDistinct<T>(values: set<T>) returns (r: seq<T>)
    ensures multiset(r) == multiset(values)
  {
    r := [];
    var rest := values;
    while rest != {}
      invariant rest <= values
      invariant multiset(r) == multiset(values - rest)
      decreases |rest|
    {
      var v :| v in rest;
      assert values - (rest - {v}) == (values - rest) + {v};
      r := r + [v];
      rest := rest - {v};
    }
    assert values - rest == values;
  }

  /** The sum of `f` over the rows of `m`, as `aggregate({ _sum })` computes it. */
  ghost function SumOf<R>(m: map<Id, R>, f: R -> int): int
    decreases |m|
  {
    if m == map[] then 0
    else
      var k :| k in m;
      f(m[k]) + SumOf(m - {k}, f)
  }

  /** The sum does not depend on the order the rows are taken in. */
  lemma {:induction false} SumOfRemove<R>(m: map<Id, R>, f: R -> int, k: Id)
    requires k in m
    ensures SumOf(m, f) == f(m[k]) + SumOf(m - {k}, f)
    decreases |m|
  {
    var j :| j in m && SumOf(m, f) == f(m[j]) + SumOf(m - {j}, f);
    if j != k {
      assert k in m - {j} && j in m - {k};
      SumOfRemove(m - {j}, f, k);
      SumOfRemove(m - {k}, f, j);
      assert m - {j} - {k} == m - {k} - {j};
    }
  }

  /** A sum of values that are never negative is never negative. */
  lemma {:induction false} SumOfNonNegative<R>(m: map<Id, R>, f: R -> int)
    requires forall k :: k in m ==> f(m[k]) >= 0
    ensures SumOf(m, f) >= 0
    decreases |m|
  {
    if m != map[] {
      var k :| k in m && SumOf(m, f) == f(m[k]) + SumOf(m - {k}, f);
      SumOfNonNegative(m - {k}, f);
    }
  }

  /** The engine's `aggregate({ _sum })`, one row at a time. */
  method Aggregate<R>(m: map<Id, R>, f: R -> int) returns (s: int)
    ensures s == SumOf(m, f)
  {
    s := 0;
    var rest := m.Keys;
    while rest != {}
      invariant rest <= m.Keys
      invariant s == SumOf(m - rest, f)
      decreases |rest|
    {
      var id :| id in rest;
      var seen := m - (rest - {id});
      SumOfRemove(seen, f, id);
      assert seen - {id} == m - rest;
      s := s + f(m[id]);
      rest := rest - {id};
    }
    assert m - rest == m;
  }
}
