/** What the admin write paths other than navigation and testimonials do to
    the tables: full replacement of a table, the footer's sections with their
    links, calls to action replaced page by page, upserts by unique key and
    `updateMany` over the active rows. */
module ContentUpdate {
  import opened Common
  import opened Records
  import opened Store

  // ---------------------------------------------------------------------
  // Full replacement: `deleteMany({})`, then one `create` per request item

  /** The data objects built from the request items, in request order. */
  function Rows<I, R>(xs: seq<I>, f: I -> R): (rows: seq<R>)
    ensures |rows| == |xs|
    ensures forall k :: 0 <= k < |xs| ==> rows[k] == f(xs[k])
  {
    seq(|xs|, k requires 0 <= k < |xs| => f(xs[k]))
  }

  /** The dashboards created for a request: numbered from 1 in request order,
      whatever the request says, and all active. */
  function HeroDashboardRows(ds: seq<HeroDashboardInput>): (rows: seq<HeroDashboard>)
    ensures |rows| == |ds|
    ensures forall k :: 0 <= k < |ds| ==>
      && rows[k].position == k + 1 && rows[k].isActive
      && rows[k].title == ds[k].title && rows[k].description == ds[k].description
      && (ds[k].stats.None? ==> rows[k].stats == [])
      && (rows[k].imageUrl.Some? <==> Truthy(ds[k].imageUrl))
  {
    seq(|ds|, k requires 0 <= k < |ds| => HeroDashboardRow(ds[k], k))
  }

  /** No two request items share a slug. */
  predicate DistinctSlugs(s: seq<ServiceInput>) {
    forall i, j :: 0 <= i < j < |s| ==> s[i].slug != s[j].slug
  }

  /** Replacing the services with a request whose slugs are distinct gives a
      table holding exactly the requested services, slugs still unique. */
  lemma ServicesReplaced(avoid: set<Id>, s: seq<ServiceInput>)
    requires DistinctSlugs(s)
    ensures var rows := Rows(s, ServiceRow); var t := Append(map[], avoid, rows);
      Exactly(t, rows) && SlugsUnique(t)
  {
    AppendExactly(avoid, Rows(s, ServiceRow));
    ReplacedSlugsUnique(avoid, s);
  }

  lemma ReplacedSlugsUnique(avoid: set<Id>, s: seq<ServiceInput>)
    requires DistinctSlugs(s)
    ensures SlugsUnique(Append(map[], avoid, Rows(s, ServiceRow)))
  {
    var rows := Rows(s, ServiceRow);
    var t := Append(map[], avoid, rows);
    forall a, b | a in t && b in t && a != b ensures t[a].slug != t[b].slug {
      var i := AppendOrigin(avoid, rows, a);
      var j := AppendOrigin(avoid, rows, b);
      assert t[a] == ServiceRow(s[i]) && t[b] == ServiceRow(s[j]);
      if i < j { assert s[i].slug != s[j].slug; } else { assert s[j].slug != s[i].slug; }
    }
  }

  /** The create loop of `updateServices` over an emptied table: None when
      a create hits a slug an earlier create already used. */
  method CreateServices(avoid: set<Id>, services: seq<ServiceInput>) returns (r: Option<map<Id, Service>>)
    ensures r.Some? <==> DistinctSlugs(services)
    ensures r.Some? ==> r.value == Append(map[], avoid, Rows(services, ServiceRow))
  {
    ghost var rows := Rows(services, ServiceRow);
    var table: map<Id, Service> := map[];
    var slugs: set<string> := {};
    for i := 0 to |services|
      invariant slugs == set k | 0 <= k < i :: services[k].slug
      invariant forall a, b :: 0 <= a < b < i ==> services[a].slug != services[b].slug
      invariant Append(table, avoid, rows[i..]) == Append(map[], avoid, rows)
    {
      if services[i].slug in slugs {
        var k :| 0 <= k < i && services[k].slug == services[i].slug;
        return None;
      }
      assert forall a :: 0 <= a < i ==> services[a].slug != services[i].slug by {
        forall a | 0 <= a < i ensures services[a].slug in slugs { }
      }
      DistinctExtend(services, i);
      AppendStep(table, avoid, rows, i);
      table := table[FreshId(avoid + table.Keys) := ServiceRow(services[i])];
      slugs := slugs + {services[i].slug};
    }
    assert rows[|rows|..] == [];
    r := Some(table);
  }

  /** A slug new to the first `i` services keeps the first `i + 1` distinct. */
  lemma DistinctExtend(s: seq<ServiceInput>, i: nat)
    requires i < |s|
    requires forall a, b :: 0 <= a < b < i ==> s[a].slug != s[b].slug
    requires forall a :: 0 <= a < i ==> s[a].slug != s[i].slug
    ensures forall a, b :: 0 <= a < b < i + 1 ==> s[a].slug != s[b].slug
  {
  }

  /** A request with a repeated slug names two items whose rows would break
      the unique constraint on `Service.slug`. */
  lemma RepeatedSlugClashes(s: seq<ServiceInput>)
    requires !DistinctSlugs(s)
    ensures exists i, j :: 0 <= i < j < |s| && ServiceRow(s[i]).slug == ServiceRow(s[j]).slug
  {
    var i, j :| 0 <= i < j < |s| && s[i].slug == s[j].slug;
    assert ServiceRow(s[i]).slug == ServiceRow(s[j]).slug;
  }

  // ---------------------------------------------------------------------
  // Footer: sections, each followed by its links

  datatype FooterTables = FooterTables(sections: map<Id, FooterSection>, links: map<Id, FooterLink>)

  /** Every footer link belongs to an existing section. */
  ghost predicate LinksAttached(f: FooterTables) {
    forall l :: l in f.links ==> f.links[l].footerSectionId in f.sections
  }

  /** The links of section `sid`. */
  function LinksOf(t: map<Id, FooterLink>, sid: Id): (r: map<Id, FooterLink>)
    ensures forall k :: k in r <==> k in t && t[k].footerSectionId == sid
    ensures forall k :: k in r ==> r[k] == t[k]
  {
    map k | k in t && t[k].footerSectionId == sid :: t[k]
  }

  /** The id the next created section gets: new to the table and to the
      footer `prior` that was cleared before the rebuild. */
  function NextSectionId(f: FooterTables, prior: FooterTables): Id {
    FreshId(prior.sections.Keys + f.sections.Keys)
  }

  /** One pass of the loop body: create the section, then its links, under
      ids that neither the table nor `prior` used. */
  function AddSection(f: FooterTables, prior: FooterTables, s: FooterSectionInput): FooterTables {
    var sid := NextSectionId(f, prior);
    FooterTables(f.sections[sid := FooterSectionRow(s)], Append(f.links, prior.links.Keys, FooterLinkRows(s.links, sid)))
  }

  function BuildFooter(f: FooterTables, prior: FooterTables, secs: seq<FooterSectionInput>): FooterTables
    decreases |secs|
  {
    if secs == [] then f else BuildFooter(AddSection(f, prior, secs[0]), prior, secs[1..])
  }

  /** The ids the sections get, in request order. */
  function SectionIds(f: FooterTables, prior: FooterTables, secs: seq<FooterSectionInput>): seq<Id>
    decreases |secs|
  {
    if secs == [] then [] else [NextSectionId(f, prior)] + SectionIds(AddSection(f, prior, secs[0]), prior, secs[1..])
  }

  /** One section: it gets a new id, every link still belongs to a section,
      and the links created in this pass are the only ones filed under it. */
  lemma AddSectionShape(f: FooterTables, prior: FooterTables, s: FooterSectionInput)
    requires LinksAttached(f)
    ensures var g, sid := AddSection(f, prior, s), NextSectionId(f, prior);
      && LinksAttached(g)
      && sid !in f.sections && sid !in prior.sections
      && g.sections == f.sections[sid := FooterSectionRow(s)]
      && (forall k :: k in g.links ==> (k in f.links <==> g.links[k].footerSectionId != sid))
      && (forall k :: k in g.links && k !in f.links ==> k !in prior.links)
      && (forall k :: k in f.links ==> k in g.links && g.links[k] == f.links[k])
  {
    var g, sid := AddSection(f, prior, s), NextSectionId(f, prior);
    var rows := FooterLinkRows(s.links, sid);
    AppendContents(f.links, prior.links.Keys, rows);
    AppendedIdsFresh(f.links, prior.links.Keys, rows);
    var ids := AppendedIds(f.links, prior.links.Keys, rows);
    forall k | k in g.links && k !in f.links ensures g.links[k].footerSectionId == sid && k !in prior.links {
      var i :| 0 <= i < |ids| && ids[i] == k;
    }
    forall k | k in f.links ensures f.links[k].footerSectionId != sid {
      assert f.links[k].footerSectionId in f.sections;
    }
  }

  /** The new section's links are exactly the ones it asked for. */
  lemma AddSectionLinks(f: FooterTables, prior: FooterTables, s: FooterSectionInput)
    requires LinksAttached(f)
    ensures var g, sid := AddSection(f, prior, s), NextSectionId(f, prior);
      Exactly(LinksOf(g.links, sid), FooterLinkRows(s.links, sid))
  {
    var g, sid := AddSection(f, prior, s), NextSectionId(f, prior);
    NewSectionLinks(f, prior, s);
    AppendAddsExactly(f.links, f.links, prior.links.Keys, FooterLinkRows(s.links, sid));
  }

  /** The links filed under the new section are the ones this pass created. */
  lemma NewSectionLinks(f: FooterTables, prior: FooterTables, s: FooterSectionInput)
    requires LinksAttached(f)
    ensures var g, sid := AddSection(f, prior, s), NextSectionId(f, prior);
      LinksOf(g.links, sid) == Added(g.links, f.links)
  {
    var g, sid := AddSection(f, prior, s), NextSectionId(f, prior);
    AddSectionShape(f, prior, s);
    var mine, added := LinksOf(g.links, sid), Added(g.links, f.links);
    assert forall k :: k in mine <==> k in added;
    assert forall k :: k in mine ==> mine[k] == added[k];
  }

  /** The links of every other section are unchanged. */
  lemma AddSectionOthers(f: FooterTables, prior: FooterTables, s: FooterSectionInput, o: Id)
    requires LinksAttached(f) && o != NextSectionId(f, prior)
    ensures LinksOf(AddSection(f, prior, s).links, o) == LinksOf(f.links, o)
  {
    AddSectionShape(f, prior, s);
  }

  /** The create loop of `updateFooter`: each section, then its links. */
  method CreateFooter(f: FooterTables, prior: FooterTables, secs: seq<FooterSectionInput>) returns (g: FooterTables)
    ensures g == BuildFooter(f, prior, secs)
  {
    var sections, links := f.sections, f.links;
    for i := 0 to |secs|
      invariant BuildFooter(FooterTables(sections, links), prior, secs[i..]) == BuildFooter(f, prior, secs)
    {
      var sid := FreshId(prior.sections.Keys + sections.Keys);
      sections := sections[sid := FooterSectionRow(secs[i])];
      links := CreateEach(links, prior.links.Keys, FooterLinkRows(secs[i].links, sid));
      assert secs[i..][1..] == secs[i + 1..];
    }
    assert secs[|secs|..] == [];
    g := FooterTables(sections, links);
  }

  /** The rebuilt footer keeps every link attached to a section. */
  lemma {:induction false} BuildFooterAttached(f: FooterTables, prior: FooterTables, secs: seq<FooterSectionInput>)
    requires LinksAttached(f)
    ensures LinksAttached(BuildFooter(f, prior, secs))
    decreases |secs|
  {
    if secs != [] {
      AddSectionShape(f, prior, secs[0]);
      BuildFooterAttached(AddSection(f, prior, secs[0]), prior, secs[1..]);
    }
  }

  /** Every link the rebuild creates has an id `prior` did not use, and the
      links already in the table stay. */
  lemma {:induction false} BuildFooterLinksFresh(f: FooterTables, prior: FooterTables, secs: seq<FooterSectionInput>)
    requires LinksAttached(f)
    ensures var g := BuildFooter(f, prior, secs);
      && (forall k :: k in f.links ==> k in g.links)
      && (forall k :: k in g.links && k !in f.links ==> k !in prior.links)
    decreases |secs|
  {
    if secs != [] {
      var f1 := AddSection(f, prior, secs[0]);
      AddSectionShape(f, prior, secs[0]);
      BuildFooterLinksFresh(f1, prior, secs[1..]);
    }
  }

  /** The section ids are new to the table, one per requested section, and
      the table gains exactly them. */
  lemma {:induction false} BuildFooterShape(f: FooterTables, prior: FooterTables, secs: seq<FooterSectionInput>)
    ensures var g, ids := BuildFooter(f, prior, secs), SectionIds(f, prior, secs);
      && |ids| == |secs|
      && g.sections.Keys == f.sections.Keys + Elems(ids)
      && (forall i :: 0 <= i < |secs| ==> ids[i] !in f.sections && ids[i] !in prior.sections)
    decreases |secs|
  {
    SectionIdsLength(f, prior, secs);
    if secs != [] {
      var f1 := AddSection(f, prior, secs[0]);
      var sid := NextSectionId(f, prior);
      assert sid !in f.sections && sid !in prior.sections && f1.sections.Keys == f.sections.Keys + {sid};
      BuildFooterShape(f1, prior, secs[1..]);
      var rest := SectionIds(f1, prior, secs[1..]);
      var ids := SectionIds(f, prior, secs);
      assert ids == [sid] + rest;
      assert Elems(ids) == {sid} + Elems(rest);
      forall i | 0 < i < |secs| ensures ids[i] !in f.sections && ids[i] !in prior.sections {
        assert ids[i] == rest[i - 1];
      }
    }
  }

  /** Sections that were there before keep their data and their links. */
  lemma {:induction false} BuildFooterKeepsOld(f: FooterTables, prior: FooterTables, secs: seq<FooterSectionInput>)
    requires LinksAttached(f)
    ensures var g := BuildFooter(f, prior, secs);
      forall o :: o in f.sections ==> (o in g.sections && g.sections[o] == f.sections[o]
        && LinksOf(g.links, o) == LinksOf(f.links, o))
    decreases |secs|
  {
    if secs != [] {
      var f1 := AddSection(f, prior, secs[0]);
      AddSectionShape(f, prior, secs[0]);
      BuildFooterKeepsOld(f1, prior, secs[1..]);
      forall o | o in f.sections ensures LinksOf(f1.links, o) == LinksOf(f.links, o) {
        AddSectionOthers(f, prior, secs[0], o);
      }
    }
  }

  /** Each requested section sits under the id `SectionIds` gives it, holds
      that item's data and exactly its requested links. */
  lemma {:induction false} BuildFooterSections(f: FooterTables, prior: FooterTables, secs: seq<FooterSectionInput>)
    requires LinksAttached(f)
    ensures var g, ids := BuildFooter(f, prior, secs), SectionIds(f, prior, secs);
      && |ids| == |secs|
      && (forall i :: 0 <= i < |secs| ==> (ids[i] in g.sections
            && g.sections[ids[i]] == FooterSectionRow(secs[i])
            && Exactly(LinksOf(g.links, ids[i]), FooterLinkRows(secs[i].links, ids[i]))))
    decreases |secs|
  {
    SectionIdsLength(f, prior, secs);
    if secs != [] {
      var f1 := AddSection(f, prior, secs[0]);
      var sid := NextSectionId(f, prior);
      AddSectionShape(f, prior, secs[0]);
      BuildFooterSections(f1, prior, secs[1..]);
      var g, rest := BuildFooter(f1, prior, secs[1..]), SectionIds(f1, prior, secs[1..]);
      var ids := SectionIds(f, prior, secs);
      assert ids == [sid] + rest;
      assert g == BuildFooter(f, prior, secs);
      forall i | 0 <= i < |secs|
        ensures ids[i] in g.sections && g.sections[ids[i]] == FooterSectionRow(secs[i])
          && Exactly(LinksOf(g.links, ids[i]), FooterLinkRows(secs[i].links, ids[i]))
      {
        if i == 0 {
          AddSectionLinks(f, prior, secs[0]);
          BuildFooterKeepsOld(f1, prior, secs[1..]);
          assert sid in f1.sections;
        } else {
          assert ids[i] == rest[i - 1] && secs[i] == secs[1..][i - 1];
        }
      }
    }
  }

  lemma {:induction false} SectionIdsLength(f: FooterTables, prior: FooterTables, secs: seq<FooterSectionInput>)
    ensures |SectionIds(f, prior, secs)| == |secs|
    decreases |secs|
  {
    if secs != [] { SectionIdsLength(AddSection(f, prior, secs[0]), prior, secs[1..]); }
  }

  // ---------------------------------------------------------------------
  // Calls to action: the requested pages' rows are replaced

  /** The page keys the request names. */
  function PageKeysOf(ctas: seq<CallToActionInput>): (r: set<string>)
    ensures forall i :: 0 <= i < |ctas| ==> ctas[i].pageKey in r
    ensures forall k :: k in r ==> exists i :: 0 <= i < |ctas| && ctas[i].pageKey == k
  {
    set i | 0 <= i < |ctas| :: ctas[i].pageKey
  }

  /** The table after `deleteMany({ where: { pageKey } })` for every key in `keys`. */
  function WithoutPages(t: map<Id, CallToAction>, keys: set<string>): (r: map<Id, CallToAction>)
    ensures forall k :: k in r <==> k in t && t[k].pageKey !in keys
    ensures forall k :: k in r ==> r[k] == t[k]
  {
    map k | k in t && t[k].pageKey !in keys :: t[k]
  }

  /** The delete loop of `updateCallToActions`: one `deleteMany` per
      distinct page key of the request. */
  method ClearPages(t: map<Id, CallToAction>, keys: set<string>) returns (r: map<Id, CallToAction>)
    ensures r == WithoutPages(t, keys)
  {
    r := t;
    var left := keys;
    while left != {}
      invariant left <= keys
      invariant r == WithoutPages(t, keys - left)
      decreases |left|
    {
      var k :| k in left;
      r := WithoutPages(r, {k});
      left := left - {k};
    }
    assert keys - left == keys;
  }

  /** The transaction of `updateCallToActions`. New rows avoid every id the
      table held before, as generated ids are not reused. */
  function UpdateCtas(t: map<Id, CallToAction>, ctas: seq<CallToActionInput>): map<Id, CallToAction> {
    Append(WithoutPages(t, PageKeysOf(ctas)), t.Keys, Rows(ctas, CtaRow))
  }

  /** Calls to action of pages the request does not name are kept, and
      none of the old rows of a named page survives. */
  lemma UpdateCtasKeeps(t: map<Id, CallToAction>, ctas: seq<CallToActionInput>)
    ensures var r, keys := UpdateCtas(t, ctas), PageKeysOf(ctas);
      && (forall k :: k in t && t[k].pageKey !in keys ==> k in r && r[k] == t[k])
      && (forall k :: k in t && k in r ==> t[k].pageKey !in keys)
  {
    var keys := PageKeysOf(ctas);
    var kept, rows := WithoutPages(t, keys), Rows(ctas, CtaRow);
    AppendContents(kept, t.Keys, rows);
    AppendedIdsFresh(kept, t.Keys, rows);
    var ids := AppendedIds(kept, t.Keys, rows);
    var r := UpdateCtas(t, ctas);
    forall k | k in t && k in r ensures t[k].pageKey !in keys {
      assert k in kept;
    }
  }

  /** The rows the update adds are exactly the requested ones. */
  lemma UpdateCtasAdds(t: map<Id, CallToAction>, ctas: seq<CallToActionInput>)
    ensures Exactly(Added(UpdateCtas(t, ctas), t), Rows(ctas, CtaRow))
  {
    AppendAddsExactly(WithoutPages(t, PageKeysOf(ctas)), t, t.Keys, Rows(ctas, CtaRow));
  }

  // ---------------------------------------------------------------------
  // Upserts by unique key

  /** `sectionContent.upsert({ where: { sectionKey } })`: the table and the key index. */
  function UpsertSection(rows: map<Id, SectionContent>, byKey: map<string, Id>, dto: SectionContentInput)
    : (map<Id, SectionContent>, map<string, Id>)
  {
    var k := dto.sectionKey;
    if k in byKey && byKey[k] in rows then (rows[byKey[k] := SectionUpdate(rows[byKey[k]], dto)], byKey)
    else var id := FreshId(rows.Keys); (rows[id := SectionCreate(dto)], byKey[k := id])
  }

  /** The upsert keeps the key index exact and adds the request's key. */
  lemma UpsertSectionIndexed(rows: map<Id, SectionContent>, byKey: map<string, Id>, dto: SectionContentInput)
    requires SectionIndexed(rows, byKey)
    ensures var (r, b) := UpsertSection(rows, byKey, dto);
      SectionIndexed(r, b) && b.Keys == byKey.Keys + {dto.sectionKey}
  {
    var k := dto.sectionKey;
    var (r, b) := UpsertSection(rows, byKey, dto);
    if k !in byKey {
      forall o | o in b ensures b[o] in r && r[b[o]].sectionKey == o {
        if o != k { assert b[o] == byKey[o]; }
      }
    }
  }

  /** After the upsert the key names a row holding the request (optional
      fields absent from it keep their stored values), and every other
      section is as it was. */
  lemma UpsertSectionFacts(rows: map<Id, SectionContent>, byKey: map<string, Id>, dto: SectionContentInput)
    requires SectionIndexed(rows, byKey)
    ensures var (r, b) := UpsertSection(rows, byKey, dto); var k := dto.sectionKey;
      && k in b && b[k] in r
      && (k in byKey ==> b[k] == byKey[k] && r[b[k]] == SectionUpdate(rows[byKey[k]], dto))
      && (k !in byKey ==> r[b[k]] == SectionCreate(dto))
      && r[b[k]].title == dto.title && (r[b[k]].isActive <==> dto.isActive != Some(false))
      && (forall o :: o in byKey && o != k ==> b[o] == byKey[o] && r[b[o]] == rows[byKey[o]])
  {
  }

  /** Sending the same section twice is the same as sending it once. */
  lemma UpsertSectionIdempotent(rows: map<Id, SectionContent>, byKey: map<string, Id>, dto: SectionContentInput)
    requires SectionIndexed(rows, byKey)
    ensures var (r, b) := UpsertSection(rows, byKey, dto);
      UpsertSection(r, b, dto) == (r, b)
  {
    UpsertSectionFacts(rows, byKey, dto);
    var (r, b) := UpsertSection(rows, byKey, dto);
    var id := b[dto.sectionKey];
    assert SectionUpdate(r[id], dto) == r[id];
    assert r[id := r[id]] == r;
  }

  /** `pageContent.upsert({ where: { pageKey } })`. */
  function UpsertPage(rows: map<Id, PageContent>, byKey: map<string, Id>, dto: PageContentInput)
    : (map<Id, PageContent>, map<string, Id>)
  {
    var k := dto.pageKey;
    if k in byKey && byKey[k] in rows then (rows[byKey[k] := PageUpdate(rows[byKey[k]], dto)], byKey)
    else var id := FreshId(rows.Keys); (rows[id := PageCreate(dto)], byKey[k := id])
  }

  /** The upsert keeps the key index exact and adds the request's key. */
  lemma UpsertPageIndexed(rows: map<Id, PageContent>, byKey: map<string, Id>, dto: PageContentInput)
    requires PageIndexed(rows, byKey)
    ensures var (r, b) := UpsertPage(rows, byKey, dto);
      PageIndexed(r, b) && b.Keys == byKey.Keys + {dto.pageKey}
  {
    var k := dto.pageKey;
    var (r, b) := UpsertPage(rows, byKey, dto);
    if k !in byKey {
      forall o | o in b ensures b[o] in r && r[b[o]].pageKey == o {
        if o != k { assert b[o] == byKey[o]; }
      }
    }
  }

  /** After the upsert the key names a row holding the request, and every
      other page is as it was. */
  lemma UpsertPageFacts(rows: map<Id, PageContent>, byKey: map<string, Id>, dto: PageContentInput)
    requires PageIndexed(rows, byKey)
    ensures var (r, b) := UpsertPage(rows, byKey, dto); var k := dto.pageKey;
      && k in b && b[k] in r
      && (k in byKey ==> b[k] == byKey[k] && r[b[k]] == PageUpdate(rows[byKey[k]], dto))
      && (k !in byKey ==> r[b[k]] == PageCreate(dto))
      && r[b[k]].title == dto.title && (r[b[k]].isActive <==> dto.isActive != Some(false))
      && (forall o :: o in byKey && o != k ==> b[o] == byKey[o] && r[b[o]] == rows[byKey[o]])
  {
  }

  lemma UpsertPageIdempotent(rows: map<Id, PageContent>, byKey: map<string, Id>, dto: PageContentInput)
    requires PageIndexed(rows, byKey)
    ensures var (r, b) := UpsertPage(rows, byKey, dto);
      UpsertPage(r, b, dto) == (r, b)
  {
    UpsertPageFacts(rows, byKey, dto);
    var (r, b) := UpsertPage(rows, byKey, dto);
    var id := b[dto.pageKey];
    assert PageUpdate(r[id], dto) == r[id];
    assert r[id := r[id]] == r;
  }

  // ---------------------------------------------------------------------
  // `updateMany({ where: { isActive: true } })`

  function UpdateThemes(t: map<Id, ThemeConfig>, dto: ThemeInput): map<Id, ThemeConfig> {
    map k | k in t :: if t[k].isActive then ApplyTheme(t[k], dto) else t[k]
  }

  /** Inactive themes are untouched; active ones take the request's colours
      and keep the logo and company name the request leaves out; sending the
      same request again changes nothing. */
  lemma UpdateThemesFacts(t: map<Id, ThemeConfig>, dto: ThemeInput)
    ensures var r := UpdateThemes(t, dto);
      && r.Keys == t.Keys
      && (forall k :: k in t && !t[k].isActive ==> r[k] == t[k])
      && (forall k :: k in t && t[k].isActive ==>
            && r[k].isActive && r[k].primaryColor == dto.primaryColor && r[k].accentColor == dto.accentColor
            && r[k].logoUrl == KeepOpt(dto.logoUrl, t[k].logoUrl)
            && r[k].companyName == KeepOpt(dto.companyName, t[k].companyName))
      && UpdateThemes(r, dto) == r
  {
    var r := UpdateThemes(t, dto);
    assert UpdateThemes(r, dto) == r by {
      forall k | k in r ensures UpdateThemes(r, dto)[k] == r[k] { }
    }
  }

  function UpdateHeroContents(t: map<Id, HeroContent>, dto: HeroContentInput): map<Id, HeroContent> {
    map k | k in t :: if t[k].isActive then ApplyHeroContent(t[k], dto) else t[k]
  }

  /** Inactive rows are untouched and all active rows end up identical, each
      field from the request or its default. */
  lemma UpdateHeroContentsFacts(t: map<Id, HeroContent>, dto: HeroContentInput)
    ensures var r := UpdateHeroContents(t, dto);
      && r.Keys == t.Keys
      && (forall k :: k in t && !t[k].isActive ==> r[k] == t[k])
      && (forall k :: k in t && t[k].isActive ==> (r[k].isActive
            && r[k].trustBadge == OrDefault(dto.trustBadge, DefaultTrustBadge)
            && r[k].trustPoints == dto.trustPoints.GetOr(DefaultTrustPoints)
            && r[k].phoneNumber == OrDefault(dto.phoneNumber, DefaultPhone)))
      && (forall a, b :: a in t && b in t && t[a].isActive && t[b].isActive ==> r[a] == r[b])
  {
    var r := UpdateHeroContents(t, dto);
    forall a, b | a in t && b in t && t[a].isActive && t[b].isActive ensures r[a] == r[b] {
      HeroContentOverwrites(t[a], t[b], dto);
    }
  }
}
