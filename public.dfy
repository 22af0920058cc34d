/** The public (unauthenticated) read paths of the site and the contact form.
    Every read filters on `isActive`; `fault` is the failure the engine
    reports, if any, and a read the source wraps in try/catch turns it into
    the message of its catch block. */
module Public {
  import opened Common
  import opened Records
  import opened Store
  import opened Queries

  // ---------------------------------------------------------------------
  // Services

  /** The query string of `GET /services`; the booleans are present only
      when the request gives them. */
  datatype ServiceFilters = ServiceFilters(
    category: Option<string>, featured: Option<bool>, popular: Option<bool>, onQuote: Option<bool>)

  /** The `where` object `getServices` builds: active, and equal on every
      filter given (an empty category is no filter, as it is falsy). */
  predicate ServiceMatches(s: Service, f: ServiceFilters) {
    && s.isActive
    && (Truthy(f.category) ==> s.category == f.category)
    && (f.featured.Some? ==> s.isFeatured == f.featured.value)
    && (f.popular.Some? ==> s.isPopular == f.popular.value)
    && (f.onQuote.Some? ==> s.onQuote == f.onQuote.value)
  }

  function MatchingServices(t: map<Id, Service>, f: ServiceFilters): (r: map<Id, Service>)
    ensures forall k :: k in r <==> k in t && ServiceMatches(t[k], f)
    ensures forall k :: k in r ==> r[k] == t[k]
  {
    Where(t, s => ServiceMatches(s, f))
  }

  /** Without filters every active service matches; each filter given only
      narrows that set, and a blank category is the same as none. */
  lemma ServiceFiltersNarrow(t: map<Id, Service>, f: ServiceFilters)
    ensures forall k :: k in MatchingServices(t, ServiceFilters(None, None, None, None)) <==> k in t && t[k].isActive
    ensures MatchingServices(t, f).Keys <= MatchingServices(t, ServiceFilters(None, None, None, None)).Keys
    ensures MatchingServices(t, f.(category := Some(""))) == MatchingServices(t, f.(category := None))
  {
    var none := f.(category := None);
    var blank := f.(category := Some(""));
    assert forall k :: k in MatchingServices(t, blank) <==> k in MatchingServices(t, none);
  }

  /** What `getQuoteServices` selects of a service. */
  datatype QuoteService = QuoteService(id: Id, title: string, slug: string, category: Option<string>, position: int)

  function QuoteOf(id: Id, s: Service): QuoteService {
    QuoteService(id, s.title, s.slug, s.category, s.position)
  }

  /** The selected columns of each listed row. */
  function QuotesOf(rows: seq<(Id, Service)>): (q: seq<QuoteService>)
    ensures |q| == |rows| && forall i :: 0 <= i < |rows| ==> q[i] == QuoteOf(rows[i].0, rows[i].1)
  {
    seq(|rows|, i requires 0 <= i < |rows| => QuoteOf(rows[i].0, rows[i].1))
  }

  /** Projecting an ordered listing of `c` keeps one entry per row, with
      distinct ids, in position order. */
  lemma QuotesOfListing(rows: seq<(Id, Service)>, c: map<Id, Service>)
    requires Listing(rows, c) && OrderedBy(rows, ServicePosition)
    ensures var q := QuotesOf(rows);
      && |q| == |c|
      && (forall i :: 0 <= i < |q| ==> q[i].id in c && q[i] == QuoteOf(q[i].id, c[q[i].id]))
      && (forall k :: k in c ==> QuoteOf(k, c[k]) in q)
      && (forall i, j :: 0 <= i < j < |q| ==> q[i].id != q[j].id)
      && (forall i, j :: 0 <= i < j < |q| ==> q[i].position <= q[j].position)
  {
    ListingFacts(rows, c);
    ListingLength(rows, c);
    var q := QuotesOf(rows);
    forall k | k in c ensures QuoteOf(k, c[k]) in q {
      var i :| 0 <= i < |rows| && rows[i] == (k, c[k]);
      assert q[i] == QuoteOf(k, c[k]);
    }
  }

  /** The services offered in the quote form: active and on quote. */
  function QuoteCandidates(t: map<Id, Service>): (r: map<Id, Service>)
    ensures forall k :: k in r <==> k in t && t[k].isActive && t[k].onQuote
    ensures forall k :: k in r ==> r[k] == t[k]
  {
    Where(t, (s: Service) => s.isActive && s.onQuote)
  }

  /** The quote candidates are the services `getServices` returns for the
      single filter `onQuote=true`. */
  lemma QuoteCandidatesFiltered(t: map<Id, Service>)
    ensures QuoteCandidates(t) == MatchingServices(t, ServiceFilters(None, None, None, Some(true)))
  {
    assert QuoteCandidates(t).Keys == MatchingServices(t, ServiceFilters(None, None, None, Some(true))).Keys;
  }

  /** The active service rows with `slug`. */
  function ActiveWithSlug(t: map<Id, Service>, slug: string): (r: map<Id, Service>)
    ensures forall k :: k in r <==> k in t && t[k].slug == slug && t[k].isActive
    ensures forall k :: k in r ==> r[k] == t[k]
  {
    Where(t, (s: Service) => s.slug == slug && s.isActive)
  }

  /** Slugs are unique, so at most one active row has a given slug. */
  lemma ActiveWithSlugUnique(t: map<Id, Service>, slug: string, a: Id, b: Id)
    requires SlugsUnique(t)
    requires a in ActiveWithSlug(t, slug) && b in ActiveWithSlug(t, slug)
    ensures a == b
  {
  }

  /** The distinct categories of the active services, null excluded. */
  function Categories(t: map<Id, Service>): (r: set<string>)
    ensures forall c :: c in r <==> exists k :: k in t && t[k].isActive && t[k].category == Some(c)
  {
    set k | k in t && t[k].isActive && t[k].category.Some? :: t[k].category.value
  }

  // ---------------------------------------------------------------------
  // Page and section content

  /** The active page with `pageKey`, found through the unique key index. */
  predicate HasActivePage(pages: map<Id, PageContent>, byKey: map<string, Id>, pageKey: string) {
    pageKey in byKey && byKey[pageKey] in pages && pages[byKey[pageKey]].isActive
  }

  /** `getPageContent` as written: the NotFoundException thrown for a
      missing page is raised inside the try block and caught there, so every
      failure, the missing page included, leaves as the catch block's
      BadRequest. */
  function PageContentAsWritten(pages: map<Id, PageContent>, byKey: map<string, Id>, pageKey: string,
                                fault: Option<Fault>): (r: Result<PageContent>)
    ensures r.Ok? <==> fault.None? && HasActivePage(pages, byKey, pageKey)
    ensures r.Err? ==> r == Err(BadRequest("Failed to fetch page content"))
  {
    if fault.Some? || !HasActivePage(pages, byKey, pageKey) then Err(BadRequest("Failed to fetch page content"))
    else Ok(pages[byKey[pageKey]])
  }

  /** `getPageContent` as its sibling reads (`getSectionContent`,
      `getServiceBySlug`) behave: the NotFoundException is rethrown and only
      an engine failure becomes a BadRequest. */
  function PageContentIntended(pages: map<Id, PageContent>, byKey: map<string, Id>, pageKey: string,
                               fault: Option<Fault>): (r: Result<PageContent>)
    requires PageIndexed(pages, byKey)
    ensures fault.Some? ==> r == Err(BadRequest("Failed to fetch page content"))
    ensures fault.None? ==> (r.Ok? <==> exists k :: k in pages && pages[k].pageKey == pageKey && pages[k].isActive)
    ensures fault.None? && r.Err? ==> r == Err(NotFound("Page content not found for: " + pageKey))
    ensures r.Ok? ==> r.value in pages.Values && r.value.pageKey == pageKey && r.value.isActive
  {
    if fault.Some? then Err(BadRequest("Failed to fetch page content"))
    else if !HasActivePage(pages, byKey, pageKey) then Err(NotFound("Page content not found for: " + pageKey))
    else Ok(pages[byKey[pageKey]])
  }

  /** The two agree except on a missing or inactive page, which the code as
      written reports as a BadRequest rather than a NotFound. */
  lemma PageContentDiscrepancy(pages: map<Id, PageContent>, byKey: map<string, Id>, pageKey: string,
                               fault: Option<Fault>)
    requires PageIndexed(pages, byKey)
    ensures (PageContentAsWritten(pages, byKey, pageKey, fault) == PageContentIntended(pages, byKey, pageKey, fault))
            <==> (fault.Some? || HasActivePage(pages, byKey, pageKey))
  {
  }

  /** A request for a page that does not exist, on an empty table. */
  lemma MissingPageIsBadRequest()
    ensures PageContentAsWritten(map[], map[], "about", None) == Err(BadRequest("Failed to fetch page content"))
    ensures PageContentIntended(map[], map[], "about", None) == Err(NotFound("Page content not found for: " + "about"))
  {
  }

  // ---------------------------------------------------------------------
  // Testimonials

  /** The query string of `GET /testimonials`, after validation: a `rating`
      or `limit` that does not parse as a number is refused with 400 before
      the service runs, so both are absent or whole numbers here. */
  datatype TestimonialFilters = TestimonialFilters(
    service: Option<string>, category: Option<string>, featured: Option<bool>,
    rating: Option<int>, limit: Option<int>)

  /** The `where` object `getTestimonials` builds; a rating of 0 is falsy and
      so no filter. */
  predicate TestimonialMatches(t: Testimonial, f: TestimonialFilters) {
    && t.isActive
    && (Truthy(f.service) ==> t.service == f.service)
    && (Truthy(f.category) ==> t.category == f.category)
    && (f.featured.Some? ==> t.isFeatured == f.featured.value)
    && (f.rating.Some? && f.rating.value != 0 ==> t.rating >= f.rating.value)
  }

  function MatchingTestimonials(t: map<Id, Testimonial>, f: TestimonialFilters): (r: map<Id, Testimonial>)
    ensures forall k :: k in r <==> k in t && TestimonialMatches(t[k], f)
    ensures forall k :: k in r ==> r[k] == t[k]
  {
    Where(t, x => TestimonialMatches(x, f))
  }

  /** How many rows `take: limit || undefined` keeps of `n`: all of them
      without a limit or with 0, at most `limit` for a positive one and at
      most `-limit` (from the end) for a negative one. */
  function TakeCount(limit: Option<int>, n: nat): (c: nat)
    ensures c <= n
    ensures limit.None? || limit.value == 0 ==> c == n
    ensures limit.Some? && limit.value > 0 ==> c == if limit.value < n then limit.value else n
    ensures limit.Some? && limit.value < 0 ==> c == if -limit.value < n then -limit.value else n
  {
    if limit.None? || limit.value == 0 then n
    else if limit.value > 0 then (if limit.value < n then limit.value else n)
    else (if -limit.value < n then -limit.value else n)
  }

  /** Where the rows `take` keeps start: at the front for a positive limit
      (or none), at the back for a negative one. */
  function TakeStart(limit: Option<int>, n: nat): (k: nat)
    ensures k + TakeCount(limit, n) <= n
  {
    if limit.Some? && limit.value < 0 then n - TakeCount(limit, n) else 0
  }

  /** `take`: the first rows for a positive limit, the last ones (still in
      order) for a negative one. */
  function Take<T>(rows: seq<T>, limit: Option<int>): (r: seq<T>)
    ensures |r| == TakeCount(limit, |rows|)
    ensures forall i :: 0 <= i < |r| ==> r[i] == rows[TakeStart(limit, |rows|) + i]
  {
    var k := TakeStart(limit, |rows|);
    rows[k..k + TakeCount(limit, |rows|)]
  }

  /** The rows `take` keeps are ordered, are distinct rows of `m`, number
      `TakeCount`, and are all of `m` without a limit. */
  lemma TakeListing<R>(rows: seq<(Id, R)>, m: map<Id, R>, key: R -> int, limit: Option<int>)
    requires Listing(rows, m) && OrderedBy(rows, key)
    ensures var r := Take(rows, limit);
      && OrderedBy(r, key)
      && |r| == TakeCount(limit, |m|)
      && (forall i :: 0 <= i < |r| ==> r[i].0 in m && m[r[i].0] == r[i].1)
      && (forall i, j :: 0 <= i < j < |r| ==> r[i].0 != r[j].0)
      && (limit.None? || limit == Some(0) ==> Listing(r, m))
  {
    ListingFacts(rows, m);
    ListingLength(rows, m);
    var r := Take(rows, limit);
    if limit.None? || limit == Some(0) {
      assert r == rows;
    }
  }

  /** A row `take` leaves out sorts after every row it keeps for a positive
      limit, and before every one for a negative limit. */
  lemma TakeLeavesOut<R>(rows: seq<(Id, R)>, m: map<Id, R>, key: R -> int, limit: Option<int>, id: Id)
    requires Listing(rows, m) && OrderedBy(rows, key)
    requires id in m && (id, m[id]) !in Take(rows, limit)
    ensures limit.Some? && limit.value > 0 ==>
      forall i :: 0 <= i < |Take(rows, limit)| ==> key(Take(rows, limit)[i].1) <= key(m[id])
    ensures limit.Some? && limit.value < 0 ==>
      forall i :: 0 <= i < |Take(rows, limit)| ==> key(m[id]) <= key(Take(rows, limit)[i].1)
  {
    ListingFacts(rows, m);
    var r := Take(rows, limit);
    var k := TakeStart(limit, |rows|);
    var j :| 0 <= j < |rows| && rows[j] == (id, m[id]);
    assert j < k || j >= k + |r|;
  }

  // ---------------------------------------------------------------------
  // Contact form

  /** The contact form body, after validation: the required fields are strings. */
  datatype ContactInput = ContactInput(
    name: string, email: string, phone: string, company: Option<string>, service: string,
    message: string, source: Option<string>, metadata: Option<Json>)

  /** A required field is the empty string; the check runs before trimming. */
  predicate MissingRequired(d: ContactInput) {
    d.name == "" || d.email == "" || d.phone == "" || d.service == "" || d.message == ""
  }

  const DefaultSource := "contact-form"

  /** `company?.trim() || null`. */
  function TrimmedOrNull(s: Option<string>): (r: Option<string>)
    ensures r.Some? ==> r.value != "" && IsTrimmed(r.value)
    ensures r.None? <==> s.None? || Trim(s.value) == ""
  {
    if s.Some? && Trim(s.value) != "" then Some(Trim(s.value)) else None
  }

  /** `metadata || null`: a falsy JSON value is stored as null. */
  function MetadataOrNull(m: Option<Json>): (r: Option<Json>)
    ensures r.Some? <==> m.Some? && !JsonFalsy(m.value)
    ensures r.Some? ==> r == m
  {
    if m.Some? && !JsonFalsy(m.value) then m else None
  }

  /** The row `submitContact` creates. */
  function SubmissionRow(d: ContactInput, now: int): (s: ContactSubmission)
    ensures s.status.None? && s.createdAt == now
  {
    ContactSubmission(Trim(d.name), ToLower(Trim(d.email)), Trim(d.phone), TrimmedOrNull(d.company),
                      Trim(d.service), Trim(d.message), OrDefault(d.source, DefaultSource),
                      MetadataOrNull(d.metadata), None, now)
  }

  /** What a stored submission looks like: trimmed text, a lower-case
      address, no empty company, the given source or the default one, and
      the metadata as given when it is truthy and null otherwise. */
  lemma SubmissionRowNormalised(d: ContactInput, now: int)
    ensures var s := SubmissionRow(d, now);
      && IsTrimmed(s.name) && IsTrimmed(s.phone) && IsTrimmed(s.service) && IsTrimmed(s.message)
      && NoUpper(s.email)
      && s.company != Some("")
      && s.source != "" && (Truthy(d.source) ==> s.source == d.source.value)
      && (s.metadata.Some? <==> d.metadata.Some? && !JsonFalsy(d.metadata.value))
      && (s.metadata.Some? ==> s.metadata == d.metadata)
  {
    var s := SubmissionRow(d, now);
    assert IsTrimmed(s.name) && IsTrimmed(s.phone) by {
      assert s.name == Trim(d.name) && s.phone == Trim(d.phone);
    }
    assert IsTrimmed(s.service) && IsTrimmed(s.message) by {
      assert s.service == Trim(d.service) && s.message == Trim(d.message);
    }
    assert NoUpper(s.email) by {
      assert s.email == ToLower(Trim(d.email));
    }
  }

  /** Lowering ASCII letters neither adds nor removes whitespace at the ends. */
  lemma ToLowerKeepsTrimmed(s: string)
    requires IsTrimmed(s)
    ensures IsTrimmed(ToLower(s))
  {
  }

  /** The form a stored row would be resubmitted as. */
  function ResubmittedAs(s: ContactSubmission): ContactInput {
    ContactInput(s.name, s.email, s.phone, s.company, s.service, s.message, Some(s.source), s.metadata)
  }

  /** Normalising an e-mail address twice is normalising it once. */
  lemma EmailNormalIdempotent(e: string)
    ensures ToLower(Trim(ToLower(Trim(e)))) == ToLower(Trim(e))
  {
    var l := ToLower(Trim(e));
    ToLowerKeepsTrimmed(Trim(e));
    TrimStartOfTrimmed(l);
    TrimEndOfTrimmed(l);
    ToLowerIdempotent(Trim(e));
  }

  lemma TrimmedOrNullIdempotent(s: Option<string>)
    ensures TrimmedOrNull(TrimmedOrNull(s)) == TrimmedOrNull(s)
  {
    if s.Some? {
      TrimIdempotent(s.value);
    }
  }

  lemma MetadataOrNullIdempotent(m: Option<Json>)
    ensures MetadataOrNull(MetadataOrNull(m)) == MetadataOrNull(m)
  {
  }

  /** A row that normalising leaves as it is. */
  predicate IsNormalRow(s: ContactSubmission) {
    && Trim(s.name) == s.name && Trim(s.phone) == s.phone
    && Trim(s.service) == s.service && Trim(s.message) == s.message
    && ToLower(Trim(s.email)) == s.email && TrimmedOrNull(s.company) == s.company
    && s.source != "" && MetadataOrNull(s.metadata) == s.metadata && s.status.None?
  }

  lemma NormalRowFixed(s: ContactSubmission)
    requires IsNormalRow(s)
    ensures SubmissionRow(ResubmittedAs(s), s.createdAt) == s
  {
  }

  lemma SubmissionRowIsNormal(d: ContactInput, now: int)
    ensures IsNormalRow(SubmissionRow(d, now))
  {
    TrimIdempotent(d.name);
    TrimIdempotent(d.phone);
    TrimIdempotent(d.service);
    TrimIdempotent(d.message);
    EmailNormalIdempotent(d.email);
    TrimmedOrNullIdempotent(d.company);
    MetadataOrNullIdempotent(d.metadata);
  }

  /** Normalisation is idempotent: resubmitting what was stored stores the
      same row again. */
  lemma SubmissionRowIdempotent(d: ContactInput, now: int)
    ensures SubmissionRow(ResubmittedAs(SubmissionRow(d, now)), now) == SubmissionRow(d, now)
  {
    SubmissionRowIsNormal(d, now);
    NormalRowFixed(SubmissionRow(d, now));
  }

  /** The required-field check runs before trimming: a field of spaces
      passes it and is stored empty. */
  lemma BlankFieldStoredEmpty(d: ContactInput, now: int)
    requires d.name != "" && AllSpace(d.name)
    ensures SubmissionRow(d, now).name == ""
  {
    TrimEmptyIffAllSpace(d.name);
  }

  // ---------------------------------------------------------------------
  // The service

  /** What `getHero` returns. */
  datatype HeroView = HeroView(dashboards: seq<(Id, HeroDashboard)>, content: Option<(Id, HeroContent)>)

  /** What `getFooter` returns. */
  datatype FooterView = FooterView(
    sections: seq<(Id, FooterSection)>, links: seq<seq<(Id, FooterLink)>>,
    contactInfo: seq<(Id, ContactInfo)>, socialLinks: seq<(Id, SocialLink)>)

  class PublicService {
    const db: Store

    constructor (db: Store)
      ensures this.db == db
    {
      this.db := db;
    }

    /** The services matching the filters, by position. */
    method GetServices(filters: ServiceFilters, fault: Option<Fault>) returns (r: Result<seq<(Id, Service)>>)
      ensures fault.Some? ==> r == Err(BadRequest("Failed to fetch services"))
      ensures fault.None? ==> (r.Ok?
        && Listing(r.value, MatchingServices(db.services, filters)) && OrderedBy(r.value, ServicePosition))
    {
      if fault.Some? {
        return Err(BadRequest("Failed to fetch services"));
      }
      var rows := FindMany(MatchingServices(db.services, filters), ServicePosition);
      r := Ok(rows);
    }

    /** The quote candidates by position, each reduced to the five selected
        columns: every candidate once, and nothing else. */
    method GetQuoteServices(fault: Option<Fault>) returns (r: Result<seq<QuoteService>>)
      ensures fault.Some? ==> r == Err(BadRequest("Failed to fetch quote services"))
      ensures fault.None? ==> (r.Ok?
        && |r.value| == |QuoteCandidates(db.services)|
        && (forall i :: 0 <= i < |r.value| ==> (r.value[i].id in QuoteCandidates(db.services)
              && r.value[i] == QuoteOf(r.value[i].id, QuoteCandidates(db.services)[r.value[i].id])))
        && (forall k :: k in QuoteCandidates(db.services) ==> QuoteOf(k, QuoteCandidates(db.services)[k]) in r.value)
        && (forall i, j :: 0 <= i < j < |r.value| ==> r.value[i].id != r.value[j].id)
        && (forall i, j :: 0 <= i < j < |r.value| ==> r.value[i].position <= r.value[j].position))
    {
      if fault.Some? {
        return Err(BadRequest("Failed to fetch quote services"));
      }
      var candidates := QuoteCandidates(db.services);
      var rows := FindMany(candidates, ServicePosition);
      QuotesOfListing(rows, candidates);
      r := Ok(QuotesOf(rows));
    }

    /** The active service with `slug`; slugs are unique, so it is the only
        row with that slug that is active. */
    method GetServiceBySlug(slug: string, fault: Option<Fault>) returns (r: Result<(Id, Service)>)
      requires db.ServicesValid()
      ensures fault.Some? ==> r == Err(BadRequest("Failed to fetch service"))
      ensures fault.None? ==> (r.Ok? <==> ActiveWithSlug(db.services, slug) != map[])
      ensures fault.None? && r.Err? ==> r == Err(NotFound("Service not found: " + slug))
      ensures r.Ok? ==> (r.value.0 in db.services && db.services[r.value.0] == r.value.1
        && r.value.1.slug == slug && r.value.1.isActive
        && forall k :: k in ActiveWithSlug(db.services, slug) ==> k == r.value.0)
    {
      if fault.Some? {
        return Err(BadRequest("Failed to fetch service"));
      }
      var found := FindFirst(ActiveWithSlug(db.services, slug));
      if found.None? {
        return Err(NotFound("Service not found: " + slug));
      }
      forall k | k in ActiveWithSlug(db.services, slug) ensures k == found.value.0 {
        ActiveWithSlugUnique(db.services, slug, k, found.value.0);
      }
      r := Ok(found.value);
    }

    /** The active page with `pageKey`; a missing page is a NotFound (see
        `PageContentDiscrepancy` for the code as written). */
    method GetPageContent(pageKey: string, fault: Option<Fault>) returns (r: Result<PageContent>)
      requires db.PagesValid()
      ensures r == PageContentIntended(db.pages, db.pageByKey, pageKey, fault)
    {
      if fault.Some? {
        return Err(BadRequest("Failed to fetch page content"));
      }
      if !(pageKey in db.pageByKey && db.pages[db.pageByKey[pageKey]].isActive) {
        return Err(NotFound("Page content not found for: " + pageKey));
      }
      r := Ok(db.pages[db.pageByKey[pageKey]]);
    }

    /** The active section with `sectionKey`. */
    method GetSectionContent(sectionKey: string, fault: Option<Fault>) returns (r: Result<SectionContent>)
      requires db.SectionsValid()
      ensures fault.Some? ==> r == Err(BadRequest("Failed to fetch section content"))
      ensures fault.None? ==> (r.Ok? <==>
        exists k :: k in db.sections && db.sections[k].sectionKey == sectionKey && db.sections[k].isActive)
      ensures fault.None? && r.Err? ==> r == Err(NotFound("Section content not found for key: " + sectionKey))
      ensures r.Ok? ==> r.value in db.sections.Values && r.value.sectionKey == sectionKey && r.value.isActive
    {
      if fault.Some? {
        return Err(BadRequest("Failed to fetch section content"));
      }
      if !(sectionKey in db.sectionByKey && db.sections[db.sectionByKey[sectionKey]].isActive) {
        return Err(NotFound("Section content not found for key: " + sectionKey));
      }
      r := Ok(db.sections[db.sectionByKey[sectionKey]]);
    }

    /** The non-empty categories of the active services, each once, in
        code-point order. */
    method GetServiceCategories(fault: Option<Fault>) returns (r: Result<seq<string>>)
      ensures fault.Some? ==> r == Err(BadRequest("Failed to fetch service categories"))
      ensures fault.None? ==> (r.Ok?
        && SortedBy(r.value, LexLe)
        && (forall c :: c in r.value <==> c in Categories(db.services) && c != "")
        && (forall i, j :: 0 <= i < j < |r.value| ==> r.value[i] != r.value[j]))
    {
      if fault.Some? {
        return Err(BadRequest("Failed to fetch service categories"));
      }
      var categories := Categories(db.services);
      var distinct := ListDistinct(categories);
      var named := NonEmpty(distinct);
      NonEmptyMultiset(distinct);
      assert multiset(named) == multiset(categories - {""});
      LexLeIsTotalPreorder();
      var sorted := SortBy(named, LexLe);
      NoRepeats(sorted, categories - {""});
      assert forall c :: c in sorted <==> c in multiset(categories - {""});
      r := Ok(sorted);
    }

    /** The testimonials matching the filters, by position, cut to the limit. */
    method GetTestimonials(filters: TestimonialFilters, fault: Option<Fault>)
      returns (r: Result<seq<(Id, Testimonial)>>)
      ensures fault.Some? ==> r == Err(BadRequest("Failed to fetch testimonials"))
      ensures fault.None? ==> (r.Ok? &&
        var m := MatchingTestimonials(db.testimonials, filters);
        && OrderedBy(r.value, TestimonialPosition)
        && |r.value| == TakeCount(filters.limit, |m|)
        && (forall i :: 0 <= i < |r.value| ==> r.value[i].0 in m && m[r.value[i].0] == r.value[i].1)
        && (forall i, j :: 0 <= i < j < |r.value| ==> r.value[i].0 != r.value[j].0)
        && (filters.limit.None? || filters.limit == Some(0) ==> Listing(r.value, m))
        && (forall id :: id in m && (id, m[id]) !in r.value ==>
              && (filters.limit.Some? && filters.limit.value > 0 ==>
                    forall i :: 0 <= i < |r.value| ==> r.value[i].1.position <= m[id].position)
              && (filters.limit.Some? && filters.limit.value < 0 ==>
                    forall i :: 0 <= i < |r.value| ==> m[id].position <= r.value[i].1.position)))
    {
      if fault.Some? {
        return Err(BadRequest("Failed to fetch testimonials"));
      }
      var m := MatchingTestimonials(db.testimonials, filters);
      var rows := FindMany(m, TestimonialPosition);
      TakeListing(rows, m, TestimonialPosition, filters.limit);
      forall id | id in m && (id, m[id]) !in Take(rows, filters.limit)
        ensures filters.limit.Some? && filters.limit.value > 0 ==> forall i :: 0 <= i < |Take(rows, filters.limit)| ==>
                  Take(rows, filters.limit)[i].1.position <= m[id].position
        ensures filters.limit.Some? && filters.limit.value < 0 ==> forall i :: 0 <= i < |Take(rows, filters.limit)| ==>
                  m[id].position <= Take(rows, filters.limit)[i].1.position
      {
        TakeLeavesOut(rows, m, TestimonialPosition, filters.limit, id);
      }
      r := Ok(Take(rows, filters.limit));
    }

    /** Stores a contact form under a fresh id and returns the thank-you
        message and that id. */
    method SubmitContact(dto: ContactInput, now: int, fault: Option<Fault>) returns (r: Result<(string, Id)>)
      modifies db`submissions
      ensures MissingRequired(dto) ==> r == Err(BadRequest("Missing required fields")) && unchanged(db)
      ensures !MissingRequired(dto) && fault.Some? ==>
        r == Err(BadRequest("Failed to submit contact form")) && unchanged(db)
      ensures !MissingRequired(dto) && fault.None? ==> (r.Ok?
        && r.value.0 == "Thank you! We'll contact you within 24 hours."
        && r.value.1 !in old(db.submissions)
        && db.submissions == old(db.submissions)[r.value.1 := SubmissionRow(dto, now)])
    {
      if MissingRequired(dto) {
        return Err(BadRequest("Missing required fields"));
      }
      if fault.Some? {
        return Err(BadRequest("Failed to submit contact form"));
      }
      var id := FreshId(db.submissions.Keys);
      db.submissions := db.submissions[id := SubmissionRow(dto, now)];
      r := Ok(("Thank you! We'll contact you within 24 hours.", id));
    }

    /** The active calls to action of one page, by position. */
    method GetCallToActions(pageKey: string, fault: Option<Fault>) returns (r: Result<seq<(Id, CallToAction)>>)
      ensures fault.Some? ==> r == Err(BadRequest("Failed to fetch call-to-actions"))
      ensures fault.None? ==> (r.Ok?
        && Listing(r.value, ActiveCtasOf(db.ctas, pageKey)) && OrderedBy(r.value, CtaPosition))
    {
      if fault.Some? {
        return Err(BadRequest("Failed to fetch call-to-actions"));
      }
      var rows := FindMany(ActiveCtasOf(db.ctas, pageKey), CtaPosition);
      r := Ok(rows);
    }

    /** The active nav items by position, the dropdown of each one that has
        `hasDropdown` set, and an active theme. There is no try/catch: a
        failure of either query escapes unchanged. */
    method GetNavigation(navFault: Option<Fault>, themeFault: Option<Fault>) returns (r: Result<NavigationView>)
      requires db.NavValid()
      ensures navFault.Some? ==> r == Err(Unhandled(navFault.value))
      ensures navFault.None? && themeFault.Some? ==> r == Err(Unhandled(themeFault.value))
      ensures navFault.None? && themeFault.None? ==> (r.Ok?
        && Listing(r.value.navItems, Where(db.navItems, NavItemActive))
        && OrderedBy(r.value.navItems, NavItemPosition)
        && DropdownDataShows(r.value.navItems, r.value.dropdownData, true, db.dropdowns, db.dropdownOf, db.dropdownItems)
        && ActiveThemeOf(r.value.themeConfig, db.themes))
    {
      if navFault.Some? {
        return Err(Unhandled(navFault.value));
      }
      var navItems, dropdownData := ReadNavigation(db, true);
      if themeFault.Some? {
        return Err(Unhandled(themeFault.value));
      }
      var theme := FindFirst(Where(db.themes, ThemeActive));
      r := Ok(NavigationView(navItems, dropdownData, theme));
    }

    /** The active hero dashboards by position and an active hero content.
        There is no try/catch. */
    method GetHero(dashboardFault: Option<Fault>, contentFault: Option<Fault>) returns (r: Result<HeroView>)
      ensures dashboardFault.Some? ==> r == Err(Unhandled(dashboardFault.value))
      ensures dashboardFault.None? && contentFault.Some? ==> r == Err(Unhandled(contentFault.value))
      ensures dashboardFault.None? && contentFault.None? ==> (r.Ok?
        && Listing(r.value.dashboards, Where(db.heroDashboards, HeroDashboardActive))
        && OrderedBy(r.value.dashboards, HeroDashboardPosition)
        && (r.value.content.None? <==> Where(db.heroContents, HeroContentActive) == map[])
        && (r.value.content.Some? ==> (r.value.content.value.0 in db.heroContents
              && db.heroContents[r.value.content.value.0] == r.value.content.value.1
              && r.value.content.value.1.isActive)))
    {
      if dashboardFault.Some? {
        return Err(Unhandled(dashboardFault.value));
      }
      var dashboards := FindMany(Where(db.heroDashboards, HeroDashboardActive), HeroDashboardPosition);
      if contentFault.Some? {
        return Err(Unhandled(contentFault.value));
      }
      var content := FindFirst(Where(db.heroContents, HeroContentActive));
      r := Ok(HeroView(dashboards, content));
    }

    /** The active stats by position. */
    method GetStats(fault: Option<Fault>) returns (r: Result<seq<(Id, Stat)>>)
      ensures fault.Some? ==> r == Err(BadRequest("Failed to fetch stats"))
      ensures fault.None? ==> (r.Ok?
        && Listing(r.value, Where(db.stats, StatActive)) && OrderedBy(r.value, StatPosition))
    {
      if fault.Some? {
        return Err(BadRequest("Failed to fetch stats"));
      }
      var rows := FindMany(Where(db.stats, StatActive), StatPosition);
      r := Ok(rows);
    }

    /** The active contact details by position. */
    method GetContactInfo(fault: Option<Fault>) returns (r: Result<seq<(Id, ContactInfo)>>)
      ensures fault.Some? ==> r == Err(BadRequest("Failed to fetch contact info"))
      ensures fault.None? ==> (r.Ok?
        && Listing(r.value, Where(db.contactInfos, ContactInfoActive)) && OrderedBy(r.value, ContactInfoPosition))
    {
      if fault.Some? {
        return Err(BadRequest("Failed to fetch contact info"));
      }
      var rows := FindMany(Where(db.contactInfos, ContactInfoActive), ContactInfoPosition);
      r := Ok(rows);
    }

    /** The active social links by position; the catch block throws a plain
        Error, which the framework answers with a server error. */
    method GetSocialLinks(fault: Option<Fault>) returns (r: Result<seq<(Id, SocialLink)>>)
      ensures fault.Some? ==> r == Err(ServerError("Failed to fetch social links"))
      ensures fault.None? ==> (r.Ok?
        && Listing(r.value, Where(db.socialLinks, SocialLinkActive)) && OrderedBy(r.value, SocialLinkPosition))
    {
      if fault.Some? {
        return Err(ServerError("Failed to fetch social links"));
      }
      var rows := FindMany(Where(db.socialLinks, SocialLinkActive), SocialLinkPosition);
      r := Ok(rows);
    }

    /** The footer: active sections by position with their active links by
        position, the active contact details and the active social links. */
    method GetFooter(fault: Option<Fault>) returns (r: Result<FooterView>)
      ensures fault.Some? ==> r == Err(BadRequest("Failed to fetch footer content"))
      ensures fault.None? ==> (r.Ok?
        && Listing(r.value.sections, Where(db.footerSections, FooterSectionActive))
        && OrderedBy(r.value.sections, FooterSectionPosition)
        && |r.value.links| == |r.value.sections|
        && (forall i :: 0 <= i < |r.value.sections| ==>
              Listing(r.value.links[i], ActiveLinksOf(db.footerLinks, r.value.sections[i].0))
              && OrderedBy(r.value.links[i], FooterLinkPosition))
        && Listing(r.value.contactInfo, Where(db.contactInfos, ContactInfoActive))
        && OrderedBy(r.value.contactInfo, ContactInfoPosition)
        && Listing(r.value.socialLinks, Where(db.socialLinks, SocialLinkActive))
        && OrderedBy(r.value.socialLinks, SocialLinkPosition))
    {
      if fault.Some? {
        return Err(BadRequest("Failed to fetch footer content"));
      }
      var sections, links := ReadFooter(db);
      var infos := FindMany(Where(db.contactInfos, ContactInfoActive), ContactInfoPosition);
      var socials := FindMany(Where(db.socialLinks, SocialLinkActive), SocialLinkPosition);
      r := Ok(FooterView(sections, links, infos, socials));
    }
  }
}
