/** Rows of the content database and the request items the admin write paths
    receive, with the per-record data objects the services build from them. */
module Records {
  import opened Common

  /** A JSON value. The services pass it through without looking inside it,
      except that the contact form tests it for JavaScript truthiness. */
  datatype Json =
    | JNull
    | JBool(b: bool)
    | JNumber(n: real)
    | JString(s: string)
    | JArray(items: seq<Json>)
    | JObject(fields: map<string, Json>)

  /** A JSON value JavaScript treats as false: null, false, 0 and "".
      Arrays and objects are true even when empty. */
  predicate JsonFalsy(j: Json) {
    j.JNull? || j == JBool(false) || j == JNumber(0.0) || j == JString("")
  }

  // ---------------------------------------------------------------------
  // Navigation

  datatype NavItem = NavItem(
    name: string, key: string, href: Option<string>, position: int,
    hasDropdown: bool, isActive: bool)

  datatype NavItemInput = NavItemInput(
    id: Option<Id>, name: string, key: string, href: Option<string>, position: int,
    isActive: Option<bool>, hasDropdown: Option<bool>)

  /** The dropdown panel owned by one nav item (navItemId is a unique foreign key). */
  datatype DropdownData = DropdownData(navItemId: Id, title: string)

  datatype DropdownItem = DropdownItem(
    dropdownDataId: Id, name: string, href: string, description: string,
    features: seq<string>, position: int, isActive: bool)

  datatype DropdownItemInput = DropdownItemInput(
    name: string, href: string, description: Option<string>,
    features: Option<seq<string>>, position: Option<int>, isActive: Option<bool>)

  /** One value of the request's `dropdownData` record; `items` is None when it
      is not an array. */
  datatype DropdownInput = DropdownInput(title: Option<string>, items: Option<seq<DropdownItemInput>>)

  const DefaultDropdownTitle := "Dropdown Title"

  /** The data object written by the nav item upsert. */
  function NavItemData(i: NavItemInput): NavItem {
    NavItem(i.name, i.key, OrNull(i.href), i.position, OrFalse(i.hasDropdown), NotFalse(i.isActive))
  }

  lemma NavItemDataDefaults(i: NavItemInput)
    ensures NavItemData(i).key == i.key && NavItemData(i).name == i.name
    ensures NavItemData(i).position == i.position
    ensures NavItemData(i).href.None? <==> !Truthy(i.href)
    ensures NavItemData(i).hasDropdown <==> i.hasDropdown == Some(true)
    ensures NavItemData(i).isActive <==> i.isActive != Some(false)
  {
  }

  /** The data object of the dropdown item created at `position` under dropdown `did`. */
  function DropdownItemData(i: DropdownItemInput, position: int, did: Id): DropdownItem {
    DropdownItem(did, i.name, i.href, OrDefault(i.description, ""), i.features.GetOr([]),
                 position, NotFalse(i.isActive))
  }

  /** The rows created for a dropdown's items: the k-th item gets position k+1,
      whatever position the request carried. */
  function DropdownItemRows(items: seq<DropdownItemInput>, did: Id): (rows: seq<DropdownItem>)
    ensures |rows| == |items|
    ensures forall k :: 0 <= k < |items| ==>
      rows[k].position == k + 1 && rows[k].dropdownDataId == did
      && rows[k].name == items[k].name && rows[k].href == items[k].href
  {
    seq(|items|, k requires 0 <= k < |items| => DropdownItemData(items[k], k + 1, did))
  }

  // ---------------------------------------------------------------------
  // Theme and hero content ("the" active row)

  datatype ThemeConfig = ThemeConfig(
    primaryColor: string, accentColor: string, logoUrl: Option<string>,
    companyName: Option<string>, isActive: bool)

  datatype ThemeInput = ThemeInput(
    primaryColor: string, accentColor: string, logoUrl: Option<string>, companyName: Option<string>)

  /** `updateMany({ data: dto })` on one row: fields absent from the request keep their values. */
  function ApplyTheme(t: ThemeConfig, dto: ThemeInput): ThemeConfig {
    t.(primaryColor := dto.primaryColor, accentColor := dto.accentColor,
       logoUrl := if dto.logoUrl.Some? then dto.logoUrl else t.logoUrl,
       companyName := if dto.companyName.Some? then dto.companyName else t.companyName)
  }

  datatype HeroContent = HeroContent(
    trustBadge: string, mainHeading: string, subHeading: string, tagline: string,
    description: string, trustPoints: seq<string>, primaryCtaText: string,
    secondaryCtaText: string, phoneNumber: string, chatWidgetUrl: string, isActive: bool)

  datatype HeroContentInput = HeroContentInput(
    trustBadge: Option<string>, mainHeading: Option<string>, subHeading: Option<string>,
    tagline: Option<string>, description: Option<string>, trustPoints: Option<seq<string>>,
    primaryCtaText: Option<string>, secondaryCtaText: Option<string>,
    phoneNumber: Option<string>, chatWidgetUrl: Option<string>)

  const DefaultTrustBadge := "Trusted by 5,000+ Companies"
  const DefaultMainHeading := "Transform Your"
  const DefaultSubHeading := "HR Operations"
  const DefaultTagline := "with AI-Powered Solutions"
  const DefaultHeroDescription := "Streamline payroll, optimize talent management."
  const DefaultTrustPoints := ["No Setup Fees", "24/7 Support", "GDPR Compliant"]
  const DefaultPrimaryCta := "Start Free Trial"
  const DefaultSecondaryCta := "Schedule Demo"
  const DefaultPhone := "0733769149"
  const DefaultChatWidgetUrl := "https://rag-chat-widget.vercel.app/"

  /** The hero-content update written to one active row: every field is set,
      from the request when given and non-empty, from the fixed default otherwise. */
  function ApplyHeroContent(h: HeroContent, dto: HeroContentInput): HeroContent {
    h.(trustBadge := OrDefault(dto.trustBadge, DefaultTrustBadge),
       mainHeading := OrDefault(dto.mainHeading, DefaultMainHeading),
       subHeading := OrDefault(dto.subHeading, DefaultSubHeading),
       tagline := OrDefault(dto.tagline, DefaultTagline),
       description := OrDefault(dto.description, DefaultHeroDescription),
       trustPoints := dto.trustPoints.GetOr(DefaultTrustPoints),
       primaryCtaText := OrDefault(dto.primaryCtaText, DefaultPrimaryCta),
       secondaryCtaText := OrDefault(dto.secondaryCtaText, DefaultSecondaryCta),
       phoneNumber := OrDefault(dto.phoneNumber, DefaultPhone),
       chatWidgetUrl := OrDefault(dto.chatWidgetUrl, DefaultChatWidgetUrl))
  }

  /** Applying the hero-content update leaves nothing of the old row but its
      active flag: two rows updated with the same request become equal. */
  lemma HeroContentOverwrites(h1: HeroContent, h2: HeroContent, dto: HeroContentInput)
    requires h1.isActive == h2.isActive
    ensures ApplyHeroContent(h1, dto) == ApplyHeroContent(h2, dto)
  {
  }

  /** With an empty request every field takes its default. */
  lemma HeroContentDefaults(h: HeroContent)
    ensures var e := HeroContentInput(None, None, None, None, None, None, None, None, None, None);
      ApplyHeroContent(h, e) == HeroContent(
        DefaultTrustBadge, DefaultMainHeading, DefaultSubHeading, DefaultTagline,
        DefaultHeroDescription, DefaultTrustPoints, DefaultPrimaryCta, DefaultSecondaryCta,
        DefaultPhone, DefaultChatWidgetUrl, h.isActive)
  {
  }

  // ---------------------------------------------------------------------
  // Hero dashboards

  datatype HeroStat = HeroStat(labelText: string, value: string, color: string)

  datatype HeroDashboard = HeroDashboard(
    title: string, description: string, stats: seq<HeroStat>, features: seq<string>,
    imageUrl: Option<string>, position: int, isActive: bool)

  datatype HeroDashboardInput = HeroDashboardInput(
    title: string, description: string, stats: Option<seq<HeroStat>>,
    features: Option<seq<string>>, imageUrl: Option<string>)

  /** The row created for the dashboard at `index` of the request. */
  function HeroDashboardRow(d: HeroDashboardInput, index: nat): HeroDashboard {
    HeroDashboard(d.title, d.description, d.stats.GetOr([]), d.features.GetOr([]),
                  OrNull(d.imageUrl), index + 1, true)
  }

  // ---------------------------------------------------------------------
  // Services

  datatype Service = Service(
    title: string, slug: string, description: string, shortDesc: Option<string>,
    icon: string, color: string, category: Option<string>, features: seq<string>,
    benefits: seq<Json>, processSteps: seq<Json>, complianceItems: seq<Json>,
    imageUrl: Option<string>, heroImageUrl: Option<string>, processImageUrl: Option<string>,
    complianceImageUrl: Option<string>, onQuote: bool, hasProcess: bool, hasCompliance: bool,
    isActive: bool, isFeatured: bool, isPopular: bool, position: int, price: Option<string>,
    buttonText: string, buttonLink: Option<string>, metadata: Option<Json>)

  datatype ServiceInput = ServiceInput(
    id: Option<Id>, title: string, slug: string, description: string, shortDesc: Option<string>,
    icon: string, color: string, category: Option<string>, features: seq<string>,
    benefits: Option<seq<Json>>, processSteps: Option<seq<Json>>, complianceItems: Option<seq<Json>>,
    imageUrl: Option<string>, heroImageUrl: Option<string>, processImageUrl: Option<string>,
    complianceImageUrl: Option<string>, onQuote: Option<bool>, hasProcess: Option<bool>,
    hasCompliance: Option<bool>, isActive: Option<bool>, isFeatured: Option<bool>,
    isPopular: Option<bool>, position: int, price: Option<string>, buttonText: Option<string>,
    buttonLink: Option<string>, metadata: Option<Json>)

  const DefaultButtonText := "Learn More"

  function ServiceRow(s: ServiceInput): Service {
    Service(s.title, s.slug, s.description, s.shortDesc, s.icon, s.color, s.category, s.features,
            s.benefits.GetOr([]), s.processSteps.GetOr([]), s.complianceItems.GetOr([]),
            s.imageUrl, s.heroImageUrl, s.processImageUrl, s.complianceImageUrl,
            NotFalse(s.onQuote), OrFalse(s.hasProcess), OrFalse(s.hasCompliance),
            NotFalse(s.isActive), OrFalse(s.isFeatured), OrFalse(s.isPopular), s.position,
            s.price, OrDefault(s.buttonText, DefaultButtonText), s.buttonLink, s.metadata)
  }

  // ---------------------------------------------------------------------
  // Testimonials

  datatype Testimonial = Testimonial(
    name: string, role: string, company: string, content: string, rating: int,
    avatar: string, results: seq<string>, service: Option<string>, category: Option<string>,
    isActive: bool, isFeatured: bool, position: int)

  /** A request item; `results` is None when the request's value is not an array. */
  datatype TestimonialInput = TestimonialInput(
    id: Option<string>, name: string, role: string, company: string, content: string,
    rating: Option<int>, avatar: string, results: Option<seq<string>>, service: Option<string>,
    isActive: Option<bool>, isFeatured: Option<bool>, position: int)

  /** The entries of `xs` that are not empty, in order. */
  function NonEmpty(xs: seq<string>): (r: seq<string>)
    ensures |r| <= |xs|
    ensures forall k :: 0 <= k < |r| ==> r[k] != "" && r[k] in xs
  {
    if xs == [] then []
    else if xs[0] != "" then [xs[0]] + NonEmpty(xs[1..])
    else NonEmpty(xs[1..])
  }

  /** The filter keeps every non-empty entry. */
  lemma {:induction false} NonEmptyKeeps(xs: seq<string>, x: string)
    ensures x in NonEmpty(xs) <==> x != "" && x in xs
  {
    if xs != [] {
      NonEmptyKeeps(xs[1..], x);
      assert xs == [xs[0]] + xs[1..];
    }
  }

  /** The filter removes every empty entry and nothing else. */
  lemma {:induction false} NonEmptyMultiset(xs: seq<string>)
    ensures multiset(NonEmpty(xs)) == multiset(xs)["" := 0]
  {
    if xs != [] {
      NonEmptyMultiset(xs[1..]);
      assert xs == [xs[0]] + xs[1..];
    }
  }

  /** Every entry trimmed. */
  function TrimAll(rs: seq<string>): (r: seq<string>)
    ensures |r| == |rs| && forall k :: 0 <= k < |rs| ==> r[k] == Trim(rs[k])
  {
    seq(|rs|, i requires 0 <= i < |rs| => Trim(rs[i]))
  }

  /** `results.filter((r) => r && r.trim()).map((r) => r.trim())`: the
      trimmed entries of `rs` that are not blank, in order. */
  function CleanResults(rs: seq<string>): (r: seq<string>)
    ensures |r| <= |rs|
    ensures forall k :: 0 <= k < |r| ==> r[k] != "" && IsTrimmed(r[k])
  {
    NonEmpty(TrimAll(rs))
  }

  /** A result entry survives, trimmed, exactly when it is not blank (its
      trim is empty exactly when it is all whitespace: `TrimEmptyIffAllSpace`). */
  lemma CleanResultsKeeps(rs: seq<string>, x: string)
    ensures x in CleanResults(rs) <==> x != "" && exists k :: 0 <= k < |rs| && Trim(rs[k]) == x
  {
    var trimmed := TrimAll(rs);
    NonEmptyKeeps(trimmed, x);
    assert x in trimmed <==> exists k :: 0 <= k < |rs| && Trim(rs[k]) == x by {
      if x in trimmed {
        var k :| 0 <= k < |trimmed| && trimmed[k] == x;
        assert Trim(rs[k]) == x;
      }
    }
  }

  const DefaultRating := 5

  /** The row created for a testimonial request item; the data object has no
      `category`, so a created row has none. */
  function TestimonialData(t: TestimonialInput): Testimonial {
    Testimonial(Trim(t.name), Trim(t.role), Trim(t.company), Trim(t.content),
                t.rating.GetOr(DefaultRating), Trim(t.avatar),
                if t.results.Some? then CleanResults(t.results.value) else [],
                if t.service.Some? && Trim(t.service.value) != "" then Some(Trim(t.service.value)) else None,
                None, NotFalse(t.isActive), OrFalse(t.isFeatured), t.position)
  }

  /** The stored row after `update({ data })`: the data object names every
      column but `category`, which keeps its stored value. */
  function ApplyTestimonial(stored: Testimonial, t: TestimonialInput): Testimonial {
    TestimonialData(t).(category := stored.category)
  }

  /** What a stored testimonial looks like: trimmed text, rating 5 by default,
      only non-blank trimmed results, a blank service stored as null, active
      unless explicitly inactive, featured only when explicitly featured. */
  lemma TestimonialNormalised(t: TestimonialInput)
    ensures var d := TestimonialData(t);
      && IsTrimmed(d.name) && IsTrimmed(d.role) && IsTrimmed(d.company)
      && IsTrimmed(d.content) && IsTrimmed(d.avatar)
      && (t.rating.None? ==> d.rating == 5) && (t.rating.Some? ==> d.rating == t.rating.value)
      && (forall k :: 0 <= k < |d.results| ==> d.results[k] != "" && IsTrimmed(d.results[k]))
      && (t.results.None? ==> d.results == [])
      && (d.service.None? <==> (t.service.None? || AllSpace(t.service.value)))
      && (d.service.Some? ==> IsTrimmed(d.service.value) && d.service.value != "")
      && (d.isActive <==> t.isActive != Some(false))
      && (d.isFeatured <==> t.isFeatured == Some(true))
      && d.position == t.position
  {
    if t.service.Some? {
      TrimEmptyIffAllSpace(t.service.value);
    }
  }

  // ---------------------------------------------------------------------
  // Stats, footer, contact info, social links

  datatype Stat = Stat(number: string, labelText: string, icon: Option<string>, color: string,
                       isActive: bool, position: int)

  datatype StatInput = StatInput(id: Option<Id>, number: string, labelText: string, icon: Option<string>,
                                 color: Option<string>, isActive: Option<bool>, position: int)

  const DefaultStatColor := "text-primary-600"

  function StatRow(s: StatInput): Stat {
    Stat(s.number, s.labelText, s.icon, OrDefault(s.color, DefaultStatColor), NotFalse(s.isActive), s.position)
  }

  datatype FooterSection = FooterSection(title: string, position: int, isActive: bool)

  datatype FooterLink = FooterLink(footerSectionId: Id, name: string, href: string,
                                   position: int, isActive: bool)

  datatype FooterLinkInput = FooterLinkInput(id: Option<Id>, name: string, href: string,
                                             position: int, isActive: Option<bool>)

  datatype FooterSectionInput = FooterSectionInput(id: Option<Id>, title: string, position: int,
                                                   isActive: Option<bool>, links: seq<FooterLinkInput>)

  function FooterSectionRow(s: FooterSectionInput): FooterSection {
    FooterSection(s.title, s.position, NotFalse(s.isActive))
  }

  /** The links of one section, each stamped with the section's new id. */
  function FooterLinkRows(links: seq<FooterLinkInput>, sid: Id): (rows: seq<FooterLink>)
    ensures |rows| == |links|
    ensures forall k :: 0 <= k < |links| ==> rows[k].footerSectionId == sid
  {
    seq(|links|, k requires 0 <= k < |links| =>
      FooterLink(sid, links[k].name, links[k].href, links[k].position, NotFalse(links[k].isActive)))
  }

  datatype ContactInfo = ContactInfo(infoType: string, labelText: string, value: string,
                                     icon: Option<string>, position: int, isActive: bool)

  datatype ContactInfoInput = ContactInfoInput(id: Option<Id>, infoType: string, labelText: string,
                                               value: string, icon: Option<string>, position: int,
                                               isActive: Option<bool>)

  function ContactInfoRow(c: ContactInfoInput): ContactInfo {
    ContactInfo(c.infoType, c.labelText, c.value, c.icon, c.position, NotFalse(c.isActive))
  }

  datatype SocialLink = SocialLink(name: string, icon: string, href: string, position: int, isActive: bool)

  datatype SocialLinkInput = SocialLinkInput(id: Option<Id>, name: string, icon: string, href: string,
                                             position: int, isActive: Option<bool>)

  function SocialLinkRow(l: SocialLinkInput): SocialLink {
    SocialLink(l.name, l.icon, l.href, l.position, NotFalse(l.isActive))
  }

  // ---------------------------------------------------------------------
  // Section content, page content, calls to action

  datatype SectionContent = SectionContent(
    sectionKey: string, title: string, subtitle: Option<string>,
    description: Option<string>, isActive: bool)

  datatype SectionContentInput = SectionContentInput(
    sectionKey: string, title: string, subtitle: Option<string>,
    description: Option<string>, isActive: Option<bool>)

  /** The row created when no section has the key. */
  function SectionCreate(dto: SectionContentInput): SectionContent {
    SectionContent(dto.sectionKey, dto.title, dto.subtitle, dto.description, NotFalse(dto.isActive))
  }

  /** The stored section after the update branch of the upsert: absent optional
      fields keep their stored values. */
  function SectionUpdate(stored: SectionContent, dto: SectionContentInput): SectionContent {
    stored.(title := dto.title,
         subtitle := if dto.subtitle.Some? then dto.subtitle else stored.subtitle,
         description := if dto.description.Some? then dto.description else stored.description,
         isActive := NotFalse(dto.isActive))
  }

  datatype PageContent = PageContent(
    pageKey: string, title: string, subtitle: Option<string>, description: Option<string>,
    heroTitle: Option<string>, heroSubtitle: Option<string>, heroDescription: Option<string>,
    heroImageUrl: Option<string>, processImageUrl: Option<string>, complianceImageUrl: Option<string>,
    ctaText: Option<string>, ctaLink: Option<string>, ctaSecondaryText: Option<string>,
    ctaSecondaryLink: Option<string>, metadata: Option<Json>, isActive: bool)

  datatype PageContentInput = PageContentInput(
    pageKey: string, title: string, subtitle: Option<string>, description: Option<string>,
    heroTitle: Option<string>, heroSubtitle: Option<string>, heroDescription: Option<string>,
    heroImageUrl: Option<string>, processImageUrl: Option<string>, complianceImageUrl: Option<string>,
    ctaText: Option<string>, ctaLink: Option<string>, ctaSecondaryText: Option<string>,
    ctaSecondaryLink: Option<string>, metadata: Option<Json>, isActive: Option<bool>)

  function PageCreate(dto: PageContentInput): PageContent {
    PageContent(dto.pageKey, dto.title, dto.subtitle, dto.description, dto.heroTitle,
                dto.heroSubtitle, dto.heroDescription, dto.heroImageUrl, dto.processImageUrl,
                dto.complianceImageUrl, dto.ctaText, dto.ctaLink, dto.ctaSecondaryText,
                dto.ctaSecondaryLink, dto.metadata, NotFalse(dto.isActive))
  }

  /** `Keep` for optional columns: an absent request value keeps the stored one. */
  function KeepOpt<T>(update: Option<T>, stored: Option<T>): Option<T> {
    if update.Some? then update else stored
  }

  function PageUpdate(stored: PageContent, dto: PageContentInput): PageContent {
    stored.(title := dto.title,
         subtitle := KeepOpt(dto.subtitle, stored.subtitle),
         description := KeepOpt(dto.description, stored.description),
         heroTitle := KeepOpt(dto.heroTitle, stored.heroTitle),
         heroSubtitle := KeepOpt(dto.heroSubtitle, stored.heroSubtitle),
         heroDescription := KeepOpt(dto.heroDescription, stored.heroDescription),
         heroImageUrl := KeepOpt(dto.heroImageUrl, stored.heroImageUrl),
         processImageUrl := KeepOpt(dto.processImageUrl, stored.processImageUrl),
         complianceImageUrl := KeepOpt(dto.complianceImageUrl, stored.complianceImageUrl),
         ctaText := KeepOpt(dto.ctaText, stored.ctaText),
         ctaLink := KeepOpt(dto.ctaLink, stored.ctaLink),
         ctaSecondaryText := KeepOpt(dto.ctaSecondaryText, stored.ctaSecondaryText),
         ctaSecondaryLink := KeepOpt(dto.ctaSecondaryLink, stored.ctaSecondaryLink),
         metadata := KeepOpt(dto.metadata, stored.metadata),
         isActive := NotFalse(dto.isActive))
  }

  /** Updating a page with a request that gives every field is the same as
      creating it from that request: the stored row is fully overwritten. */
  lemma PageUpdateOfFullRequest(stored: PageContent, dto: PageContentInput)
    requires stored.pageKey == dto.pageKey
    requires dto.subtitle.Some? && dto.description.Some? && dto.heroTitle.Some?
    requires dto.heroSubtitle.Some? && dto.heroDescription.Some? && dto.heroImageUrl.Some?
    requires dto.processImageUrl.Some? && dto.complianceImageUrl.Some? && dto.ctaText.Some?
    requires dto.ctaLink.Some? && dto.ctaSecondaryText.Some? && dto.ctaSecondaryLink.Some?
    requires dto.metadata.Some?
    ensures PageUpdate(stored, dto) == PageCreate(dto)
  {
  }

  datatype CallToAction = CallToAction(
    pageKey: string, title: string, description: Option<string>, primaryText: string,
    primaryLink: string, secondaryText: Option<string>, secondaryLink: Option<string>,
    bgColor: Option<string>, textColor: Option<string>, position: int, isActive: bool)

  datatype CallToActionInput = CallToActionInput(
    id: Option<Id>, pageKey: string, title: string, description: Option<string>,
    primaryText: string, primaryLink: string, secondaryText: Option<string>,
    secondaryLink: Option<string>, bgColor: Option<string>, textColor: Option<string>,
    position: int, isActive: Option<bool>)

  function CtaRow(c: CallToActionInput): CallToAction {
    CallToAction(c.pageKey, c.title, c.description, c.primaryText, c.primaryLink,
                 c.secondaryText, c.secondaryLink, c.bgColor, c.textColor, c.position,
                 NotFalse(c.isActive))
  }

  // ---------------------------------------------------------------------
  // Contact submissions and uploaded files

  /** A stored contact form; `status` None means the column's default, which
      this code never writes. */
  datatype ContactSubmission = ContactSubmission(
    name: string, email: string, phone: string, company: Option<string>, service: string,
    message: string, source: string, metadata: Option<Json>, status: Option<string>,
    createdAt: int)

  datatype FileUpload = FileUpload(
    filename: string, originalName: string, mimetype: string, size: int, path: string,
    url: string, fileType: string, uploadedBy: Option<string>, createdAt: int)

  // ---------------------------------------------------------------------
  // Accessors handed to the generic query helpers

  function NavItemPosition(n: NavItem): int { n.position }
  predicate NavItemActive(n: NavItem) { n.isActive }
  function DropdownItemPosition(d: DropdownItem): int { d.position }
  predicate ThemeActive(t: ThemeConfig) { t.isActive }
  predicate HeroContentActive(h: HeroContent) { h.isActive }
  function HeroDashboardPosition(d: HeroDashboard): int { d.position }
  predicate HeroDashboardActive(d: HeroDashboard) { d.isActive }
  function ServicePosition(s: Service): int { s.position }
  function TestimonialPosition(t: Testimonial): int { t.position }
  function StatPosition(s: Stat): int { s.position }
  predicate StatActive(s: Stat) { s.isActive }
  function FooterSectionPosition(s: FooterSection): int { s.position }
  predicate FooterSectionActive(s: FooterSection) { s.isActive }
  function FooterLinkPosition(l: FooterLink): int { l.position }
  function ContactInfoPosition(c: ContactInfo): int { c.position }
  predicate ContactInfoActive(c: ContactInfo) { c.isActive }
  function SocialLinkPosition(l: SocialLink): int { l.position }
  predicate SocialLinkActive(l: SocialLink) { l.isActive }
  function CtaPosition(c: CallToAction): int { c.position }
  /** Newest first: `orderBy: { createdAt: 'desc' }` as an ascending key. */
  function SubmissionNewestFirst(s: ContactSubmission): int { -s.createdAt }
  function FileNewestFirst(f: FileUpload): int { -f.createdAt }
}
