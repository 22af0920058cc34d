/** The admin service: the write paths that replace, reconcile or upsert the
    site content, the single-record deletes, and the reads the admin screens
    use. A transaction computes the new tables in local variables and commits
    them to the store only when it succeeds; `fault` is the failure the
    engine reports, if any, and on a failure the store is left as it was. */
module Admin {
  import opened Common
  import opened Records
  import opened Store
  import opened NavUpdate
  import opened TestimonialSync
  import opened ContentUpdate
  import opened Queries

  class AdminService {
    const db: Store

    constructor (db: Store)
      ensures this.db == db
    {
      this.db := db;
    }

    // -------------------------------------------------------------------
    // Navigation

    /** Upserts every nav item by key, then gives each nav item named in
        `dropdownData` its dropdown with a fresh list of items. */
    method UpdateNavigation(navItems: seq<NavItemInput>, dropdownData: seq<(string, Option<DropdownInput>)>,
                            fault: Option<Fault>) returns (r: Result<string>)
      requires db.NavValid()
      modifies db`navItems, db`navByKey, db`dropdowns, db`dropdownOf, db`dropdownItems
      ensures db.NavValid()
      ensures fault.Some? ==> r == Err(BadRequest("Failed to update navigation")) && unchanged(db)
      ensures fault.None? ==> (r == Ok("Navigation updated successfully")
        && TablesOf(db) == ApplyAll(UpsertAll(old(TablesOf(db)), navItems), {}, dropdownData)
        && (forall k :: k in db.dropdownItems && k in old(db.dropdownItems) ==> db.dropdownItems[k] == old(db.dropdownItems)[k]))
    {
      if fault.Some? {
        return Err(BadRequest("Failed to update navigation"));
      }
      var start := TablesOf(db);
      var upserted := UpsertNavItems(start, navItems);
      var f := ApplyDropdowns(upserted, dropdownData);
      NavigationKeepsConsistent(start, navItems, dropdownData);
      UpsertAllIndex(start, navItems);
      ApplyAllNoReuse(upserted, {}, dropdownData);
      db.SetNav(f.items, f.byKey, f.dropdowns, f.dropdownOf, f.dropItems);
      r := Ok("Navigation updated successfully");
    }

    /** Deletes one nav item: NotFound when the id is unknown. */
    method DeleteNavItem(id: Id, fault: Option<Fault>) returns (r: Result<string>)
      requires db.NavValid()
      modifies db`navItems, db`navByKey
      ensures db.NavValid()
      ensures id !in old(db.navItems) ==> r == Err(NotFound("Navigation item not found")) && unchanged(db)
      ensures id in old(db.navItems) && fault.Some? ==>
        (r == Err(BadRequest("Failed to delete navigation item")) && unchanged(db))
      ensures id in old(db.navItems) && fault.None? ==>
        (r == Ok("Navigation item deleted successfully") && TablesOf(db) == RemoveNavItem(old(TablesOf(db)), id))
    {
      if id !in db.navItems {
        return Err(NotFound("Navigation item not found"));
      }
      if fault.Some? {
        return Err(BadRequest("Failed to delete navigation item"));
      }
      RemoveNavItemFacts(TablesOf(db), id);
      db.navItems, db.navByKey := db.navItems - {id}, db.navByKey - {db.navItems[id].key};
      r := Ok("Navigation item deleted successfully");
    }

    // -------------------------------------------------------------------
    // Theme and hero

    /** Writes the request to every active theme. */
    method UpdateTheme(dto: ThemeInput, fault: Option<Fault>) returns (r: Result<string>)
      modifies db`themes
      ensures fault.Some? ==> r == Err(BadRequest("Failed to update theme")) && unchanged(db)
      ensures fault.None? ==> r == Ok("Theme updated successfully") && db.themes == UpdateThemes(old(db.themes), dto)
    {
      if fault.Some? {
        return Err(BadRequest("Failed to update theme"));
      }
      db.themes := UpdateThemes(db.themes, dto);
      r := Ok("Theme updated successfully");
    }

    /** Replaces every hero dashboard by the requested ones, numbered from 1. */
    method UpdateHeroDashboards(dashboards: seq<HeroDashboardInput>, fault: Option<Fault>) returns (r: Result<string>)
      modifies db`heroDashboards
      ensures fault.Some? ==> r == Err(BadRequest("Failed to update hero dashboards")) && unchanged(db)
      ensures fault.None? ==> (r == Ok("Hero dashboards updated successfully")
        && db.heroDashboards == Append(map[], old(db.heroDashboards).Keys, HeroDashboardRows(dashboards))
        && Exactly(db.heroDashboards, HeroDashboardRows(dashboards)))
    {
      if fault.Some? {
        return Err(BadRequest("Failed to update hero dashboards"));
      }
      var rows := CreateEach(map[], db.heroDashboards.Keys, HeroDashboardRows(dashboards));
      AppendExactly(db.heroDashboards.Keys, HeroDashboardRows(dashboards));
      db.heroDashboards := rows;
      r := Ok("Hero dashboards updated successfully");
    }

    /** Writes every hero field, or its default, to every active hero content row. */
    method UpdateHeroContent(dto: HeroContentInput, fault: Option<Fault>) returns (r: Result<string>)
      modifies db`heroContents
      ensures fault.Some? ==> r == Err(BadRequest("Failed to update hero content")) && unchanged(db)
      ensures fault.None? ==> (r == Ok("Hero content updated successfully")
        && db.heroContents == UpdateHeroContents(old(db.heroContents), dto))
    {
      if fault.Some? {
        return Err(BadRequest("Failed to update hero content"));
      }
      db.heroContents := UpdateHeroContents(db.heroContents, dto);
      r := Ok("Hero content updated successfully");
    }

    // -------------------------------------------------------------------
    // Services

    /** Replaces every service by the requested ones. A repeated slug breaks
        the unique constraint on the second create and rolls everything back. */
    method UpdateServices(services: seq<ServiceInput>, fault: Option<Fault>) returns (r: Result<string>)
      requires db.ServicesValid()
      modifies db`services
      ensures db.ServicesValid()
      ensures r.Ok? <==> fault.None? && DistinctSlugs(services)
      ensures r.Err? ==> r == Err(BadRequest("Failed to update services")) && unchanged(db)
      ensures r.Ok? ==> (r.value == "Services updated successfully"
        && db.services == Append(map[], old(db.services).Keys, Rows(services, ServiceRow))
        && Exactly(db.services, Rows(services, ServiceRow)))
    {
      if fault.Some? {
        return Err(BadRequest("Failed to update services"));
      }
      var table := CreateServices(db.services.Keys, services);
      if table.None? {
        return Err(BadRequest("Failed to update services"));
      }
      ServicesReplaced(db.services.Keys, services);
      db.services := table.value;
      r := Ok("Services updated successfully");
    }

    /** Deletes one service: NotFound when the id is unknown. */
    method DeleteService(id: Id, fault: Option<Fault>) returns (r: Result<string>)
      requires db.ServicesValid()
      modifies db`services
      ensures db.ServicesValid()
      ensures id !in old(db.services) ==> r == Err(NotFound("Service not found")) && unchanged(db)
      ensures id in old(db.services) && fault.Some? ==> r == Err(BadRequest("Failed to delete service")) && unchanged(db)
      ensures id in old(db.services) && fault.None? ==>
        (r == Ok("Service deleted successfully") && db.services == old(db.services) - {id})
    {
      if id !in db.services {
        return Err(NotFound("Service not found"));
      }
      if fault.Some? {
        return Err(BadRequest("Failed to delete service"));
      }
      db.services := db.services - {id};
      r := Ok("Service deleted successfully");
    }

    // -------------------------------------------------------------------
    // Testimonials

    /** Deletes the rows the request does not keep, then updates or creates
        one row per request item, counting each kind. */
    method UpdateTestimonials(items: seq<TestimonialInput>, fault: Option<Fault>) returns (r: Result<Counts>)
      modifies db`testimonials
      ensures fault.Some? ==> r == Err(FaultError(fault.value)) && unchanged(db)
      ensures fault.None? ==> (r.Ok? && r.value == Reconcile(old(db.testimonials), items).0
        && db.testimonials == Reconcile(old(db.testimonials), items).1)
    {
      if fault.Some? {
        return Err(FaultError(fault.value));
      }
      var counts, table := RunReconcile(db.testimonials, items);
      db.testimonials := table;
      r := Ok(counts);
    }

    /** Deletes one testimonial: NotFound when the id is unknown. */
    method DeleteTestimonial(id: Id, fault: Option<Fault>) returns (r: Result<string>)
      modifies db`testimonials
      ensures id !in old(db.testimonials) ==> r == Err(NotFound("Testimonial not found")) && unchanged(db)
      ensures id in old(db.testimonials) && fault.Some? ==>
        (r == Err(BadRequest("Failed to delete testimonial")) && unchanged(db))
      ensures id in old(db.testimonials) && fault.None? ==>
        (r == Ok("Testimonial deleted successfully") && db.testimonials == old(db.testimonials) - {id})
    {
      if id !in db.testimonials {
        return Err(NotFound("Testimonial not found"));
      }
      if fault.Some? {
        return Err(BadRequest("Failed to delete testimonial"));
      }
      db.testimonials := db.testimonials - {id};
      r := Ok("Testimonial deleted successfully");
    }
  
    // -------------------------------------------------------------------
    // Stats

    /** Replaces every stat by the requested ones. */
    method UpdateStats(stats: seq<StatInput>, fault: Option<Fault>) returns (r: Result<string>)
      modifies db`stats
      ensures fault.Some? ==> r == Err(BadRequest("Failed to update stats")) && unchanged(db)
      ensures fault.None? ==> (r == Ok("Stats updated successfully")
        && db.stats == Append(map[], old(db.stats).Keys, Rows(stats, StatRow))
        && Exactly(db.stats, Rows(stats, StatRow)))
    {
      if fault.Some? {
        return Err(BadRequest("Failed to update stats"));
      }
      var rows := CreateEach(map[], db.stats.Keys, Rows(stats, StatRow));
      AppendExactly(db.stats.Keys, Rows(stats, StatRow));
      db.stats := rows;
      r := Ok("Stats updated successfully");
    }

    /** Deletes one stat: NotFound when the id is unknown. */
    method DeleteStat(id: Id, fault: Option<Fault>) returns (r: Result<string>)
      modifies db`stats
      ensures id !in old(db.stats) ==> r == Err(NotFound("Stat not found")) && unchanged(db)
      ensures id in old(db.stats) && fault.Some? ==> (r == Err(BadRequest("Failed to delete stat")) && unchanged(db))
      ensures id in old(db.stats) && fault.None? ==>
        (r == Ok("Stat deleted successfully") && db.stats == old(db.stats) - {id})
    {
      if id !in db.stats {
        return Err(NotFound("Stat not found"));
      }
      if fault.Some? {
        return Err(BadRequest("Failed to delete stat"));
      }
      db.stats := db.stats - {id};
      r := Ok("Stat deleted successfully");
    }

    // -------------------------------------------------------------------
    // Section content

    /** Upserts one section by its key. */
    method UpdateSectionContent(dto: SectionContentInput, fault: Option<Fault>) returns (r: Result<string>)
      requires db.SectionsValid()
      modifies db`sections, db`sectionByKey
      ensures db.SectionsValid()
      ensures fault.Some? ==> r == Err(BadRequest("Failed to update section content")) && unchanged(db)
      ensures fault.None? ==> (r == Ok("Section content updated successfully")
        && (db.sections, db.sectionByKey) == UpsertSection(old(db.sections), old(db.sectionByKey), dto))
    {
      if fault.Some? {
        return Err(BadRequest("Failed to update section content"));
      }
      UpsertSectionIndexed(db.sections, db.sectionByKey, dto);
      UpsertSectionFacts(db.sections, db.sectionByKey, dto);
      db.sections, db.sectionByKey := UpsertSection(db.sections, db.sectionByKey, dto).0,
                                      UpsertSection(db.sections, db.sectionByKey, dto).1;
      r := Ok("Section content updated successfully");
    }

    // -------------------------------------------------------------------
    // Footer

    /** Replaces the footer: every link and section goes, then each requested
        section is created followed by its links. */
    method UpdateFooter(sections: seq<FooterSectionInput>, fault: Option<Fault>) returns (r: Result<string>)
      requires db.FooterValid()
      modifies db`footerSections, db`footerLinks
      ensures db.FooterValid()
      ensures fault.Some? ==> r == Err(BadRequest("Failed to update footer")) && unchanged(db)
      ensures fault.None? ==> (r == Ok("Footer updated successfully")
        && FooterTables(db.footerSections, db.footerLinks)
           == BuildFooter(FooterTables(map[], map[]), old(FooterTables(db.footerSections, db.footerLinks)), sections)
        && (forall k :: k in db.footerSections ==> k !in old(db.footerSections))
        && (forall k :: k in db.footerLinks ==> k !in old(db.footerLinks)))
    {
      if fault.Some? {
        return Err(BadRequest("Failed to update footer"));
      }
      var empty, prior := FooterTables(map[], map[]), FooterTables(db.footerSections, db.footerLinks);
      var g := CreateFooter(empty, prior, sections);
      BuildFooterAttached(empty, prior, sections);
      BuildFooterShape(empty, prior, sections);
      BuildFooterLinksFresh(empty, prior, sections);
      db.footerSections, db.footerLinks := g.sections, g.links;
      r := Ok("Footer updated successfully");
    }

    /** The active footer sections by position, each with its active links by position. */
    method GetFooterContent(fault: Option<Fault>)
      returns (r: Result<(seq<(Id, FooterSection)>, seq<seq<(Id, FooterLink)>>)>)
      ensures fault.Some? ==> r == Err(BadRequest("Failed to fetch footer content"))
      ensures fault.None? ==> (r.Ok? && var (sections, links) := r.value;
        && Listing(sections, Where(db.footerSections, FooterSectionActive))
        && OrderedBy(sections, FooterSectionPosition)
        && |links| == |sections|
        && (forall i :: 0 <= i < |sections| ==>
              Listing(links[i], ActiveLinksOf(db.footerLinks, sections[i].0)) && OrderedBy(links[i], FooterLinkPosition)))
    {
      if fault.Some? {
        return Err(BadRequest("Failed to fetch footer content"));
      }
      var sections, links := ReadFooter(db);
      r := Ok((sections, links));
    }

    // -------------------------------------------------------------------
    // Contact info and social links

    /** Replaces every contact info row by the requested ones. */
    method UpdateContactInfo(infos: seq<ContactInfoInput>, fault: Option<Fault>) returns (r: Result<string>)
      modifies db`contactInfos
      ensures fault.Some? ==> r == Err(BadRequest("Failed to update contact info")) && unchanged(db)
      ensures fault.None? ==> (r == Ok("Contact info updated successfully")
        && db.contactInfos == Append(map[], old(db.contactInfos).Keys, Rows(infos, ContactInfoRow))
        && Exactly(db.contactInfos, Rows(infos, ContactInfoRow)))
    {
      if fault.Some? {
        return Err(BadRequest("Failed to update contact info"));
      }
      var rows := CreateEach(map[], db.contactInfos.Keys, Rows(infos, ContactInfoRow));
      AppendExactly(db.contactInfos.Keys, Rows(infos, ContactInfoRow));
      db.contactInfos := rows;
      r := Ok("Contact info updated successfully");
    }

    /** The active contact info rows by position. */
    method GetContactInfo(fault: Option<Fault>) returns (r: Result<seq<(Id, ContactInfo)>>)
      ensures fault.Some? ==> r == Err(BadRequest("Failed to fetch contact info"))
      ensures fault.None? ==> (r.Ok?
        && Listing(r.value, Where(db.contactInfos, ContactInfoActive)) && OrderedBy(r.value, ContactInfoPosition))
    {
      if fault.Some? {
        return Err(BadRequest("Failed to fetch contact info"));
      }
      var rows := FindMany(Where(db.contactInfos, ContactInfoActive), ContactInfoPosition);
      r := Ok(rows);
    }

    /** Replaces every social link by the requested ones. */
    method UpdateSocialLinks(links: seq<SocialLinkInput>, fault: Option<Fault>) returns (r: Result<string>)
      modifies db`socialLinks
      ensures fault.Some? ==> r == Err(BadRequest("Failed to update social links")) && unchanged(db)
      ensures fault.None? ==> (r == Ok("Social links updated successfully")
        && db.socialLinks == Append(map[], old(db.socialLinks).Keys, Rows(links, SocialLinkRow))
        && Exactly(db.socialLinks, Rows(links, SocialLinkRow)))
    {
      if fault.Some? {
        return Err(BadRequest("Failed to update social links"));
      }
      var rows := CreateEach(map[], db.socialLinks.Keys, Rows(links, SocialLinkRow));
      AppendExactly(db.socialLinks.Keys, Rows(links, SocialLinkRow));
      db.socialLinks := rows;
      r := Ok("Social links updated successfully");
    }

    /** The active social links by position. */
    method GetSocialLinks(fault: Option<Fault>) returns (r: Result<seq<(Id, SocialLink)>>)
      ensures fault.Some? ==> r == Err(BadRequest("Failed to fetch social links"))
      ensures fault.None? ==> (r.Ok?
        && Listing(r.value, Where(db.socialLinks, SocialLinkActive)) && OrderedBy(r.value, SocialLinkPosition))
    {
      if fault.Some? {
        return Err(BadRequest("Failed to fetch social links"));
      }
      var rows := FindMany(Where(db.socialLinks, SocialLinkActive), SocialLinkPosition);
      r := Ok(rows);
    }

    // -------------------------------------------------------------------
    // Page content

    /** Upserts one page by its key and returns the stored row. */
    method UpdatePageContent(dto: PageContentInput, fault: Option<Fault>) returns (r: Result<PageContent>)
      requires db.PagesValid()
      modifies db`pages, db`pageByKey
      ensures db.PagesValid()
      ensures fault.Some? ==> r == Err(BadRequest("Failed to update page content")) && unchanged(db)
      ensures fault.None? ==> (r.Ok?
        && (db.pages, db.pageByKey) == UpsertPage(old(db.pages), old(db.pageByKey), dto)
        && dto.pageKey in db.pageByKey && r.value == db.pages[db.pageByKey[dto.pageKey]])
    {
      if fault.Some? {
        return Err(BadRequest("Failed to update page content"));
      }
      UpsertPageIndexed(db.pages, db.pageByKey, dto);
      UpsertPageFacts(db.pages, db.pageByKey, dto);
      var (pages, byKey) := UpsertPage(db.pages, db.pageByKey, dto);
      db.pages, db.pageByKey := pages, byKey;
      r := Ok(pages[byKey[dto.pageKey]]);
    }

    /** The page with `pageKey`, active or not. */
    method GetPageContent(pageKey: string, fault: Option<Fault>) returns (r: Result<PageContent>)
      requires db.PagesValid()
      ensures fault.Some? ==> r == Err(BadRequest("Failed to fetch page content"))
      ensures fault.None? && pageKey !in db.pageByKey ==> r == Err(NotFound(
        "Page content not found for key: " + pageKey + ". Please ensure the database is properly seeded."))
      ensures r.Ok? <==> fault.None? && pageKey in db.pageByKey
      ensures r.Ok? ==> r.value == db.pages[db.pageByKey[pageKey]] && r.value.pageKey == pageKey
    {
      if fault.Some? {
        return Err(BadRequest("Failed to fetch page content"));
      }
      if pageKey !in db.pageByKey {
        return Err(NotFound("Page content not found for key: " + pageKey + ". Please ensure the database is properly seeded."));
      }
      r := Ok(db.pages[db.pageByKey[pageKey]]);
    }

    // -------------------------------------------------------------------
    // Calls to action

    /** Deletes the calls to action of every page the request names, then
        creates one row per requested call to action. */
    method UpdateCallToActions(ctas: seq<CallToActionInput>, fault: Option<Fault>) returns (r: Result<string>)
      modifies db`ctas
      ensures fault.Some? ==> r == Err(BadRequest("Failed to update call-to-actions")) && unchanged(db)
      ensures fault.None? ==> (r == Ok("Call-to-actions updated successfully")
        && db.ctas == UpdateCtas(old(db.ctas), ctas))
    {
      if fault.Some? {
        return Err(BadRequest("Failed to update call-to-actions"));
      }
      var pageKeys := PageKeysOf(ctas);
      var kept := ClearPages(db.ctas, pageKeys);
      var rows := CreateEach(kept, db.ctas.Keys, Rows(ctas, CtaRow));
      db.ctas := rows;
      r := Ok("Call-to-actions updated successfully");
    }

    /** The active calls to action of one page by position. */
    method GetCallToActions(pageKey: string, fault: Option<Fault>) returns (r: Result<seq<(Id, CallToAction)>>)
      ensures fault.Some? ==> r == Err(BadRequest("Failed to fetch call-to-actions"))
      ensures fault.None? ==> (r.Ok?
        && Listing(r.value, ActiveCtasOf(db.ctas, pageKey)) && OrderedBy(r.value, CtaPosition))
    {
      if fault.Some? {
        return Err(BadRequest("Failed to fetch call-to-actions"));
      }
      var rows := FindMany(ActiveCtasOf(db.ctas, pageKey), CtaPosition);
      r := Ok(rows);
    }

    // -------------------------------------------------------------------
    // Contact submissions

    /** Every submission, newest first. */
    method GetContactSubmissions(fault: Option<Fault>) returns (r: Result<seq<(Id, ContactSubmission)>>)
      ensures fault.Some? ==> r == Err(BadRequest("Failed to fetch contact submissions"))
      ensures fault.None? ==> (r.Ok? && Listing(r.value, db.submissions)
        && (forall i, j :: 0 <= i < j < |r.value| ==> r.value[i].1.createdAt >= r.value[j].1.createdAt))
    {
      if fault.Some? {
        return Err(BadRequest("Failed to fetch contact submissions"));
      }
      var rows := FindMany(db.submissions, SubmissionNewestFirst);
      r := Ok(rows);
    }

    /** Sets the status of one submission to any given string. */
    method UpdateContactSubmissionStatus(id: Id, status: string, fault: Option<Fault>) returns (r: Result<string>)
      modifies db`submissions
      ensures id !in old(db.submissions) ==> r == Err(NotFound("Contact submission not found")) && unchanged(db)
      ensures id in old(db.submissions) && fault.Some? ==>
        (r == Err(BadRequest("Failed to update status")) && unchanged(db))
      ensures id in old(db.submissions) && fault.None? ==> (r == Ok("Status updated successfully")
        && db.submissions == old(db.submissions)[id := old(db.submissions)[id].(status := Some(status))])
    {
      if id !in db.submissions {
        return Err(NotFound("Contact submission not found"));
      }
      if fault.Some? {
        return Err(BadRequest("Failed to update status"));
      }
      db.submissions := db.submissions[id := db.submissions[id].(status := Some(status))];
      r := Ok("Status updated successfully");
    }

    /** Deletes one submission: NotFound when the id is unknown. */
    method DeleteContactSubmission(id: Id, fault: Option<Fault>) returns (r: Result<string>)
      modifies db`submissions
      ensures id !in old(db.submissions) ==> r == Err(NotFound("Contact submission not found")) && unchanged(db)
      ensures id in old(db.submissions) && fault.Some? ==>
        (r == Err(BadRequest("Failed to delete submission")) && unchanged(db))
      ensures id in old(db.submissions) && fault.None? ==>
        (r == Ok("Submission deleted successfully") && db.submissions == old(db.submissions) - {id})
    {
      if id !in db.submissions {
        return Err(NotFound("Contact submission not found"));
      }
      if fault.Some? {
        return Err(BadRequest("Failed to delete submission"));
      }
      db.submissions := db.submissions - {id};
      r := Ok("Submission deleted successfully");
    }
  }
}
