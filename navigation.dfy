/** The navigation service: the navigation read the site header uses, which
    settles both of its queries and degrades instead of failing, and the
    single nav item delete. */
module Navigation {
  import opened Common
  import opened Records
  import opened Store
  import opened NavUpdate
  import opened Queries

  class NavigationService {
    const db: Store

    constructor (db: Store)
      ensures this.db == db
    {
      this.db := db;
    }

    /** The active nav items by position with the dropdown of every item
        that has one (whatever its `hasDropdown`), and an active theme. Both
        queries are settled, never thrown: a failed nav query gives no items
        and no dropdowns, a failed theme query no theme, and the call itself
        always succeeds. */
    method GetNavigation(navFault: Option<Fault>, themeFault: Option<Fault>) returns (v: NavigationView)
      requires db.NavValid()
      ensures navFault.Some? ==> v.navItems == [] && v.dropdownData == map[]
      ensures navFault.None? ==> (Listing(v.navItems, Where(db.navItems, NavItemActive))
        && OrderedBy(v.navItems, NavItemPosition)
        && DropdownDataShows(v.navItems, v.dropdownData, false, db.dropdowns, db.dropdownOf, db.dropdownItems))
      ensures themeFault.Some? ==> v.themeConfig.None?
      ensures themeFault.None? ==> ActiveThemeOf(v.themeConfig, db.themes)
    {
      var navItems: seq<(Id, NavItem)> := [];
      var dropdownData: map<string, DropdownView> := map[];
      if navFault.None? {
        navItems, dropdownData := ReadNavigation(db, false);
      }
      var theme: Option<(Id, ThemeConfig)> := None;
      if themeFault.None? {
        theme := FindFirst(Where(db.themes, ThemeActive));
      }
      v := NavigationView(navItems, dropdownData, theme);
    }

    /** Deletes one nav item: NotFound when the id is unknown, and that
        NotFound is rethrown; any other failure becomes a BadRequest. */
    method DeleteNavItem(id: Id, fault: Option<Fault>) returns (r: Result<string>)
      requires db.NavValid()
      modifies db`navItems, db`navByKey
      ensures db.NavValid()
      ensures id !in old(db.navItems) ==> r == Err(NotFound("Navigation item not found")) && unchanged(db)
      ensures id in old(db.navItems) && fault.Some? ==>
        (r == Err(BadRequest("Failed to delete navigation item")) && unchanged(db))
      ensures id in old(db.navItems) && fault.None? ==>
        (r == Ok("Navigation item deleted successfully") && TablesOf(db) == RemoveNavItem(old(TablesOf(db)), id))
    {
      if id !in db.navItems {
        return Err(NotFound("Navigation item not found"));
      }
      if fault.Some? {
        return Err(BadRequest("Failed to delete navigation item"));
      }
      RemoveNavItemFacts(TablesOf(db), id);
      db.navItems, db.navByKey := db.navItems - {id}, db.navByKey - {db.navItems[id].key};
      r := Ok("Navigation item deleted successfully");
    }
  }
}
