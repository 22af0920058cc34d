/** Reads that more than one service issues in the same shape: nav items with
    their dropdown panel, footer sections with their links, and a page's
    calls to action. */
module Queries {
  import opened Common
  import opened Records
  import opened Store

  /** The active items of dropdown `did`. */
  function ActiveItemsOf(t: map<Id, DropdownItem>, did: Id): (r: map<Id, DropdownItem>)
    ensures forall k :: k in r <==> k in t && t[k].dropdownDataId == did && t[k].isActive
    ensures forall k :: k in r ==> r[k] == t[k]
  {
    map k | k in t && t[k].dropdownDataId == did && t[k].isActive :: t[k]
  }

  /** A dropdown as the nested include returns it: its title and its active
      items by position. */
  datatype DropdownView = DropdownView(title: string, items: seq<(Id, DropdownItem)>)

  /** `v` shows dropdown `did`. */
  ghost predicate Shows(v: DropdownView, dropdowns: map<Id, DropdownData>, items: map<Id, DropdownItem>, did: Id) {
    && did in dropdowns && v.title == dropdowns[did].title
    && Listing(v.items, ActiveItemsOf(items, did)) && OrderedBy(v.items, DropdownItemPosition)
  }

  /** `p` is the `dropdowns` relation of nav item `nid` as the include returns
      it: a list holding the nav item's dropdown, or an empty list. */
  ghost predicate PanelsOf(p: seq<DropdownView>, nid: Id, dropdowns: map<Id, DropdownData>,
                           dropdownOf: map<Id, Id>, items: map<Id, DropdownItem>) {
    if nid in dropdownOf && dropdownOf[nid] in dropdowns then
      |p| == 1 && Shows(p[0], dropdowns, items, dropdownOf[nid])
    else p == []
  }

  /** `navItem.findMany({ where: { isActive: true }, orderBy: { position: 'asc' },
      include: { dropdowns: { include: { items: … } } } })`: the active nav items
      by position, each with its dropdown relation. */
  method ReadNavItems(db: Store) returns (navItems: seq<(Id, NavItem)>, panels: seq<seq<DropdownView>>)
    ensures Listing(navItems, Where(db.navItems, NavItemActive)) && OrderedBy(navItems, NavItemPosition)
    ensures |panels| == |navItems|
    ensures forall i :: 0 <= i < |navItems| ==>
      PanelsOf(panels[i], navItems[i].0, db.dropdowns, db.dropdownOf, db.dropdownItems)
  {
    navItems := FindMany(Where(db.navItems, NavItemActive), NavItemPosition);
    panels := [];
    for i := 0 to |navItems|
      invariant |panels| == i
      invariant forall k :: 0 <= k < i ==>
        PanelsOf(panels[k], navItems[k].0, db.dropdowns, db.dropdownOf, db.dropdownItems)
    {
      var nid := navItems[i].0;
      if nid in db.dropdownOf && db.dropdownOf[nid] in db.dropdowns {
        var did := db.dropdownOf[nid];
        var items := FindMany(ActiveItemsOf(db.dropdownItems, did), DropdownItemPosition);
        panels := panels + [[DropdownView(db.dropdowns[did].title, items)]];
      } else {
        panels := panels + [[]];
      }
    }
  }

  /** The active links of footer section `sid`. */
  function ActiveLinksOf(t: map<Id, FooterLink>, sid: Id): (r: map<Id, FooterLink>)
    ensures forall k :: k in r <==> k in t && t[k].footerSectionId == sid && t[k].isActive
    ensures forall k :: k in r ==> r[k] == t[k]
  {
    map k | k in t && t[k].footerSectionId == sid && t[k].isActive :: t[k]
  }

  /** `footerSection.findMany({ where: { isActive: true }, include: { links: … },
      orderBy: { position: 'asc' } })`: the active sections by position, each
      with its active links by position. */
  method ReadFooter(db: Store) returns (sections: seq<(Id, FooterSection)>, links: seq<seq<(Id, FooterLink)>>)
    ensures Listing(sections, Where(db.footerSections, FooterSectionActive))
    ensures OrderedBy(sections, FooterSectionPosition)
    ensures |links| == |sections|
    ensures forall i :: 0 <= i < |sections| ==>
      Listing(links[i], ActiveLinksOf(db.footerLinks, sections[i].0)) && OrderedBy(links[i], FooterLinkPosition)
  {
    sections := FindMany(Where(db.footerSections, FooterSectionActive), FooterSectionPosition);
    links := [];
    for i := 0 to |sections|
      invariant |links| == i
      invariant forall k :: 0 <= k < i ==>
        Listing(links[k], ActiveLinksOf(db.footerLinks, sections[k].0)) && OrderedBy(links[k], FooterLinkPosition)
    {
      var l := FindMany(ActiveLinksOf(db.footerLinks, sections[i].0), FooterLinkPosition);
      links := links + [l];
    }
  }

  /** The active calls to action of page `pageKey`. */
  function ActiveCtasOf(t: map<Id, CallToAction>, pageKey: string): (r: map<Id, CallToAction>)
    ensures forall k :: k in r <==> k in t && t[k].pageKey == pageKey && t[k].isActive
    ensures forall k :: k in r ==> r[k] == t[k]
  {
    map k | k in t && t[k].pageKey == pageKey && t[k].isActive :: t[k]
  }

  // ---------------------------------------------------------------------
  // The `dropdownData` record both navigation reads build

  /** Nav item `item` with dropdown relation `p` gets an entry: it has a
      dropdown, and, when `needFlag` holds, its `hasDropdown` is set. */
  predicate Qualifies(item: NavItem, p: seq<DropdownView>, needFlag: bool) {
    (!needFlag || item.hasDropdown) && p != []
  }

  /** The record the `forEach` over the nav items builds: an entry under each
      qualifying item's key holding its first dropdown, a later item
      overwriting an earlier one with the same key. */
  function DropdownRecord(navItems: seq<(Id, NavItem)>, panels: seq<seq<DropdownView>>, needFlag: bool)
    : map<string, DropdownView>
    requires |panels| == |navItems|
    decreases |navItems|
  {
    if navItems == [] then map[]
    else
      var n := |navItems| - 1;
      var m := DropdownRecord(navItems[..n], panels[..n], needFlag);
      if Qualifies(navItems[n].1, panels[n], needFlag) then m[navItems[n].1.key := panels[n][0]] else m
  }

  /** The `forEach` loop itself. */
  method BuildDropdownRecord(navItems: seq<(Id, NavItem)>, panels: seq<seq<DropdownView>>, needFlag: bool)
    returns (dd: map<string, DropdownView>)
    requires |panels| == |navItems|
    ensures dd == DropdownRecord(navItems, panels, needFlag)
  {
    dd := map[];
    for i := 0 to |navItems|
      invariant dd == DropdownRecord(navItems[..i], panels[..i], needFlag)
    {
      assert navItems[..i + 1][..i] == navItems[..i] && panels[..i + 1][..i] == panels[..i];
      if Qualifies(navItems[i].1, panels[i], needFlag) {
        dd := dd[navItems[i].1.key := panels[i][0]];
      }
    }
    assert navItems[..|navItems|] == navItems && panels[..|panels|] == panels;
  }

  /** Some item with key `k` qualifies. */
  predicate HasQualifying(navItems: seq<(Id, NavItem)>, panels: seq<seq<DropdownView>>, needFlag: bool, k: string)
    requires |panels| == |navItems|
  {
    exists i :: 0 <= i < |navItems| && navItems[i].1.key == k && Qualifies(navItems[i].1, panels[i], needFlag)
  }

  /** The record has an entry for a key exactly when some item with that key qualifies. */
  lemma {:induction false} DropdownRecordKeys(navItems: seq<(Id, NavItem)>, panels: seq<seq<DropdownView>>, needFlag: bool)
    requires |panels| == |navItems|
    ensures forall k :: k in DropdownRecord(navItems, panels, needFlag) <==> HasQualifying(navItems, panels, needFlag, k)
    decreases |navItems|
  {
    if navItems != [] {
      var n := |navItems| - 1;
      var front, fp := navItems[..n], panels[..n];
      DropdownRecordKeys(front, fp, needFlag);
      var m := DropdownRecord(front, fp, needFlag);
      var r := DropdownRecord(navItems, panels, needFlag);
      assert m.Keys <= r.Keys;
      forall k ensures k in r <==> HasQualifying(navItems, panels, needFlag, k) {
        if k in r {
          if !(Qualifies(navItems[n].1, panels[n], needFlag) && navItems[n].1.key == k) {
            assert HasQualifying(front, fp, needFlag, k);
            var i :| 0 <= i < |front| && front[i].1.key == k && Qualifies(front[i].1, fp[i], needFlag);
            assert navItems[i] == front[i] && panels[i] == fp[i];
          }
        }
        if HasQualifying(navItems, panels, needFlag, k) {
          var i :| 0 <= i < |navItems| && navItems[i].1.key == k && Qualifies(navItems[i].1, panels[i], needFlag);
          if i < n {
            assert front[i] == navItems[i] && fp[i] == panels[i];
            assert HasQualifying(front, fp, needFlag, k);
          }
        }
      }
    }
  }

  /** The entry of a qualifying item that no later item shares a key with is
      that item's first dropdown. */
  lemma {:induction false} DropdownRecordLast(navItems: seq<(Id, NavItem)>, panels: seq<seq<DropdownView>>, needFlag: bool, i: nat)
    requires |panels| == |navItems| && i < |navItems| && Qualifies(navItems[i].1, panels[i], needFlag)
    requires forall j :: i < j < |navItems| ==> navItems[j].1.key != navItems[i].1.key
    ensures var r := DropdownRecord(navItems, panels, needFlag);
      navItems[i].1.key in r && r[navItems[i].1.key] == panels[i][0]
    decreases |navItems|
  {
    var n := |navItems| - 1;
    if i < n {
      var front, fp := navItems[..n], panels[..n];
      assert front[i] == navItems[i] && fp[i] == panels[i];
      forall j | i < j < |front| ensures front[j].1.key != front[i].1.key {
        assert front[j] == navItems[j];
      }
      DropdownRecordLast(front, fp, needFlag, i);
    }
  }

  /** Listed nav items have distinct keys, as the key index is unique. */
  lemma ListedKeysDistinct(navItems: seq<(Id, NavItem)>, items: map<Id, NavItem>, byKey: map<string, Id>)
    requires NavIndexed(items, byKey) && Listing(navItems, Where(items, NavItemActive))
    ensures forall i, j :: 0 <= i < j < |navItems| ==> navItems[i].1.key != navItems[j].1.key
  {
    ListingFacts(navItems, Where(items, NavItemActive));
    forall i, j | 0 <= i < j < |navItems| ensures navItems[i].1.key != navItems[j].1.key {
      assert byKey[items[navItems[i].0].key] == navItems[i].0;
      assert byKey[items[navItems[j].0].key] == navItems[j].0;
    }
  }

  /** `dd` is the `dropdownData` record for the listed nav items: an item has
      an entry exactly when it has a dropdown (and, when `needFlag` holds,
      its `hasDropdown` is set), the entry shows that dropdown, and every
      entry belongs to a listed item. */
  ghost predicate DropdownDataShows(navItems: seq<(Id, NavItem)>, dd: map<string, DropdownView>, needFlag: bool,
                                    dropdowns: map<Id, DropdownData>, dropdownOf: map<Id, Id>, items: map<Id, DropdownItem>) {
    && (forall i :: 0 <= i < |navItems| ==>
          && (navItems[i].1.key in dd <==> ((!needFlag || navItems[i].1.hasDropdown)
                && navItems[i].0 in dropdownOf && dropdownOf[navItems[i].0] in dropdowns))
          && (navItems[i].1.key in dd ==> (navItems[i].0 in dropdownOf
                && Shows(dd[navItems[i].1.key], dropdowns, items, dropdownOf[navItems[i].0]))))
    && (forall k :: k in dd ==> exists i :: 0 <= i < |navItems| && navItems[i].1.key == k)
  }

  /** For listed nav items with distinct keys and their dropdown relations,
      the record the loop builds is their `dropdownData`. */
  lemma DropdownRecordShows(navItems: seq<(Id, NavItem)>, panels: seq<seq<DropdownView>>, needFlag: bool,
                            dropdowns: map<Id, DropdownData>, dropdownOf: map<Id, Id>, items: map<Id, DropdownItem>)
    requires |panels| == |navItems|
    requires forall i, j :: 0 <= i < j < |navItems| ==> navItems[i].1.key != navItems[j].1.key
    requires forall i :: 0 <= i < |navItems| ==> PanelsOf(panels[i], navItems[i].0, dropdowns, dropdownOf, items)
    ensures DropdownDataShows(navItems, DropdownRecord(navItems, panels, needFlag), needFlag, dropdowns, dropdownOf, items)
  {
    DropdownRecordKeys(navItems, panels, needFlag);
    var r := DropdownRecord(navItems, panels, needFlag);
    forall i | 0 <= i < |navItems|
      ensures && (navItems[i].1.key in r <==> ((!needFlag || navItems[i].1.hasDropdown)
                    && navItems[i].0 in dropdownOf && dropdownOf[navItems[i].0] in dropdowns))
              && (navItems[i].1.key in r ==> (navItems[i].0 in dropdownOf
                    && Shows(r[navItems[i].1.key], dropdowns, items, dropdownOf[navItems[i].0])))
    {
      var item := navItems[i].1;
      if item.key in r {
        var i' :| 0 <= i' < |navItems| && navItems[i'].1.key == item.key && Qualifies(navItems[i'].1, panels[i'], needFlag);
        assert i' == i;
        DropdownRecordLast(navItems, panels, needFlag, i);
      } else {
        assert !Qualifies(item, panels[i], needFlag);
      }
    }
    forall k | k in r ensures exists i :: 0 <= i < |navItems| && navItems[i].1.key == k {
      assert HasQualifying(navItems, panels, needFlag, k);
    }
  }

  /** The navigation read both services make: the active nav items by
      position and their `dropdownData` record. */
  method ReadNavigation(db: Store, needFlag: bool) returns (navItems: seq<(Id, NavItem)>, dd: map<string, DropdownView>)
    requires db.NavValid()
    ensures Listing(navItems, Where(db.navItems, NavItemActive)) && OrderedBy(navItems, NavItemPosition)
    ensures DropdownDataShows(navItems, dd, needFlag, db.dropdowns, db.dropdownOf, db.dropdownItems)
  {
    var panels;
    navItems, panels := ReadNavItems(db);
    dd := BuildDropdownRecord(navItems, panels, needFlag);
    ListedKeysDistinct(navItems, db.navItems, db.navByKey);
    DropdownRecordShows(navItems, panels, needFlag, db.dropdowns, db.dropdownOf, db.dropdownItems);
  }

  /** `themeConfig.findFirst({ where: { isActive: true } })`: an active theme,
      or none when there is none. */
  ghost predicate ActiveThemeOf(theme: Option<(Id, ThemeConfig)>, themes: map<Id, ThemeConfig>) {
    && (theme.None? <==> Where(themes, ThemeActive) == map[])
    && (theme.Some? ==> theme.value.0 in themes && themes[theme.value.0] == theme.value.1 && theme.value.1.isActive)
  }

  /** What a navigation read returns. */
  datatype NavigationView = NavigationView(
    navItems: seq<(Id, NavItem)>, dropdownData: map<string, DropdownView>, themeConfig: Option<(Id, ThemeConfig)>)
}
