# fortune-web-backend content services in Dafny

This project models four services of a NestJS/Prisma backend for a marketing
website:

- the admin service, which writes navigation, theme, hero, services,
  testimonials, stats, sections, footer, contact info, social links, page
  content and call-to-actions, and moderates contact submissions;
- the upload service, which validates and stores files and lists, counts and
  deletes them;
- the public service, which serves the same content read-only and accepts
  contact-form submissions;
- the navigation service, which serves the header navigation and deletes nav
  items.

The Prisma database is the class `Store.Store`. It has one `map<Id, Row>`
field per table, plus the unique-key indexes that Prisma enforces:
`navByKey`, `sectionByKey`, `pageByKey`, and `dropdownOf` (nav item to its
dropdown). Its ghost predicates `NavValid`, `ServicesValid`, `SectionsValid`,
`FooterValid` and `PagesValid` state these index invariants, the uniqueness
of service slugs, and the foreign keys of dropdown items and footer links.

Each service is a class holding that store.

- **Writes.** Every write method names the fields it changes in `modifies`.
  It states its whole new state through a specification function:
  `UpsertAll`/`ApplyAll` for navigation, `Reconcile` for testimonials,
  `BuildFooter`, `UpdateCtas`, `UpsertSection`, `UpsertPage`, `UpdateThemes`,
  `UpdateHeroContents`, or `Append` for the replace-all tables. Lemmas then
  state what those functions promise: last write wins, untouched rows stay,
  counts add up, idempotence, and keys stay unique.
- **Reads.** `Store.FindMany` stands for `findMany` with an `orderBy`. Its
  result lists exactly the rows matching the `where`, once each, in key order.
- **Errors.** An error is `Result.Err` of `NotFound`, `BadRequest`,
  `ServerError` (a plain `Error`), or `Unhandled(cause)` (an engine failure
  that reaches the caller unchanged).
- **Inputs.** A failing database call is an `Option<Fault>` parameter. The
  clock, the uuid and the file system are parameters or fields too.

Modules:

- `Common`: optional values, the JavaScript string helpers, fresh ids,
  sorting.
- `Records`: rows, request bodies and the row builders.
- `Store`: the tables, `Append`, `Where`, `FindMany`, `FindFirst` and sums.
- `Queries`: shared reads (navigation with dropdowns, footer with links).
- `NavUpdate`: the navigation transaction.
- `TestimonialSync`: the testimonial reconciliation.
- `ContentUpdate`: the other admin writes.
- `Admin`, `Upload`, `Public`, `Navigation`: the four services.

## Model

| member | source | states |
|---|---|---|
| Common.OrDefault | src/admin/admin.service.ts:69 | a falsy (absent or empty) string gives the default, any other gives itself |
| Common.OrNull | src/admin/admin.service.ts:42 | `x \|\| null`: present exactly when the input is truthy, and then unchanged |
| Common.NotFalse | src/admin/admin.service.ts:45 | `x !== false` holds unless the flag is explicitly false |
| Common.OrFalse | src/admin/admin.service.ts:44 | `x \|\| false` holds only for an explicit true |
| Common.Keep | src/admin/admin.service.ts:124-134 | an update value given replaces the stored one; an absent one keeps it |
| Common.TrimStart | src/admin/admin.service.ts:287-296 | drops exactly a leading run of JavaScript whitespace; the result is a suffix of the input and starts with a non-space |
| Common.TrimEnd | src/admin/admin.service.ts:287-296 | drops exactly a trailing run of whitespace; the result is a prefix of the input and ends with a non-space |
| Common.Trim | src/admin/admin.service.ts:287-296 | the result is no longer than the input and has no whitespace at either end |
| Common.TrimStartOfTrimmed | src/admin/admin.service.ts:287-296 | a string not starting with whitespace is a fixed point of `trimStart` |
| Common.TrimEndOfTrimmed | src/admin/admin.service.ts:287-296 | a string not ending with whitespace is a fixed point of `trimEnd` |
| Common.TrimIdempotent | src/admin/admin.service.ts:287-296 | trimming twice is trimming once |
| Common.TrimEmptyIffAllSpace | src/admin/admin.service.ts:294-296 | `s.trim()` is empty (falsy) exactly when `s` is all whitespace |
| Common.LowerChar | src/public/public.service.ts:167 | maps no character to an upper-case letter and leaves every non-upper-case character alone |
| Common.ToLower | src/public/public.service.ts:167 | same length, lowers each character, and leaves no upper-case letter |
| Common.ToLowerIdempotent | src/public/public.service.ts:167 | lowering twice is lowering once |
| Common.ContainsIffOccurs | src/upload/upload.service.ts:135-139 | `contains: search` holds exactly when the search string occurs at some index of the name |
| Common.FreshId | src/public/public.service.ts:164-175 | a created row gets an id not used by any row it must not collide with |
| Common.InsertBy | src/public/public.service.ts:120-123 | inserting into a sorted list keeps it sorted and adds exactly one element |
| Common.SortBy | src/public/public.service.ts:120-123 | `sort()`: the result is sorted and a permutation of the input |
| Common.LexLeTotal | src/public/public.service.ts:123 | any two strings are comparable by the default sort order |
| Common.LexLeTransitive | src/public/public.service.ts:123 | the default sort order is transitive |
| Common.LexLeIsTotalPreorder | src/public/public.service.ts:123 | the default sort order is a total preorder, so `SortBy` may use it |
| Store.AppendedIdsFresh | src/admin/admin.service.ts:199-226 | the ids given to created rows are pairwise distinct and clash with no existing id |
| Store.AppendContents | src/admin/admin.service.ts:199-226 | creating rows one by one keeps every old row and adds each new row under its own id, and nothing else |
| Store.AppendExactly | src/admin/admin.service.ts:193-226 | after delete-all then create-each, the table holds exactly the requested rows: one row per request entry, under pairwise distinct ids, so repeated entries give repeated rows |
| Store.ExactlyValues | src/admin/admin.service.ts:193-226 | a table holding exactly the requested rows has one row per request entry and no other values |
| Store.ExactlyKeepsCopies | src/admin/admin.service.ts:199-226 | two equal request entries are stored as two rows under different ids |
| Store.AppendOrigin | src/admin/admin.service.ts:193-226 | every row of the recreated table comes from some requested row |
| Store.Added | src/admin/admin.service.ts:669-685 | the rows a write added are those under ids the old table did not have |
| Store.AppendAddsExactly | src/admin/admin.service.ts:662-685 | after keeping some rows and creating others, the added rows are exactly the created ones |
| Store.Where | src/public/public.service.ts:18-23 | a `where` filter keeps exactly the rows that satisfy it, unchanged |
| Store.CreateEach | src/admin/admin.service.ts:199-226 | the create loop produces the table that `Append` specifies |
| Store.AppendStep | src/admin/admin.service.ts:199-226 | one loop step of `create` is one step of `Append` |
| Store.NoRepeats | src/public/public.service.ts:117 | a list with the same multiset as a set repeats no element (`distinct`) |
| Store.ListingFacts | src/public/public.service.ts:25-28 | a `findMany` result shows each matching row exactly once, under its own id |
| Store.ListingLength | src/public/public.service.ts:25-28 | a `findMany` result has as many entries as there are matching rows |
| Store.SortRows | src/public/public.service.ts:25-28 | `orderBy: position asc` returns a permutation ordered by position |
| Store.FindMany | src/public/public.service.ts:25-28 | returns every matching row once, ordered by the given key |
| Store.FindFirst | src/public/public.service.ts:220-222 | `findFirst` gives nothing exactly when no row matches, else a matching row |
| Store.ListDistinct | src/public/public.service.ts:114-118 | `distinct` lists each value of the set exactly once |
| Store.SumOfRemove | src/upload/upload.service.ts:158-160 | a sum over a table is one row's value plus the sum over the others |
| Store.SumOfNonNegative | src/upload/upload.service.ts:158-160 | sizes that are never negative sum to a non-negative total |
| Store.Aggregate | src/upload/upload.service.ts:158-160 | `aggregate _sum` computes the sum of the column over the table |
| Records.NavItemDataDefaults | src/admin/admin.service.ts:39-46 | a nav row takes key, name and position from the request; an absent or empty href is null; hasDropdown holds only if requested; isActive holds unless explicitly false |
| Records.DropdownItemRows | src/admin/admin.service.ts:83-97 | dropdown item rows are numbered from 1 in request order, keep name and href, and belong to the given dropdown |
| Records.HeroContentOverwrites | src/admin/admin.service.ts:165-189 | a hero content update overwrites every content field, so the old content does not matter |
| Records.HeroContentDefaults | src/admin/admin.service.ts:165-189 | an empty hero update writes every hard-coded default text, list and phone number |
| Records.NonEmpty | src/admin/admin.service.ts:294 | keeps only non-empty strings from the list |
| Records.NonEmptyKeeps | src/public/public.service.ts:122 | `filter(Boolean)` keeps a string exactly when it is non-empty and in the list |
| Records.NonEmptyMultiset | src/public/public.service.ts:122 | `filter(Boolean)` keeps every non-empty string with its multiplicity and drops every empty one |
| Records.TrimAll | src/admin/admin.service.ts:294 | trims every entry, keeping the order |
| Records.CleanResults | src/admin/admin.service.ts:293-295 | the results list has only non-empty trimmed entries |
| Records.CleanResultsKeeps | src/admin/admin.service.ts:293-295 | a result is stored exactly when it is the non-empty trim of some entry of the request |
| Records.TestimonialNormalised | src/admin/admin.service.ts:286-300 | testimonial text fields are trimmed; rating defaults to 5; results are cleaned; service is null when blank; isActive holds unless false; isFeatured holds only if true |
| Records.FooterLinkRows | src/admin/admin.service.ts:451-487 | one link row per requested link, all belonging to the new section |
| Records.PageUpdateOfFullRequest | src/admin/admin.service.ts:586-635 | an update that gives every optional page field writes the same row a create would |
| NavUpdate.RequestKeys | src/admin/admin.service.ts:38-53 | the set of keys the request upserts, no more and no fewer |
| NavUpdate.UpsertStep | src/admin/admin.service.ts:48-52 | one nav upsert keeps the tables consistent and does not touch dropdowns |
| NavUpdate.UpsertIndexed | src/admin/admin.service.ts:48-52 | one nav upsert keeps nav keys unique |
| NavUpdate.UpsertStepKeys | src/admin/admin.service.ts:48-52 | an upsert adds its key, keeps every existing key on its own row, and deletes no row |
| NavUpdate.UpsertStepRows | src/admin/admin.service.ts:39-52 | the keyed row gets the request data; rows with other keys are unchanged |
| NavUpdate.UpsertAllIndex | src/admin/admin.service.ts:38-53 | the upsert loop keeps the tables consistent and does not touch dropdowns |
| NavUpdate.UpsertAllKeys | src/admin/admin.service.ts:38-53 | after the loop the keys are the old keys plus the requested ones, and old keys keep their rows |
| NavUpdate.UpsertAllUntouched | src/admin/admin.service.ts:38-53 | a nav item whose key the request does not mention is unchanged |
| NavUpdate.UpsertAllLastWins | src/admin/admin.service.ts:38-53 | when a key occurs several times, the last request entry for it wins |
| NavUpdate.ItemsOf | src/admin/admin.service.ts:71-73 | the dropdown items that belong to one dropdown |
| NavUpdate.WithoutItemsOf | src/admin/admin.service.ts:71-73 | `deleteMany` by dropdown leaves exactly the items of other dropdowns |
| NavUpdate.DropdownReused | src/admin/admin.service.ts:61-73 | an existing dropdown keeps its id, gets the new title and loses all its items |
| NavUpdate.DropdownCreated | src/admin/admin.service.ts:74-81 | a nav item without a dropdown gets a new one with a fresh id and no items |
| NavUpdate.DropdownForConsistent | src/admin/admin.service.ts:61-81 | finding or creating the dropdown keeps the tables consistent |
| NavUpdate.DropdownForItems | src/admin/admin.service.ts:61-81 | afterwards the dropdown has no items and every other dropdown's items are unchanged |
| NavUpdate.DropdownForFacts | src/admin/admin.service.ts:61-81 | the dropdown is the nav item's own, titled as requested; other dropdowns, owners and nav items are unchanged |
| NavUpdate.AppendItemsFacts | src/admin/admin.service.ts:83-97 | creating the items adds exactly the requested rows to the dropdown |
| NavUpdate.AppendItemsOthers | src/admin/admin.service.ts:83-97 | creating the items leaves other dropdowns' items alone |
| NavUpdate.ApplyDropdownShape | src/admin/admin.service.ts:56-100 | one dropdown entry gives the keyed nav item a dropdown with the requested title (or 'Dropdown Title') and touches no other dropdown |
| NavUpdate.ApplyDropdownItemIds | src/admin/admin.service.ts:71-97 | the dropdown's items after the entry are the requested rows under distinct ids, none of which was an item id before the entry's `deleteMany` or earlier in the transaction |
| NavUpdate.ApplyDropdownNoReuse | src/admin/admin.service.ts:71-97 | one entry keeps every surviving item row unchanged and gives no new item an id in use before it or earlier in the transaction |
| NavUpdate.ApplyAllNoReuse | src/admin/admin.service.ts:56-100 | across all entries, surviving items are unchanged and no new item takes an id deleted in the same transaction |
| NavUpdate.ApplyDropdownItems | src/admin/admin.service.ts:71-97 | after the entry, the dropdown holds exactly the requested items, one row each |
| NavUpdate.ApplyDropdownFrame | src/admin/admin.service.ts:56-100 | an entry for another key, an unknown key or no data leaves this nav item's dropdown and items alone |
| NavUpdate.ApplyAllKeeps | src/admin/admin.service.ts:56-100 | the dropdown loop keeps the tables consistent and does not touch nav items |
| NavUpdate.ApplyAllFrame | src/admin/admin.service.ts:56-100 | a nav item no entry names keeps its dropdown and items |
| NavUpdate.ApplyAllLastWins | src/admin/admin.service.ts:56-100 | the last entry for a key decides that item's dropdown title and exactly its items |
| NavUpdate.NavigationKeepsConsistent | src/admin/admin.service.ts:36-101 | the whole navigation transaction keeps the tables consistent |
| NavUpdate.RemoveNavItemFacts | src/admin/admin.service.ts:110-121 | deleting a nav item removes exactly that row and its key, and keeps the rest consistent |
| NavUpdate.UpsertNavItems | src/admin/admin.service.ts:38-53 | the upsert loop computes `UpsertAll` |
| NavUpdate.ApplyDropdowns | src/admin/admin.service.ts:56-100 | the dropdown loop computes `ApplyAll` |
| TestimonialSync.RealIds | src/admin/admin.service.ts:262-266 | the incoming ids: present, non-empty and not starting with `temp-` |
| TestimonialSync.MentionedIds | src/admin/admin.service.ts:262-266 | every id the request mentions |
| TestimonialSync.Kept | src/admin/admin.service.ts:268-276 | after the delete, exactly the stored testimonials whose id is incoming remain, unchanged |
| TestimonialSync.CountHits | src/admin/admin.service.ts:303-316 | the number of updates is at most the number of entries |
| TestimonialSync.FaultError | src/admin/admin.service.ts:342-354 | P2002 gives 'Duplicate testimonial detected', P2025 gives NotFound 'Testimonial not found', and otherwise the error message or 'Failed to update testimonials' |
| TestimonialSync.ApplyTwice | src/admin/admin.service.ts:311-316 | a second update of the same row overwrites the first completely |
| TestimonialSync.CountHitsAgree | src/admin/admin.service.ts:303-316 | the update count depends only on which incoming ids exist |
| TestimonialSync.StepFacts | src/admin/admin.service.ts:302-327 | one entry is either an update of an existing row or a create under a fresh id, and the counts move accordingly |
| TestimonialSync.AgreesTail | src/admin/admin.service.ts:284-328 | the loop invariant survives one entry |
| TestimonialSync.SyncCounts | src/admin/admin.service.ts:284-328 | every entry is counted once as created or updated; updates are the hits; the table grows by the creates |
| TestimonialSync.SyncKeys | src/admin/admin.service.ts:284-328 | the loop deletes nothing and changes no row outside the ids it may name |
| TestimonialSync.SyncCreated | src/admin/admin.service.ts:317-327 | every new row is the data of some entry that was not an update, and the new rows are exactly the created ones in request order: each such entry gets a row of its own |
| TestimonialSync.SyncCreatedRows | src/admin/admin.service.ts:317-327 | the rows the loop adds are numbered one to one with the entries that take the create branch, by the ids the loop gives them |
| TestimonialSync.NewRowsHas | src/admin/admin.service.ts:317-327 | an entry that names no stored row is among the created rows |
| TestimonialSync.SyncUntouched | src/admin/admin.service.ts:284-328 | a row no entry names is unchanged |
| TestimonialSync.SyncLastWins | src/admin/admin.service.ts:311-316 | a row several entries name ends with the last one's data |
| TestimonialSync.DeletedCardinality | src/admin/admin.service.ts:268-276 | deleted plus kept rows make up the old table |
| TestimonialSync.StartAgrees | src/admin/admin.service.ts:256-284 | the loop invariant holds after the delete step |
| TestimonialSync.ReconcileCounts | src/admin/admin.service.ts:254-335 | created plus updated is the number of entries; updated is the number naming a stored row; final size plus deleted equals old size plus created |
| TestimonialSync.KeptSyncCounts | src/admin/admin.service.ts:254-335 | the same counts for any row type |
| TestimonialSync.ReconcileExisting | src/admin/admin.service.ts:254-335 | a stored testimonial survives exactly when its id is incoming, and then holds the last entry's data |
| TestimonialSync.ReconcileCreated | src/admin/admin.service.ts:254-335 | every new testimonial is the normalised data of an entry that was not an update, and the added rows are `Exactly` the created entries' data, one row per entry |
| TestimonialSync.ReconcileCreatesEach | src/admin/admin.service.ts:317-327 | no entry is lost: each entry whose id names no stored row has its data in a row the transaction added |
| TestimonialSync.SyncUnfold | src/admin/admin.service.ts:284-328 | the loop is one step followed by the rest |
| TestimonialSync.StepUpdates | src/admin/admin.service.ts:305-316 | an entry naming an existing row updates it and counts an update |
| TestimonialSync.StepCreates | src/admin/admin.service.ts:317-327 | any other entry creates a row under a fresh id and counts a create |
| TestimonialSync.RunReconcile | src/admin/admin.service.ts:254-335 | the transaction computes `Reconcile` |
| TestimonialSync.RunSync | src/admin/admin.service.ts:284-328 | the upsert loop computes `Sync` |
| ContentUpdate.Rows | src/admin/admin.service.ts:386-409 | one row per request entry, in order |
| ContentUpdate.HeroDashboardRows | src/admin/admin.service.ts:144-155 | dashboards are numbered from 1 in request order and active; title and description are copied; absent stats are empty; the image is null unless given |
| ContentUpdate.ServicesReplaced | src/admin/admin.service.ts:192-235 | with distinct slugs, the new table holds exactly the requested services and slugs stay unique |
| ContentUpdate.ReplacedSlugsUnique | src/admin/admin.service.ts:192-235 | the replaced services table has unique slugs |
| ContentUpdate.CreateServices | src/admin/admin.service.ts:196-226 | the create loop succeeds exactly when the slugs are distinct, and then builds the replaced table |
| ContentUpdate.DistinctExtend | src/admin/admin.service.ts:196-226 | the create loop's invariant (no slug clash so far) survives one service |
| ContentUpdate.RepeatedSlugClashes | src/admin/admin.service.ts:196-226 | a repeated slug gives two rows with the same unique key |
| ContentUpdate.LinksOf | src/admin/admin.service.ts:466-478 | the links of one footer section |
| ContentUpdate.AddSectionShape | src/admin/admin.service.ts:460-478 | adding a section creates it under an id unused now and before the rebuild; its links get ids unused now and before, and old links stay |
| ContentUpdate.AddSectionLinks | src/admin/admin.service.ts:466-478 | the new section holds exactly its requested links |
| ContentUpdate.NewSectionLinks | src/admin/admin.service.ts:466-478 | the links added are exactly the new section's |
| ContentUpdate.AddSectionOthers | src/admin/admin.service.ts:460-478 | other sections' links are unchanged |
| ContentUpdate.CreateFooter | src/admin/admin.service.ts:460-478 | the create loop computes `BuildFooter` |
| ContentUpdate.BuildFooterAttached | src/admin/admin.service.ts:451-487 | every link still belongs to an existing section |
| ContentUpdate.BuildFooterShape | src/admin/admin.service.ts:451-487 | one new section per request entry, under distinct ids that clash neither with the current sections nor with the footer's previous sections |
| ContentUpdate.BuildFooterLinksFresh | src/admin/admin.service.ts:451-487 | the rebuild keeps every current link, and every link it adds has an id the footer's previous links did not use |
| ContentUpdate.BuildFooterKeepsOld | src/admin/admin.service.ts:451-487 | pre-existing sections and their links are unchanged |
| ContentUpdate.BuildFooterSections | src/admin/admin.service.ts:451-487 | each requested section exists with its data and exactly its links |
| ContentUpdate.SectionIdsLength | src/admin/admin.service.ts:451-487 | one id per requested section |
| ContentUpdate.PageKeysOf | src/admin/admin.service.ts:659 | the set of page keys the request mentions |
| ContentUpdate.WithoutPages | src/admin/admin.service.ts:662-666 | `deleteMany` by page key keeps exactly the call-to-actions of other pages |
| ContentUpdate.ClearPages | src/admin/admin.service.ts:662-666 | the delete loop computes `WithoutPages` |
| ContentUpdate.UpdateCtasKeeps | src/admin/admin.service.ts:655-692 | call-to-actions of pages not in the request are kept unchanged; no row of a requested page survives |
| ContentUpdate.UpdateCtasAdds | src/admin/admin.service.ts:669-685 | the added rows are exactly the requested call-to-actions |
| ContentUpdate.UpsertSectionIndexed | src/admin/admin.service.ts:425-448 | the section upsert keeps section keys unique and adds the key |
| ContentUpdate.UpsertSectionFacts | src/admin/admin.service.ts:425-448 | the keyed section is updated in place or created, with the title and active flag requested; other sections are unchanged |
| ContentUpdate.UpsertSectionIdempotent | src/admin/admin.service.ts:425-448 | repeating the same section upsert changes nothing |
| ContentUpdate.UpsertPageIndexed | src/admin/admin.service.ts:586-635 | the page upsert keeps page keys unique and adds the key |
| ContentUpdate.UpsertPageFacts | src/admin/admin.service.ts:586-635 | the keyed page is updated in place or created as requested; other pages are unchanged |
| ContentUpdate.UpsertPageIdempotent | src/admin/admin.service.ts:586-635 | repeating the same page upsert changes nothing |
| ContentUpdate.UpdateThemesFacts | src/admin/admin.service.ts:124-134 | only active themes change: colours are overwritten, logo and name only when given; repeating the update changes nothing |
| ContentUpdate.UpdateHeroContentsFacts | src/admin/admin.service.ts:165-189 | only active hero contents change, all to the same content with defaults for absent fields |
| Queries.ActiveItemsOf | src/public/public.service.ts:209-216 | the included dropdown items: exactly the active ones of that dropdown |
| Queries.ReadNavItems | src/public/public.service.ts:205-218 | active nav items by position, each with its dropdown (at most one) and that dropdown's active items |
| Queries.ActiveLinksOf | src/public/public.service.ts:307-312 | the included footer links: exactly the active ones of that section |
| Queries.ReadFooter | src/public/public.service.ts:305-314 | active sections by position, each with its active links by position |
| Queries.ActiveCtasOf | src/public/public.service.ts:193-196 | the active call-to-actions of one page |
| Queries.BuildDropdownRecord | src/public/public.service.ts:224-232 | the `forEach` loop builds the dropdown record |
| Queries.DropdownRecordKeys | src/public/public.service.ts:224-232 | a key is in the record exactly when some listed item with it qualifies |
| Queries.DropdownRecordLast | src/public/public.service.ts:224-232 | the last qualifying item with a key decides its entry |
| Queries.ListedKeysDistinct | src/public/public.service.ts:205-218 | listed nav items have distinct keys |
| Queries.DropdownRecordShows | src/public/public.service.ts:224-232 | the record shows, for each listed item that qualifies, its dropdown's title and active items, and holds nothing else |
| Queries.ReadNavigation | src/public/public.service.ts:205-232 | active nav items by position and a dropdown entry for exactly the items that qualify |
| Admin.AdminService.UpdateNavigation | src/admin/admin.service.ts:30-108 | on success the tables are the nav upserts followed by the dropdown entries, and every item id present before and after holds the same row, so no deleted item's id is handed out again; any failure changes nothing and gives 'Failed to update navigation' |
| Admin.AdminService.DeleteNavItem | src/admin/admin.service.ts:110-121 | an unknown id gives NotFound and changes nothing; otherwise exactly that nav item is removed, or nothing changes on failure |
| Admin.AdminService.UpdateTheme | src/admin/admin.service.ts:124-134 | the active themes are updated as `UpdateThemes` says; a failure changes nothing |
| Admin.AdminService.UpdateHeroDashboards | src/admin/admin.service.ts:137-163 | the dashboards table is replaced by exactly the requested rows |
| Admin.AdminService.UpdateHeroContent | src/admin/admin.service.ts:165-189 | the active hero contents are overwritten as `UpdateHeroContents` says |
| Admin.AdminService.UpdateServices | src/admin/admin.service.ts:192-235 | succeeds exactly when there is no fault and the slugs are distinct; then the table is exactly the requested services; a failure changes nothing |
| Admin.AdminService.DeleteService | src/admin/admin.service.ts:237-248 | an unknown id gives NotFound; otherwise exactly that service is removed |
| Admin.AdminService.UpdateTestimonials | src/admin/admin.service.ts:250-355 | on success returns the counts and table of `Reconcile`; a fault is mapped by `FaultError` and changes nothing |
| Admin.AdminService.DeleteTestimonial | src/admin/admin.service.ts:357-383 | an unknown id gives NotFound; otherwise exactly that testimonial is removed |
| Admin.AdminService.UpdateStats | src/admin/admin.service.ts:386-409 | the stats table is replaced by exactly the requested rows |
| Admin.AdminService.DeleteStat | src/admin/admin.service.ts:411-422 | an unknown id gives NotFound; otherwise exactly that stat is removed |
| Admin.AdminService.UpdateSectionContent | src/admin/admin.service.ts:425-448 | the section is upserted by key, and section keys stay unique |
| Admin.AdminService.UpdateFooter | src/admin/admin.service.ts:451-487 | the footer is rebuilt from nothing: exactly the requested sections with their links, under ids none of the deleted sections or links had |
| Admin.AdminService.GetFooterContent | src/admin/admin.service.ts:489-506 | active sections by position, each with its active links by position |
| Admin.AdminService.UpdateContactInfo | src/admin/admin.service.ts:509-532 | the contact info table is replaced by exactly the requested rows |
| Admin.AdminService.GetContactInfo | src/admin/admin.service.ts:534-545 | the active contact infos by position |
| Admin.AdminService.UpdateSocialLinks | src/admin/admin.service.ts:548-570 | the social links table is replaced by exactly the requested rows |
| Admin.AdminService.GetSocialLinks | src/admin/admin.service.ts:572-583 | the active social links by position |
| Admin.AdminService.UpdatePageContent | src/admin/admin.service.ts:586-635 | the page is upserted by key and the stored row is returned |
| Admin.AdminService.GetPageContent | src/admin/admin.service.ts:637-652 | the page with that key, active or not; otherwise NotFound with the seeding hint |
| Admin.AdminService.UpdateCallToActions | src/admin/admin.service.ts:655-692 | the requested pages' call-to-actions are replaced as `UpdateCtas` says |
| Admin.AdminService.GetCallToActions | src/admin/admin.service.ts:694-705 | the page's active call-to-actions by position |
| Admin.AdminService.GetContactSubmissions | src/admin/admin.service.ts:707-717 | every submission once, newest first |
| Admin.AdminService.UpdateContactSubmissionStatus | src/admin/admin.service.ts:719-739 | an unknown id gives NotFound; otherwise only that submission's status changes |
| Admin.AdminService.DeleteContactSubmission | src/admin/admin.service.ts:741-760 | an unknown id gives NotFound; otherwise exactly that submission is removed |
| Upload.DropTrailingSlashes | src/upload/upload.service.ts:52 | `path.extname` ignores trailing slashes: the result is a prefix not ending in `/` |
| Upload.AfterLastSlash | src/upload/upload.service.ts:52 | the last path segment: a slash-free suffix preceded by a slash or the start |
| Upload.LastSegment | src/upload/upload.service.ts:52 | the base name has no slash |
| Upload.LastDot | src/upload/upload.service.ts:52 | the position of the last dot, or -1 when there is none |
| Upload.Extname | src/upload/upload.service.ts:52 | the extension is empty, or a dot followed by no slash and no further dot |
| Upload.ExtnameOfPlainName | src/upload/upload.service.ts:52-53 | for a plain name, the extension runs from its last (non-leading) dot |
| Upload.ExtnameOfDotless | src/upload/upload.service.ts:52-53 | a name with no dot after its first character has no extension |
| Upload.GetFileType | src/upload/upload.service.ts:85-90 | `image/` gives image, then `video/` gives video, PDF gives document, and anything else gives other |
| Upload.AllowedMimeClassified | src/upload/upload.service.ts:12-22 | every allowed MIME type is an image, a document or a video |
| Upload.RootedPath | src/upload/upload.service.ts:54-67 | the stored url is the stored path with a leading slash |
| Upload.FileRecordKind | src/upload/upload.service.ts:58-71 | the record of an accepted upload is classed as an image, a document or a video, never other |
| Upload.FileRecordLocation | src/upload/upload.service.ts:52-71 | the filename is the uuid plus the extension, stored under `uploads/` and served at `/uploads/`; the file's metadata is copied |
| Upload.Rejection | src/upload/upload.service.ts:40-50 | a file is accepted exactly when present, at most 10 MB and of an allowed MIME type |
| Upload.MatchingFiles | src/upload/upload.service.ts:130-139 | the files that match every given filter |
| Upload.NoFiltersListAll | src/upload/upload.service.ts:132-133 | no filters, or the type `all`, list every file |
| Upload.KindsWithinTotal | src/upload/upload.service.ts:150-156 | images, documents and videos together never outnumber the files |
| Upload.UploadService.UploadFile | src/upload/upload.service.ts:38-83 | a rejected file gives its BadRequest and changes nothing; otherwise the bytes are written under the record's path and the record is created under a fresh id; failures are rethrown |
| Upload.UploadService.DeleteFile | src/upload/upload.service.ts:92-115 | an unknown id gives 'File not found'; otherwise the record is deleted even when the file could not be unlinked |
| Upload.UploadService.GetFile | src/upload/upload.service.ts:117-127 | the record with that id, or 'File not found' |
| Upload.UploadService.ListFiles | src/upload/upload.service.ts:129-148 | every matching record once, newest first |
| Upload.UploadService.GetFileStats | src/upload/upload.service.ts:150-172 | total and per-kind counts and the size sum, with kinds at most the total |
| Public.MatchingServices | src/public/public.service.ts:18-23 | the active services equal on every filter given |
| Public.ServiceFiltersNarrow | src/public/public.service.ts:18-23 | no filter lists all active services; filters only narrow; an empty category is no filter |
| Public.QuotesOf | src/public/public.service.ts:42-48 | the selected fields of each row, in order |
| Public.QuotesOfListing | src/public/public.service.ts:39-49 | each quote service appears once, ordered by position |
| Public.QuoteCandidates | src/public/public.service.ts:40 | the active services offered on the quote form |
| Public.QuoteCandidatesFiltered | src/public/public.service.ts:40 | the quote filter is `getServices` with only `onQuote` set |
| Public.ActiveWithSlug | src/public/public.service.ts:59-61 | the active services with that slug |
| Public.ActiveWithSlugUnique | src/public/public.service.ts:59-61 | at most one service matches, as slugs are unique |
| Public.Categories | src/public/public.service.ts:114-121 | the categories of active services |
| Public.PageContentAsWritten | src/public/public.service.ts:74-92 | as written: success exactly when the active page exists; every failure is 'Failed to fetch page content' |
| Public.PageContentIntended | src/public/public.service.ts:74-92 | success exactly when an active page with that key exists; a missing page is NotFound; a fault is BadRequest |
| Public.PageContentDiscrepancy | src/public/public.service.ts:74-92 | the two behaviours differ exactly on a missing page without a fault |
| Public.MissingPageIsBadRequest | src/public/public.service.ts:80-91 | for `about` on an empty database, the code gives BadRequest where NotFound was meant |
| Public.MatchingTestimonials | src/public/public.service.ts:132-137 | active testimonials equal on every filter given, with rating at least the one given |
| Public.TakeCount | src/public/public.service.ts:142 | a missing or zero limit takes all; otherwise as many rows as the limit's size, capped by the rows |
| Public.TakeStart | src/public/public.service.ts:142 | the taken window fits in the rows |
| Public.Take | src/public/public.service.ts:142 | `take` returns a contiguous window of the rows |
| Public.TakeListing | src/public/public.service.ts:139-143 | the window is ordered, distinct and drawn from the matches; without a limit it is all of them |
| Public.TakeLeavesOut | src/public/public.service.ts:139-143 | a left-out match sorts after every kept row when the limit is positive, before when it is negative |
| Public.TrimmedOrNull | src/public/public.service.ts:169 | `company?.trim() \|\| null`: null exactly for a missing or blank company, else the non-empty trim |
| Public.SubmissionRow | src/public/public.service.ts:164-175 | a new submission has the default status and the current time |
| Public.MetadataOrNull | src/public/public.service.ts:173 | `metadata \|\| null`: a truthy JSON value is kept, a falsy one (null, false, 0, "") becomes null |
| Public.SubmissionRowNormalised | src/public/public.service.ts:164-175 | text fields are trimmed, the email is lower-case, the company is never empty, the source defaults to 'contact-form', and the metadata is stored exactly when it is truthy, unchanged |
| Public.ToLowerKeepsTrimmed | src/public/public.service.ts:167 | lowering a trimmed email keeps it trimmed |
| Public.EmailNormalIdempotent | src/public/public.service.ts:167 | normalising an email twice is normalising it once |
| Public.TrimmedOrNullIdempotent | src/public/public.service.ts:169 | normalising a company twice is normalising it once |
| Public.NormalRowFixed | src/public/public.service.ts:164-175 | submitting a normal row's fields again stores the same row |
| Public.SubmissionRowIsNormal | src/public/public.service.ts:164-175 | every stored submission is normal |
| Public.SubmissionRowIdempotent | src/public/public.service.ts:164-175 | resubmitting what was stored stores the same row |
| Public.BlankFieldStoredEmpty | src/public/public.service.ts:154-166 | a blank but non-empty name passes validation and is stored empty |
| Public.PublicService.GetServices | src/public/public.service.ts:16-34 | every service matching the filters once, by position |
| Public.PublicService.GetQuoteServices | src/public/public.service.ts:36-55 | each quote-form service once, with the selected fields, by position |
| Public.PublicService.GetServiceBySlug | src/public/public.service.ts:57-72 | the one active service with that slug, or NotFound; a fault is BadRequest |
| Public.PublicService.GetPageContent | src/public/public.service.ts:74-92 | follows the corrected behaviour `PageContentIntended` |
| Public.PublicService.GetSectionContent | src/public/public.service.ts:94-111 | the active section with that key, or NotFound; a fault is BadRequest |
| Public.PublicService.GetServiceCategories | src/public/public.service.ts:112-129 | the non-empty categories of active services, each once, sorted |
| Public.PublicService.GetTestimonials | src/public/public.service.ts:130-149 | matching testimonials by position, cut to the limit from the front (or the back for a negative limit) |
| Public.PublicService.SubmitContact | src/public/public.service.ts:151-189 | a missing field gives BadRequest; otherwise exactly one normalised submission (falsy metadata stored as null) is added under a fresh id |
| Public.PublicService.GetCallToActions | src/public/public.service.ts:191-202 | the page's active call-to-actions by position |
| Public.PublicService.GetNavigation | src/public/public.service.ts:204-242 | active nav items by position, dropdown entries only for items flagged `hasDropdown`, and an active theme; faults propagate |
| Public.PublicService.GetHero | src/public/public.service.ts:244-261 | active dashboards by position and an active hero content, if any |
| Public.PublicService.GetStats | src/public/public.service.ts:263-274 | the active stats by position |
| Public.PublicService.GetContactInfo | src/public/public.service.ts:276-287 | the active contact infos by position |
| Public.PublicService.GetSocialLinks | src/public/public.service.ts:289-300 | the active social links by position; a fault is a plain server error |
| Public.PublicService.GetFooter | src/public/public.service.ts:302-336 | active sections with their links, contact info and social links, each by position |
| Navigation.NavigationService.GetNavigation | src/navigation/navigation.service.ts:9-58 | never fails: a failed nav query gives no items and no dropdowns, and a failed theme query no theme; dropdowns are shown for every item that has one |
| Navigation.NavigationService.DeleteNavItem | src/navigation/navigation.service.ts:60-85 | an unknown id gives NotFound; otherwise exactly that nav item is removed |

## Findings

| source | as written | input that shows it | evidently intended | confidence | as-written member | corrected member |
|---|---|---|---|---|---|---|
| src/public/public.service.ts:74-92 | the NotFound thrown for a missing page is caught by the method's own `catch`, which turns every error into BadRequest 'Failed to fetch page content' | pageKey `about` with no such page and no database fault | NotFound 'Page content not found for: about', as in `getSectionContent` and `getServiceBySlug`, which rethrow NotFound | high, not executed | Public.PageContentAsWritten | Public.PageContentIntended |

`Public.PageContentDiscrepancy` and `Public.MissingPageIsBadRequest` exhibit
the difference. `Public.PublicService.GetPageContent` uses the corrected
definition.

## Left out

- Public.PublicService.GetPageContent: it models the corrected behaviour from Findings, not the BadRequest the code gives for a missing page.
- Admin.AdminService.DeleteNavItem: the database's cascade from a nav item to its dropdown and items is not modelled, because the schema is not part of this model. The dropdown rows remain, and later fresh ids avoid their owner ids.
- Navigation.NavigationService.DeleteNavItem: the same cascade is not modelled, for the same reason.
- Navigation.NavigationService.GetNavigation: the outer `catch` ('Failed to fetch navigation data') is not modelled. `allSettled` never rejects, and the mapping code cannot throw on the modelled rows.
- A failing database call is an `Option<Fault>` parameter with a single fault per operation. Reads that precede a write inside one transaction are assumed to succeed, and so are the lookups before a delete. Which statement failed is not modelled, only the outcome.
- Logging (`Logger`, `console.log`) is left out; it has no effect on results.
- The file system, `uuidv4()` and the clock are parameters (`writeFault`, `unlinkFails`, `uuid`, `now`). The disk is a map from path to bytes. `ensureUploadDir` is not modelled, because the directory it creates is not observable in the model.
- Upload.Extname: only POSIX `path.extname` and `path.join` are modelled. Windows separators and drive letters are left out.
- Upload.MatchingFiles: Prisma's `contains` is modelled as case-sensitive, Prisma's default mode.
- Upload.UploadService.GetFileStats: the size sum is an unbounded integer. Prisma's integer width is not modelled.
- Common.LexLe: JavaScript's default `sort()` compares UTF-16 code units, and the model compares code points. They agree outside the astral planes.
- Common.ToLower: only ASCII letters are lowered. Unicode case mapping is left out.
- Common.IsJsSpace: JavaScript `trim()` whitespace is modelled by its code points. No Unicode normalisation is done.
- Store.FindMany: Prisma leaves the order among rows with equal keys to the database, so the model promises only key order.
- Request bodies are assumed to have passed DTO validation. Required strings are present, and a JSON `null` for an optional field is treated as absent.
- Records: the `position` fields of the nav item, dropdown item, service, testimonial, stat, footer section, footer link, contact info, social link and call-to-action requests, and the testimonial `rating`, are integers in the model. Their `@IsNumber()` validators also accept a fraction such as 1.5, which the Int columns cannot store; such a request is not modelled (it would fail at the database, the `fault` path).
- Common.FreshId: a new id avoids the rows present at the call and the ids the same operation has already seen, not every id the database ever issued. An id freed by an earlier delete may come back from a later call, for example SubmitContact after DeleteContactSubmission, or UploadFile after DeleteFile.
- JSON values: a number is a real, so NaN and the infinities, which JSON cannot carry, are not modelled.
- Records.TestimonialData: the testimonial row's `category` is never written by the admin service. It stays null, so the public category filter only matches rows created elsewhere.
- Public.Take: a negative `take` returns the last rows of the ordering, in that ordering.
- Admin.AdminService.UpdateServices: any service field that the validation pipe would strip is not modelled. The rows are built as the service code builds them.
- Authentication, controllers, the seed script and the hero, auth and consultation modules are not part of this model.
