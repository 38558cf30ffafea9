# Artifact Hub: a verified model of the catalog, filter and write logic

Artifact Hub is a React client over a hosted backend. Teachers use it to share Claude
artifacts with each other. This project models the part of the client that is logic rather than
presentation:

- the hosted backend as an in-memory database (`Store.Database`). It holds the tables
  `artifacts`, `artifact_subjects`, `artifact_key_stages`, `votes` and `favorites`, the
  screenshot bucket, and a ghost log of every write request issued. A request the backend
  rejects is named in a `failing` set (or a `fails` flag) and changes nothing;
- the catalog the pages read: rows joined with their tags, newest first, enriched with vote and
  favourite counts and the viewer's flags (`Catalog`);
- the home page's filter and sort engine, stated as one function (`FilterEngine.Visible`). It is
  computed stage by stage by `HomePage.HomePage.HandleFiltersChange`;
- the home page's vote and favourite toggles and its delete cascade (`HomePage`);
- the search and filter bar's state and handlers (`FilterBar`);
- the submit and edit forms: URL check, toggles, button enablement, field-to-column mapping and
  their write sequences, each of which stops at the first error it checks (`Forms`,
  `SubmitArtifact`, `EditArtifact`);
- the landing page: the top six artifacts ranked by votes, the carousel, the statistics, subject
  colours and the typewriter headline (`LandingPage`);
- the profile page: the user's own artifacts, the totals, the description preview and the
  profile's delete cascade, which also removes favourites (`MyProfile`);
- the fixed vocabularies of eighteen subjects and four key stages (`Vocabulary`).

`Array.prototype.sort`, which is stable, is modelled by the stable insertion sort
`Sorting.Sort` over a comparator. Its permutation, sortedness and stability are proved once
and used by every page. `String.prototype.localeCompare` is an abstract collation
`localeLe`; the lemmas that need it ask only that it be a total preorder. `toLowerCase`
is an ASCII case fold (`Text.Lower`).

Components follow the source's form. Handlers that update component state are methods of a
class with the state as fields. Handlers that issue requests are methods that change the
`Database`, with `modifies` clauses. Each of them is proved against a pure function of the old
state (`HomeCascade`, `ProfileCascade`, `LoadCatalog`, `Visible`, `MyArtifacts`,
`TopArtifacts`), and the lemmas say what those functions mean.

## Model

| member | source | states |
|---|---|---|
| Vocabulary.SubjectsListed | src/supabaseClient.js:9-28 | every subject is offered by the pickers, eighteen in all |
| Vocabulary.KeyStagesListed | src/supabaseClient.js:31 | every key stage is offered exactly once, four in all |
| Vocabulary.SubjectNameInjective | src/supabaseClient.js:9-28 | distinct subjects have distinct stored names, so comparing names compares subjects |
| Vocabulary.SubjectName | src/supabaseClient.js:9-28 | every subject is stored under a non-empty spelling |
| Vocabulary.KeyStageName | src/supabaseClient.js:31 | every key stage is stored under a three-character spelling |
| Vocabulary.KeyStageNameInjective | src/supabaseClient.js:31 | distinct key stages have distinct stored names |
| Optional.NullIfEmpty | src/components/SubmitArtifact.jsx:53-54 | `s \|\| null` is null exactly for the empty string and otherwise the string itself |
| Optional.OrEmpty | src/components/EditArtifactModal.jsx:22-23 | `v \|\| ''` is the empty string for null and otherwise the value |
| Optional.StoredValueRoundTrip | src/components/EditArtifactModal.jsx:22-23 | loading a column into a form field and saving it gives the column back, except that "" becomes null |
| Optional.FormValueRoundTrip | src/components/SubmitArtifact.jsx:53-54 | saving a form field and loading it again gives the field back |
| Text.Lower | src/components/HomePage.jsx:155-159 | case folding keeps the length of the string |
| Text.Includes | src/components/HomePage.jsx:157-159 | a string includes only queries no longer than itself |
| Text.Substring0 | src/components/LandingPage.jsx:37-40 | `substring(0, k)` is a prefix of the string whose length is `k` clamped into `[0, \|s\|]` |
| Text.IncludesIffOccurs | src/components/HomePage.jsx:154-161 | `includes` holds exactly when the query occurs at some index |
| Text.LowerIdempotent | src/components/HomePage.jsx:155-160 | folding case twice is folding it once |
| Text.IncludesEmpty | src/components/HomePage.jsx:154 | every string includes the empty string |
| Lists.Toggle | src/components/SearchFilterBar.jsx:19-21 | after a toggle the value is selected exactly when it was not before |
| Lists.ToggleMembership | src/components/SearchFilterBar.jsx:19-21 | a toggle flips membership of the toggled value and keeps every other value's membership |
| Lists.ToggleAbsentAppends | src/components/SearchFilterBar.jsx:21 | toggling an absent value appends it at the end |
| Lists.TogglePresentRemovesAll | src/components/SearchFilterBar.jsx:20 | toggling a present value removes every occurrence of it and keeps the order of the rest |
| Lists.ToggleKeepsNoDup | src/components/SearchFilterBar.jsx:18-32 | a toggle keeps a duplicate-free selection duplicate-free |
| Lists.ToggleTwiceAbsent | src/components/SearchFilterBar.jsx:18-24 | toggling an absent value twice gives back the original list exactly |
| Lists.ToggleTwicePresent | src/components/SearchFilterBar.jsx:18-24 | toggling a present value twice in a duplicate-free list gives back the same values, each as often |
| Lists.FilterMembership | src/components/HomePage.jsx:150 | an element is kept exactly when it was in the list and satisfies the predicate |
| Lists.FilterMultiplicity | src/components/HomePage.jsx:150 | `filter` keeps each satisfying element as often as it occurred and drops the others |
| Lists.FilterKeepsAll | src/components/HomePage.jsx:146-188 | a predicate true of every element keeps the list unchanged |
| Lists.FilterFilter | src/components/HomePage.jsx:146-179 | two filters in sequence are one filter by the conjunction |
| Lists.FilterIsSubsequence | src/components/HomePage.jsx:146-179 | the result of `filter` is a subsequence of its input |
| Lists.Distinct | src/components/LandingPage.jsx:118 | the values of a JavaScript `Set` built from a list: no duplicates and exactly the list's members |
| Lists.DistinctSize | src/components/LandingPage.jsx:118-122 | the size of that `Set` is the number of distinct values of the list |
| Lists.DistinctShorter | src/components/LandingPage.jsx:118-122 | a `Set` is never larger than the list it was built from |
| Sorting.SortIsPermutation | src/components/HomePage.jsx:183-185 | `sort` returns a permutation of its input |
| Sorting.SortIsSorted | src/components/HomePage.jsx:183-185 | under a total preorder the result is sorted |
| Sorting.SortIsStable | src/components/HomePage.jsx:183-185 | tied elements keep their input order: the sort is stable |
| Store.ApplyUpdate | src/components/EditArtifactModal.jsx:61-70 | an update keeps the row's id, owner, creation time and `votes` column |
| Store.UpdateRows | src/components/EditArtifactModal.jsx:61-70 | `update(...).eq('id', id)` writes the five edited columns of the rows with that id, keeps their other columns and leaves every other row as it was |
| Store.ValuesForLinksTo | src/components/SubmitArtifact.jsx:64-85 | the rows of a batch insert link their artifact to exactly the inserted values, in order, and link no other artifact |
| Store.ValuesForDropFor | src/components/HomePage.jsx:209-211 | a delete by artifact id leaves that artifact no links and every other artifact its links |
| Store.DropLinkMultiplicity | src/components/HomePage.jsx:98-102 | a delete by artifact and user removes every such row and keeps every other row as often as before |
| Store.CountForDropLink | src/components/HomePage.jsx:38-42 | that delete lowers the artifact's count by the number of rows removed |
| Store.DropLinkUndoesAppend | src/components/HomePage.jsx:97-110 | deleting a row just inserted, with no equal row before, restores the table |
| Store.DropArtifactMembership | src/components/HomePage.jsx:213-216 | a row survives the delete exactly when it has another id |
| Store.DropForMembership | src/components/HomePage.jsx:209-211 | a link row survives the delete exactly when it refers to another artifact |
| Store.ValuesForMembership | src/components/HomePage.jsx:29-30 | a value is linked to an artifact exactly when the table holds that row |
| Store.Database.DeleteArtifact | src/components/HomePage.jsx:213-218 | the artifact row is deleted unless the request is rejected; the error is reported |
| Store.Database.DeleteSubjectsOf | src/components/HomePage.jsx:209 | the artifact's subject rows are deleted unless the request is rejected |
| Store.Database.DeleteKeyStagesOf | src/components/HomePage.jsx:210 | the artifact's key-stage rows are deleted unless the request is rejected |
| Store.Database.DeleteVotesOf | src/components/HomePage.jsx:211 | the artifact's vote rows are deleted unless the request is rejected |
| Store.Database.DeleteFavoritesOf | src/components/MyProfile.jsx:63 | the artifact's favourite rows are deleted unless the request is rejected |
| Store.Database.DeleteVote | src/components/HomePage.jsx:97-102 | every `(artifact, user)` vote row is deleted unless the request is rejected |
| Store.Database.DeleteFavorite | src/components/HomePage.jsx:123-128 | every `(artifact, user)` favourite row is deleted unless the request is rejected |
| Store.Database.InsertVote | src/components/HomePage.jsx:103-109 | one vote row is appended unless the request is rejected |
| Store.Database.InsertFavorite | src/components/HomePage.jsx:129-135 | one favourite row is appended unless the request is rejected |
| Store.Database.InsertSubjects | src/components/SubmitArtifact.jsx:64-73 | a batch insert appends all its subject rows or, when rejected, none |
| Store.Database.InsertKeyStages | src/components/SubmitArtifact.jsx:76-85 | a batch insert appends all its key-stage rows or, when rejected, none |
| Store.Database.InsertArtifact | src/components/SubmitArtifact.jsx:48-61 | an accepted insert gives the row the next id and returns it; a rejected one returns nothing and changes nothing |
| Store.Database.UpdateArtifact | src/components/EditArtifactModal.jsx:61-72 | an accepted update edits the rows with the id; a rejected one changes nothing |
| Store.Database.UploadScreenshot | src/components/SubmitArtifact.jsx:36-45 | an accepted upload stores the file under its public URL |
| Catalog.Enrich | src/components/HomePage.jsx:36-80 | each catalog record spreads the row it was built from (`...artifact`); its derived fields are stated by `Catalog.EnrichFields` |
| Catalog.SingleMatch | src/components/HomePage.jsx:47-62 | `.single()` finds the user's vote or favourite only when such a row exists and is the only one |
| Catalog.LoadCatalog | src/components/HomePage.jsx:25-82 | one record per artifact row; order and contents are stated by `Catalog.LoadCatalogOrder` |
| Catalog.ToListed | src/components/LandingPage.jsx:84-89 | each landing or profile record spreads the row it was built from (`...artifact`, also MyProfile.jsx:40-43); the top-artifact and profile lemmas state its tags and vote count |
| Catalog.SumVotes | src/components/LandingPage.jsx:906 | the vote total (also `MyProfile.jsx:174`) is zero exactly when no listed artifact has a vote |
| Catalog.EnrichFields | src/components/HomePage.jsx:36-80 | vote and favourite counts are row counts (0 when there are none); without a user nothing is voted, favourited or owned; `isOwner` is equality of user ids; with at most one row per user, the flags say whether the user's row exists |
| Catalog.NewerOrSameIsTotalPreorder | src/components/HomePage.jsx:32 | ordering by creation time, newest first, is a total preorder |
| Catalog.LoadCatalogOrder | src/components/HomePage.jsx:25-32 | the catalog holds every artifact row once, newest first, each enriched from the tables |
| Catalog.SumVotesPermutation | src/components/LandingPage.jsx:906 | the vote total does not depend on the order of the records |
| Catalog.ListAllPermutation | src/components/MyProfile.jsx:33-45 | listing permuted rows gives permuted records |
| FilterEngine.MatchesSearch | src/components/HomePage.jsx:154-161 | an empty query matches every artifact, since every string includes the empty one |
| FilterEngine.Narrowed | src/components/HomePage.jsx:146-179 | the four stages in the source's order amount to one filter: exactly the artifacts every active stage admits, in catalog order |
| FilterEngine.StagesAreOneFilter | src/components/HomePage.jsx:146-179 | the same equation, proved stage by stage: each stage narrows the filter of the stages before it by its own test |
| FilterEngine.Ordered | src/components/HomePage.jsx:181-188 | every sort mode, and any unknown one, only reorders: each artifact is kept as often as before |
| FilterEngine.Visible | src/components/HomePage.jsx:145-191 | the list on screen holds each admitted artifact as often as the catalog does, whatever the sort |
| FilterEngine.VisibleIsAdmittedPermutation | src/components/HomePage.jsx:145-191 | whatever the sort mode, the screen holds exactly the admitted artifacts, each as often as in the catalog |
| FilterEngine.DefaultSpecShowsAll | src/components/HomePage.jsx:146-188 | tab "All" with no search, no facets and newest order shows the catalog unchanged |
| FilterEngine.DefaultSpecFavorites | src/components/HomePage.jsx:149-151 | tab "Favorites" with the default spec shows exactly the favourited artifacts, in catalog order |
| FilterEngine.NewestKeepsCatalogOrder | src/components/HomePage.jsx:186-188 | "newest" or an unknown mode gives a subsequence of the catalog in its order holding exactly the admitted artifacts |
| FilterEngine.MoreOrEqualVotesIsTotalPreorder | src/components/HomePage.jsx:183 | the vote comparator is a total preorder |
| FilterEngine.MostVotedOrder | src/components/HomePage.jsx:182-183 | "most_voted" gives a permutation of the filtered list, votes non-increasing, equal counts in catalog order |
| FilterEngine.TitleOrderIsTotalPreorder | src/components/HomePage.jsx:185 | ordering by title inherits a total preorder from the collation |
| FilterEngine.AlphabeticalOrder | src/components/HomePage.jsx:184-185 | "alphabetical" gives a permutation of the filtered list with titles in collation order |
| FilterEngine.SearchIsCaseInsensitiveSubstring | src/components/HomePage.jsx:154-161 | an artifact matches iff the folded query occurs in the folded title, description or first prompt; the query's case does not matter |
| FilterEngine.UntaggedExcludedByFacet | src/components/HomePage.jsx:164-179 | an artifact without tags of a kind never survives a non-empty facet of that kind |
| FilterEngine.MoreSubjectsShowMore | src/components/HomePage.jsx:164-170 | within a facet the selection is a disjunction: selecting one more subject hides nothing |
| FilterEngine.KeyStagesNarrowSubjects | src/components/HomePage.jsx:164-179 | across facets the selections are a conjunction: key stages only ever hide artifacts |
| HomePage.Toggled | src/components/HomePage.jsx:93-143 | after a toggle the user's row is present exactly when it was shown as off: the delete removes every such row, the insert adds one |
| HomePage.HomeCascade | src/components/HomePage.jsx:208-218 | the home page's delete cascade never touches favourites and never adds a row to any table |
| HomePage.HomePage.constructor | src/components/HomePage.jsx:12-17 | the page starts with empty lists on the "All" tab |
| HomePage.HomePage.HandleFiltersChange | src/components/HomePage.jsx:145-191 | the list on screen is the filtered and sorted catalog |
| HomePage.HomePage.FetchArtifacts | src/components/HomePage.jsx:19-91 | the catalog is reloaded from the tables and shown with the default spec |
| HomePage.HomePage.SetShowFavoritesOnly | src/components/HomePage.jsx:194-201 | a change of tab re-applies the default spec; no change leaves the list as it was |
| HomePage.HomePage.HandleVote | src/components/HomePage.jsx:93-117 | without a user nothing happens; otherwise the user's vote rows are deleted when voted and one is inserted when not, then the catalog is reloaded |
| HomePage.HomePage.HandleFavorite | src/components/HomePage.jsx:119-143 | the same toggle on favourites |
| HomePage.HomePage.DeleteCascade | src/components/HomePage.jsx:208-218 | subject, key-stage and vote rows, then the artifact row, are deleted in that order; favourites are not touched |
| HomePage.HomePage.HandleDelete | src/components/HomePage.jsx:203-226 | a refused confirmation changes nothing; otherwise the cascade runs and the catalog is reloaded only when the artifact row was deleted |
| HomePage.ToggleFlips | src/components/HomePage.jsx:93-143 | from a consistent state a toggle flips the shown flag, keeps the state consistent and moves the count by one |
| HomePage.ToggleTwiceRestores | src/components/HomePage.jsx:93-143 | two toggles from a consistent state restore the flag and the count |
| HomePage.HomeCascadeEffect | src/components/HomePage.jsx:203-226 | an accepted cascade leaves no artifact row, tag or vote of the id, other artifacts' rows as they were, and favourites unchanged |
| FilterBar.SearchFilterBar.constructor | src/components/SearchFilterBar.jsx:5-8 | the bar starts with the default spec and duplicate-free selections |
| FilterBar.SearchFilterBar.HasActiveFilters | src/components/SearchFilterBar.jsx:57 | a filter is active exactly when the state differs from the default spec |
| FilterBar.SearchFilterBar.HandleSearchChange | src/components/SearchFilterBar.jsx:12-16 | the search text is stored and the spec with it, and only it, changed is emitted |
| FilterBar.SearchFilterBar.HandleSubjectToggle | src/components/SearchFilterBar.jsx:18-24 | the subject is toggled, selections stay duplicate-free and the new spec is emitted |
| FilterBar.SearchFilterBar.HandleKeyStageToggle | src/components/SearchFilterBar.jsx:26-32 | the key stage is toggled, selections stay duplicate-free and the new spec is emitted |
| FilterBar.SearchFilterBar.HandleSortChange | src/components/SearchFilterBar.jsx:34-38 | the sort mode is stored and the spec with it changed is emitted |
| FilterBar.SearchFilterBar.ClearAllFilters | src/components/SearchFilterBar.jsx:49-55 | the state and the emitted spec are ('', [], [], 'newest'); no filter is active |
| Forms.ToggleSubject | src/components/SubmitArtifact.jsx:97-104 | the form's subject toggle flips one subject and leaves every other field and subject as it was |
| Forms.ToggleKeyStage | src/components/EditArtifactModal.jsx:128-135 | the form's key-stage toggle flips one key stage and leaves everything else as it was |
| Forms.UpdateFrom | src/components/EditArtifactModal.jsx:63-69 | title, URL and screenshot pass through; an empty description or first prompt becomes null, and nothing else does |
| Forms.NewRow | src/components/SubmitArtifact.jsx:50-57 | the inserted row has `votes` 0, the uploaded screenshot's URL, the form's title and URL, and null exactly for empty optional fields |
| Forms.InitForm | src/components/EditArtifactModal.jsx:17-28 | tag lists default to empty; the optional columns load so that saving them back gives the column, with "" as null |
| Forms.UpToFailure | src/components/SubmitArtifact.jsx:40-84 | the issued requests are the plan up to and including the first one whose error stops it; the plan completes iff none does |
| Forms.TagCalls | src/components/SubmitArtifact.jsx:64-85 | a tag insert is planned exactly for a non-empty selection, and no other request is |
| Forms.TagCallsOutcome | src/components/SubmitArtifact.jsx:63-85 | a rejected subject insert is the last request issued; otherwise every planned insert is issued, and the inserts that went through are exactly the planned, accepted ones |
| Forms.InsertTags | src/components/SubmitArtifact.jsx:63-85 | subject rows then key-stage rows are inserted for the artifact, each skipped when empty; a rejected subject insert stops the key-stage insert |
| Forms.UrlExamplesAccepted | src/components/EditArtifactModal.jsx:36-39 | a URL of each accepted shape passes the check |
| Forms.UrlExamplesRejected | src/components/SubmitArtifact.jsx:24-27 | a chat URL, a plain http URL and the empty string fail it |
| Forms.AcceptedUrl | src/components/SubmitArtifact.jsx:24-27 | an accepted URL is an https link on a `claude.` host, so an empty or plain-http URL never passes (the same check is at EditArtifactModal.jsx:36-39) |
| Forms.ButtonEnabled | src/components/SubmitArtifact.jsx:291 | the button is enabled exactly when the form is not loading and the hint is not shown (the same condition is at EditArtifactModal.jsx:457) |
| Forms.HintShown | src/components/SubmitArtifact.jsx:302 | the hint shows exactly while no subject or no key stage is ticked |
| Forms.UntouchedEditRoundTrip | src/components/EditArtifactModal.jsx:17-72 | saving an untouched edit form without a new screenshot writes the row back, with "" as null |
| Forms.TagsOfNewArtifact | src/components/SubmitArtifact.jsx:63-85 | inserting the tag rows of a fresh id gives it exactly the selection and every other artifact its old tags |
| Forms.TagsReplaced | src/components/EditArtifactModal.jsx:74-107 | delete-then-insert gives the artifact exactly the selection and every other artifact its old tags |
| Forms.TagsAddedWhenDeleteRejected | src/components/EditArtifactModal.jsx:75-95 | a rejected delete followed by an accepted insert appends the selection to the old tags |
| SubmitArtifact.WriteRows | src/components/SubmitArtifact.jsx:47-85 | the artifact row gets the next id, the tag rows point at it, and a rejected artifact insert writes no tags |
| SubmitArtifact.HandleSubmit | src/components/SubmitArtifact.jsx:17-95 | for a form whose `required` title and URL are filled in (lines 139 and 150, `Forms.Submittable`): a bad URL or missing screenshot writes nothing and gives its message; each later step runs only if the previous one was accepted, and earlier writes stay |
| SubmitArtifact.AcceptedSubmitTags | src/components/SubmitArtifact.jsx:63-85 | when both tag inserts are accepted, the submit ends in success and the tables `HandleSubmit` promises give the new artifact exactly the selected tags, leaving others' tags alone |
| EditArtifact.ReplaceTags | src/components/EditArtifactModal.jsx:74-107 | both deletes are issued with errors ignored, then the tag inserts run |
| EditArtifact.Save | src/components/EditArtifactModal.jsx:60-107 | a rejected update stops the save before any tag row is touched; otherwise the columns are updated and the tags replaced |
| EditArtifact.HandleSubmit | src/components/EditArtifactModal.jsx:30-117 | for a form whose `required` title and URL are filled in (lines 208 and 235): a bad URL writes nothing; without a new screenshot the old URL is kept; a rejected upload stops the save |
| EditArtifact.AcceptedSaveTags | src/components/EditArtifactModal.jsx:74-107 | when the tag deletes and inserts are accepted, the save ends without error and the tables `Save` promises leave the artifact exactly the selected tags, others' tags unchanged |
| LandingPage.NewestRows | src/components/LandingPage.jsx:69-73 | the query returns min(6, n) rows |
| LandingPage.TopArtifacts | src/components/LandingPage.jsx:67-93 | the top list holds min(6, n) records |
| LandingPage.UserIds | src/components/LandingPage.jsx:115-118 | one owner id per row, in row order |
| LandingPage.Featured | src/components/LandingPage.jsx:130 | the featured list is the first min(3, n) top artifacts |
| LandingPage.NextIndex | src/components/LandingPage.jsx:61 | the carousel index advances by one and wraps to 0 at min(n, 3), so it stays in range |
| LandingPage.SubjectColor | src/components/LandingPage.jsx:142-156 | the default colour is used exactly for no subject or a first subject without a colour of its own |
| LandingPage.SubjectColorLight | src/components/LandingPage.jsx:158-172 | the same for the light colours |
| LandingPage.SubjectColorOfFirst | src/components/LandingPage.jsx:143-154 | both colours of a card are those of its first subject alone (`subjects[0]`) |
| LandingPage.ColoredSubjectsDistinct | src/components/LandingPage.jsx:145-153 | Physics, Mathematics, Biology and Chemistry get pairwise distinct strong colours and pairwise distinct light colours |
| LandingPage.LandingPage.constructor | src/components/LandingPage.jsx:5-12 | the page starts loading with no artifacts, index 0 and zero statistics |
| LandingPage.LandingPage.ActiveArtifact | src/components/LandingPage.jsx:131 | the active artifact exists exactly when the index is within the featured list, and is the top artifact at that index |
| LandingPage.LandingPage.VoteTotal | src/components/LandingPage.jsx:906 | "Community Votes" shows zero exactly when none of the top artifacts has a vote |
| LandingPage.LandingPage.FetchTopArtifacts | src/components/LandingPage.jsx:67-100 | the top artifacts are reloaded from the tables and loading ends |
| LandingPage.LandingPage.FetchStats | src/components/LandingPage.jsx:102-128 | the artifact count is the row count; contributors and teachers are the distinct owners, never more than the artifacts |
| LandingPage.LandingPage.Rotate | src/components/LandingPage.jsx:57-65 | no rotation while the list is empty; otherwise the index advances and names an artifact |
| LandingPage.LandingPage.SelectApplet | src/components/LandingPage.jsx:602-605 | clicking a dot shows that featured artifact |
| LandingPage.Typewriter.constructor | src/components/LandingPage.jsx:15-18 | the headline starts empty, typing, at phrase 0 with speed 150 |
| LandingPage.Typewriter.HandleType | src/components/LandingPage.jsx:33-50 | one character more while typing, one fewer while deleting, always a prefix of phrase `loopNum mod 3`; speed 40 or 120; a full phrase schedules deleting; an emptied text moves to the next phrase |
| LandingPage.Typewriter.StartDeleting | src/components/LandingPage.jsx:45 | the pause timer starts deleting and the text stays a prefix of the phrase |
| LandingPage.MoreVotesFirstIsTotalPreorder | src/components/LandingPage.jsx:93 | the vote comparator is a total preorder |
| LandingPage.TopArtifactsRanked | src/components/LandingPage.jsx:72-93 | the top artifacts are the min(6, n) newest rows with their tags and votes, votes non-increasing, ties newest first |
| LandingPage.TopArtifactSource | src/components/LandingPage.jsx:77-90 | each top artifact is built from one of the newest rows |
| LandingPage.TopArtifactsAreNewest | src/components/LandingPage.jsx:69-90 | each top artifact is a stored artifact with its own tags and votes; no artifact left out is newer than one shown |
| LandingPage.VoteTotalOfNewest | src/components/LandingPage.jsx:906 | ranking does not change the vote total shown |
| LandingPage.EnglishColorUnused | src/components/LandingPage.jsx:151 | no subject is named "English", so that colour entry is never used |
| MyProfile.MyArtifacts | src/components/MyProfile.jsx:20-43 | the profile lists one record per artifact the user owns |
| MyProfile.ProfileCascade | src/components/MyProfile.jsx:61-73 | the profile's delete cascade never adds a row to any table; what it removes is stated by `MyProfile.AcceptedCascadeForgetsArtifact` |
| MyProfile.DescriptionPreview | src/components/MyProfile.jsx:262-270 | no preview for a null or empty description; otherwise the first 120 characters, with "..." exactly when it was longer |
| MyProfile.MyProfile.constructor | src/components/MyProfile.jsx:8-9 | the page starts loading with no artifacts |
| MyProfile.MyProfile.ArtifactCount | src/components/MyProfile.jsx:156 | a profile showing no artifacts shows zero total votes |
| MyProfile.MyProfile.TotalVotes | src/components/MyProfile.jsx:174 | "Total Votes" is zero exactly when none of the listed artifacts has a vote |
| MyProfile.MyProfile.FetchMyArtifacts | src/components/MyProfile.jsx:18-53 | the list is the user's own artifacts, newest first with their votes, and loading ends |
| MyProfile.MyProfile.Mount | src/components/MyProfile.jsx:12-16 | nothing is fetched without a user |
| MyProfile.MyProfile.DeleteReactions | src/components/MyProfile.jsx:62-63 | vote then favourite rows of the artifact are deleted, errors unread |
| MyProfile.MyProfile.DeleteTags | src/components/MyProfile.jsx:64-65 | subject then key-stage rows of the artifact are deleted, errors unread |
| MyProfile.MyProfile.DeleteCascade | src/components/MyProfile.jsx:61-73 | votes, favourites, subjects, key stages, then the artifact row are deleted in that order |
| MyProfile.MyProfile.HandleDelete | src/components/MyProfile.jsx:55-81 | a refused confirmation changes nothing; otherwise the cascade runs and the list is reloaded only when the artifact row was deleted |
| MyProfile.MyArtifactsAreOwn | src/components/MyProfile.jsx:20-43 | every record is one of the user's rows with its own tags and votes |
| MyProfile.MyArtifactsAreAll | src/components/MyProfile.jsx:20-43 | every one of the user's rows is listed, and there are as many records as rows |
| MyProfile.MyArtifactsNewestFirst | src/components/MyProfile.jsx:28 | the profile lists the newest artifact first |
| MyProfile.TotalVotesOfOwn | src/components/MyProfile.jsx:174 | "Total Votes" adds up the votes of every own artifact, whatever their order |
| MyProfile.LoadedFigures | src/components/MyProfile.jsx:156-174 | on a loaded profile "Artifacts" is the number of the user's rows and "Total Votes" the order-free vote sum over them |
| MyProfile.AcceptedCascadeForgetsArtifact | src/components/MyProfile.jsx:61-73 | an accepted cascade leaves no row referring to the artifact and other artifacts' votes and favourites unchanged |

## Left out

- Network, storage and authentication calls are the in-memory `Store.Database`. The client's
  creation and credentials (src/supabaseClient.js:1-6) are not modelled.
- Reads always succeed. A failed read, and the `count || 0` defaults it would trigger, are not
  modelled; a read error thrown by `fetchArtifacts`, `fetchTopArtifacts` or `fetchMyArtifacts`
  is therefore absent.
- `Promise.all` runs the per-artifact count queries concurrently; the model enriches the rows
  in one pass over an unchanging snapshot.
- The timers (`setTimeout`, `setInterval`) are left out: the typewriter step, the pause and the
  carousel tick are methods a caller invokes. The typing delay is stored but not waited for.
- The random screenshot file name and the file extension are left out; the upload's public URL
  is a parameter.
- The owner id and the creation time of a new row, which the backend fills in, are parameters.
- `alert`, `confirm` and `console` are left out: confirmation is a boolean parameter, alerts
  are the returned error.
- `localeCompare` is an abstract comparator, and `toLowerCase` is an ASCII case fold, because
  both are locale- and Unicode-dependent.
- The emoji extraction of the landing page's cards, the window-width check, direct DOM styling
  and every presentation-only component (side navigation, about page, sign-in prompt, auth
  form, app shell) are not part of this model.
- The edit modal's and the submit form's loading, error and success UI state is left out;
  button enablement is a predicate of the form and the loading flag.
- The order `order('created_at', { ascending: false })` is a stable sort of the table by
  creation time. Rows with equal times come in table order, which is one order the backend
  may return.
- Array sorts in place (`filtered.sort`, `artifactsWithVotes.sort`) are modelled on values by
  `Sorting.Sort`: no aliasing of the sorted array is captured.
- There is no fetch-generation counter: a later refetch simply replaces the state.
- The dependent deletes of both cascades and the edit's two tag deletes do not check their
  errors, and the model keeps that. A rejected dependent delete leaves those rows behind, and
  the sequence continues.
- The `votes: 0` column written by a submit is stored but never read; counts come from the
  `votes` table.
- The colour maps' "English" entry can never be used, since no subject has that name.
- MyProfile.MyProfile.Mount: with no user the page keeps loading forever, as in the source.
- HomePage.HomePage.DeleteCascade: favourites of a deleted artifact remain. This is the
  source's behaviour, not a weaker contract; `HomePage.HomeCascadeEffect` states it.
- Catalog.EnrichFields: the `userHasVoted` and `userHasFavorited` flags are tied to membership
  only when there is at most one `(artifact, user)` row. With duplicates `.single()` fails and
  the flag is false, which `Catalog.SingleMatch` models directly.
- MyProfile.DescriptionPreview: strings are sequences of Unicode characters, while JavaScript's
  `length` and `substring` count UTF-16 code units. For a description with characters outside
  the Basic Multilingual Plane (emoji, say) the model cuts later than the source: 61 emoji are
  122 code units and cut in the source but shown whole here, and the source may split a
  surrogate pair at the cut, which the model never does. Descriptions of BMP characters are cut
  identically.
- Text.Substring0: counts characters in the same way, so it matches `substring(0, k)` exactly
  on BMP text, such as the typewriter phrases.
