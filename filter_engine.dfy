/**
 * The home page's filter and sort engine (`handleFiltersChange`): from the enriched
 * catalog, the favourites tab and a filter spec to the list on screen. The stages run
 * in the source's order: favourites, search, subjects, key stages, then one of three
 * sort modes. `HomePage.HomePage.HandleFiltersChange` computes the same list stage by
 * stage; this module states what it is and proves what it means.
 */
module FilterEngine {
  import opened Optional
  import opened Lists
  import opened Sorting
  import opened Text
  import opened Vocabulary
  import opened Catalog

  /** The object the filter bar hands to the page: `{ searchText, subjects, keyStages, sortBy }`. */
  datatype FilterSpec = FilterSpec(searchText: string, subjects: seq<Subject>, keyStages: seq<KeyStage>, sortBy: string)

  /** The spec the page applies after every load and every change of tab. */
  const DefaultSpec := FilterSpec("", [], [], "newest")

  // ----- the predicates of the stages -----

  predicate IsFavorited(a: Enriched)
  {
    a.userHasFavorited
  }

  /** `text?.toLowerCase().includes(needle)`, false for a null column. */
  predicate ColumnIncludes(text: Option<string>, needle: string)
  {
    text.Some? && Includes(Lower(text.value), needle)
  }

  /** The search test: the lower-cased query occurs in the lower-cased title, description or first prompt. */
  predicate MatchesSearch(a: Enriched, q: string)
    ensures q == "" ==> MatchesSearch(a, q)
  {
    var needle := Lower(q);
    Includes(Lower(a.row.title), needle)
    || ColumnIncludes(a.row.description, needle)
    || ColumnIncludes(a.row.firstPrompt, needle)
  }

  function SearchMatcher(q: string): Enriched -> bool
  {
    (a: Enriched) => MatchesSearch(a, q)
  }

  function SubjectMatcher(subjects: seq<Subject>): Enriched -> bool
  {
    (a: Enriched) => Overlaps(a.subjects, subjects)
  }

  function KeyStageMatcher(keyStages: seq<KeyStage>): Enriched -> bool
  {
    (a: Enriched) => Overlaps(a.keyStages, keyStages)
  }

  /** Every active stage admits `a`: the conjunction the pipeline of filters amounts to. */
  predicate Admits(showFavoritesOnly: bool, f: FilterSpec, a: Enriched)
  {
    && (showFavoritesOnly ==> a.userHasFavorited)
    && (f.searchText != "" ==> MatchesSearch(a, f.searchText))
    && (|f.subjects| > 0 ==> Overlaps(a.subjects, f.subjects))
    && (|f.keyStages| > 0 ==> Overlaps(a.keyStages, f.keyStages))
  }

  function AdmittedBy(showFavoritesOnly: bool, f: FilterSpec): Enriched -> bool
  {
    (a: Enriched) => Admits(showFavoritesOnly, f, a)
  }

  // ----- the stages -----

  function FavoritesStage(s: seq<Enriched>, showFavoritesOnly: bool): seq<Enriched>
  {
    if showFavoritesOnly then Filter(s, IsFavorited) else s
  }

  /** An empty search text is falsy: the stage is skipped. */
  function SearchStage(s: seq<Enriched>, q: string): seq<Enriched>
  {
    if q != "" then Filter(s, SearchMatcher(q)) else s
  }

  function SubjectStage(s: seq<Enriched>, subjects: seq<Subject>): seq<Enriched>
  {
    if |subjects| > 0 then Filter(s, SubjectMatcher(subjects)) else s
  }

  function KeyStageStage(s: seq<Enriched>, keyStages: seq<KeyStage>): seq<Enriched>
  {
    if |keyStages| > 0 then Filter(s, KeyStageMatcher(keyStages)) else s
  }

  /** The four filters in the source's order. */
  function Narrowed(all: seq<Enriched>, showFavoritesOnly: bool, f: FilterSpec): (r: seq<Enriched>)
    ensures r == Filter(all, AdmittedBy(showFavoritesOnly, f))
  {
    StagesAreOneFilter(all, showFavoritesOnly, f);
    KeyStageStage(SubjectStage(SearchStage(FavoritesStage(all, showFavoritesOnly), f.searchText), f.subjects), f.keyStages)
  }

  /** The comparator `(a, b) => b.voteCount - a.voteCount`: `a` may stay before `b`. */
  predicate MoreOrEqualVotes(a: Enriched, b: Enriched)
  {
    a.voteCount >= b.voteCount
  }

  /** The comparator `(a, b) => a.title.localeCompare(b.title)`, over an abstract collation `localeLe`. */
  function TitleOrder(localeLe: (string, string) -> bool): (Enriched, Enriched) -> bool
  {
    (a: Enriched, b: Enriched) => localeLe(a.row.title, b.row.title)
  }

  /** The sort stage: any `sortBy` other than the two named modes keeps the backend's newest-first order. */
  function Ordered(s: seq<Enriched>, sortBy: string, localeLe: (string, string) -> bool): (r: seq<Enriched>)
    ensures multiset(r) == multiset(s)
  {
    if sortBy == "most_voted" then
      SortIsPermutation(s, MoreOrEqualVotes);
      Sort(s, MoreOrEqualVotes)
    else if sortBy == "alphabetical" then
      SortIsPermutation(s, TitleOrder(localeLe));
      Sort(s, TitleOrder(localeLe))
    else s
  }

  /** The list `handleFiltersChange` puts on screen. */
  function Visible(all: seq<Enriched>, showFavoritesOnly: bool, f: FilterSpec, localeLe: (string, string) -> bool): (r: seq<Enriched>)
    ensures multiset(r) == multiset(Filter(all, AdmittedBy(showFavoritesOnly, f)))
  {
    Ordered(Narrowed(all, showFavoritesOnly, f), f.sortBy, localeLe)
  }

  // ----- lemmas -----

  /** The conjunction of the stages up to and including the favourites stage. */
  function UpToFavorites(showFavoritesOnly: bool): Enriched -> bool
  {
    (a: Enriched) => !showFavoritesOnly || a.userHasFavorited
  }

  /** The conjunction of the stages up to and including the search stage. */
  function UpToSearch(showFavoritesOnly: bool, q: string): Enriched -> bool
  {
    (a: Enriched) => UpToFavorites(showFavoritesOnly)(a) && (q == "" || MatchesSearch(a, q))
  }

  /** The conjunction of the stages up to and including the subject stage. */
  function UpToSubjects(showFavoritesOnly: bool, q: string, subjects: seq<Subject>): Enriched -> bool
  {
    (a: Enriched) => UpToSearch(showFavoritesOnly, q)(a) && (|subjects| == 0 || Overlaps(a.subjects, subjects))
  }

  /**
   * One more stage after a list that is already one filter of `all` by `before`:
   * the result is one filter of `all` by `before` and "`on` implies `p`".
   */
  lemma {:induction false} StageAfter<T>(all: seq<T>, s: seq<T>, before: T -> bool, on: bool, p: T -> bool, after: T -> bool)
    requires s == Filter(all, before)
    requires forall a :: after(a) == (before(a) && (!on || p(a)))
    ensures (if on then Filter(s, p) else s) == Filter(all, after)
  {
    if on {
      FilterFilter(all, before, p, after);
    } else {
      FilterCongruent(all, before, after);
    }
  }

  /** The four filter stages together keep exactly the artifacts every active stage admits, in catalog order. */
  lemma StagesAreOneFilter(all: seq<Enriched>, showFavoritesOnly: bool, f: FilterSpec)
    ensures KeyStageStage(SubjectStage(SearchStage(FavoritesStage(all, showFavoritesOnly), f.searchText), f.subjects), f.keyStages)
         == Filter(all, AdmittedBy(showFavoritesOnly, f))
  {
    var g0 := (a: Enriched) => true;
    FilterKeepsAll(all, g0);
    var s1 := FavoritesStage(all, showFavoritesOnly);
    StageAfter(all, all, g0, showFavoritesOnly, IsFavorited, UpToFavorites(showFavoritesOnly));
    var s2 := SearchStage(s1, f.searchText);
    StageAfter(all, s1, UpToFavorites(showFavoritesOnly), f.searchText != "", SearchMatcher(f.searchText),
      UpToSearch(showFavoritesOnly, f.searchText));
    var s3 := SubjectStage(s2, f.subjects);
    StageAfter(all, s2, UpToSearch(showFavoritesOnly, f.searchText), |f.subjects| > 0, SubjectMatcher(f.subjects),
      UpToSubjects(showFavoritesOnly, f.searchText, f.subjects));
    StageAfter(all, s3, UpToSubjects(showFavoritesOnly, f.searchText, f.subjects), |f.keyStages| > 0,
      KeyStageMatcher(f.keyStages), AdmittedBy(showFavoritesOnly, f));
  }

  /** Whatever the sort mode, the screen holds exactly the admitted artifacts, each as often as in the catalog. */
  lemma VisibleIsAdmittedPermutation(all: seq<Enriched>, showFavoritesOnly: bool, f: FilterSpec, localeLe: (string, string) -> bool)
    ensures multiset(Visible(all, showFavoritesOnly, f, localeLe)) == multiset(Filter(all, AdmittedBy(showFavoritesOnly, f)))
    ensures forall a :: a in Visible(all, showFavoritesOnly, f, localeLe) <==> a in all && Admits(showFavoritesOnly, f, a)
  {
    var kept := Narrowed(all, showFavoritesOnly, f);
    SortIsPermutation(kept, MoreOrEqualVotes);
    SortIsPermutation(kept, TitleOrder(localeLe));
    var v := Visible(all, showFavoritesOnly, f, localeLe);
    assert multiset(v) == multiset(kept);
    forall a
      ensures a in v <==> a in all && Admits(showFavoritesOnly, f, a)
    {
      FilterMembership(all, AdmittedBy(showFavoritesOnly, f), a);
      assert a in v <==> a in multiset(v);
      assert a in kept <==> a in multiset(kept);
    }
  }

  /** Tab "All", no search, no facets, newest first: the screen shows the catalog unchanged. */
  lemma DefaultSpecShowsAll(all: seq<Enriched>, localeLe: (string, string) -> bool)
    ensures Visible(all, false, DefaultSpec, localeLe) == all
  {
  }

  /** Tab "Favorites" with the default spec: exactly the favourited artifacts, in catalog order. */
  lemma DefaultSpecFavorites(all: seq<Enriched>, localeLe: (string, string) -> bool)
    ensures Visible(all, true, DefaultSpec, localeLe) == Filter(all, IsFavorited)
    ensures IsSubsequence(Visible(all, true, DefaultSpec, localeLe), all)
    ensures forall a :: a in Visible(all, true, DefaultSpec, localeLe) <==> a in all && a.userHasFavorited
  {
    FilterIsSubsequence(all, IsFavorited);
    forall a
      ensures a in Filter(all, IsFavorited) <==> a in all && a.userHasFavorited
    {
      FilterMembership(all, IsFavorited, a);
    }
  }

  /** "newest" or an unknown sort: a subsequence of the catalog in its own order, holding exactly the admitted artifacts. */
  lemma NewestKeepsCatalogOrder(all: seq<Enriched>, showFavoritesOnly: bool, f: FilterSpec, localeLe: (string, string) -> bool)
    requires f.sortBy != "most_voted" && f.sortBy != "alphabetical"
    ensures Visible(all, showFavoritesOnly, f, localeLe) == Filter(all, AdmittedBy(showFavoritesOnly, f))
    ensures IsSubsequence(Visible(all, showFavoritesOnly, f, localeLe), all)
  {
    FilterIsSubsequence(all, AdmittedBy(showFavoritesOnly, f));
  }

  lemma MoreOrEqualVotesIsTotalPreorder()
    ensures TotalPreorder(MoreOrEqualVotes)
  {
  }

  /**
   * "most_voted": a permutation of the filtered list, vote counts non-increasing,
   * and artifacts with equal counts in their catalog order.
   */
  lemma MostVotedOrder(all: seq<Enriched>, showFavoritesOnly: bool, f: FilterSpec, localeLe: (string, string) -> bool)
    requires f.sortBy == "most_voted"
    ensures multiset(Visible(all, showFavoritesOnly, f, localeLe)) == multiset(Narrowed(all, showFavoritesOnly, f))
    ensures var v := Visible(all, showFavoritesOnly, f, localeLe);
      forall i, j :: 0 <= i < j < |v| ==> v[i].voteCount >= v[j].voteCount
    ensures forall e :: TiedWith(Visible(all, showFavoritesOnly, f, localeLe), e, MoreOrEqualVotes)
                     == TiedWith(Narrowed(all, showFavoritesOnly, f), e, MoreOrEqualVotes)
  {
    var kept := Narrowed(all, showFavoritesOnly, f);
    SortIsPermutation(kept, MoreOrEqualVotes);
    MoreOrEqualVotesIsTotalPreorder();
    SortIsSorted(kept, MoreOrEqualVotes);
    forall e
      ensures TiedWith(Sort(kept, MoreOrEqualVotes), e, MoreOrEqualVotes) == TiedWith(kept, e, MoreOrEqualVotes)
    {
      SortIsStable(kept, e, MoreOrEqualVotes);
    }
  }

  /** Ordering by title inherits a total preorder from the collation. */
  lemma TitleOrderIsTotalPreorder(localeLe: (string, string) -> bool)
    requires TotalPreorder(localeLe)
    ensures TotalPreorder(TitleOrder(localeLe))
  {
    var le := TitleOrder(localeLe);
    forall a: Enriched, b: Enriched
      ensures le(a, b) || le(b, a)
    {
      assert localeLe(a.row.title, b.row.title) || localeLe(b.row.title, a.row.title);
    }
    forall a: Enriched, b: Enriched, c: Enriched | le(a, b) && le(b, c)
      ensures le(a, c)
    {
      assert localeLe(a.row.title, b.row.title) && localeLe(b.row.title, c.row.title);
    }
  }

  /** "alphabetical": a permutation of the filtered list with titles in collation order. */
  lemma AlphabeticalOrder(all: seq<Enriched>, showFavoritesOnly: bool, f: FilterSpec, localeLe: (string, string) -> bool)
    requires f.sortBy == "alphabetical"
    requires TotalPreorder(localeLe)
    ensures multiset(Visible(all, showFavoritesOnly, f, localeLe)) == multiset(Narrowed(all, showFavoritesOnly, f))
    ensures var v := Visible(all, showFavoritesOnly, f, localeLe);
      forall i, j :: 0 <= i < j < |v| ==> localeLe(v[i].row.title, v[j].row.title)
  {
    var kept := Narrowed(all, showFavoritesOnly, f);
    SortIsPermutation(kept, TitleOrder(localeLe));
    TitleOrderIsTotalPreorder(localeLe);
    SortIsSorted(kept, TitleOrder(localeLe));
    var v := Sort(kept, TitleOrder(localeLe));
    forall i, j | 0 <= i < j < |v|
      ensures localeLe(v[i].row.title, v[j].row.title)
    {
      assert TitleOrder(localeLe)(v[i], v[j]);
    }
  }

  /**
   * The search stage is a case-insensitive substring search: an artifact matches iff the
   * folded query occurs at some index of the folded title, description or first prompt,
   * and the case of the query does not matter.
   */
  lemma SearchIsCaseInsensitiveSubstring(a: Enriched, q: string)
    ensures MatchesSearch(a, q) <==>
      (exists i :: OccursAt(Lower(a.row.title), Lower(q), i))
      || (a.row.description.Some? && exists i :: OccursAt(Lower(a.row.description.value), Lower(q), i))
      || (a.row.firstPrompt.Some? && exists i :: OccursAt(Lower(a.row.firstPrompt.value), Lower(q), i))
    ensures MatchesSearch(a, q) <==> MatchesSearch(a, Lower(q))
  {
    IncludesIffOccurs(Lower(a.row.title), Lower(q));
    if a.row.description.Some? {
      IncludesIffOccurs(Lower(a.row.description.value), Lower(q));
    }
    if a.row.firstPrompt.Some? {
      IncludesIffOccurs(Lower(a.row.firstPrompt.value), Lower(q));
    }
    LowerIdempotent(q);
  }

  /** An artifact with no subject tags (or no key-stage tags) never survives a non-empty facet of that kind. */
  lemma UntaggedExcludedByFacet(all: seq<Enriched>, showFavoritesOnly: bool, f: FilterSpec, localeLe: (string, string) -> bool, a: Enriched)
    requires (|f.subjects| > 0 && a.subjects == []) || (|f.keyStages| > 0 && a.keyStages == [])
    ensures a !in Visible(all, showFavoritesOnly, f, localeLe)
  {
    VisibleIsAdmittedPermutation(all, showFavoritesOnly, f, localeLe);
  }

  /** Within a facet the selection is a disjunction: selecting one more subject never hides an artifact. */
  lemma MoreSubjectsShowMore(all: seq<Enriched>, showFavoritesOnly: bool, f: FilterSpec, s: Subject, localeLe: (string, string) -> bool, a: Enriched)
    requires |f.subjects| > 0
    requires a in Visible(all, showFavoritesOnly, f, localeLe)
    ensures a in Visible(all, showFavoritesOnly, f.(subjects := f.subjects + [s]), localeLe)
  {
    var g := f.(subjects := f.subjects + [s]);
    VisibleIsAdmittedPermutation(all, showFavoritesOnly, f, localeLe);
    VisibleIsAdmittedPermutation(all, showFavoritesOnly, g, localeLe);
    var x :| x in a.subjects && x in f.subjects;
    assert x in g.subjects;
  }

  /** Across facets the selections are a conjunction: choosing key stages only ever hides artifacts. */
  lemma KeyStagesNarrowSubjects(all: seq<Enriched>, showFavoritesOnly: bool, f: FilterSpec, localeLe: (string, string) -> bool, a: Enriched)
    requires a in Visible(all, showFavoritesOnly, f, localeLe)
    ensures a in Visible(all, showFavoritesOnly, f.(keyStages := []), localeLe)
    ensures |f.keyStages| > 0 ==> exists k :: k in a.keyStages && k in f.keyStages
  {
    VisibleIsAdmittedPermutation(all, showFavoritesOnly, f, localeLe);
    VisibleIsAdmittedPermutation(all, showFavoritesOnly, f.(keyStages := []), localeLe);
  }
}
