/**
 * The signed-in home page (src/components/HomePage.jsx): the enriched catalog, the
 * list on screen, the "All / Favorites" tab, the vote and favourite toggles and the
 * owner's delete.
 */
module HomePage {
  import opened Optional
  import opened Lists
  import opened Sorting
  import opened Store
  import opened Catalog
  import opened FilterEngine

  /**
   * The rows of `votes` (or `favorites`) after a toggle the backend accepts: with the
   * flag set every `(id, user)` row is deleted, otherwise one such row is inserted.
   */
  function Toggled(rows: seq<UserRow>, id: ArtifactId, user: UserId, currentlyOn: bool): (r: seq<UserRow>)
    ensures Link(id, user) in r <==> !currentlyOn
  {
    if currentlyOn then
      DropLinkMultiplicity(rows, id, user, Link(id, user));
      DropLink(rows, id, user)
    else rows + [Link(id, user)]
  }

  /**
   * The tables after the home page's delete of artifact `id`: subject, key-stage and vote
   * rows, then the artifact row. A request in `failing` changes nothing; favourites are
   * never touched.
   */
  function HomeCascade(t: Tables, id: ArtifactId, failing: set<Call>): (r: Tables)
    ensures r.favorites == t.favorites
    ensures |r.artifacts| <= |t.artifacts| && |r.subjects| <= |t.subjects|
    ensures |r.keyStages| <= |t.keyStages| && |r.votes| <= |t.votes|
  {
    Tables(
      if Delete(Artifacts) in failing then t.artifacts else DropArtifact(t.artifacts, id),
      if Delete(ArtifactSubjects) in failing then t.subjects else DropFor(t.subjects, id),
      if Delete(ArtifactKeyStages) in failing then t.keyStages else DropFor(t.keyStages, id),
      if Delete(Votes) in failing then t.votes else DropFor(t.votes, id),
      t.favorites)
  }

  class HomePage {
    const db: Database
    /** The signed-in user, if any (`useAuth().user`). */
    const user: Option<UserId>
    /** The collation behind `localeCompare`. */
    const localeLe: (string, string) -> bool
    /** Every artifact, enriched, newest first. */
    var artifacts: seq<Enriched>
    /** The list on screen. */
    var filteredArtifacts: seq<Enriched>
    /** The "Favorites" tab is selected. */
    var showFavoritesOnly: bool

    constructor (db: Database, user: Option<UserId>, localeLe: (string, string) -> bool)
      ensures this.db == db && this.user == user && this.localeLe == localeLe
      ensures artifacts == [] && filteredArtifacts == [] && !showFavoritesOnly
    {
      this.db := db;
      this.user := user;
      this.localeLe := localeLe;
      artifacts, filteredArtifacts, showFavoritesOnly := [], [], false;
    }

    /** `handleFiltersChange`: copy the catalog, narrow it stage by stage, then sort the copy. */
    method HandleFiltersChange(f: FilterSpec)
      modifies this`filteredArtifacts
      ensures filteredArtifacts == Visible(artifacts, showFavoritesOnly, f, localeLe)
    {
      var filtered := artifacts;
      if showFavoritesOnly {
        filtered := Filter(filtered, IsFavorited);
      }
      if f.searchText != "" {
        filtered := Filter(filtered, SearchMatcher(f.searchText));
      }
      if |f.subjects| > 0 {
        filtered := Filter(filtered, SubjectMatcher(f.subjects));
      }
      if |f.keyStages| > 0 {
        filtered := Filter(filtered, KeyStageMatcher(f.keyStages));
      }
      if f.sortBy == "most_voted" {
        filtered := Sort(filtered, MoreOrEqualVotes);
      } else if f.sortBy == "alphabetical" {
        filtered := Sort(filtered, TitleOrder(localeLe));
      }
      filteredArtifacts := filtered;
    }

    /**
     * `fetchArtifacts`, followed by the effect that re-applies the default spec whenever
     * the catalog changes: the screen then shows the whole catalog, or the favourites.
     */
    method FetchArtifacts()
      modifies this`artifacts, this`filteredArtifacts
      ensures artifacts == LoadCatalog(db.Snapshot(), user)
      ensures filteredArtifacts == Visible(artifacts, showFavoritesOnly, DefaultSpec, localeLe)
    {
      artifacts := LoadCatalog(db.Snapshot(), user);
      filteredArtifacts := artifacts;
      HandleFiltersChange(DefaultSpec);
    }

    /** A click on a tab. Selecting the tab already selected changes no state, so the effect does not run. */
    method SetShowFavoritesOnly(v: bool)
      modifies this`showFavoritesOnly, this`filteredArtifacts
      ensures showFavoritesOnly == v
      ensures v == old(showFavoritesOnly) ==> filteredArtifacts == old(filteredArtifacts)
      ensures v != old(showFavoritesOnly) ==> filteredArtifacts == Visible(artifacts, v, DefaultSpec, localeLe)
    {
      if v != showFavoritesOnly {
        showFavoritesOnly := v;
        HandleFiltersChange(DefaultSpec);
      }
    }

    /**
     * `handleVote`: nothing without a user; otherwise delete or insert the user's vote
     * row and reload, whether or not the backend accepted the write.
     */
    method HandleVote(artifactId: ArtifactId, currentlyVoted: bool, fails: bool)
      requires db.Valid() && artifactId < db.nextId
      modifies db`votes, db`log, this`artifacts, this`filteredArtifacts
      ensures db.Valid()
      ensures user.None? ==>
        && db.votes == old(db.votes) && db.log == old(db.log)
        && artifacts == old(artifacts) && filteredArtifacts == old(filteredArtifacts)
      ensures user.Some? ==>
        && db.votes == (if fails then old(db.votes) else Toggled(old(db.votes), artifactId, user.value, currentlyVoted))
        && db.log == old(db.log) + [if currentlyVoted then Delete(Votes) else Insert(Votes)]
        && artifacts == LoadCatalog(db.Snapshot(), user)
        && filteredArtifacts == Visible(artifacts, showFavoritesOnly, DefaultSpec, localeLe)
    {
      if user.None? {
        return;
      }
      var ok;
      if currentlyVoted {
        ok := db.DeleteVote(artifactId, user.value, fails);
      } else {
        ok := db.InsertVote(artifactId, user.value, fails);
      }
      FetchArtifacts();
    }

    /** `handleFavorite`: the same toggle on `favorites`. */
    method HandleFavorite(artifactId: ArtifactId, currentlyFavorited: bool, fails: bool)
      requires db.Valid() && artifactId < db.nextId
      modifies db`favorites, db`log, this`artifacts, this`filteredArtifacts
      ensures db.Valid()
      ensures user.None? ==>
        && db.favorites == old(db.favorites) && db.log == old(db.log)
        && artifacts == old(artifacts) && filteredArtifacts == old(filteredArtifacts)
      ensures user.Some? ==>
        && db.favorites == (if fails then old(db.favorites) else Toggled(old(db.favorites), artifactId, user.value, currentlyFavorited))
        && db.log == old(db.log) + [if currentlyFavorited then Delete(Favorites) else Insert(Favorites)]
        && artifacts == LoadCatalog(db.Snapshot(), user)
        && filteredArtifacts == Visible(artifacts, showFavoritesOnly, DefaultSpec, localeLe)
    {
      if user.None? {
        return;
      }
      var ok;
      if currentlyFavorited {
        ok := db.DeleteFavorite(artifactId, user.value, fails);
      } else {
        ok := db.InsertFavorite(artifactId, user.value, fails);
      }
      FetchArtifacts();
    }

    /**
     * The writes of `handleDelete`: the subject, key-stage and vote rows (their errors
     * unread), then the artifact row, whose outcome is `ok`.
     */
    method DeleteCascade(artifactId: ArtifactId, failing: set<Call>) returns (ok: bool)
      requires db.Valid()
      modifies db`artifacts, db`artifactSubjects, db`artifactKeyStages, db`votes, db`log
      ensures db.Valid()
      ensures ok <==> Delete(Artifacts) !in failing
      ensures db.Snapshot() == HomeCascade(old(db.Snapshot()), artifactId, failing)
      ensures db.log == old(db.log) + [Delete(ArtifactSubjects)] + [Delete(ArtifactKeyStages)] + [Delete(Votes)] + [Delete(Artifacts)]
    {
      ghost var before := db.Snapshot();
      ghost var after := HomeCascade(before, artifactId, failing);
      var _ := db.DeleteSubjectsOf(artifactId, Delete(ArtifactSubjects) in failing);
      var _ := db.DeleteKeyStagesOf(artifactId, Delete(ArtifactKeyStages) in failing);
      var _ := db.DeleteVotesOf(artifactId, Delete(Votes) in failing);
      ok := db.DeleteArtifact(artifactId, Delete(Artifacts) in failing);
      assert db.artifacts == after.artifacts && db.artifactSubjects == after.subjects;
      assert db.artifactKeyStages == after.keyStages && db.votes == after.votes && db.favorites == after.favorites;
    }

    /**
     * `handleDelete`: nothing unless the user confirms; then the cascade, and a reload
     * only when the artifact row was deleted. `ok` is the "deleted successfully" outcome.
     */
    method HandleDelete(artifactId: ArtifactId, confirmed: bool, failing: set<Call>) returns (ok: bool)
      requires db.Valid()
      modifies db`artifacts, db`artifactSubjects, db`artifactKeyStages, db`votes, db`log
      modifies this`artifacts, this`filteredArtifacts
      ensures db.Valid()
      ensures ok <==> confirmed && Delete(Artifacts) !in failing
      ensures !confirmed ==> db.Snapshot() == old(db.Snapshot()) && db.log == old(db.log)
      ensures confirmed ==> db.Snapshot() == HomeCascade(old(db.Snapshot()), artifactId, failing)
      ensures confirmed ==> db.log == old(db.log) + [Delete(ArtifactSubjects)] + [Delete(ArtifactKeyStages)] + [Delete(Votes)] + [Delete(Artifacts)]
      ensures ok ==>
        && artifacts == LoadCatalog(db.Snapshot(), user)
        && filteredArtifacts == Visible(artifacts, showFavoritesOnly, DefaultSpec, localeLe)
      ensures !ok ==> artifacts == old(artifacts) && filteredArtifacts == old(filteredArtifacts)
    {
      if !confirmed {
        return false;
      }
      ok := DeleteCascade(artifactId, failing);
      if ok {
        FetchArtifacts();
      }
    }
  }

  // ----- lemmas -----

  /**
   * From a consistent state (at most one row per user and artifact), a toggle driven by the
   * flag the page shows flips that flag, keeps the state consistent, moves the count by one
   * and leaves every other row alone.
   */
  lemma ToggleFlips(rows: seq<UserRow>, id: ArtifactId, u: UserId)
    requires AtMostOne(rows, id, u)
    ensures var on := SingleMatch(rows, id, u);
      var r := Toggled(rows, id, u, on);
      && SingleMatch(r, id, u) == !on
      && AtMostOne(r, id, u)
      && CountFor(r, id) == (if on then CountFor(rows, id) - 1 else CountFor(rows, id) + 1)
      && forall x :: x != Link(id, u) ==> multiset(r)[x] == multiset(rows)[x]
  {
    var on := SingleMatch(rows, id, u);
    if on {
      CountForDropLink(rows, id, u);
      forall x
        ensures multiset(DropLink(rows, id, u))[x] == if x == Link(id, u) then 0 else multiset(rows)[x]
      {
        DropLinkMultiplicity(rows, id, u, x);
      }
    } else {
      ValuesForAppend(rows, [Link(id, u)], id);
    }
  }

  /**
   * Toggling twice, each time driven by the flag the reloaded page shows, restores the
   * count, the flag and the multiset of rows; from "not voted" it restores the table exactly.
   */
  lemma ToggleTwiceRestores(rows: seq<UserRow>, id: ArtifactId, u: UserId)
    requires AtMostOne(rows, id, u)
    ensures var on := SingleMatch(rows, id, u);
      var once := Toggled(rows, id, u, on);
      var twice := Toggled(once, id, u, SingleMatch(once, id, u));
      && CountFor(twice, id) == CountFor(rows, id)
      && SingleMatch(twice, id, u) == on
      && multiset(twice) == multiset(rows)
      && (!on ==> twice == rows)
  {
    var on := SingleMatch(rows, id, u);
    var once := Toggled(rows, id, u, on);
    ToggleFlips(rows, id, u);
    ToggleFlips(once, id, u);
    var twice := Toggled(once, id, u, !on);
    if on {
      assert multiset(twice)[Link(id, u)] == 1;
    } else {
      assert multiset(rows)[Link(id, u)] == 0;
      DropLinkUndoesAppend(rows, id, u);
    }
  }

  /**
   * With every request accepted, the home page's delete leaves no artifact, subject,
   * key-stage or vote row for the id, keeps every other row, and leaves favourites as they were.
   */
  lemma HomeCascadeEffect(t: Tables, id: ArtifactId)
    ensures var after := HomeCascade(t, id, {});
      && (forall r :: r in after.artifacts <==> r in t.artifacts && r.id != id)
      && CountFor(after.subjects, id) == 0
      && CountFor(after.keyStages, id) == 0
      && CountFor(after.votes, id) == 0
      && (forall other :: other != id ==>
            && ValuesFor(after.subjects, other) == ValuesFor(t.subjects, other)
            && ValuesFor(after.keyStages, other) == ValuesFor(t.keyStages, other)
            && ValuesFor(after.votes, other) == ValuesFor(t.votes, other))
      && after.favorites == t.favorites
  {
    forall r
      ensures r in DropArtifact(t.artifacts, id) <==> r in t.artifacts && r.id != id
    {
      DropArtifactMembership(t.artifacts, id, r);
    }
    forall other
      ensures ValuesFor(DropFor(t.subjects, id), other) == if other == id then [] else ValuesFor(t.subjects, other)
      ensures ValuesFor(DropFor(t.keyStages, id), other) == if other == id then [] else ValuesFor(t.keyStages, other)
      ensures ValuesFor(DropFor(t.votes, id), other) == if other == id then [] else ValuesFor(t.votes, other)
    {
      ValuesForDropFor(t.subjects, id, other);
      ValuesForDropFor(t.keyStages, id, other);
      ValuesForDropFor(t.votes, id, other);
    }
  }
}
