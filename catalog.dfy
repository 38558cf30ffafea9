/**
 * What the pages read from the backend: artifact rows joined with their tags, newest
 * first, and enriched with vote and favourite counts and the viewer's own status.
 */
module Catalog {
  import opened Optional
  import opened Lists
  import opened Sorting
  import opened Vocabulary
  import opened Store

  /** An artifact as the home page holds it (src/components/HomePage.jsx, `fetchArtifacts`). */
  datatype Enriched = Enriched(
    row: ArtifactRow,
    subjects: seq<Subject>,
    keyStages: seq<KeyStage>,
    voteCount: nat,
    favoriteCount: nat,
    userHasVoted: bool,
    userHasFavorited: bool,
    isOwner: bool)

  /** An artifact as the landing and profile pages hold it: the row, its tags and its vote count. */
  datatype Listed = Listed(row: ArtifactRow, subjects: seq<Subject>, keyStages: seq<KeyStage>, voteCount: nat)

  /** `order('created_at', { ascending: false })`: `a` may be listed before `b`. */
  predicate NewerOrSame(a: ArtifactRow, b: ArtifactRow)
  {
    a.createdAt >= b.createdAt
  }

  /** The rows in the order the backend returns them: newest first. */
  function NewestFirst(rows: seq<ArtifactRow>): seq<ArtifactRow>
  {
    Sort(rows, NewerOrSame)
  }

  /**
   * `.single()` yields a row only when exactly one row matches, so `!!data` is true
   * only for exactly one matching row.
   */
  predicate SingleMatch<V(==)>(rows: seq<Link<V>>, id: ArtifactId, v: V)
    ensures SingleMatch(rows, id, v) ==> Link(id, v) in rows && AtMostOne(rows, id, v)
  {
    multiset(rows)[Link(id, v)] == 1
  }

  /** At most one row links `id` and `v`: the uniqueness the application relies on for votes and favourites. */
  ghost predicate AtMostOne<V>(rows: seq<Link<V>>, id: ArtifactId, v: V)
  {
    multiset(rows)[Link(id, v)] <= 1
  }

  /** The record `fetchArtifacts` builds for one row (src/components/HomePage.jsx:38-80). */
  function Enrich(row: ArtifactRow, t: Tables, user: Option<UserId>): (e: Enriched)
    ensures e.row == row
  {
    Enriched(
      row,
      ValuesFor(t.subjects, row.id),
      ValuesFor(t.keyStages, row.id),
      CountFor(t.votes, row.id),
      CountFor(t.favorites, row.id),
      user.Some? && SingleMatch(t.votes, row.id, user.value),
      user.Some? && SingleMatch(t.favorites, row.id, user.value),
      user.Some? && row.userId == user.value)
  }

  /** The home page's catalog: every artifact, newest first, enriched for `user`. */
  function LoadCatalog(t: Tables, user: Option<UserId>): (c: seq<Enriched>)
    ensures |c| == |t.artifacts|
  {
    var rows := NewestFirst(t.artifacts);
    seq(|rows|, i requires 0 <= i < |rows| => Enrich(rows[i], t, user))
  }

  /** The rows of a list of records. */
  function RowsOf(c: seq<Enriched>): (r: seq<ArtifactRow>)
    ensures |r| == |c|
  {
    seq(|c|, i requires 0 <= i < |c| => c[i].row)
  }

  /** The record the landing and profile pages build for one row: `{ ...artifact, voteCount: count || 0 }`. */
  function ToListed(row: ArtifactRow, t: Tables): (l: Listed)
    ensures l.row == row
  {
    Listed(row, ValuesFor(t.subjects, row.id), ValuesFor(t.keyStages, row.id), CountFor(t.votes, row.id))
  }

  /** `artifactsData.map(...)` on the landing and profile pages: one record per row, in row order. */
  function ListAll(rows: seq<ArtifactRow>, t: Tables): (r: seq<Listed>)
    ensures |r| == |rows|
  {
    seq(|rows|, i requires 0 <= i < |rows| => ToListed(rows[i], t))
  }

  /** `list.reduce((sum, a) => sum + a.voteCount, 0)`. */
  function SumVotes(s: seq<Listed>): (r: nat)
    ensures r == 0 <==> forall i :: 0 <= i < |s| ==> s[i].voteCount == 0
  {
    if s == [] then 0 else s[0].voteCount + SumVotes(s[1..])
  }

  // ----- lemmas -----

  /**
   * The derived fields of a catalog entry: counts are row counts (0 when there are none),
   * nothing is voted, favourited or owned without a signed-in user, ownership is
   * equality of user ids, and where votes and favourites are unique per user the
   * membership flags say whether the user's row exists.
   */
  lemma EnrichFields(row: ArtifactRow, t: Tables, user: Option<UserId>)
    ensures var e := Enrich(row, t, user);
      && e.voteCount == |ValuesFor(t.votes, row.id)|
      && e.favoriteCount == |ValuesFor(t.favorites, row.id)|
      && (user.None? ==> !e.userHasVoted && !e.userHasFavorited && !e.isOwner)
      && (e.isOwner <==> user == Some(row.userId))
      && (user.Some? && AtMostOne(t.votes, row.id, user.value) ==>
            (e.userHasVoted <==> user.value in ValuesFor(t.votes, row.id)))
      && (user.Some? && AtMostOne(t.favorites, row.id, user.value) ==>
            (e.userHasFavorited <==> user.value in ValuesFor(t.favorites, row.id)))
  {
    if user.Some? {
      ValuesForMembership(t.votes, row.id, user.value);
      ValuesForMembership(t.favorites, row.id, user.value);
    }
  }

  lemma NewerOrSameIsTotalPreorder()
    ensures TotalPreorder(NewerOrSame)
  {
  }

  /** The catalog holds every artifact row once, newest first, each enriched from the tables. */
  lemma LoadCatalogOrder(t: Tables, user: Option<UserId>)
    ensures multiset(RowsOf(LoadCatalog(t, user))) == multiset(t.artifacts)
    ensures forall i, j :: 0 <= i < j < |t.artifacts| ==>
      LoadCatalog(t, user)[i].row.createdAt >= LoadCatalog(t, user)[j].row.createdAt
    ensures forall i :: 0 <= i < |t.artifacts| ==>
      LoadCatalog(t, user)[i] == Enrich(LoadCatalog(t, user)[i].row, t, user)
  {
    var c := LoadCatalog(t, user);
    var rows := NewestFirst(t.artifacts);
    assert RowsOf(c) == rows;
    SortIsPermutation(t.artifacts, NewerOrSame);
    NewerOrSameIsTotalPreorder();
    SortIsSorted(t.artifacts, NewerOrSame);
  }

  lemma {:induction false} SumVotesAppend(a: seq<Listed>, b: seq<Listed>)
    ensures SumVotes(a + b) == SumVotes(a) + SumVotes(b)
  {
    if a == [] {
      assert a + b == b;
    } else {
      SumVotesAppend(a[1..], b);
      assert (a + b)[0] == a[0] && (a + b)[1..] == a[1..] + b;
    }
  }

  /** Taking one record out of a list takes its votes out of the total. */
  lemma SumVotesRemove(b: seq<Listed>, k: nat)
    requires k < |b|
    ensures SumVotes(b) == b[k].voteCount + SumVotes(b[..k] + b[k + 1..])
  {
    SplitAt(b, k);
    SumVotesAppend(b[..k], [b[k]] + b[k + 1..]);
    SumVotesAppend(b[..k], b[k + 1..]);
  }

  /** Reordering a list does not change its vote total. */
  lemma {:induction false} SumVotesPermutation(a: seq<Listed>, b: seq<Listed>)
    requires multiset(a) == multiset(b)
    ensures SumVotes(a) == SumVotes(b)
    decreases |a|
  {
    if a == [] {
      assert |b| == |multiset(b)| == 0;
    } else {
      assert a[0] in multiset(b);
      var k :| 0 <= k < |b| && b[k] == a[0];
      assert a[..0] + a[1..] == a[1..];
      MultisetRemoveAt(a, 0);
      MultisetRemoveAt(b, k);
      SumVotesPermutation(a[1..], b[..k] + b[k + 1..]);
      SumVotesRemove(b, k);
    }
  }

  /** Listing two orderings of the same rows gives two orderings of the same records. */
  lemma ListAllPermutation(a: seq<ArtifactRow>, b: seq<ArtifactRow>, t: Tables)
    requires multiset(a) == multiset(b)
    ensures multiset(ListAll(a, t)) == multiset(ListAll(b, t))
  {
    var f := (r: ArtifactRow) => ToListed(r, t);
    forall i | 0 <= i < |a| ensures ListAll(a, t)[i] == Map(a, f)[i] {
      MapAt(a, f, i);
    }
    forall i | 0 <= i < |b| ensures ListAll(b, t)[i] == Map(b, f)[i] {
      MapAt(b, f, i);
    }
    assert ListAll(a, t) == Map(a, f) && ListAll(b, t) == Map(b, f);
    MapPermutation(a, b, f);
  }
}
