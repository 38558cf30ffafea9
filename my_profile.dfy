/**
 * The profile page (src/components/MyProfile.jsx): the signed-in user's own artifacts,
 * newest first with their vote counts, the two totals above them, the description
 * preview of each card, and the delete cascade, which unlike the home page's also
 * removes favourites.
 */
module MyProfile {
  import opened Optional
  import opened Lists
  import opened Sorting
  import opened Text
  import opened Store
  import opened Catalog

  /** The owner filter `.eq('user_id', user.id)`. */
  function OwnedBy(user: UserId): ArtifactRow -> bool
  {
    (r: ArtifactRow) => r.userId == user
  }

  /** `fetchMyArtifacts`: the user's rows, newest first, each with its tags and vote count. */
  function MyArtifacts(t: Tables, user: UserId): (r: seq<Listed>)
    ensures |r| == |Filter(t.artifacts, OwnedBy(user))|
  {
    ListAll(NewestFirst(Filter(t.artifacts, OwnedBy(user))), t)
  }

  /** How long a description preview is before it is cut. */
  const PreviewLength := 120

  /**
   * The description paragraph of a card: absent for a null or empty description,
   * otherwise its first 120 characters, followed by "..." when it was longer.
   */
  function DescriptionPreview(description: Option<string>): (r: Option<string>)
    ensures r.Some? <==> description.Some? && description.value != ""
    ensures r.Some? && |description.value| <= PreviewLength ==> r.value == description.value
    ensures r.Some? && |description.value| > PreviewLength ==>
      && |r.value| == PreviewLength + 3
      && StartsWith(description.value, r.value[..PreviewLength])
      && r.value[PreviewLength..] == "..."
  {
    match description
    case None => None
    case Some(d) =>
      if d == "" then None
      else Some(Substring0(d, PreviewLength) + (if |d| > PreviewLength then "..." else ""))
  }

  /** The tables left by the profile page's cascade: each delete that is not rejected removes its rows. */
  function ProfileCascade(t: Tables, id: ArtifactId, failing: set<Call>): (r: Tables)
    ensures |r.artifacts| <= |t.artifacts| && |r.subjects| <= |t.subjects| && |r.keyStages| <= |t.keyStages|
    ensures |r.votes| <= |t.votes| && |r.favorites| <= |t.favorites|
  {
    Tables(
      if Delete(Artifacts) in failing then t.artifacts else DropArtifact(t.artifacts, id),
      if Delete(ArtifactSubjects) in failing then t.subjects else DropFor(t.subjects, id),
      if Delete(ArtifactKeyStages) in failing then t.keyStages else DropFor(t.keyStages, id),
      if Delete(Votes) in failing then t.votes else DropFor(t.votes, id),
      if Delete(Favorites) in failing then t.favorites else DropFor(t.favorites, id))
  }

  class MyProfile {
    const db: Database
    /** The signed-in user, if any. */
    const user: Option<UserId>
    var myArtifacts: seq<Listed>
    var loading: bool

    constructor (db: Database, user: Option<UserId>)
      ensures this.db == db && this.user == user
      ensures myArtifacts == [] && loading
    {
      this.db, this.user := db, user;
      myArtifacts, loading := [], true;
    }

    /** The "Artifacts" figure. */
    function ArtifactCount(): (r: nat)
      reads this
      ensures r == 0 ==> TotalVotes() == 0
    {
      |myArtifacts|
    }

    /** The "Total Votes" figure: `reduce((sum, a) => sum + a.voteCount, 0)`. */
    function TotalVotes(): (r: nat)
      reads this
      ensures r == 0 <==> forall i :: 0 <= i < |myArtifacts| ==> myArtifacts[i].voteCount == 0
    {
      SumVotes(myArtifacts)
    }

    /** `fetchMyArtifacts` for the signed-in user; loading ends. */
    method FetchMyArtifacts()
      requires user.Some?
      modifies this`myArtifacts, this`loading
      ensures myArtifacts == MyArtifacts(db.Snapshot(), user.value) && !loading
    {
      var own := Filter(db.artifacts, OwnedBy(user.value));
      myArtifacts := ListAll(NewestFirst(own), db.Snapshot());
      loading := false;
    }

    /** The effect on `user`: fetch only when someone is signed in; otherwise the page keeps loading. */
    method Mount()
      modifies this`myArtifacts, this`loading
      ensures user.Some? ==> myArtifacts == MyArtifacts(db.Snapshot(), user.value) && !loading
      ensures user.None? ==> myArtifacts == old(myArtifacts) && loading == old(loading)
    {
      if user.Some? {
        FetchMyArtifacts();
      }
    }

    /** The first two writes of `handleDelete`: the artifact's votes and favourites, errors unread. */
    method DeleteReactions(artifactId: ArtifactId, failing: set<Call>)
      requires db.Valid()
      modifies db`votes, db`favorites, db`log
      ensures db.Valid()
      ensures db.votes == if Delete(Votes) in failing then old(db.votes) else DropFor(old(db.votes), artifactId)
      ensures db.favorites == if Delete(Favorites) in failing then old(db.favorites) else DropFor(old(db.favorites), artifactId)
      ensures db.log == old(db.log) + [Delete(Votes)] + [Delete(Favorites)]
    {
      var _ := db.DeleteVotesOf(artifactId, Delete(Votes) in failing);
      var _ := db.DeleteFavoritesOf(artifactId, Delete(Favorites) in failing);
    }

    /** The next two writes of `handleDelete`: the artifact's subject and key-stage rows, errors unread. */
    method DeleteTags(artifactId: ArtifactId, failing: set<Call>)
      requires db.Valid()
      modifies db`artifactSubjects, db`artifactKeyStages, db`log
      ensures db.Valid()
      ensures db.artifactSubjects ==
        if Delete(ArtifactSubjects) in failing then old(db.artifactSubjects) else DropFor(old(db.artifactSubjects), artifactId)
      ensures db.artifactKeyStages ==
        if Delete(ArtifactKeyStages) in failing then old(db.artifactKeyStages) else DropFor(old(db.artifactKeyStages), artifactId)
      ensures db.log == old(db.log) + [Delete(ArtifactSubjects)] + [Delete(ArtifactKeyStages)]
    {
      var _ := db.DeleteSubjectsOf(artifactId, Delete(ArtifactSubjects) in failing);
      var _ := db.DeleteKeyStagesOf(artifactId, Delete(ArtifactKeyStages) in failing);
    }

    /** The writes of `handleDelete`: the reactions, the tags, then the artifact row, whose outcome is `ok`. */
    method DeleteCascade(artifactId: ArtifactId, failing: set<Call>) returns (ok: bool)
      requires db.Valid()
      modifies db`artifacts, db`artifactSubjects, db`artifactKeyStages, db`votes, db`favorites, db`log
      ensures db.Valid()
      ensures ok <==> Delete(Artifacts) !in failing
      ensures db.Snapshot() == ProfileCascade(old(db.Snapshot()), artifactId, failing)
      ensures db.log == old(db.log) + [Delete(Votes)] + [Delete(Favorites)] + [Delete(ArtifactSubjects)]
                      + [Delete(ArtifactKeyStages)] + [Delete(Artifacts)]
    {
      ghost var after := ProfileCascade(db.Snapshot(), artifactId, failing);
      DeleteReactions(artifactId, failing);
      DeleteTags(artifactId, failing);
      ok := db.DeleteArtifact(artifactId, Delete(Artifacts) in failing);
    }

    /**
     * `handleDelete`: nothing unless the user confirms; then the cascade, and a reload
     * of the list only when the artifact row was deleted.
     */
    method HandleDelete(artifactId: ArtifactId, confirmed: bool, failing: set<Call>) returns (ok: bool)
      requires db.Valid() && user.Some?
      modifies db`artifacts, db`artifactSubjects, db`artifactKeyStages, db`votes, db`favorites, db`log
      modifies this`myArtifacts, this`loading
      ensures db.Valid()
      ensures ok <==> confirmed && Delete(Artifacts) !in failing
      ensures !confirmed ==> db.Snapshot() == old(db.Snapshot()) && db.log == old(db.log)
      ensures confirmed ==> db.Snapshot() == ProfileCascade(old(db.Snapshot()), artifactId, failing)
      ensures ok ==> myArtifacts == MyArtifacts(db.Snapshot(), user.value) && !loading
      ensures !ok ==> myArtifacts == old(myArtifacts) && loading == old(loading)
    {
      if !confirmed {
        return false;
      }
      ok := DeleteCascade(artifactId, failing);
      if ok {
        FetchMyArtifacts();
      }
    }
  }

  // ----- lemmas -----

  /** Every record on the profile is one of the user's rows, listed with its own tags and votes. */
  lemma MyArtifactsAreOwn(t: Tables, user: UserId)
    ensures forall l :: l in MyArtifacts(t, user) ==>
      l.row.userId == user && l.row in t.artifacts && l == ToListed(l.row, t)
  {
    var own := Filter(t.artifacts, OwnedBy(user));
    var rows := NewestFirst(own);
    var mine := MyArtifacts(t, user);
    SortIsPermutation(own, NewerOrSame);
    forall l | l in mine ensures l.row.userId == user && l.row in t.artifacts && l == ToListed(l.row, t) {
      var i :| 0 <= i < |mine| && mine[i] == l;
      assert rows[i] in multiset(rows);
      FilterMembership(t.artifacts, OwnedBy(user), rows[i]);
    }
  }

  /** Every one of the user's rows is on the profile, and there are no more records than rows. */
  lemma MyArtifactsAreAll(t: Tables, user: UserId)
    ensures |MyArtifacts(t, user)| == |Filter(t.artifacts, OwnedBy(user))|
    ensures forall r :: r in t.artifacts && r.userId == user ==> ToListed(r, t) in MyArtifacts(t, user)
  {
    var own := Filter(t.artifacts, OwnedBy(user));
    var rows := NewestFirst(own);
    var mine := MyArtifacts(t, user);
    SortIsPermutation(own, NewerOrSame);
    forall r | r in t.artifacts && r.userId == user ensures ToListed(r, t) in mine {
      FilterMembership(t.artifacts, OwnedBy(user), r);
      assert r in multiset(own);
      var i :| 0 <= i < |rows| && rows[i] == r;
      assert mine[i] == ToListed(r, t);
    }
  }

  /** The profile shows the newest artifact first. */
  lemma MyArtifactsNewestFirst(t: Tables, user: UserId)
    ensures var mine := MyArtifacts(t, user);
      forall i, j :: 0 <= i < j < |mine| ==> mine[i].row.createdAt >= mine[j].row.createdAt
  {
    var own := Filter(t.artifacts, OwnedBy(user));
    var mine := MyArtifacts(t, user);
    NewerOrSameIsTotalPreorder();
    SortIsSorted(own, NewerOrSame);
    forall i, j | 0 <= i < j < |mine| ensures mine[i].row.createdAt >= mine[j].row.createdAt {
      assert NewerOrSame(NewestFirst(own)[i], NewestFirst(own)[j]);
    }
  }

  /** The "Total Votes" figure adds up the vote count of every own artifact, whatever their order. */
  lemma TotalVotesOfOwn(t: Tables, user: UserId)
    ensures SumVotes(MyArtifacts(t, user)) == SumVotes(ListAll(Filter(t.artifacts, OwnedBy(user)), t))
  {
    var own := Filter(t.artifacts, OwnedBy(user));
    var rows := NewestFirst(own);
    SortIsPermutation(own, NewerOrSame);
    ListAllPermutation(rows, own, t);
    SumVotesPermutation(MyArtifacts(t, user), ListAll(own, t));
  }

  /**
   * The two figures of a loaded profile: "Artifacts" is the number of the user's rows and
   * "Total Votes" the order-free vote sum over them.
   */
  lemma LoadedFigures(p: MyProfile, t: Tables, user: UserId)
    requires p.myArtifacts == MyArtifacts(t, user)
    ensures p.ArtifactCount() == |Filter(t.artifacts, OwnedBy(user))|
    ensures p.TotalVotes() == SumVotes(ListAll(Filter(t.artifacts, OwnedBy(user)), t))
  {
    TotalVotesOfOwn(t, user);
  }

  /** A cascade the backend accepts in full leaves no row of any table referring to the artifact. */
  lemma AcceptedCascadeForgetsArtifact(t: Tables, id: ArtifactId)
    ensures !Mentions(ProfileCascade(t, id, {}), id)
    ensures forall other :: other != id ==>
      && ValuesFor(ProfileCascade(t, id, {}).favorites, other) == ValuesFor(t.favorites, other)
      && ValuesFor(ProfileCascade(t, id, {}).votes, other) == ValuesFor(t.votes, other)
  {
    var after := ProfileCascade(t, id, {});
    forall r | r in after.artifacts ensures r.id != id {
      DropArtifactMembership(t.artifacts, id, r);
    }
    ValuesForDropFor(t.subjects, id, id);
    ValuesForDropFor(t.keyStages, id, id);
    ValuesForDropFor(t.votes, id, id);
    ValuesForDropFor(t.favorites, id, id);
    forall other | other != id
      ensures ValuesFor(after.favorites, other) == ValuesFor(t.favorites, other)
      ensures ValuesFor(after.votes, other) == ValuesFor(t.votes, other)
    {
      ValuesForDropFor(t.favorites, id, other);
      ValuesForDropFor(t.votes, id, other);
    }
  }
}
