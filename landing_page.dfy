/**
 * The landing page (src/components/LandingPage.jsx): the six newest artifacts ranked
 * by votes, the carousel over the first three of them, the contributor statistics,
 * the vote total, the subject colours of the cards, and the typewriter headline.
 */
module LandingPage {
  import opened Optional
  import opened Lists
  import opened Sorting
  import opened Text
  import opened Vocabulary
  import opened Store
  import opened Catalog

  /** How many artifacts `fetchTopArtifacts` asks for. */
  const TopLimit := 6
  /** How many of them the carousel shows. */
  const FeaturedLimit := 3

  function Min(a: int, b: int): int
  {
    if a <= b then a else b
  }

  // ----- top artifacts -----

  /** The comparator `(a, b) => b.voteCount - a.voteCount`: `a` may stay before `b` when it has at least as many votes. */
  predicate MoreVotesFirst(a: Listed, b: Listed)
  {
    a.voteCount >= b.voteCount
  }

  /** The rows `order('created_at', { ascending: false }).limit(6)` returns. */
  function NewestRows(t: Tables): (r: seq<ArtifactRow>)
    ensures |r| == Min(TopLimit, |t.artifacts|)
  {
    var all := NewestFirst(t.artifacts);
    all[..Min(TopLimit, |all|)]
  }

  /** `fetchTopArtifacts`: the newest rows with their tags and vote counts, then sorted by votes. */
  function TopArtifacts(t: Tables): (r: seq<Listed>)
    ensures |r| == Min(TopLimit, |t.artifacts|)
  {
    Sort(ListAll(NewestRows(t), t), MoreVotesFirst)
  }

  /** `topArtifacts.slice(0, 3)`. */
  function Featured(top: seq<Listed>): (r: seq<Listed>)
    ensures |r| == Min(FeaturedLimit, |top|)
    ensures forall i :: 0 <= i < |r| ==> r[i] == top[i]
  {
    top[..Min(FeaturedLimit, |top|)]
  }

  /** The carousel's step `(prev + 1) % Math.min(topArtifacts.length, 3)`, run only when the list is not empty. */
  function NextIndex(prev: nat, n: nat): (r: nat)
    requires n > 0
    ensures r < Min(n, FeaturedLimit)
    ensures prev + 1 < Min(n, FeaturedLimit) ==> r == prev + 1
    ensures prev + 1 == Min(n, FeaturedLimit) ==> r == 0
  {
    (prev + 1) % Min(n, FeaturedLimit)
  }

  /** The user ids of the artifact rows, as `contributors.map(a => a.user_id)`. */
  function UserIds(rows: seq<ArtifactRow>): (r: seq<UserId>)
    ensures |r| == |rows|
    ensures forall i :: 0 <= i < |rows| ==> r[i] == rows[i].userId
  {
    seq(|rows|, i requires 0 <= i < |rows| => rows[i].userId)
  }

  // ----- subject colours -----

  const DefaultColor := "bg-#2C5F2D"
  const DefaultColorLight := "bg-indigo-50/40"

  /** The colour map of `getSubjectColor`, keyed by subject name. */
  const ColorMap := map[
    "Physics" := "bg-blue-500",
    "Mathematics" := "bg-amber-500",
    "Biology" := "bg-emerald-500",
    "Chemistry" := "bg-purple-500",
    "English" := "bg-pink-500",
    "Computer Science" := "bg-#2C5F2D"]

  /** The colour map of `getSubjectColorLight`. */
  const ColorMapLight := map[
    "Physics" := "bg-blue-50/40",
    "Mathematics" := "bg-amber-50/40",
    "Biology" := "bg-emerald-50/40",
    "Chemistry" := "bg-purple-50/40",
    "English" := "bg-pink-50/40",
    "Computer Science" := "bg-indigo-50/40"]

  /** The subjects whose cards get a colour of their own. */
  predicate Colored(s: Subject)
  {
    s == Physics || s == Mathematics || s == Biology || s == Chemistry
  }

  /** `getSubjectColor`: the colour of the first subject, the default for no subject or an unmapped one. */
  function SubjectColor(subjects: seq<Subject>): (c: string)
    ensures c == DefaultColor <==> |subjects| == 0 || !Colored(subjects[0])
  {
    if |subjects| == 0 then DefaultColor
    else
      var name := SubjectName(subjects[0]);
      if name in ColorMap then ColorMap[name] else DefaultColor
  }

  /** `getSubjectColorLight`: the same choice from the light map. */
  function SubjectColorLight(subjects: seq<Subject>): (c: string)
    ensures c == DefaultColorLight <==> |subjects| == 0 || !Colored(subjects[0])
  {
    if |subjects| == 0 then DefaultColorLight
    else
      var name := SubjectName(subjects[0]);
      if name in ColorMapLight then ColorMapLight[name] else DefaultColorLight
  }

  // ----- the page -----

  class LandingPage {
    var topArtifacts: seq<Listed>
    var loading: bool
    var activeAppletIndex: nat
    var artifactCount: nat
    var contributorCount: nat
    var teacherCount: nat

    constructor ()
      ensures topArtifacts == [] && loading && activeAppletIndex == 0
      ensures artifactCount == 0 && contributorCount == 0 && teacherCount == 0
    {
      topArtifacts, loading, activeAppletIndex := [], true, 0;
      artifactCount, contributorCount, teacherCount := 0, 0, 0;
    }

    /** `featuredArtifacts[activeAppletIndex] || {}`: nothing when the index is past the featured list. */
    function ActiveArtifact(): (a: Option<Listed>)
      reads this
      ensures a.Some? <==> activeAppletIndex < |Featured(topArtifacts)|
      ensures a.Some? ==> a.value == topArtifacts[activeAppletIndex]
    {
      var featured := Featured(topArtifacts);
      if activeAppletIndex < |featured| then Some(featured[activeAppletIndex]) else None
    }

    /** The "Community Votes" figure: the votes of the top artifacts added up. */
    function VoteTotal(): (r: nat)
      reads this
      ensures r == 0 <==> forall i :: 0 <= i < |topArtifacts| ==> topArtifacts[i].voteCount == 0
    {
      SumVotes(topArtifacts)
    }

    /** `fetchTopArtifacts` against the current tables; loading ends. */
    method FetchTopArtifacts(db: Database)
      modifies this`topArtifacts, this`loading
      ensures topArtifacts == TopArtifacts(db.Snapshot()) && !loading
    {
      var rows := NewestRows(db.Snapshot());
      var listed := ListAll(rows, db.Snapshot());
      topArtifacts := Sort(listed, MoreVotesFirst);
      loading := false;
    }

    /**
     * `fetchStats`: the number of artifacts and the number of distinct contributors,
     * which also stands in for the number of teachers.
     */
    method FetchStats(db: Database)
      modifies this`artifactCount, this`contributorCount, this`teacherCount
      ensures artifactCount == |db.artifacts|
      ensures contributorCount == |set r | r in db.artifacts :: r.userId|
      ensures teacherCount == contributorCount <= artifactCount
    {
      var ids := UserIds(db.artifacts);
      DistinctSize(ids);
      assert (set x | x in ids) == (set r | r in db.artifacts :: r.userId) by {
        forall x | x in ids ensures exists r :: r in db.artifacts && r.userId == x {
          var i :| 0 <= i < |ids| && ids[i] == x;
          assert db.artifacts[i] in db.artifacts;
        }
        forall r | r in db.artifacts ensures r.userId in ids {
          var i :| 0 <= i < |db.artifacts| && db.artifacts[i] == r;
          assert ids[i] == r.userId;
        }
      }
      artifactCount := |db.artifacts|;
      contributorCount := |Distinct(ids)|;
      teacherCount := contributorCount;
    }

    /** One tick of the carousel timer; no timer runs while the list is empty. */
    method Rotate()
      modifies this`activeAppletIndex
      ensures topArtifacts == [] ==> activeAppletIndex == old(activeAppletIndex)
      ensures topArtifacts != [] ==>
        && activeAppletIndex == NextIndex(old(activeAppletIndex), |topArtifacts|)
        && ActiveArtifact().Some?
    {
      if |topArtifacts| > 0 {
        activeAppletIndex := NextIndex(activeAppletIndex, |topArtifacts|);
      }
    }

    /** A click on pagination dot `idx`; a dot is drawn for each featured artifact. */
    method SelectApplet(idx: nat)
      requires idx < |Featured(topArtifacts)|
      modifies this`activeAppletIndex
      ensures activeAppletIndex == idx
      ensures ActiveArtifact() == Some(topArtifacts[idx])
    {
      activeAppletIndex := idx;
    }
  }

  // ----- typewriter -----

  const Phrases := ["built by teachers", "designed for the future", "shared for you"]
  const InitialSpeed := 150
  const TypingSpeed := 120
  const DeletingSpeed := 40

  /** The typewriter headline: the shown text, the direction, the phrase counter and the step delay. */
  class Typewriter {
    var text: string
    var isDeleting: bool
    var loopNum: nat
    var typingSpeed: nat

    /** The phrase being typed: `phrases[loopNum % phrases.length]`. */
    function Phrase(): string
      reads this
    {
      Phrases[loopNum % |Phrases|]
    }

    /** The shown text is always a prefix of the current phrase. */
    ghost predicate Valid()
      reads this
    {
      StartsWith(Phrase(), text)
    }

    constructor ()
      ensures Valid()
      ensures text == "" && !isDeleting && loopNum == 0 && typingSpeed == InitialSpeed
    {
      text, isDeleting, loopNum, typingSpeed := "", false, 0, InitialSpeed;
    }

    /**
     * `handleType`: one character more while typing, one fewer while deleting. A fully
     * typed phrase schedules the switch to deleting (`pauseScheduled`); an emptied
     * text moves on to the next phrase.
     */
    method HandleType() returns (pauseScheduled: bool)
      requires Valid()
      modifies this
      ensures Valid()
      ensures text == Substring0(old(Phrase()), if old(isDeleting) then |old(text)| - 1 else |old(text)| + 1)
      ensures !old(isDeleting) && old(text) != old(Phrase()) ==> |text| == |old(text)| + 1
      ensures old(isDeleting) && old(text) != "" ==> |text| == |old(text)| - 1
      ensures typingSpeed == if old(isDeleting) then DeletingSpeed else TypingSpeed
      ensures pauseScheduled <==> !old(isDeleting) && old(text) == old(Phrase())
      ensures old(isDeleting) && old(text) == "" ==> !isDeleting && loopNum == old(loopNum) + 1
      ensures !(old(isDeleting) && old(text) == "") ==> isDeleting == old(isDeleting) && loopNum == old(loopNum)
    {
      var fullText := Phrases[loopNum % |Phrases|];
      var previous := text;
      text := Substring0(fullText, if isDeleting then |previous| - 1 else |previous| + 1);
      typingSpeed := if isDeleting then DeletingSpeed else TypingSpeed;
      pauseScheduled := false;
      if !isDeleting && previous == fullText {
        pauseScheduled := true;
      } else if isDeleting && previous == "" {
        isDeleting := false;
        loopNum := loopNum + 1;
      }
    }

    /** The pause timer set by a fully typed phrase fires: deleting starts. */
    method StartDeleting()
      requires Valid()
      modifies this`isDeleting
      ensures Valid() && isDeleting
    {
      isDeleting := true;
    }
  }

  // ----- lemmas -----

  lemma MoreVotesFirstIsTotalPreorder()
    ensures TotalPreorder(MoreVotesFirst)
  {
  }

  /**
   * The top artifacts are the newest `min(6, n)` rows, each with its tags and vote
   * count, ranked by votes; artifacts with equal counts stay newest first.
   */
  lemma TopArtifactsRanked(t: Tables)
    ensures var top := TopArtifacts(t);
      && |top| == Min(TopLimit, |t.artifacts|)
      && multiset(top) == multiset(ListAll(NewestRows(t), t))
      && (forall i, j :: 0 <= i < j < |top| ==> top[i].voteCount >= top[j].voteCount)
      && (forall e :: TiedWith(top, e, MoreVotesFirst) == TiedWith(ListAll(NewestRows(t), t), e, MoreVotesFirst))
  {
    var listed := ListAll(NewestRows(t), t);
    SortIsPermutation(listed, MoreVotesFirst);
    MoreVotesFirstIsTotalPreorder();
    SortIsSorted(listed, MoreVotesFirst);
    forall e ensures TiedWith(TopArtifacts(t), e, MoreVotesFirst) == TiedWith(listed, e, MoreVotesFirst) {
      SortIsStable(listed, e, MoreVotesFirst);
    }
  }

  /** Each top artifact is built from one of the newest rows. */
  lemma TopArtifactSource(t: Tables, l: Listed) returns (i: nat)
    requires l in TopArtifacts(t)
    ensures i < |NewestRows(t)| && l == ToListed(NewestRows(t)[i], t)
  {
    SortIsPermutation(ListAll(NewestRows(t), t), MoreVotesFirst);
    assert l in multiset(TopArtifacts(t));
    assert l in ListAll(NewestRows(t), t);
    i :| 0 <= i < |NewestRows(t)| && l == ToListed(NewestRows(t)[i], t);
  }

  /**
   * Every top artifact is one of the stored artifacts, listed with its own tags and
   * vote count, and no artifact left out is newer than one shown.
   */
  lemma TopArtifactsAreNewest(t: Tables)
    ensures forall l :: l in TopArtifacts(t) ==> l == ToListed(l.row, t) && l.row in t.artifacts
    ensures forall l, r :: l in TopArtifacts(t) && r in NewestFirst(t.artifacts)[|NewestRows(t)|..] ==>
      l.row.createdAt >= r.createdAt
  {
    var rows := NewestRows(t);
    var all := NewestFirst(t.artifacts);
    SortIsPermutation(t.artifacts, NewerOrSame);
    NewerOrSameIsTotalPreorder();
    SortIsSorted(t.artifacts, NewerOrSame);
    forall l | l in TopArtifacts(t) ensures l == ToListed(l.row, t) && l.row in t.artifacts {
      var i := TopArtifactSource(t, l);
      assert rows[i] == all[i] && all[i] in multiset(all);
    }
    forall l, r | l in TopArtifacts(t) && r in all[|rows|..] ensures l.row.createdAt >= r.createdAt {
      var i := TopArtifactSource(t, l);
      var k :| 0 <= k < |all[|rows|..]| && all[|rows|..][k] == r;
      assert all[i] == rows[i] && all[|rows| + k] == r;
    }
  }

  /** Ranking by votes does not change the vote total shown under "Community Votes". */
  lemma VoteTotalOfNewest(t: Tables)
    ensures SumVotes(TopArtifacts(t)) == SumVotes(ListAll(NewestRows(t), t))
  {
    SortIsPermutation(ListAll(NewestRows(t), t), MoreVotesFirst);
    SumVotesPermutation(TopArtifacts(t), ListAll(NewestRows(t), t));
  }

  /** A card's colours depend on its first subject alone; later subjects never matter. */
  lemma SubjectColorOfFirst(subjects: seq<Subject>)
    requires |subjects| > 0
    ensures SubjectColor(subjects) == SubjectColor([subjects[0]])
    ensures SubjectColorLight(subjects) == SubjectColorLight([subjects[0]])
  {
  }

  /** The four coloured subjects are told apart: distinct ones never share a colour, strong or light. */
  lemma ColoredSubjectsDistinct(a: Subject, b: Subject)
    requires Colored(a) && Colored(b) && a != b
    ensures SubjectColor([a]) != SubjectColor([b])
    ensures SubjectColorLight([a]) != SubjectColorLight([b])
  {
  }

  /** The colour maps' "English" key is no subject's name, so that entry is never used. */
  lemma EnglishColorUnused(s: Subject)
    ensures SubjectName(s) != "English"
  {
  }
}
