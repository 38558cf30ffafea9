/**
 * What the submit form (src/components/SubmitArtifact.jsx) and the edit form
 * (src/components/EditArtifactModal.jsx) share: the form data, the artifact URL check,
 * the checkbox toggles, the button enablement, the mapping of form fields to table
 * columns, and the rule that a write sequence stops at the first request whose error
 * it checks.
 */
module Forms {
  import opened Optional
  import opened Lists
  import opened Text
  import opened Vocabulary
  import opened Store

  datatype FormData = FormData(
    title: string,
    artifactUrl: string,
    description: string,
    firstPrompt: string,
    subjects: seq<Subject>,
    keyStages: seq<KeyStage>)

  /** The initial state of both forms. */
  const EmptyForm := FormData("", "", "", "", [], [])

  const ClaudeAiPrefix := "https://claude.ai/public/artifacts/"
  const ClaudeSitePrefix := "https://claude.site/artifacts/"

  /** Why a submit or a save stopped: a failed check, or a request the backend rejected. */
  datatype FormError = InvalidUrl(message: string) | MissingScreenshot(message: string) | Rejected(call: Call)

  /** The artifact URL starts with one of the two accepted prefixes. */
  predicate AcceptedUrl(url: string)
    ensures AcceptedUrl(url) ==> StartsWith(url, "https://claude.")
  {
    StartsWith(url, ClaudeAiPrefix) || StartsWith(url, ClaudeSitePrefix)
  }

  /**
   * The browser's own check before either form's submit handler runs: the title and the
   * artifact URL inputs are `required`, so neither is empty.
   */
  predicate Submittable(f: FormData)
  {
    f.title != "" && f.artifactUrl != ""
  }

  /** `handleSubjectToggle` of either form: toggle one subject, leave every other field as it was. */
  function ToggleSubject(f: FormData, s: Subject): (r: FormData)
    ensures s in r.subjects <==> s !in f.subjects
    ensures forall x :: x != s ==> (x in r.subjects <==> x in f.subjects)
    ensures r.(subjects := f.subjects) == f
  {
    forall x ensures x in Toggle(f.subjects, s) <==> (if x == s then s !in f.subjects else x in f.subjects) {
      ToggleMembership(f.subjects, s, x);
    }
    f.(subjects := Toggle(f.subjects, s))
  }

  /** `handleKeyStageToggle` of either form. */
  function ToggleKeyStage(f: FormData, k: KeyStage): (r: FormData)
    ensures k in r.keyStages <==> k !in f.keyStages
    ensures forall x :: x != k ==> (x in r.keyStages <==> x in f.keyStages)
    ensures r.(keyStages := f.keyStages) == f
  {
    forall x ensures x in Toggle(f.keyStages, k) <==> (if x == k then k !in f.keyStages else x in f.keyStages) {
      ToggleMembership(f.keyStages, k, x);
    }
    f.(keyStages := Toggle(f.keyStages, k))
  }

  /** The submit and save buttons: `disabled={loading || subjects empty || key stages empty}`. */
  predicate ButtonEnabled(loading: bool, f: FormData)
    ensures ButtonEnabled(loading, f) <==> !loading && !HintShown(f)
  {
    !(loading || |f.subjects| == 0 || |f.keyStages| == 0)
  }

  /** The submit form's hint under the button: shown while no subject or no key stage is ticked. */
  predicate HintShown(f: FormData)
    ensures HintShown(f) <==> (forall s :: s !in f.subjects) || (forall k :: k !in f.keyStages)
  {
    assert |f.subjects| > 0 ==> f.subjects[0] in f.subjects;
    assert |f.keyStages| > 0 ==> f.keyStages[0] in f.keyStages;
    |f.subjects| == 0 || |f.keyStages| == 0
  }

  /** The columns a save writes. An empty description or first prompt is stored as null. */
  function UpdateFrom(f: FormData, screenshotUrl: string): (u: ArtifactUpdate)
    ensures u.title == f.title && u.artifactUrl == f.artifactUrl && u.screenshotUrl == screenshotUrl
    ensures u.description.None? <==> f.description == ""
    ensures u.firstPrompt.None? <==> f.firstPrompt == ""
    ensures OrEmpty(u.description) == f.description && OrEmpty(u.firstPrompt) == f.firstPrompt
  {
    ArtifactUpdate(f.title, f.artifactUrl, NullIfEmpty(f.description), NullIfEmpty(f.firstPrompt), screenshotUrl)
  }

  /**
   * The row a submit inserts. `user` is the id the backend records as owner and `now`
   * the creation time; the id is given by the backend on insert.
   */
  function NewRow(f: FormData, screenshotUrl: string, user: UserId, now: int): (r: ArtifactRow)
    ensures r.votes == 0 && r.screenshotUrl == screenshotUrl && r.userId == user && r.createdAt == now
    ensures r.title == f.title && r.artifactUrl == f.artifactUrl
    ensures r.description.None? <==> f.description == ""
    ensures r.firstPrompt.None? <==> f.firstPrompt == ""
  {
    ApplyUpdate(ArtifactRow(0, "", "", None, None, "", user, now, 0), UpdateFrom(f, screenshotUrl))
  }

  /**
   * The edit form's initial data: null columns become empty fields, absent tag lists
   * become empty selections.
   */
  function InitForm(row: ArtifactRow, subjects: Option<seq<Subject>>, keyStages: Option<seq<KeyStage>>): (f: FormData)
    ensures f.subjects == (if subjects.Some? then subjects.value else [])
    ensures f.keyStages == (if keyStages.Some? then keyStages.value else [])
    ensures NullIfEmpty(f.description) == (if row.description == Some("") then None else row.description)
    ensures NullIfEmpty(f.firstPrompt) == (if row.firstPrompt == Some("") then None else row.firstPrompt)
  {
    StoredValueRoundTrip(row.description);
    StoredValueRoundTrip(row.firstPrompt);
    FormData(
      row.title,
      row.artifactUrl,
      OrEmpty(row.description),
      OrEmpty(row.firstPrompt),
      if subjects.Some? then subjects.value else [],
      if keyStages.Some? then keyStages.value else [])
  }

  /**
   * The requests a sequence actually issues: every planned request up to and including
   * the first one whose error stops it (a request in `stops`). The later ones never run.
   */
  function UpToFailure(calls: seq<Call>, stops: set<Call>): (r: seq<Call>)
    ensures |r| <= |calls| && r == calls[..|r|]
    ensures forall i :: 0 <= i < |r| - 1 ==> r[i] !in stops
    ensures |r| < |calls| ==> |r| > 0 && r[|r| - 1] in stops
    ensures Completes(calls, stops) <==> r == calls && (r == [] || r[|r| - 1] !in stops)
  {
    if calls == [] then []
    else if calls[0] in stops then [calls[0]]
    else [calls[0]] + UpToFailure(calls[1..], stops)
  }

  /** No request of the sequence is one that stops it. */
  predicate Completes(calls: seq<Call>, stops: set<Call>)
  {
    forall i :: 0 <= i < |calls| ==> calls[i] !in stops
  }

  /** Request `c` was issued and the backend accepted it. */
  predicate Done(c: Call, issued: seq<Call>, failing: set<Call>)
  {
    c in issued && c !in failing
  }

  /** The tag inserts both forms plan after their artifact write; an empty selection is not inserted. */
  function TagCalls(f: FormData): (calls: seq<Call>)
    ensures Insert(ArtifactSubjects) in calls <==> |f.subjects| > 0
    ensures Insert(ArtifactKeyStages) in calls <==> |f.keyStages| > 0
    ensures Upload !in calls && Insert(Artifacts) !in calls && Update(Artifacts) !in calls
    ensures Delete(ArtifactSubjects) !in calls && Delete(ArtifactKeyStages) !in calls
  {
    (if |f.subjects| > 0 then [Insert(ArtifactSubjects)] else [])
      + (if |f.keyStages| > 0 then [Insert(ArtifactKeyStages)] else [])
  }

  /**
   * How the planned tag inserts end: a rejected subject insert stops the sequence there;
   * otherwise every planned insert is issued, and the last one is the one that can fail.
   */
  lemma TagCallsOutcome(form: FormData, failing: set<Call>)
    ensures var calls := TagCalls(form);
      var stopsAtSubjects := |form.subjects| > 0 && Insert(ArtifactSubjects) in failing;
      var issued := UpToFailure(calls, failing);
      && issued == (if stopsAtSubjects then [Insert(ArtifactSubjects)] else calls)
      && (Completes(calls, failing) <==>
            !stopsAtSubjects && !(|form.keyStages| > 0 && Insert(ArtifactKeyStages) in failing))
      && (!Completes(calls, failing) ==>
            issued[|issued| - 1] == if stopsAtSubjects then Insert(ArtifactSubjects) else Insert(ArtifactKeyStages))
      && (Done(Insert(ArtifactSubjects), issued, failing) <==> |form.subjects| > 0 && Insert(ArtifactSubjects) !in failing)
      && (Done(Insert(ArtifactKeyStages), issued, failing) <==>
            !stopsAtSubjects && |form.keyStages| > 0 && Insert(ArtifactKeyStages) !in failing)
  {
    var calls := TagCalls(form);
    if |form.subjects| > 0 {
      assert calls[0] == Insert(ArtifactSubjects);
    }
  }

  /**
   * The tag inserts of either form for artifact `id`: subject rows, then key-stage rows,
   * each skipped for an empty selection; a rejected subject insert stops the key-stage
   * insert. `rejected` is the request that stopped the sequence, if any.
   */
  method InsertTags(db: Database, id: ArtifactId, form: FormData, failing: set<Call>) returns (rejected: Option<Call>)
    requires db.Valid() && id < db.nextId
    modifies db`artifactSubjects, db`artifactKeyStages, db`log
    ensures db.Valid()
    ensures var issued := UpToFailure(TagCalls(form), failing);
      && db.log == old(db.log) + issued
      && db.artifactSubjects == old(db.artifactSubjects) +
           (if Done(Insert(ArtifactSubjects), issued, failing) then LinksTo(id, form.subjects) else [])
      && db.artifactKeyStages == old(db.artifactKeyStages) +
           (if Done(Insert(ArtifactKeyStages), issued, failing) then LinksTo(id, form.keyStages) else [])
      && rejected == if Completes(TagCalls(form), failing) then None else Some(issued[|issued| - 1])
  {
    TagCallsOutcome(form, failing);
    rejected := None;
    var subjectsOk := true;
    if |form.subjects| > 0 {
      subjectsOk := db.InsertSubjects(id, form.subjects, Insert(ArtifactSubjects) in failing);
      if !subjectsOk {
        rejected := Some(Insert(ArtifactSubjects));
      }
    }
    if subjectsOk && |form.keyStages| > 0 {
      var ok := db.InsertKeyStages(id, form.keyStages, Insert(ArtifactKeyStages) in failing);
      if !ok {
        rejected := Some(Insert(ArtifactKeyStages));
      }
    }
  }

  // ----- lemmas -----

  /** One URL of each accepted shape passes the check. */
  lemma UrlExamplesAccepted()
    ensures AcceptedUrl("https://claude.ai/public/artifacts/1234-abcd")
    ensures AcceptedUrl("https://claude.site/artifacts/1234-abcd")
  {
    var ai := "https://claude.ai/public/artifacts/1234-abcd";
    var site := "https://claude.site/artifacts/1234-abcd";
    assert |ClaudeAiPrefix| == 35 && |ClaudeSitePrefix| == 30;
    assert ai[..35] == ClaudeAiPrefix;
    assert site[..30] == ClaudeSitePrefix;
  }

  /** A chat link, a plain-http link and an empty field are turned away. */
  lemma UrlExamplesRejected()
    ensures !AcceptedUrl("https://claude.ai/chat/1234-abcd")
    ensures !AcceptedUrl("http://claude.ai/public/artifacts/1234-abcd")
    ensures !AcceptedUrl("")
  {
    var http := "http://claude.ai/public/artifacts/1234-abcd";
    var chat := "https://claude.ai/chat/1234-abcd";
    assert |ClaudeAiPrefix| == 35 && |ClaudeSitePrefix| == 30;
    assert ClaudeAiPrefix[4] == 's' && ClaudeSitePrefix[4] == 's';
    assert |chat| == 32 && chat[15] == 'a' && ClaudeSitePrefix[15] == 's';
    assert chat[..30][15] == chat[15];
    assert http[4] == ':';
    assert http[..35][4] == http[4] && http[..30][4] == http[4];
  }

  /**
   * Saving an edit form that was initialised from a row and left untouched, without a
   * new screenshot, writes the row back unchanged, except that an empty description or
   * first prompt becomes null.
   */
  lemma UntouchedEditRoundTrip(row: ArtifactRow, subjects: Option<seq<Subject>>, keyStages: Option<seq<KeyStage>>)
    ensures ApplyUpdate(row, UpdateFrom(InitForm(row, subjects, keyStages), row.screenshotUrl)) ==
      row.(description := if row.description == Some("") then None else row.description,
           firstPrompt := if row.firstPrompt == Some("") then None else row.firstPrompt)
  {
  }

  /**
   * A new artifact's tag rows: appending one row per selected value for a fresh id
   * gives that id exactly the selection, and every other artifact its old tags.
   */
  lemma {:induction false} TagsOfNewArtifact<V>(rows: seq<Link<V>>, id: ArtifactId, values: seq<V>, other: ArtifactId)
    requires LinksBelow(rows, id)
    ensures ValuesFor(rows + LinksTo(id, values), other) ==
      if other == id then values else ValuesFor(rows, other)
  {
    ValuesForAppend(rows, LinksTo(id, values), other);
    ValuesForLinksTo(id, values, other);
    if other == id {
      ValuesForAbove(rows, id, id);
    }
  }

  /**
   * An edit's tag rows: deleting the artifact's rows and appending one per selected
   * value gives it exactly the selection; every other artifact keeps its tags.
   */
  lemma {:induction false} TagsReplaced<V>(rows: seq<Link<V>>, id: ArtifactId, values: seq<V>, other: ArtifactId)
    ensures ValuesFor(DropFor(rows, id) + LinksTo(id, values), other) ==
      if other == id then values else ValuesFor(rows, other)
  {
    ValuesForAppend(DropFor(rows, id), LinksTo(id, values), other);
    ValuesForLinksTo(id, values, other);
    ValuesForDropFor(rows, id, other);
  }

  /** If the delete is rejected but the insert accepted, the selection is added to the old tags, not put in their place. */
  lemma {:induction false} TagsAddedWhenDeleteRejected<V>(rows: seq<Link<V>>, id: ArtifactId, values: seq<V>)
    ensures ValuesFor(rows + LinksTo(id, values), id) == ValuesFor(rows, id) + values
  {
    ValuesForAppend(rows, LinksTo(id, values), id);
    ValuesForLinksTo(id, values, id);
  }
}
