/**
 * The submit form's write sequence (src/components/SubmitArtifact.jsx, `handleSubmit`):
 * check the URL and the screenshot, upload the screenshot, insert the artifact row,
 * then its subject rows and its key-stage rows. The first rejected request stops the
 * sequence; what was written before it stays.
 */
module SubmitArtifact {
  import opened Optional
  import opened Store
  import opened Forms

  const SubmitUrlMessage := "Please enter a valid Claude artifact URL (must start with https://claude.ai/public/artifacts/)"
  const ScreenshotMessage := "Please upload a screenshot"

  /**
   * The row writes of a submit: the artifact row gets the next id, then the tag rows
   * point at it; a rejected artifact insert writes no tags.
   */
  method WriteRows(db: Database, row: ArtifactRow, form: FormData, failing: set<Call>)
    returns (result: Result<ArtifactId, FormError>)
    requires db.Valid()
    modifies db`artifacts, db`artifactSubjects, db`artifactKeyStages, db`nextId, db`log
    ensures db.Valid()
    ensures Insert(Artifacts) in failing ==>
      && db.Snapshot() == old(db.Snapshot()) && db.nextId == old(db.nextId)
      && db.log == old(db.log) + [Insert(Artifacts)]
      && result == Failure(Rejected(Insert(Artifacts)))
    ensures Insert(Artifacts) !in failing ==>
      var issued := UpToFailure(TagCalls(form), failing);
      var id := old(db.nextId);
      && db.log == old(db.log) + [Insert(Artifacts)] + issued
      && db.artifacts == old(db.artifacts) + [row.(id := id)]
      && db.nextId == id + 1
      && db.artifactSubjects == old(db.artifactSubjects) + (if Done(Insert(ArtifactSubjects), issued, failing) then LinksTo(id, form.subjects) else [])
      && db.artifactKeyStages == old(db.artifactKeyStages) + (if Done(Insert(ArtifactKeyStages), issued, failing) then LinksTo(id, form.keyStages) else [])
      && result == if Completes(TagCalls(form), failing) then Success(id) else Failure(Rejected(issued[|issued| - 1]))
  {
    var newId := db.InsertArtifact(row, Insert(Artifacts) in failing);
    if newId.None? {
      return Failure(Rejected(Insert(Artifacts)));
    }
    var rejected := InsertTags(db, newId.value, form, failing);
    if rejected.Some? {
      return Failure(Rejected(rejected.value));
    }
    return Success(newId.value);
  }

  /**
   * `handleSubmit`. `hasScreenshot` says whether a file was chosen, `publicUrl` is the
   * public URL the store gives the uploaded file, `user` and `now` are the owner and
   * creation time the backend records, and `failing` holds the requests it rejects.
   * A failed check writes nothing; a rejected upload writes nothing more; otherwise the
   * screenshot is stored and the row writes run.
   */
  method HandleSubmit(db: Database, form: FormData, hasScreenshot: bool, user: UserId, now: int,
                      publicUrl: string, failing: set<Call>)
    returns (result: Result<ArtifactId, FormError>)
    requires db.Valid() && Submittable(form)
    modifies db`artifacts, db`artifactSubjects, db`artifactKeyStages, db`storage, db`nextId, db`log
    ensures db.Valid()
    ensures !AcceptedUrl(form.artifactUrl) ==> result == Failure(InvalidUrl(SubmitUrlMessage))
    ensures AcceptedUrl(form.artifactUrl) && !hasScreenshot ==> result == Failure(MissingScreenshot(ScreenshotMessage))
    ensures !AcceptedUrl(form.artifactUrl) || !hasScreenshot ==>
      && db.Snapshot() == old(db.Snapshot()) && db.storage == old(db.storage)
      && db.nextId == old(db.nextId) && db.log == old(db.log)
    ensures AcceptedUrl(form.artifactUrl) && hasScreenshot && Upload in failing ==>
      && db.Snapshot() == old(db.Snapshot()) && db.storage == old(db.storage) && db.nextId == old(db.nextId)
      && db.log == old(db.log) + [Upload]
      && result == Failure(Rejected(Upload))
    ensures AcceptedUrl(form.artifactUrl) && hasScreenshot && Upload !in failing ==>
      db.storage == old(db.storage) + [publicUrl]
    ensures AcceptedUrl(form.artifactUrl) && hasScreenshot && Upload !in failing && Insert(Artifacts) in failing ==>
      && db.Snapshot() == old(db.Snapshot()) && db.nextId == old(db.nextId)
      && db.log == old(db.log) + [Upload] + [Insert(Artifacts)]
      && result == Failure(Rejected(Insert(Artifacts)))
    ensures AcceptedUrl(form.artifactUrl) && hasScreenshot && Upload !in failing && Insert(Artifacts) !in failing ==>
      var issued := UpToFailure(TagCalls(form), failing);
      var id := old(db.nextId);
      && db.log == old(db.log) + [Upload] + [Insert(Artifacts)] + issued
      && db.artifacts == old(db.artifacts) + [NewRow(form, publicUrl, user, now).(id := id)]
      && db.nextId == id + 1
      && db.artifactSubjects == old(db.artifactSubjects) + (if Done(Insert(ArtifactSubjects), issued, failing) then LinksTo(id, form.subjects) else [])
      && db.artifactKeyStages == old(db.artifactKeyStages) + (if Done(Insert(ArtifactKeyStages), issued, failing) then LinksTo(id, form.keyStages) else [])
      && result == if Completes(TagCalls(form), failing) then Success(id) else Failure(Rejected(issued[|issued| - 1]))
  {
    if !AcceptedUrl(form.artifactUrl) {
      return Failure(InvalidUrl(SubmitUrlMessage));
    }
    if !hasScreenshot {
      return Failure(MissingScreenshot(ScreenshotMessage));
    }
    var ok := db.UploadScreenshot(publicUrl, Upload in failing);
    if !ok {
      return Failure(Rejected(Upload));
    }
    result := WriteRows(db, NewRow(form, publicUrl, user, now), form, failing);
  }

  /**
   * A submit whose tag inserts the backend accepts ends in `Success`, and the tables
   * `HandleSubmit` and `WriteRows` promise give the new artifact exactly the selected
   * subjects and key stages and change no other artifact's tags.
   */
  lemma AcceptedSubmitTags(t: Tables, nextId: ArtifactId, form: FormData, failing: set<Call>, other: ArtifactId)
    requires LinksBelow(t.subjects, nextId) && LinksBelow(t.keyStages, nextId)
    requires Insert(ArtifactSubjects) !in failing && Insert(ArtifactKeyStages) !in failing
    ensures Completes(TagCalls(form), failing)
    ensures var issued := UpToFailure(TagCalls(form), failing);
      ValuesFor(t.subjects + (if Done(Insert(ArtifactSubjects), issued, failing) then LinksTo(nextId, form.subjects) else []), other) ==
        if other == nextId then form.subjects else ValuesFor(t.subjects, other)
    ensures var issued := UpToFailure(TagCalls(form), failing);
      ValuesFor(t.keyStages + (if Done(Insert(ArtifactKeyStages), issued, failing) then LinksTo(nextId, form.keyStages) else []), other) ==
        if other == nextId then form.keyStages else ValuesFor(t.keyStages, other)
  {
    TagCallsOutcome(form, failing);
    TagsOfNewArtifact(t.subjects, nextId, form.subjects, other);
    TagsOfNewArtifact(t.keyStages, nextId, form.keyStages, other);
    assert LinksTo(nextId, form.subjects) == [] <== |form.subjects| == 0;
    assert LinksTo(nextId, form.keyStages) == [] <== |form.keyStages| == 0;
  }
}
