/**
 * The edit form's save (src/components/EditArtifactModal.jsx, `handleSubmit`): check
 * the URL, upload a new screenshot if one was chosen, update the artifact's columns,
 * delete its subject and key-stage rows, then insert the selected ones. Errors of the
 * two deletes are not checked; every other rejected request stops the save.
 */
module EditArtifact {
  import opened Optional
  import opened Lists
  import opened Store
  import opened Forms

  const EditUrlMessage := "Please enter a valid Claude artifact URL"

  /**
   * Replace the tags of artifact `id` with the selection: both deletes are issued and
   * their errors ignored, then the tag inserts run. `rejected` is the insert that
   * stopped the sequence, if any.
   */
  method ReplaceTags(db: Database, id: ArtifactId, form: FormData, failing: set<Call>) returns (rejected: Option<Call>)
    requires db.Valid() && id < db.nextId
    modifies db`artifactSubjects, db`artifactKeyStages, db`log
    ensures db.Valid()
    ensures var issued := UpToFailure(TagCalls(form), failing);
      var subjectsLeft := if Delete(ArtifactSubjects) in failing then old(db.artifactSubjects) else DropFor(old(db.artifactSubjects), id);
      var keyStagesLeft := if Delete(ArtifactKeyStages) in failing then old(db.artifactKeyStages) else DropFor(old(db.artifactKeyStages), id);
      && db.log == old(db.log) + [Delete(ArtifactSubjects), Delete(ArtifactKeyStages)] + issued
      && db.artifactSubjects == subjectsLeft + (if Done(Insert(ArtifactSubjects), issued, failing) then LinksTo(id, form.subjects) else [])
      && db.artifactKeyStages == keyStagesLeft + (if Done(Insert(ArtifactKeyStages), issued, failing) then LinksTo(id, form.keyStages) else [])
      && rejected == if Completes(TagCalls(form), failing) then None else Some(issued[|issued| - 1])
  {
    var subjectsCleared := db.DeleteSubjectsOf(id, Delete(ArtifactSubjects) in failing);
    var keyStagesCleared := db.DeleteKeyStagesOf(id, Delete(ArtifactKeyStages) in failing);
    AppendAssociative(old(db.log), [Delete(ArtifactSubjects)], [Delete(ArtifactKeyStages)]);
    rejected := InsertTags(db, id, form, failing);
  }

  /**
   * The writes of a save after the upload: update the columns of artifact `id` with
   * `u`; if that goes through, replace its tags.
   */
  method Save(db: Database, id: ArtifactId, u: ArtifactUpdate, form: FormData, failing: set<Call>)
    returns (error: Option<FormError>)
    requires db.Valid() && id < db.nextId
    modifies db`artifacts, db`artifactSubjects, db`artifactKeyStages, db`log
    ensures db.Valid()
    ensures Update(Artifacts) in failing ==>
      && error == Some(Rejected(Update(Artifacts)))
      && db.Snapshot() == old(db.Snapshot()) && db.log == old(db.log) + [Update(Artifacts)]
    ensures Update(Artifacts) !in failing ==>
      var issued := UpToFailure(TagCalls(form), failing);
      var subjectsLeft := if Delete(ArtifactSubjects) in failing then old(db.artifactSubjects) else DropFor(old(db.artifactSubjects), id);
      var keyStagesLeft := if Delete(ArtifactKeyStages) in failing then old(db.artifactKeyStages) else DropFor(old(db.artifactKeyStages), id);
      && db.artifacts == UpdateRows(old(db.artifacts), id, u)
      && db.log == old(db.log) + [Update(Artifacts), Delete(ArtifactSubjects), Delete(ArtifactKeyStages)] + issued
      && db.artifactSubjects == subjectsLeft + (if Done(Insert(ArtifactSubjects), issued, failing) then LinksTo(id, form.subjects) else [])
      && db.artifactKeyStages == keyStagesLeft + (if Done(Insert(ArtifactKeyStages), issued, failing) then LinksTo(id, form.keyStages) else [])
      && error == if Completes(TagCalls(form), failing) then None else Some(Rejected(issued[|issued| - 1]))
  {
    var updated := db.UpdateArtifact(id, u, Update(Artifacts) in failing);
    if !updated {
      return Some(Rejected(Update(Artifacts)));
    }
    var rejected := ReplaceTags(db, id, form, failing);
    ghost var issued := UpToFailure(TagCalls(form), failing);
    AppendAssociative(old(db.log), [Update(Artifacts)], [Delete(ArtifactSubjects), Delete(ArtifactKeyStages)]);
    assert [Update(Artifacts)] + [Delete(ArtifactSubjects), Delete(ArtifactKeyStages)]
      == [Update(Artifacts), Delete(ArtifactSubjects), Delete(ArtifactKeyStages)];
    error := if rejected.Some? then Some(Rejected(rejected.value)) else None;
  }

  /**
   * `handleSubmit` for the loaded `artifact`. `newScreenshot` says whether a new file
   * was chosen, `publicUrl` is the public URL the store gives it, and `failing` holds
   * the requests the backend rejects. `error` is what the form shows; none means the
   * save went through. The columns are saved with the new screenshot's URL, or the
   * artifact's own when no file was chosen.
   */
  method HandleSubmit(db: Database, artifact: ArtifactRow, form: FormData, newScreenshot: bool,
                      publicUrl: string, failing: set<Call>)
    returns (error: Option<FormError>)
    requires db.Valid() && artifact.id < db.nextId && Submittable(form)
    modifies db`artifacts, db`artifactSubjects, db`artifactKeyStages, db`storage, db`log
    ensures db.Valid()
    ensures !AcceptedUrl(form.artifactUrl) ==>
      && error == Some(InvalidUrl(EditUrlMessage))
      && db.Snapshot() == old(db.Snapshot()) && db.storage == old(db.storage) && db.log == old(db.log)
    ensures AcceptedUrl(form.artifactUrl) ==>
      db.storage == old(db.storage) + (if newScreenshot && Upload !in failing then [publicUrl] else [])
    ensures AcceptedUrl(form.artifactUrl) && newScreenshot && Upload in failing ==>
      && error == Some(Rejected(Upload))
      && db.Snapshot() == old(db.Snapshot()) && db.log == old(db.log) + [Upload]
    ensures AcceptedUrl(form.artifactUrl) && !(newScreenshot && Upload in failing) ==>
      var u := UpdateFrom(form, if newScreenshot then publicUrl else artifact.screenshotUrl);
      var issued := UpToFailure(TagCalls(form), failing);
      var subjectsLeft := if Delete(ArtifactSubjects) in failing then old(db.artifactSubjects) else DropFor(old(db.artifactSubjects), artifact.id);
      var keyStagesLeft := if Delete(ArtifactKeyStages) in failing then old(db.artifactKeyStages) else DropFor(old(db.artifactKeyStages), artifact.id);
      var uploads := if newScreenshot then [Upload] else [];
      && (Update(Artifacts) in failing ==>
            && error == Some(Rejected(Update(Artifacts)))
            && db.Snapshot() == old(db.Snapshot()) && db.log == old(db.log) + uploads + [Update(Artifacts)])
      && (Update(Artifacts) !in failing ==>
            && db.artifacts == UpdateRows(old(db.artifacts), artifact.id, u)
            && db.log == old(db.log) + uploads + [Update(Artifacts), Delete(ArtifactSubjects), Delete(ArtifactKeyStages)] + issued
            && db.artifactSubjects == subjectsLeft + (if Done(Insert(ArtifactSubjects), issued, failing) then LinksTo(artifact.id, form.subjects) else [])
            && db.artifactKeyStages == keyStagesLeft + (if Done(Insert(ArtifactKeyStages), issued, failing) then LinksTo(artifact.id, form.keyStages) else [])
            && error == if Completes(TagCalls(form), failing) then None else Some(Rejected(issued[|issued| - 1])))
  {
    if !AcceptedUrl(form.artifactUrl) {
      return Some(InvalidUrl(EditUrlMessage));
    }
    var screenshotUrl := artifact.screenshotUrl;
    if newScreenshot {
      var uploaded := db.UploadScreenshot(publicUrl, Upload in failing);
      if !uploaded {
        return Some(Rejected(Upload));
      }
      screenshotUrl := publicUrl;
    }
    ghost var uploads := if newScreenshot then [Upload] else [];
    assert db.log == old(db.log) + uploads;
    error := Save(db, artifact.id, UpdateFrom(form, screenshotUrl), form, failing);
  }

  /**
   * A save whose tag inserts the backend accepts, after accepted tag deletes, ends without
   * an error, and the tables `Save` and `HandleSubmit` promise leave the artifact with
   * exactly the selected subjects and key stages and change no other artifact's tags.
   */
  lemma AcceptedSaveTags(t: Tables, id: ArtifactId, form: FormData, failing: set<Call>, other: ArtifactId)
    requires Insert(ArtifactSubjects) !in failing && Insert(ArtifactKeyStages) !in failing
    ensures Completes(TagCalls(form), failing)
    ensures var issued := UpToFailure(TagCalls(form), failing);
      ValuesFor(DropFor(t.subjects, id) + (if Done(Insert(ArtifactSubjects), issued, failing) then LinksTo(id, form.subjects) else []), other) ==
        if other == id then form.subjects else ValuesFor(t.subjects, other)
    ensures var issued := UpToFailure(TagCalls(form), failing);
      ValuesFor(DropFor(t.keyStages, id) + (if Done(Insert(ArtifactKeyStages), issued, failing) then LinksTo(id, form.keyStages) else []), other) ==
        if other == id then form.keyStages else ValuesFor(t.keyStages, other)
  {
    TagCallsOutcome(form, failing);
    TagsReplaced(t.subjects, id, form.subjects, other);
    TagsReplaced(t.keyStages, id, form.keyStages, other);
    assert LinksTo(id, form.subjects) == [] <== |form.subjects| == 0;
    assert LinksTo(id, form.keyStages) == [] <== |form.keyStages| == 0;
  }
}
