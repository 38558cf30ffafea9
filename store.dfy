/**
 * The hosted backend, as an in-memory database: the tables `artifacts`,
 * `artifact_subjects`, `artifact_key_stages`, `votes` and `favorites`, the object
 * store holding screenshots, and a log of the write requests the application issues.
 * A request the backend rejects changes nothing; the caller decides whether to look
 * at the error.
 */
module Store {
  import opened Optional
  import opened Vocabulary

  type ArtifactId = nat
  type UserId = string

  /** A row of `artifacts`. `votes` is a column that is written once and never read. */
  datatype ArtifactRow = ArtifactRow(
    id: ArtifactId,
    title: string,
    artifactUrl: string,
    description: Option<string>,
    firstPrompt: Option<string>,
    screenshotUrl: string,
    userId: UserId,
    createdAt: int,
    votes: int)

  /**
   * A row that links an artifact to a value: a subject (`artifact_subjects`), a key
   * stage (`artifact_key_stages`) or a user (`votes`, `favorites`).
   */
  datatype Link<V> = Link(artifactId: ArtifactId, value: V)

  type SubjectRow = Link<Subject>
  type KeyStageRow = Link<KeyStage>
  type UserRow = Link<UserId>

  datatype Table = Artifacts | ArtifactSubjects | ArtifactKeyStages | Votes | Favorites

  /** A write request: a screenshot upload or an insert, update or delete on a table. */
  datatype Call = Upload | Insert(table: Table) | Update(table: Table) | Delete(table: Table)

  /** The contents of all tables at one moment: what a read sees. */
  datatype Tables = Tables(
    artifacts: seq<ArtifactRow>,
    subjects: seq<SubjectRow>,
    keyStages: seq<KeyStageRow>,
    votes: seq<UserRow>,
    favorites: seq<UserRow>)

  // ----- queries on link tables -----

  /** The values linked to artifact `id`, in table order: an embedded select such as `artifact_subjects (subject)`. */
  function ValuesFor<V>(rows: seq<Link<V>>, id: ArtifactId): (r: seq<V>)
    ensures |r| <= |rows|
  {
    if rows == [] then []
    else (if rows[0].artifactId == id then [rows[0].value] else []) + ValuesFor(rows[1..], id)
  }

  /** The number of rows that reference `id`: `select('*', { count: 'exact' }).eq('artifact_id', id)`. */
  function CountFor<V>(rows: seq<Link<V>>, id: ArtifactId): nat
  {
    |ValuesFor(rows, id)|
  }

  /** The rows left by `delete().eq('artifact_id', id)`. */
  function DropFor<V>(rows: seq<Link<V>>, id: ArtifactId): (r: seq<Link<V>>)
    ensures |r| <= |rows|
  {
    if rows == [] then []
    else (if rows[0].artifactId == id then [] else [rows[0]]) + DropFor(rows[1..], id)
  }

  /** The rows left by `delete().eq('artifact_id', id).eq('user_id', u)`. */
  function DropLink<V(==)>(rows: seq<Link<V>>, id: ArtifactId, v: V): (r: seq<Link<V>>)
    ensures |r| <= |rows|
  {
    if rows == [] then []
    else (if rows[0] == Link(id, v) then [] else [rows[0]]) + DropLink(rows[1..], id, v)
  }

  /** `values.map(v => ({ artifact_id: id, value: v }))`: the rows of a batch insert. */
  function LinksTo<V>(id: ArtifactId, values: seq<V>): (r: seq<Link<V>>)
    ensures |r| == |values|
  {
    seq(|values|, i requires 0 <= i < |values| => Link(id, values[i]))
  }

  /** The rows left by `delete().eq('id', id)` on `artifacts`. */
  function DropArtifact(rows: seq<ArtifactRow>, id: ArtifactId): (r: seq<ArtifactRow>)
    ensures |r| <= |rows|
  {
    if rows == [] then []
    else (if rows[0].id == id then [] else [rows[0]]) + DropArtifact(rows[1..], id)
  }

  /** The columns an edit writes: `update({ title, artifact_url, description, first_prompt, screenshot_url })`. */
  datatype ArtifactUpdate = ArtifactUpdate(
    title: string,
    artifactUrl: string,
    description: Option<string>,
    firstPrompt: Option<string>,
    screenshotUrl: string)

  /** A row with the edited columns replaced; id, owner, creation time and `votes` are kept. */
  function ApplyUpdate(r: ArtifactRow, u: ArtifactUpdate): (e: ArtifactRow)
    ensures e.id == r.id && e.userId == r.userId && e.createdAt == r.createdAt && e.votes == r.votes
  {
    r.(title := u.title, artifactUrl := u.artifactUrl, description := u.description,
       firstPrompt := u.firstPrompt, screenshotUrl := u.screenshotUrl)
  }

  /** The rows left by `update(u).eq('id', id)`: every row with that id is edited, in place. */
  function UpdateRows(rows: seq<ArtifactRow>, id: ArtifactId, u: ArtifactUpdate): (r: seq<ArtifactRow>)
    ensures |r| == |rows|
    ensures forall i :: 0 <= i < |rows| ==> r[i].id == rows[i].id
    ensures forall i :: 0 <= i < |rows| && rows[i].id != id ==> r[i] == rows[i]
    ensures forall i :: 0 <= i < |rows| && rows[i].id == id ==>
      && r[i].title == u.title && r[i].artifactUrl == u.artifactUrl && r[i].screenshotUrl == u.screenshotUrl
      && r[i].description == u.description && r[i].firstPrompt == u.firstPrompt
      && r[i].userId == rows[i].userId && r[i].createdAt == rows[i].createdAt && r[i].votes == rows[i].votes
  {
    seq(|rows|, i requires 0 <= i < |rows| => if rows[i].id == id then ApplyUpdate(rows[i], u) else rows[i])
  }

  /** Some row of some table refers to artifact `id`. */
  predicate Mentions(t: Tables, id: ArtifactId)
  {
    || (exists r :: r in t.artifacts && r.id == id)
    || CountFor(t.subjects, id) > 0
    || CountFor(t.keyStages, id) > 0
    || CountFor(t.votes, id) > 0
    || CountFor(t.favorites, id) > 0
  }

  // ----- lemmas on link tables -----

  lemma {:induction false} ValuesForAppend<V>(a: seq<Link<V>>, b: seq<Link<V>>, id: ArtifactId)
    ensures ValuesFor(a + b, id) == ValuesFor(a, id) + ValuesFor(b, id)
  {
    if a == [] {
      assert a + b == b;
    } else {
      var ab := a + b;
      assert ab[0] == a[0];
      assert ab[1..] == a[1..] + b;
      ValuesForAppend(a[1..], b, id);
      var head := if a[0].artifactId == id then [a[0].value] else [];
      calc {
        ValuesFor(ab, id);
        head + ValuesFor(a[1..] + b, id);
        head + (ValuesFor(a[1..], id) + ValuesFor(b, id));
        (head + ValuesFor(a[1..], id)) + ValuesFor(b, id);
      }
    }
  }

  /** The rows of a batch insert are linked to exactly the inserted values, in order. */
  lemma {:induction false} ValuesForLinksTo<V>(id: ArtifactId, values: seq<V>, other: ArtifactId)
    ensures ValuesFor(LinksTo(id, values), other) == if other == id then values else []
  {
    if values != [] {
      ValuesForLinksTo(id, values[1..], other);
      assert LinksTo(id, values)[1..] == LinksTo(id, values[1..]);
    }
  }

  /** Deleting the rows of `id` leaves none for `id` and every other artifact's rows as they were. */
  lemma {:induction false} ValuesForDropFor<V>(rows: seq<Link<V>>, id: ArtifactId, other: ArtifactId)
    ensures ValuesFor(DropFor(rows, id), other) == if other == id then [] else ValuesFor(rows, other)
  {
    if rows != [] {
      ValuesForDropFor(rows[1..], id, other);
      if rows[0].artifactId != id {
        assert DropFor(rows, id) == [rows[0]] + DropFor(rows[1..], id);
        assert DropFor(rows, id)[1..] == DropFor(rows[1..], id);
      } else {
        assert DropFor(rows, id) == DropFor(rows[1..], id);
      }
    }
  }

  /** Deleting the rows equal to `Link(id, v)` leaves no such row and the other rows in their order. */
  lemma {:induction false} DropLinkMultiplicity<V>(rows: seq<Link<V>>, id: ArtifactId, v: V, x: Link<V>)
    ensures multiset(DropLink(rows, id, v))[x] == if x == Link(id, v) then 0 else multiset(rows)[x]
  {
    if rows != [] {
      DropLinkMultiplicity(rows[1..], id, v, x);
      assert rows == [rows[0]] + rows[1..];
    }
  }

  /** `DropLink` keeps a row that equals nothing deleted: with no matching row it is the identity. */
  lemma {:induction false} DropLinkAbsent<V>(rows: seq<Link<V>>, id: ArtifactId, v: V)
    requires Link(id, v) !in rows
    ensures DropLink(rows, id, v) == rows
  {
    if rows != [] {
      DropLinkAbsent(rows[1..], id, v);
      assert rows == [rows[0]] + rows[1..];
    }
  }

  /** Deleting the rows equal to `Link(id, v)` lowers the count for `id` by the number of those rows. */
  lemma {:induction false} CountForDropLink<V>(rows: seq<Link<V>>, id: ArtifactId, v: V)
    ensures CountFor(DropLink(rows, id, v), id) + multiset(rows)[Link(id, v)] == CountFor(rows, id)
  {
    if rows != [] {
      CountForDropLink(rows[1..], id, v);
      assert rows == [rows[0]] + rows[1..];
      if rows[0] != Link(id, v) {
        assert DropLink(rows, id, v) == [rows[0]] + DropLink(rows[1..], id, v);
        assert DropLink(rows, id, v)[1..] == DropLink(rows[1..], id, v);
      } else {
        assert DropLink(rows, id, v) == DropLink(rows[1..], id, v);
      }
    }
  }

  /** Deleting a row just appended to a table that held no equal row gives the table back. */
  lemma {:induction false} DropLinkUndoesAppend<V>(rows: seq<Link<V>>, id: ArtifactId, v: V)
    requires Link(id, v) !in rows
    ensures DropLink(rows + [Link(id, v)], id, v) == rows
  {
    if rows == [] {
      assert rows + [Link(id, v)] == [Link(id, v)];
    } else {
      var r := rows + [Link(id, v)];
      assert r[0] == rows[0] && r[1..] == rows[1..] + [Link(id, v)];
      DropLinkUndoesAppend(rows[1..], id, v);
    }
  }

  lemma {:induction false} DropArtifactMembership(rows: seq<ArtifactRow>, id: ArtifactId, r: ArtifactRow)
    ensures r in DropArtifact(rows, id) <==> r in rows && r.id != id
  {
    if rows != [] {
      DropArtifactMembership(rows[1..], id, r);
      assert rows == [rows[0]] + rows[1..];
    }
  }

  lemma {:induction false} DropForMembership<V>(rows: seq<Link<V>>, id: ArtifactId, r: Link<V>)
    ensures r in DropFor(rows, id) <==> r in rows && r.artifactId != id
  {
    if rows != [] {
      DropForMembership(rows[1..], id, r);
      assert rows == [rows[0]] + rows[1..];
    }
  }

  lemma {:induction false} ValuesForMembership<V>(rows: seq<Link<V>>, id: ArtifactId, v: V)
    ensures v in ValuesFor(rows, id) <==> Link(id, v) in rows
  {
    if rows != [] {
      ValuesForMembership(rows[1..], id, v);
      assert rows == [rows[0]] + rows[1..];
    }
  }

  /** Every row of `rows` refers to an artifact id below `bound`. */
  ghost predicate LinksBelow<V>(rows: seq<Link<V>>, bound: nat)
  {
    forall r :: r in rows ==> r.artifactId < bound
  }

  /** No row refers to an id at or above `bound`, so such an id has no linked values. */
  lemma {:induction false} ValuesForAbove<V>(rows: seq<Link<V>>, bound: nat, id: ArtifactId)
    requires LinksBelow(rows, bound) && bound <= id
    ensures ValuesFor(rows, id) == []
  {
    if rows != [] {
      assert rows[0] in rows;
      ValuesForAbove(rows[1..], bound, id);
    }
  }

  class Database {
    var artifacts: seq<ArtifactRow>
    var artifactSubjects: seq<SubjectRow>
    var artifactKeyStages: seq<KeyStageRow>
    var votes: seq<UserRow>
    var favorites: seq<UserRow>
    /** Public URLs of the objects in the `artifact-screenshots` bucket. */
    var storage: seq<string>
    /** The id the backend gives the next inserted artifact. */
    var nextId: ArtifactId
    /** Every write request issued, accepted or not, in order. */
    ghost var log: seq<Call>

    function Snapshot(): Tables
      reads this`artifacts, this`artifactSubjects, this`artifactKeyStages, this`votes, this`favorites
    {
      Tables(artifacts, artifactSubjects, artifactKeyStages, votes, favorites)
    }

    /** Ids are issued in increasing order, so every row refers to an id already issued. */
    ghost predicate Valid()
      reads this`artifacts, this`artifactSubjects, this`artifactKeyStages, this`votes, this`favorites, this`nextId
    {
      && (forall r :: r in artifacts ==> r.id < nextId)
      && LinksBelow(artifactSubjects, nextId)
      && LinksBelow(artifactKeyStages, nextId)
      && LinksBelow(votes, nextId)
      && LinksBelow(favorites, nextId)
    }

    constructor ()
      ensures Valid()
      ensures Snapshot() == Tables([], [], [], [], []) && storage == [] && log == []
    {
      artifacts, artifactSubjects, artifactKeyStages := [], [], [];
      votes, favorites, storage := [], [], [];
      nextId, log := 0, [];
    }

    // ----- deletes -----

    method DeleteArtifact(id: ArtifactId, fails: bool) returns (ok: bool)
      requires Valid()
      modifies this`artifacts, this`log
      ensures Valid()
      ensures ok == !fails
      ensures artifacts == if fails then old(artifacts) else DropArtifact(old(artifacts), id)
      ensures log == old(log) + [Delete(Artifacts)]
    {
      ok := !fails;
      if ok {
        forall r | r in DropArtifact(artifacts, id) ensures r.id < nextId {
          DropArtifactMembership(artifacts, id, r);
        }
        artifacts := DropArtifact(artifacts, id);
      }
      log := log + [Delete(Artifacts)];
    }

    method DeleteSubjectsOf(id: ArtifactId, fails: bool) returns (ok: bool)
      requires Valid()
      modifies this`artifactSubjects, this`log
      ensures Valid()
      ensures ok == !fails
      ensures artifactSubjects == if fails then old(artifactSubjects) else DropFor(old(artifactSubjects), id)
      ensures log == old(log) + [Delete(ArtifactSubjects)]
    {
      ok := !fails;
      if ok {
        forall r | r in DropFor(artifactSubjects, id) ensures r.artifactId < nextId {
          DropForMembership(artifactSubjects, id, r);
        }
        artifactSubjects := DropFor(artifactSubjects, id);
      }
      log := log + [Delete(ArtifactSubjects)];
    }

    method DeleteKeyStagesOf(id: ArtifactId, fails: bool) returns (ok: bool)
      requires Valid()
      modifies this`artifactKeyStages, this`log
      ensures Valid()
      ensures ok == !fails
      ensures artifactKeyStages == if fails then old(artifactKeyStages) else DropFor(old(artifactKeyStages), id)
      ensures log == old(log) + [Delete(ArtifactKeyStages)]
    {
      ok := !fails;
      if ok {
        forall r | r in DropFor(artifactKeyStages, id) ensures r.artifactId < nextId {
          DropForMembership(artifactKeyStages, id, r);
        }
        artifactKeyStages := DropFor(artifactKeyStages, id);
      }
      log := log + [Delete(ArtifactKeyStages)];
    }

    method DeleteVotesOf(id: ArtifactId, fails: bool) returns (ok: bool)
      requires Valid()
      modifies this`votes, this`log
      ensures Valid()
      ensures ok == !fails
      ensures votes == if fails then old(votes) else DropFor(old(votes), id)
      ensures log == old(log) + [Delete(Votes)]
    {
      ok := !fails;
      if ok {
        forall r | r in DropFor(votes, id) ensures r.artifactId < nextId {
          DropForMembership(votes, id, r);
        }
        votes := DropFor(votes, id);
      }
      log := log + [Delete(Votes)];
    }

    method DeleteFavoritesOf(id: ArtifactId, fails: bool) returns (ok: bool)
      requires Valid()
      modifies this`favorites, this`log
      ensures Valid()
      ensures ok == !fails
      ensures favorites == if fails then old(favorites) else DropFor(old(favorites), id)
      ensures log == old(log) + [Delete(Favorites)]
    {
      ok := !fails;
      if ok {
        forall r | r in DropFor(favorites, id) ensures r.artifactId < nextId {
          DropForMembership(favorites, id, r);
        }
        favorites := DropFor(favorites, id);
      }
      log := log + [Delete(Favorites)];
    }

    /** `from('votes').delete().eq('artifact_id', id).eq('user_id', user)`. */
    method DeleteVote(id: ArtifactId, user: UserId, fails: bool) returns (ok: bool)
      requires Valid()
      modifies this`votes, this`log
      ensures Valid()
      ensures ok == !fails
      ensures votes == if fails then old(votes) else DropLink(old(votes), id, user)
      ensures log == old(log) + [Delete(Votes)]
    {
      ok := !fails;
      if ok {
        forall r | r in DropLink(votes, id, user) ensures r.artifactId < nextId {
          DropLinkMultiplicity(votes, id, user, r);
        }
        votes := DropLink(votes, id, user);
      }
      log := log + [Delete(Votes)];
    }

    /** `from('favorites').delete().eq('artifact_id', id).eq('user_id', user)`. */
    method DeleteFavorite(id: ArtifactId, user: UserId, fails: bool) returns (ok: bool)
      requires Valid()
      modifies this`favorites, this`log
      ensures Valid()
      ensures ok == !fails
      ensures favorites == if fails then old(favorites) else DropLink(old(favorites), id, user)
      ensures log == old(log) + [Delete(Favorites)]
    {
      ok := !fails;
      if ok {
        forall r | r in DropLink(favorites, id, user) ensures r.artifactId < nextId {
          DropLinkMultiplicity(favorites, id, user, r);
        }
        favorites := DropLink(favorites, id, user);
      }
      log := log + [Delete(Favorites)];
    }

    // ----- inserts -----

    method InsertVote(id: ArtifactId, user: UserId, fails: bool) returns (ok: bool)
      requires Valid() && id < nextId
      modifies this`votes, this`log
      ensures Valid()
      ensures ok == !fails
      ensures votes == if fails then old(votes) else old(votes) + [Link(id, user)]
      ensures log == old(log) + [Insert(Votes)]
    {
      ok := !fails;
      if ok {
        votes := votes + [Link(id, user)];
      }
      log := log + [Insert(Votes)];
    }

    method InsertFavorite(id: ArtifactId, user: UserId, fails: bool) returns (ok: bool)
      requires Valid() && id < nextId
      modifies this`favorites, this`log
      ensures Valid()
      ensures ok == !fails
      ensures favorites == if fails then old(favorites) else old(favorites) + [Link(id, user)]
      ensures log == old(log) + [Insert(Favorites)]
    {
      ok := !fails;
      if ok {
        favorites := favorites + [Link(id, user)];
      }
      log := log + [Insert(Favorites)];
    }

    /** A batch insert into `artifact_subjects`: all rows or, on error, none. */
    method InsertSubjects(id: ArtifactId, values: seq<Subject>, fails: bool) returns (ok: bool)
      requires Valid() && id < nextId
      modifies this`artifactSubjects, this`log
      ensures Valid()
      ensures ok == !fails
      ensures artifactSubjects == if fails then old(artifactSubjects) else old(artifactSubjects) + LinksTo(id, values)
      ensures log == old(log) + [Insert(ArtifactSubjects)]
    {
      ok := !fails;
      if ok {
        artifactSubjects := artifactSubjects + LinksTo(id, values);
      }
      log := log + [Insert(ArtifactSubjects)];
    }

    /** A batch insert into `artifact_key_stages`: all rows or, on error, none. */
    method InsertKeyStages(id: ArtifactId, values: seq<KeyStage>, fails: bool) returns (ok: bool)
      requires Valid() && id < nextId
      modifies this`artifactKeyStages, this`log
      ensures Valid()
      ensures ok == !fails
      ensures artifactKeyStages == if fails then old(artifactKeyStages) else old(artifactKeyStages) + LinksTo(id, values)
      ensures log == old(log) + [Insert(ArtifactKeyStages)]
    {
      ok := !fails;
      if ok {
        artifactKeyStages := artifactKeyStages + LinksTo(id, values);
      }
      log := log + [Insert(ArtifactKeyStages)];
    }

    /**
     * `from('artifacts').insert(row).select().single()`: the backend gives the row a
     * fresh id and returns it. `row.id` is ignored.
     */
    method InsertArtifact(row: ArtifactRow, fails: bool) returns (id: Option<ArtifactId>)
      requires Valid()
      modifies this`artifacts, this`nextId, this`log
      ensures Valid()
      ensures fails ==> id == None && artifacts == old(artifacts) && nextId == old(nextId)
      ensures !fails ==> id == Some(old(nextId)) && nextId == old(nextId) + 1
      ensures !fails ==> artifacts == old(artifacts) + [row.(id := old(nextId))]
      ensures log == old(log) + [Insert(Artifacts)]
    {
      if fails {
        id := None;
      } else {
        id := Some(nextId);
        artifacts := artifacts + [row.(id := nextId)];
        nextId := nextId + 1;
      }
      log := log + [Insert(Artifacts)];
    }

    /** `from('artifacts').update(fields).eq('id', id)`. */
    method UpdateArtifact(id: ArtifactId, u: ArtifactUpdate, fails: bool) returns (ok: bool)
      requires Valid()
      modifies this`artifacts, this`log
      ensures Valid()
      ensures ok == !fails
      ensures artifacts == if fails then old(artifacts) else UpdateRows(old(artifacts), id, u)
      ensures log == old(log) + [Update(Artifacts)]
    {
      ok := !fails;
      if ok {
        forall r | r in UpdateRows(artifacts, id, u) ensures r.id < nextId {
          var i :| 0 <= i < |artifacts| && UpdateRows(artifacts, id, u)[i] == r;
          assert artifacts[i] in artifacts;
        }
        artifacts := UpdateRows(artifacts, id, u);
      }
      log := log + [Update(Artifacts)];
    }

    /** Uploads a screenshot; `publicUrl` is what `getPublicUrl` then returns for it. */
    method UploadScreenshot(publicUrl: string, fails: bool) returns (ok: bool)
      modifies this`storage, this`log
      ensures ok == !fails
      ensures storage == if fails then old(storage) else old(storage) + [publicUrl]
      ensures log == old(log) + [Upload]
    {
      ok := !fails;
      if ok {
        storage := storage + [publicUrl];
      }
      log := log + [Upload];
    }
  }
}
