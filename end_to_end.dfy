/** The client and the server together: what a payload built on the device
    becomes once the backend has merged it. */
module EndToEnd {
  import opened Wrappers
  import opened Collections
  import opened JsText
  import opened Json
  import opened Server
  import opened ServerProperties
  import opened Storage
  import opened Context

  /** `JSON.stringify` of a client entry as the backend parses it: a missing
      id arrives absent, a missing answer or correctness flag as `null`. */
  function ToWire(e: ProgressEntry): Item
  {
    Entry(e.id.GetOr(""), e.user, e.activityId, e.answer,
          if e.correct.Some? then JBool(e.correct.value) else JNull, e.timestamp)
  }

  /** The body of `POST /sync` for a payload. */
  function ToBody(p: SyncPayload): Body
  {
    Body(Array(seq(|p.users|, i requires 0 <= i < |p.users| => JString(p.users[i]))),
         Array(seq(|p.progress|, i requires 0 <= i < |p.progress| => ToWire(p.progress[i]))))
  }

  /** A stored record read back as a client entry. */
  function ToClient(r: Record): ProgressEntry
  {
    ProgressEntry(Some(r.id), r.user, r.activityId, r.answer, r.correct, r.timestamp)
  }

  /** The backend accepts a client entry exactly when its user, activity id
      and timestamp are non-empty. */
  lemma ClientEntryAccepted(e: ProgressEntry)
    ensures Accepted(ToWire(e)) <==> e.user != [] && e.activityId != [] && e.timestamp != []
  {
  }

  /** The stored record carries the entry's data unchanged: reading it back
      gives the entry again, with the backend's fresh id when it had none. */
  lemma StoredRecordRoundTrip(e: ProgressEntry, freshId: string)
    ensures ToClient(Normalize(ToWire(e), freshId))
         == e.(id := Some(if e.id.Some? && e.id.value != [] then e.id.value else freshId))
  {
  }

  /** A successful drain loses no progress: after the backend merges the
      payload, every queued entry it accepts has its key in the canonical
      store. */
  lemma DrainDeliversProgress(db: Db, p: SyncPayload, ids: IdSupply)
    ensures forall e | e in p.progress && e.user != [] && e.activityId != [] && e.timestamp != [] ::
      DedupKey(e.user, e.activityId, e.timestamp) in KeysOf(Merge(db, ToBody(p), ids).progress)
  {
    var body := ToBody(p);
    MergeProgressCovers(db.progress, Elements(body.progress), ids);
    forall e | e in p.progress && e.user != [] && e.activityId != [] && e.timestamp != []
      ensures DedupKey(e.user, e.activityId, e.timestamp) in KeysOf(Merge(db, body, ids).progress)
    {
      var i :| 0 <= i < |p.progress| && p.progress[i] == e;
      assert Elements(body.progress)[i] == ToWire(e);
      assert ToWire(e) in Elements(body.progress) && Accepted(ToWire(e));
      assert ItemKey(ToWire(e)) == DedupKey(e.user, e.activityId, e.timestamp);
    }
  }

  /** A successful drain loses no user: every roster name whose trim is
      non-empty is a user of the canonical store afterwards. */
  lemma DrainDeliversUsers(db: Db, p: SyncPayload, ids: IdSupply)
    ensures forall u | u in p.users && Trim(u) != [] :: u in Merge(db, ToBody(p), ids).users
  {
    var body := ToBody(p);
    forall u | u in p.users && Trim(u) != [] ensures u in Merge(db, body, ids).users {
      var i :| 0 <= i < |p.users| && p.users[i] == u;
      assert Elements(body.users)[i] == JString(u);
      MergeUsersMembers(db.users, Elements(body.users), u);
    }
  }

  /** A drain whose reply was lost and is therefore sent again stores
      nothing more than the first delivery did. */
  lemma RedeliveryHarmless(db: Db, p: SyncPayload, ids1: IdSupply, ids2: IdSupply)
    ensures Merge(Merge(db, ToBody(p), ids1), ToBody(p), ids2) == Merge(db, ToBody(p), ids1)
  {
    MergeIdempotent(db, ToBody(p), ids1, ids2);
  }

  /** A new device: adding "Ana" makes the roster ["Ana"] and selects her. */
  method FirstUserScenario() {
    var store := new Store();
    assert Trim("Ana") == "Ana";
    store.AddUser("Ana");
    assert store.Roster() == ["Ana"] && store.currentUser == Some("Ana");
  }

  /** One queued entry: a drain that succeeds empties the queue and the
      entry reaches the backend; a drain that fails keeps the queue. */
  method DrainScenario(ok: bool, db: Db, ids: IdSupply) {
    var store := new Store();
    var e := ProgressEntry(None, "Ana", "q1", Some("5"), Some(true), "T1");
    store.Enqueue(e);
    var app := new App(store);
    var payload, failed := app.SyncNow(if ok then Response(true) else NetworkError);
    assert payload.progress == [e];
    if ok {
      assert store.Queue() == [];
      DrainDeliversProgress(db, payload, ids);
      DrainDeliversUsers(db, payload, ids);
      assert DedupKey("Ana", "q1", "T1") in KeysOf(Merge(db, ToBody(payload), ids).progress);
    } else {
      assert failed && store.Queue() == [e] && !app.isSyncing;
    }
  }

  lemma TrimPaddedName()
    ensures Trim(" Ana ") == "Ana"
  {
    var padded, left, name := " Ana ", "Ana ", "Ana";
    assert padded[0] == ' ' && padded[1..] == left;
    assert left[0] == 'A' && !IsWhiteSpace(left[0]);
    assert TrimStart(left) == left;
    assert TrimStart(padded) == left;
    assert left[|left| - 1] == ' ' && left[..|left| - 1] == name;
    assert name[|name| - 1] == 'a' && !IsWhiteSpace(name[|name| - 1]);
    assert TrimEnd(name) == name;
    assert TrimEnd(left) == name;
  }

  lemma PaddedNameReachesServer(ids: IdSupply)
    ensures Merge(Db([], []), ToBody(SyncPayload([" Ana "], [])), ids).users == [" Ana "]
  {
    var us := Elements(ToBody(SyncPayload([" Ana "], [])).users);
    assert us == [JString(" Ana ")];
    assert AcceptedName(us[0]) == [" Ana "] by {
      TrimPaddedName();
    }
    assert AcceptedNames(us) == [" Ana "] by {
      assert us[1..] == [];
      assert AcceptedNames(us) == AcceptedName(us[0]) + AcceptedNames([]);
    }
    assert AddAll([], [" Ana "]) == [" Ana "] by {
      assert [" Ana "][1..] == [];
      assert AddAll([], [" Ana "]) == AddAll([" Ana "], []);
    }
  }

  lemma BothSpellingsInRoster()
    ensures MergedRoster(["Ana"], [" Ana "]) == ["Ana", " Ana "]
  {
    assert AddAll([], ["Ana"]) == AddAll(["Ana"], []);
    assert NonEmptyNames([" Ana "]) == [" Ana "] by {
      assert [" Ana "][1..] == [];
    }
    assert " Ana " != "Ana" by {
      assert " Ana "[0] != "Ana"[0];
    }
    assert AddAll(["Ana"], [" Ana "]) == AddAll(["Ana", " Ana "], []);
  }

  /** `addUser` on its own, given a name with spaces around it: the store
      keeps the trimmed name, the post carries the name as passed, the
      backend keeps that spelling, and pulling the server's users back puts
      both spellings in the roster. The students screen trims before calling
      `addUser`, so through it the two spellings agree. */
  method UntrimmedNameScenario(ids: IdSupply) {
    var store := new Store();
    var app := new App(store);
    TrimPaddedName();
    var sent := app.AddUser(" Ana ", Response(true));
    assert store.Roster() == ["Ana"];
    assert sent == Some(SyncPayload([" Ana "], []));
    PaddedNameReachesServer(ids);
    var db := Merge(Db([], []), ToBody(sent.value), ids);
    app.RefreshServerUsers(Fetched(true, Array(db.users)));
    BothSpellingsInRoster();
    assert store.Roster() == ["Ana", " Ana "];
  }
}
