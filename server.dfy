/** The merge engine behind the backend's `POST /sync` handler
    (backend-offline-app/index.js). The canonical store `{users, progress}` is
    a value: reading and writing `db.json` are not part of this model. */
module Server {
  import opened Wrappers
  import opened Collections
  import opened JsText
  import opened Json

  /** One element of the submitted `progress` array. A JSON value that is
      not an object (`null`, a number, a string) is `NotAnObject`. Text
      members are strings; an absent text member is the empty string, which
      the handler treats exactly like an absent one (both are falsy).
      `answer` is `None` for `null` or absent. */
  datatype Item =
    | NotAnObject
    | Entry(id: string, user: string, activityId: string, answer: Option<string>,
            correct: Value, timestamp: string)

  /** A stored progress record, as the handler builds it. */
  datatype Record = Record(id: string, user: string, activityId: string, answer: Option<string>,
                           correct: Option<bool>, timestamp: string)

  /** The canonical store. */
  datatype Db = Db(users: seq<string>, progress: seq<Record>)

  /** The request body; `req.body || {}` and a missing member are `NotArray`. */
  datatype Body = Body(users: Field<Value>, progress: Field<Item>)

  /** `{ ok: true, savedUsers, savedProgress }`. */
  datatype Reply = Reply(ok: bool, savedUsers: nat, savedProgress: nat)

  /** A supply of fresh record ids, standing for `${Date.now()}-${random}`:
      the record that lands at position `n` of `db.progress` may take `ids(n)`. */
  type IdSupply = nat -> string

  // ---------------------------------------------------------------- users

  /** A submitted user that the handler stores: a string whose trim is non-empty. */
  predicate AcceptedUser(u: Value) {
    u.JString? && Trim(u.s) != []
  }

  /** What one submitted user contributes: its name, untrimmed, when accepted. */
  function AcceptedName(u: Value): seq<string>
  {
    if AcceptedUser(u) then [u.s] else []
  }

  /** The accepted names of a batch, untrimmed, in batch order. */
  function AcceptedNames(us: seq<Value>): seq<string>
  {
    FlatMap(AcceptedName, us)
  }

  /** The accepted names are the offered strings whose trim is non-empty. */
  lemma {:induction false} AcceptedNamesMembers(us: seq<Value>, x: string)
    ensures x in AcceptedNames(us) <==> JString(x) in us && Trim(x) != []
  {
    if us != [] {
      AcceptedNamesMembers(us[1..], x);
      assert AcceptedNames(us) == AcceptedName(us[0]) + AcceptedNames(us[1..]);
      assert us == [us[0]] + us[1..];
    }
  }

  /** The users loop: an accepted name is pushed unless it is already there. */
  function MergeUsers(existing: seq<string>, us: seq<Value>): seq<string>
  {
    AddAll(existing, AcceptedNames(us))
  }

  // ------------------------------------------------------------- progress

  /** The composite identity key `${user}::${activityId}::${timestamp}`. */
  function DedupKey(user: string, activityId: string, timestamp: string): string
  {
    user + "::" + activityId + "::" + timestamp
  }

  function ItemKey(p: Item): string
    requires p.Entry?
  {
    DedupKey(p.user, p.activityId, p.timestamp)
  }

  function RecordKey(r: Record): string
  {
    DedupKey(r.user, r.activityId, r.timestamp)
  }

  /** The keys present in a progress list: `new Set(db.progress.map(key))`. */
  function KeysOf(s: seq<Record>): set<string>
  {
    set r | r in s :: RecordKey(r)
  }

  /** No two records share a key. */
  predicate UniqueKeys(s: seq<Record>) {
    forall i, j | 0 <= i < j < |s| :: RecordKey(s[i]) != RecordKey(s[j])
  }

  /** The guard `!p || !p.user || !p.activityId || !p.timestamp` fails. */
  predicate Accepted(p: Item) {
    p.Entry? && p.user != [] && p.activityId != [] && p.timestamp != []
  }

  /** The record pushed for an accepted item. */
  function Normalize(p: Item, freshId: string): (r: Record)
    requires p.Entry?
    ensures RecordKey(r) == ItemKey(p)
    ensures r.id == (if p.id != [] then p.id else freshId)
    ensures r.user == p.user && r.activityId == p.activityId && r.timestamp == p.timestamp
    ensures r.answer == p.answer
    ensures r.correct.Some? <==> p.correct.JBool?
    ensures p.correct.JBool? ==> r.correct == Some(p.correct.b)
  {
    Record(if p.id != [] then p.id else freshId, p.user, p.activityId, p.answer,
           if p.correct.JBool? then Some(p.correct.b) else None, p.timestamp)
  }

  /** One turn of the progress loop. */
  function ProgressStep(acc: seq<Record>, p: Item, ids: IdSupply): seq<Record>
  {
    if Accepted(p) && ItemKey(p) !in KeysOf(acc) then acc + [Normalize(p, ids(|acc|))] else acc
  }

  /** The progress loop over a whole batch. */
  function MergeProgress(acc: seq<Record>, items: seq<Item>, ids: IdSupply): seq<Record>
    decreases items
  {
    if items == [] then acc else MergeProgress(ProgressStep(acc, items[0], ids), items[1..], ids)
  }

  /** The store after the handler has run. */
  function Merge(db: Db, body: Body, ids: IdSupply): Db
  {
    Db(MergeUsers(db.users, Elements(body.users)),
       MergeProgress(db.progress, Elements(body.progress), ids))
  }

  /** The handler's reply counts what was offered, not what was new. */
  function ReplyFor(body: Body): Reply
  {
    Reply(true, |Elements(body.users)|, |Elements(body.progress)|)
  }

  // ----------------------------------------------------------- the handler

  /** `app.post('/sync')`: the two loops over the submitted arrays, pushing
      into the store's arrays and keeping the set of keys in step. */
  method HandleSync(db: Db, body: Body, ids: IdSupply) returns (db': Db, reply: Reply)
    ensures db' == Merge(db, body, ids)
    ensures reply.ok
    ensures reply.savedUsers == |Elements(body.users)|
    ensures reply.savedProgress == |Elements(body.progress)|
  {
    var users := Elements(body.users);
    var progress := Elements(body.progress);

    var dbUsers := db.users;
    for i := 0 to |users|
      invariant dbUsers == MergeUsers(db.users, users[..i])
    {
      MergeUsersStep(db.users, users, i);
      var u := users[i];
      if AcceptedUser(u) && u.s !in dbUsers {
        dbUsers := dbUsers + [u.s];
      }
    }
    assert users[..|users|] == users;

    var dbProgress := db.progress;
    var existingKeys := KeysOf(db.progress);
    for i := 0 to |progress|
      invariant dbProgress == MergeProgress(db.progress, progress[..i], ids)
      invariant existingKeys == KeysOf(dbProgress)
    {
      MergeProgressStep(db.progress, progress, i, ids);
      var p := progress[i];
      if Accepted(p) {
        var k := ItemKey(p);
        if k !in existingKeys {
          var r := Normalize(p, ids(|dbProgress|));
          KeysOfSnoc(dbProgress, r);
          dbProgress := dbProgress + [r];
          existingKeys := existingKeys + {k};
        }
      }
    }
    assert progress[..|progress|] == progress;

    db' := Db(dbUsers, dbProgress);
    reply := Reply(true, |users|, |progress|);
  }

  // ----------------------------------------------------- helper lemmas

  lemma AcceptedNamesSnoc(us: seq<Value>, u: Value)
    ensures AcceptedNames(us + [u]) == AcceptedNames(us) + AcceptedName(u)
  {
    FlatMapSnoc(AcceptedName, us, u);
  }

  /** One more turn of the users loop. */
  lemma MergeUsersStep(existing: seq<string>, us: seq<Value>, i: nat)
    requires i < |us|
    ensures MergeUsers(existing, us[..i + 1])
         == if AcceptedUser(us[i]) then AppendNew(MergeUsers(existing, us[..i]), us[i].s)
            else MergeUsers(existing, us[..i])
  {
    assert us[..i + 1] == us[..i] + [us[i]];
    AcceptedNamesSnoc(us[..i], us[i]);
    if AcceptedUser(us[i]) {
      AddAllSnoc(existing, AcceptedNames(us[..i]), us[i].s);
    } else {
      assert AcceptedNames(us[..i]) + [] == AcceptedNames(us[..i]);
    }
  }

  /** One more turn of the progress loop. */
  lemma MergeProgressStep(acc: seq<Record>, items: seq<Item>, i: nat, ids: IdSupply)
    requires i < |items|
    ensures MergeProgress(acc, items[..i + 1], ids) == ProgressStep(MergeProgress(acc, items[..i], ids), items[i], ids)
  {
    assert items[..i + 1] == items[..i] + [items[i]];
    MergeProgressSnoc(acc, items[..i], items[i], ids);
  }

  lemma KeysOfSnoc(s: seq<Record>, r: Record)
    ensures KeysOf(s + [r]) == KeysOf(s) + {RecordKey(r)}
  {
    assert forall x :: x in s + [r] <==> x in s || x == r;
  }

  /** A prefix of a list contributes its keys. */
  lemma KeysOfPrefix(s: seq<Record>, t: seq<Record>)
    requires s <= t
    ensures KeysOf(s) <= KeysOf(t)
  {
    forall k | k in KeysOf(s) ensures k in KeysOf(t) {
      var r :| r in s && RecordKey(r) == k;
      var i :| 0 <= i < |s| && s[i] == r;
      assert t[i] == r;
    }
  }

  /** Processing `a + b` is processing `a`, then `b`: a batch may be split
      into consecutive submissions without changing the store. */
  lemma {:induction false} MergeProgressSplit(acc: seq<Record>, a: seq<Item>, b: seq<Item>, ids: IdSupply)
    ensures MergeProgress(acc, a + b, ids) == MergeProgress(MergeProgress(acc, a, ids), b, ids)
    decreases a
  {
    if a == [] {
      assert a + b == b;
    } else {
      assert (a + b)[0] == a[0];
      assert (a + b)[1..] == a[1..] + b;
      MergeProgressSplit(ProgressStep(acc, a[0], ids), a[1..], b, ids);
    }
  }

  lemma MergeProgressSnoc(acc: seq<Record>, items: seq<Item>, p: Item, ids: IdSupply)
    ensures MergeProgress(acc, items + [p], ids) == ProgressStep(MergeProgress(acc, items, ids), p, ids)
  {
    MergeProgressSplit(acc, items, [p], ids);
    assert [p][1..] == [];
  }
}
