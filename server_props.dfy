/** What the `POST /sync` merge guarantees about the canonical store. */
module ServerProperties {
  import opened Wrappers
  import opened Collections
  import opened JsText
  import opened Json
  import opened Server

  // ---------------------------------------------------------------- users

  /** The existing users stay, in their order, as a prefix. */
  lemma MergeUsersKeepsExisting(existing: seq<string>, us: seq<Value>)
    ensures existing <= MergeUsers(existing, us)
  {
    AddAllPrefix(existing, AcceptedNames(us));
  }

  /** A name is stored afterwards exactly when it was stored before, or was
      offered as a string whose trim is non-empty. The stored name is the
      offered one, untrimmed. */
  lemma MergeUsersMembers(existing: seq<string>, us: seq<Value>, x: string)
    ensures x in MergeUsers(existing, us) <==> x in existing || (JString(x) in us && Trim(x) != [])
  {
    AddAllMembers(existing, AcceptedNames(us));
    AcceptedNamesMembers(us, x);
  }

  /** A duplicate-free user list stays duplicate-free. */
  lemma MergeUsersDistinct(existing: seq<string>, us: seq<Value>)
    requires Distinct(existing)
    ensures Distinct(MergeUsers(existing, us))
  {
    AddAllDistinct(existing, AcceptedNames(us));
  }

  /** Offering the same users again adds nothing. */
  lemma MergeUsersIdempotent(existing: seq<string>, us: seq<Value>)
    ensures MergeUsers(MergeUsers(existing, us), us) == MergeUsers(existing, us)
  {
    AddAllIdempotent(existing, AcceptedNames(us));
  }

  // ------------------------------------------------------------- progress

  /** Only appends: the old records stay, in their order, as a prefix. */
  lemma {:induction false} MergeProgressKeepsExisting(acc: seq<Record>, items: seq<Item>, ids: IdSupply)
    ensures acc <= MergeProgress(acc, items, ids)
    decreases items
  {
    if items != [] {
      MergeProgressKeepsExisting(ProgressStep(acc, items[0], ids), items[1..], ids);
    }
  }

  lemma StepKeepsUnique(acc: seq<Record>, p: Item, ids: IdSupply)
    requires UniqueKeys(acc)
    ensures UniqueKeys(ProgressStep(acc, p, ids))
  {
    if Accepted(p) && ItemKey(p) !in KeysOf(acc) {
      var r := Normalize(p, ids(|acc|));
      var s := acc + [r];
      forall i, j | 0 <= i < j < |s| ensures RecordKey(s[i]) != RecordKey(s[j]) {
        if j == |acc| {
          assert s[i] in acc;
        }
      }
    }
  }

  /** Dedup: if no two stored records share a `user::activityId::timestamp`
      key, none do after the merge, duplicates inside one batch included. */
  lemma {:induction false} MergeProgressUnique(acc: seq<Record>, items: seq<Item>, ids: IdSupply)
    requires UniqueKeys(acc)
    ensures UniqueKeys(MergeProgress(acc, items, ids))
    decreases items
  {
    if items != [] {
      StepKeepsUnique(acc, items[0], ids);
      MergeProgressUnique(ProgressStep(acc, items[0], ids), items[1..], ids);
    }
  }

  /** No loss: after the merge, the key of every accepted item of the batch
      is in the store (stored now or already there). */
  lemma {:induction false} MergeProgressCovers(acc: seq<Record>, items: seq<Item>, ids: IdSupply)
    ensures forall p | p in items && Accepted(p) :: ItemKey(p) in KeysOf(MergeProgress(acc, items, ids))
    decreases items
  {
    if items != [] {
      var next := ProgressStep(acc, items[0], ids);
      MergeProgressCovers(next, items[1..], ids);
      MergeProgressKeepsExisting(next, items[1..], ids);
      KeysOfPrefix(next, MergeProgress(next, items[1..], ids));
      if Accepted(items[0]) && ItemKey(items[0]) !in KeysOf(acc) {
        KeysOfSnoc(acc, Normalize(items[0], ids(|acc|)));
      }
      forall p | p in items && Accepted(p) ensures ItemKey(p) in KeysOf(MergeProgress(acc, items, ids)) {
        if p != items[0] {
          assert p in items[1..];
        }
      }
    }
  }

  /** When every accepted item's key is already stored, the merge changes nothing. */
  lemma {:induction false} MergeProgressPresent(acc: seq<Record>, items: seq<Item>, ids: IdSupply)
    requires forall p | p in items && Accepted(p) :: ItemKey(p) in KeysOf(acc)
    ensures MergeProgress(acc, items, ids) == acc
    decreases items
  {
    if items != [] {
      assert items[0] in items;
      forall p | p in items[1..] && Accepted(p) ensures ItemKey(p) in KeysOf(acc) {
        assert p in items;
      }
      MergeProgressPresent(acc, items[1..], ids);
    }
  }

  /** Idempotence: re-submitting a batch (a retry after a reply that was lost)
      stores nothing more, whatever ids the second run would have made up. */
  lemma MergeProgressIdempotent(acc: seq<Record>, items: seq<Item>, ids1: IdSupply, ids2: IdSupply)
    ensures MergeProgress(MergeProgress(acc, items, ids1), items, ids2) == MergeProgress(acc, items, ids1)
  {
    MergeProgressCovers(acc, items, ids1);
    MergeProgressPresent(MergeProgress(acc, items, ids1), items, ids2);
  }

  /** Skip, not abort: a rejected item anywhere in the batch has no effect
      on what the rest of the batch stores. */
  lemma MergeProgressSkipsRejected(acc: seq<Record>, a: seq<Item>, p: Item, b: seq<Item>, ids: IdSupply)
    requires !Accepted(p)
    ensures MergeProgress(acc, a + [p] + b, ids) == MergeProgress(acc, a + b, ids)
  {
    assert a + [p] + b == a + ([p] + b);
    MergeProgressSplit(acc, a, [p] + b, ids);
    MergeProgressSplit(acc, a, b, ids);
    var mid := MergeProgress(acc, a, ids);
    assert ([p] + b)[0] == p;
    assert ([p] + b)[1..] == b;
    assert MergeProgress(mid, [p] + b, ids) == MergeProgress(ProgressStep(mid, p, ids), b, ids);
  }

  /** `rec`, stored at position `pos`, is the normalisation of an accepted item
      of `items` with the fresh id for that position. */
  ghost predicate NormalizedFrom(rec: Record, pos: nat, items: seq<Item>, ids: IdSupply) {
    exists p | p in items && Accepted(p) :: rec == Normalize(p, ids(pos))
  }

  /** Every record the merge appends is the normalisation of an accepted item
      of the batch, with a fresh id taken for its own position. */
  lemma MergeProgressAppended(acc: seq<Record>, items: seq<Item>, ids: IdSupply)
    ensures forall k | |acc| <= k < |MergeProgress(acc, items, ids)| ::
      NormalizedFrom(MergeProgress(acc, items, ids)[k], k, items, ids)
  {
    forall k | |acc| <= k < |MergeProgress(acc, items, ids)|
      ensures NormalizedFrom(MergeProgress(acc, items, ids)[k], k, items, ids)
    {
      var p := MergeProgressAppendedAt(acc, items, ids, k);
    }
  }

  /** The item behind the record at position `k`, one of those appended. */
  lemma {:induction false} MergeProgressAppendedAt(acc: seq<Record>, items: seq<Item>, ids: IdSupply, k: nat)
      returns (p: Item)
    requires |acc| <= k < |MergeProgress(acc, items, ids)|
    ensures p in items && Accepted(p) && MergeProgress(acc, items, ids)[k] == Normalize(p, ids(k))
    decreases items
  {
    var next := ProgressStep(acc, items[0], ids);
    MergeProgressKeepsExisting(next, items[1..], ids);
    if k < |next| {
      assert k == |acc| && MergeProgress(acc, items, ids)[k] == next[k];
      p := items[0];
    } else {
      p := MergeProgressAppendedAt(next, items[1..], ids, k);
    }
  }

  /** Within one batch the first accepted entry with a key wins: any later
      entry of the same call with the same key adds nothing, wherever it
      stands and whatever the store held before. */
  lemma DuplicateInBatchStoredOnce(acc: seq<Record>, a: seq<Item>, p: Item, b: seq<Item>, q: Item,
                                   c: seq<Item>, ids: IdSupply)
    requires Accepted(p) && Accepted(q) && ItemKey(p) == ItemKey(q)
    ensures MergeProgress(acc, a + [p] + b + [q] + c, ids) == MergeProgress(acc, a + [p] + b + c, ids)
  {
    var pre := a + [p] + b;
    var mid := MergeProgress(acc, pre, ids);
    assert pre + ([q] + c) == a + [p] + b + [q] + c;
    assert pre + c == a + [p] + b + c;
    MergeProgressSplit(acc, pre, [q] + c, ids);
    MergeProgressSplit(acc, pre, c, ids);
    MergeProgressCovers(acc, pre, ids);
    assert p in pre;
    assert ProgressStep(mid, q, ids) == mid;
    assert ([q] + c)[0] == q && ([q] + c)[1..] == c;
  }

  // --------------------------------------------------------- the dedup key

  /** The key is a plain concatenation, so two different (user, activityId)
      pairs can share one: the second of these two entries is dropped. */
  lemma CollidingKeysDropEntry(ids: IdSupply)
    ensures DedupKey("a::b", "c", "t") == DedupKey("a", "b::c", "t")
    ensures |MergeProgress([], [Entry("", "a::b", "c", None, JNull, "t"),
                                Entry("", "a", "b::c", None, JNull, "t")], ids)| == 1
  {
    var p := Entry("", "a::b", "c", None, JNull, "t");
    var q := Entry("", "a", "b::c", None, JNull, "t");
    assert ItemKey(p) == ItemKey(q);
    var one := ProgressStep([], p, ids);
    KeysOfSnoc([], Normalize(p, ids(0)));
    assert ItemKey(q) in KeysOf(one);
    assert [p, q][1..] == [q];
    assert [q][1..] == [];
  }

  /** The position of the first ':' in `w` (or `|w|` when there is none). */
  function FirstColon(w: string): (k: nat)
    ensures k <= |w|
  {
    if w == [] || w[0] == ':' then 0 else 1 + FirstColon(w[1..])
  }

  lemma {:induction false} FirstColonAfter(a: string, r: string)
    requires ':' !in a
    ensures FirstColon(a + [':'] + r) == |a|
  {
    if a != [] {
      assert a[0] in a;
      assert (a + [':'] + r)[1..] == a[1..] + [':'] + r;
      FirstColonAfter(a[1..], r);
    }
  }

  lemma SplitAtColon(a: string, r: string, x: string, s: string)
    requires ':' !in a && ':' !in x
    requires a + [':'] + r == x + [':'] + s
    ensures a == x && r == s
  {
    var w := a + [':'] + r;
    FirstColonAfter(a, r);
    FirstColonAfter(x, s);
    assert a == w[..|a|];
    assert x == (x + [':'] + s)[..|x|];
    assert r == w[|a| + 1..];
    assert s == (x + [':'] + s)[|x| + 1..];
  }

  /** When user names and activity ids contain no ':', equal keys mean equal
      (user, activityId, timestamp) triples. Timestamps may contain ':'. */
  lemma KeyInjective(u1: string, a1: string, t1: string, u2: string, a2: string, t2: string)
    requires ':' !in u1 && ':' !in a1 && ':' !in u2 && ':' !in a2
    requires DedupKey(u1, a1, t1) == DedupKey(u2, a2, t2)
    ensures u1 == u2 && a1 == a2 && t1 == t2
  {
    assert DedupKey(u1, a1, t1) == u1 + [':'] + ([':'] + a1 + "::" + t1);
    assert DedupKey(u2, a2, t2) == u2 + [':'] + ([':'] + a2 + "::" + t2);
    SplitAtColon(u1, [':'] + a1 + "::" + t1, u2, [':'] + a2 + "::" + t2);
    var rest1 := a1 + [':'] + ([':'] + t1);
    var rest2 := a2 + [':'] + ([':'] + t2);
    assert ([':'] + a1 + "::" + t1)[1..] == rest1;
    assert ([':'] + a2 + "::" + t2)[1..] == rest2;
    SplitAtColon(a1, [':'] + t1, a2, [':'] + t2);
    assert t1 == ([':'] + t1)[1..];
    assert t2 == ([':'] + t2)[1..];
  }

  // ----------------------------------------------------- records and items

  /** A stored record as `GET /progress` hands it out and a client may post it back. */
  function AsItem(r: Record): Item
  {
    Entry(r.id, r.user, r.activityId, r.answer,
          if r.correct.Some? then JBool(r.correct.value) else JNull, r.timestamp)
  }

  /** Normalising a stored record that is posted back gives the same record:
      the normal form is stable. */
  lemma NormalizeStable(r: Record, freshId: string)
    requires r.id != []
    ensures Normalize(AsItem(r), freshId) == r
  {
  }

  // ------------------------------------------------------ the whole store

  /** The canonical store's invariant: no duplicate user, no duplicate key. */
  predicate Canonical(db: Db) {
    Distinct(db.users) && UniqueKeys(db.progress)
  }

  /** Every merge keeps the canonical store's invariant. */
  lemma MergeKeepsCanonical(db: Db, body: Body, ids: IdSupply)
    requires Canonical(db)
    ensures Canonical(Merge(db, body, ids))
  {
    MergeUsersDistinct(db.users, Elements(body.users));
    MergeProgressUnique(db.progress, Elements(body.progress), ids);
  }

  /** Handling the same body twice leaves the store as handling it once. */
  lemma MergeIdempotent(db: Db, body: Body, ids1: IdSupply, ids2: IdSupply)
    ensures Merge(Merge(db, body, ids1), body, ids2) == Merge(db, body, ids1)
  {
    MergeUsersIdempotent(db.users, Elements(body.users));
    MergeProgressIdempotent(db.progress, Elements(body.progress), ids1, ids2);
  }

  /** Members that are not arrays are empty batches: nothing is stored from them. */
  lemma NonArrayMembersIgnored(db: Db, users: Field<Value>, progress: Field<Item>, ids: IdSupply)
    requires users.NotArray? && progress.NotArray?
    ensures Merge(db, Body(users, progress), ids) == db
    ensures ReplyFor(Body(users, progress)) == Reply(true, 0, 0)
  {
    assert AcceptedNames([]) == [];
  }
}
