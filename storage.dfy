/** The client's durable store (offline-app-example/app/storage.ts): four
    independent keys, each read with a default and written whole. A key that
    was never written is `None`; the JSON text AsyncStorage would hold is
    replaced by the typed value it encodes. */
module Storage {
  import opened Wrappers
  import opened Collections
  import opened JsText

  /** A progress entry as the client records it; `correct` is `None` for
      `null` or absent, and so are `id` and `answer`. */
  datatype ProgressEntry = ProgressEntry(id: Option<string>, user: string, activityId: string,
                                         answer: Option<string>, correct: Option<bool>,
                                         timestamp: string)

  /** What `getSyncPayload` returns and `POST /sync` receives. */
  datatype SyncPayload = SyncPayload(users: seq<string>, progress: seq<ProgressEntry>)

  /** The text `setAutoSync` writes. */
  function AutoSyncText(v: bool): string
  {
    if v then "true" else "false"
  }

  /** How `getAutoSync` reads the stored text: `raw ? raw === 'true' : false`. */
  function ReadAutoSync(raw: Option<string>): (b: bool)
    ensures raw == None ==> !b
  {
    raw.Some? && raw.value != [] && raw.value == "true"
  }

  /** Whatever was written last by `setAutoSync` is read back. */
  lemma AutoSyncRoundTrip(v: bool)
    ensures ReadAutoSync(Some(AutoSyncText(v))) == v
  {
  }

  /** The non-empty names of a list, in order: the `u &&` test of `mergeUsersLocal`. */
  function NonEmptyNames(names: seq<string>): seq<string>
  {
    if names == [] then [] else (if names[0] != [] then [names[0]] else []) + NonEmptyNames(names[1..])
  }

  lemma {:induction false} NonEmptyNamesMembers(names: seq<string>, x: string)
    ensures x in NonEmptyNames(names) <==> x in names && x != []
  {
    if names != [] {
      NonEmptyNamesMembers(names[1..], x);
      assert names == [names[0]] + names[1..];
    }
  }

  lemma {:induction false} NonEmptyNamesSnoc(names: seq<string>, u: string)
    ensures NonEmptyNames(names + [u]) == NonEmptyNames(names) + (if u != [] then [u] else [])
    decreases names
  {
    if names == [] {
      assert names + [u] == [u];
    } else {
      assert (names + [u])[0] == names[0];
      assert (names + [u])[1..] == names[1..] + [u];
      NonEmptyNamesSnoc(names[1..], u);
    }
  }

  /** The roster `mergeUsersLocal` writes: `new Set(existing)`, then every
      truthy incoming name that the set does not hold yet. */
  function MergedRoster(existing: seq<string>, incoming: seq<string>): seq<string>
  {
    AddAll(AddAll([], existing), NonEmptyNames(incoming))
  }

  /** Nothing is removed and nothing is invented: a name is in the merged
      roster exactly when it was in the roster or is a non-empty incoming
      name. Names are not trimmed. */
  lemma MergedRosterMembers(existing: seq<string>, incoming: seq<string>, x: string)
    ensures x in MergedRoster(existing, incoming) <==> x in existing || (x in incoming && x != [])
  {
    AddAllMembers([], existing);
    AddAllMembers(AddAll([], existing), NonEmptyNames(incoming));
    NonEmptyNamesMembers(incoming, x);
  }

  /** The merged roster has no duplicates. */
  lemma MergedRosterDistinct(existing: seq<string>, incoming: seq<string>)
    ensures Distinct(MergedRoster(existing, incoming))
  {
    AddAllDistinct([], existing);
    AddAllDistinct(AddAll([], existing), NonEmptyNames(incoming));
  }

  /** A roster without duplicates is the merged roster's prefix: the existing
      names stay first, in their order, and incoming names follow. */
  lemma {:induction false} MergedRosterKeepsRoster(existing: seq<string>, incoming: seq<string>)
    requires Distinct(existing)
    ensures existing <= MergedRoster(existing, incoming)
  {
    DistinctAddAll(existing);
    AddAllPrefix(existing, NonEmptyNames(incoming));
  }

  /** `new Set(s)` of a duplicate-free `s` holds `s` in the same order. */
  lemma DistinctAddAll(s: seq<string>)
    requires Distinct(s)
    ensures AddAll([], s) == s
  {
    var k := |s|;
    DistinctAddAllUpTo(s, k);
    assert s[..k] == s;
  }

  lemma {:induction false} DistinctAddAllUpTo(s: seq<string>, k: nat)
    requires Distinct(s) && k <= |s|
    ensures AddAll([], s[..k]) == s[..k]
  {
    if k > 0 {
      DistinctAddAllUpTo(s, k - 1);
      assert s[..k] == s[..k - 1] + [s[k - 1]];
      AddAllSnoc([], s[..k - 1], s[k - 1]);
      assert s[k - 1] !in s[..k - 1];
    } else {
      assert s[..0] == [];
    }
  }

  /** The durable store. */
  class Store {
    /** `olt/users`: the roster. */
    var users: Option<seq<string>>
    /** `olt/currentUser`: the selected user. */
    var currentUser: Option<string>
    /** `olt/progressQueue`: the pending queue, oldest first. */
    var queue: Option<seq<ProgressEntry>>
    /** `olt/autoSync`: the text `"true"` or `"false"`. */
    var autoSync: Option<string>

    /** A freshly installed app: nothing has been written. */
    constructor ()
      ensures users == None && currentUser == None && queue == None && autoSync == None
    {
      users, currentUser, queue, autoSync := None, None, None, None;
    }

    /** The roster as `getUsers` reads it. */
    function Roster(): seq<string>
      reads this
    {
      if users.Some? then users.value else []
    }

    /** The queue as `getQueue` reads it. */
    function Queue(): seq<ProgressEntry>
      reads this
    {
      if queue.Some? then queue.value else []
    }

    /** The flag as `getAutoSync` reads it. */
    function AutoSyncOn(): bool
      reads this
    {
      ReadAutoSync(autoSync)
    }

    /** `getUsers`: the stored roster; a never-written roster reads as empty. */
    method GetUsers() returns (r: seq<string>)
      ensures r == Roster()
      ensures users == None ==> r == []
      ensures users.Some? ==> r == users.value
    {
      r := Roster();
    }

    /** `addUser`: a blank name changes nothing; otherwise the trimmed name is
        appended unless it is there already, and becomes the current user. */
    method AddUser(name: string)
      modifies this
      ensures Trim(name) == [] ==> unchanged(this)
      ensures Trim(name) != [] ==>
        Roster() == AppendNew(old(Roster()), Trim(name)) && currentUser == Some(Trim(name))
      ensures Distinct(old(Roster())) ==> Distinct(Roster())
      ensures queue == old(queue) && autoSync == old(autoSync)
    {
      var trimmed := Trim(name);
      if trimmed == [] {
        return;
      }
      AddTrimmed(trimmed);
    }

    /** The rest of `addUser`, once the name is trimmed and not blank: append
        it unless it is there already, then select it. */
    method AddTrimmed(trimmed: string)
      modifies this
      ensures Roster() == AppendNew(old(Roster()), trimmed) && currentUser == Some(trimmed)
      ensures Distinct(old(Roster())) ==> Distinct(Roster())
      ensures queue == old(queue) && autoSync == old(autoSync)
    {
      var roster := GetUsers();
      if trimmed !in roster {
        roster := roster + [trimmed];
        users := Some(roster);
      }
      SetCurrentUser(trimmed);
    }

    /** `getCurrentUser`: `null` until a user has been set. */
    method GetCurrentUser() returns (r: Option<string>)
      ensures r == currentUser
    {
      r := currentUser;
    }

    /** `setCurrentUser`. */
    method SetCurrentUser(name: string)
      modifies this`currentUser
      ensures currentUser == Some(name)
    {
      currentUser := Some(name);
    }

    /** `getQueue`: the pending entries, oldest first; a never-written queue reads as empty. */
    method GetQueue() returns (q: seq<ProgressEntry>)
      ensures queue == None ==> q == []
      ensures queue.Some? ==> q == queue.value
    {
      q := Queue();
    }

    /** `enqueue`: the entry goes last; the earlier entries are unchanged. */
    method Enqueue(entry: ProgressEntry)
      modifies this`queue
      ensures Queue() == old(Queue()) + [entry]
    {
      var q := GetQueue();
      q := q + [entry];
      queue := Some(q);
    }

    /** `clearQueue`: the queue is written as empty; no other key is touched. */
    method ClearQueue()
      modifies this`queue
      ensures queue == Some([]) && Queue() == []
    {
      queue := Some([]);
    }

    /** `getSyncPayload`: the roster and the queue, as stored, with nothing changed. */
    method GetSyncPayload() returns (payload: SyncPayload)
      ensures payload.users == Roster() && payload.progress == Queue()
      ensures users == None ==> payload.users == []
      ensures queue == None ==> payload.progress == []
    {
      var roster := GetUsers();
      var q := GetQueue();
      payload := SyncPayload(roster, q);
    }

    /** `getAutoSync`: false until it has been set. */
    method GetAutoSync() returns (b: bool)
      ensures b == AutoSyncOn()
      ensures autoSync == None ==> !b
      ensures autoSync == Some(AutoSyncText(true)) ==> b
      ensures autoSync == Some(AutoSyncText(false)) ==> !b
    {
      b := AutoSyncOn();
    }

    /** `setAutoSync`: the next `getAutoSync` returns `v`. */
    method SetAutoSync(v: bool)
      modifies this`autoSync
      ensures autoSync == Some(AutoSyncText(v)) && AutoSyncOn() == v
    {
      autoSync := Some(AutoSyncText(v));
    }

    /** `mergeUsersLocal`: the roster becomes the distinct existing names in
        first-seen order, then the truthy incoming names not seen yet. */
    method MergeUsersLocal(newUsers: seq<string>)
      modifies this`users
      ensures users == Some(MergedRoster(old(Roster()), newUsers))
    {
      var existing := GetUsers();
      // new Set(existing)
      var seen: seq<string> := [];
      for i := 0 to |existing|
        invariant seen == AddAll([], existing[..i])
      {
        assert existing[..i + 1] == existing[..i] + [existing[i]];
        AddAllSnoc([], existing[..i], existing[i]);
        if existing[i] !in seen {
          seen := seen + [existing[i]];
        }
      }
      assert existing[..|existing|] == existing;
      ghost var start := seen;
      for i := 0 to |newUsers|
        invariant seen == AddAll(start, NonEmptyNames(newUsers[..i]))
      {
        var u := newUsers[i];
        assert newUsers[..i + 1] == newUsers[..i] + [u];
        NonEmptyNamesSnoc(newUsers[..i], u);
        if u != [] {
          AddAllSnoc(start, NonEmptyNames(newUsers[..i]), u);
        } else {
          assert NonEmptyNames(newUsers[..i]) + [] == NonEmptyNames(newUsers[..i]);
        }
        if u != [] && u !in seen {
          seen := seen + [u];
        }
      }
      assert newUsers[..|newUsers|] == newUsers;
      users := Some(seen);
    }
  }
}
