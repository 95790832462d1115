/** The client's sync orchestrator (offline-app-example/app/context.tsx): the
    connectivity listener, `syncNow`, `addUser`, `refreshServerUsers`, and the
    display id `makeUserId`. The network is an input: the outcome of each
    request is a parameter of the operation that makes it. Each operation
    runs to completion before the next begins. */
module Context {
  import opened Wrappers
  import opened JsText
  import opened JsNumber
  import opened Json
  import opened Storage

  // --------------------------------------------------------- makeUserId

  /** The readable part of the id: `name.trim().toLowerCase().replace(/\s+/g, '-')`. */
  function UserIdBase(name: string): string
  {
    ReplaceWhiteSpaceRuns(ToLowerAscii(Trim(name)))
  }

  /** The hash loop over UTF-16 code units, `hash = (hash * 31 + code) >>> 0`,
      after the units `us`. */
  function HashUnits(us: seq<int>): (h: nat)
    ensures h < TWO_32
  {
    if us == [] then 0 else ToUint32(HashUnits(us[..|us| - 1]) * 31 + us[|us| - 1])
  }

  /** The hash of a name. */
  function NameHash(name: string): (h: nat)
    ensures h < TWO_32
  {
    HashUnits(Utf16Units(name))
  }

  /** `makeUserId`: the base, a dash, and the hash in base 36. */
  method MakeUserId(name: string) returns (id: string)
    ensures id == UserIdBase(name) + "-" + ToBase36(NameHash(name))
  {
    var base := UserIdBase(name);
    var units := Utf16Units(name);
    var hash := 0;
    for i := 0 to |units|
      invariant 0 <= hash < TWO_32
      invariant hash == HashUnits(units[..i])
    {
      HashUnitsStep(units, i);
      hash := ToUint32(hash * 31 + units[i]);
    }
    assert units[..|units|] == units;
    assert hash == NameHash(name);
    id := base + "-" + ToBase36(hash);
  }

  lemma HashUnitsStep(us: seq<int>, i: nat)
    requires i < |us|
    ensures HashUnits(us[..i + 1]) == ToUint32(HashUnits(us[..i]) * 31 + us[i])
  {
    assert us[..i + 1][..i] == us[..i];
  }

  /** The polynomial `us[0]*31^(n-1) + ... + us[n-1]` over unbounded integers. */
  function PolyHash(us: seq<int>): int
  {
    if us == [] then 0 else PolyHash(us[..|us| - 1]) * 31 + us[|us| - 1]
  }

  lemma ModStep(a: int, c: int)
    ensures ((a % TWO_32) * 31 + c) % TWO_32 == (a * 31 + c) % TWO_32
  {
    var q := a / TWO_32;
    assert a == q * TWO_32 + a % TWO_32;
    assert a * 31 + c == (q * 31) * TWO_32 + ((a % TWO_32) * 31 + c);
    ModAddMultiple(q * 31, (a % TWO_32) * 31 + c);
  }

  lemma ModAddMultiple(k: int, x: int)
    ensures (k * TWO_32 + x) % TWO_32 == x % TWO_32
  {
  }

  /** The `>>> 0` after every step loses nothing that the final reduction
      would keep: the hash is the polynomial hash reduced modulo 2^32 once. */
  lemma {:induction false} HashIsPolynomialMod(us: seq<int>)
    ensures HashUnits(us) == PolyHash(us) % TWO_32
  {
    if us != [] {
      var init := us[..|us| - 1];
      HashIsPolynomialMod(init);
      ModStep(PolyHash(init), us[|us| - 1]);
    }
  }

  /** The base carries no white space and no upper-case ASCII letter. */
  lemma UserIdBaseNormal(name: string)
    ensures forall i | 0 <= i < |UserIdBase(name)| ::
      !IsWhiteSpace(UserIdBase(name)[i]) && NotUpperAscii(UserIdBase(name)[i])
  {
    var lower := ToLowerAscii(Trim(name));
    var b := UserIdBase(name);
    ReplaceKeepsCharacters(lower);
    forall i | 0 <= i < |b| ensures NotUpperAscii(b[i]) {
      assert b[i] in b;
      if b[i] != '-' {
        var j :| 0 <= j < |lower| && lower[j] == b[i];
      }
    }
  }

  /** Normalising a base again changes nothing. */
  lemma UserIdBaseIdempotent(name: string)
    ensures UserIdBase(UserIdBase(name)) == UserIdBase(name)
  {
    var b := UserIdBase(name);
    UserIdBaseNormal(name);
    TrimUntrimmable(b);
    assert ToLowerAscii(b) == b;
    ReplaceWithoutWhiteSpace(b);
  }

  // ------------------------------------------------------ connectivity

  /** `Boolean(state.isConnected && state.isInternetReachable !== false)`:
      `isConnected` is `null` or a boolean; an unknown (`null` or absent)
      reachability counts as reachable. */
  function IsOnline(isConnected: Option<bool>, isInternetReachable: Option<bool>): bool
  {
    isConnected == Some(true) && isInternetReachable != Some(false)
  }

  // --------------------------------------------------------- transport

  /** The outcome of a `fetch`: a network error, or a response whose status is ok or not. */
  datatype HttpResult = NetworkError | Response(ok: bool)

  /** `postSync` throws on a network error and on `!res.ok`. */
  predicate PostSyncThrows(r: HttpResult) {
    r.NetworkError? || !r.ok
  }

  /** The outcome of `fetch(`/progress`)` followed by `res.json()`: a failure
      (network error, or a body that is not JSON), or a response with its
      status and its `users` member. */
  datatype FetchResult = FetchFailed | Fetched(ok: bool, users: Field<string>)

  // ---------------------------------------------------------- the app

  /** The app's shared state: the durable store and the flags the sync logic keeps. */
  class App {
    const store: Store
    var isOnline: bool
    var isSyncing: bool
    var serverUsers: seq<string>

    /** The provider as mounted: assumed online, not syncing, no server users yet. */
    constructor (store: Store)
      ensures this.store == store && isOnline && !isSyncing && serverUsers == []
    {
      this.store := store;
      isOnline, isSyncing, serverUsers := true, false, [];
    }

    /** `syncNow`: sends the roster and the whole queue; the queue is cleared
        only when `postSync` returns normally, and `isSyncing` is false at the
        end either way. `failed` says that the call rethrew. */
    method SyncNow(post: HttpResult) returns (payload: SyncPayload, failed: bool)
      modifies this, store
      ensures payload == SyncPayload(old(store.Roster()), old(store.Queue()))
      ensures failed == PostSyncThrows(post)
      ensures !failed ==> store.queue == Some([])
      ensures failed ==> store.queue == old(store.queue)
      ensures !isSyncing
      ensures store.users == old(store.users) && store.currentUser == old(store.currentUser)
      ensures store.autoSync == old(store.autoSync)
      ensures isOnline == old(isOnline) && serverUsers == old(serverUsers)
    {
      isSyncing := true;
      payload := store.GetSyncPayload();
      failed := PostSyncThrows(post);
      if !failed {
        store.ClearQueue();
      }
      isSyncing := false;
    }

    /** `addUser`: the store is updated first; then, when online, the name is
        posted as passed, without trimming it (the store keeps the trimmed
        one). A failed post is swallowed and does not
        undo the local update. `sent` is what was posted, if anything. */
    method AddUser(name: string, post: HttpResult) returns (sent: Option<SyncPayload>)
      modifies this, store
      ensures Trim(name) == [] ==> store.users == old(store.users) && store.currentUser == old(store.currentUser)
      ensures Trim(name) != [] ==>
        store.Roster() == Collections.AppendNew(old(store.Roster()), Trim(name))
        && store.currentUser == Some(Trim(name))
      ensures store.queue == old(store.queue) && store.autoSync == old(store.autoSync)
      ensures sent == (if old(isOnline) then Some(SyncPayload([name], [])) else None)
      ensures isOnline == old(isOnline) && isSyncing == old(isSyncing) && serverUsers == old(serverUsers)
    {
      store.AddUser(name);
      sent := None;
      if isOnline {
        sent := Some(SyncPayload([name], []));
        // the outcome of `post` is caught and ignored
      }
    }

    /** `selectUser`. */
    method SelectUser(name: string)
      modifies store
      ensures store.currentUser == Some(name)
      ensures store.users == old(store.users) && store.queue == old(store.queue)
      ensures store.autoSync == old(store.autoSync)
    {
      store.SetCurrentUser(name);
    }

    /** `setAutoSync`. */
    method SetAutoSync(v: bool)
      modifies store
      ensures store.AutoSyncOn() == v
      ensures store.users == old(store.users) && store.queue == old(store.queue)
      ensures store.currentUser == old(store.currentUser)
    {
      store.SetAutoSync(v);
    }

    /** `refreshServerUsers`: nothing when offline; on an ok response the
        server's users are kept and merged into the roster (when there are
        any); any failure is swallowed and changes nothing. */
    method RefreshServerUsers(fetch: FetchResult)
      modifies this, store
      ensures !old(isOnline) ==> serverUsers == old(serverUsers) && store.users == old(store.users)
      ensures old(isOnline) && fetch.Fetched? && fetch.ok ==>
        serverUsers == Elements(fetch.users)
        && store.users == (if |Elements(fetch.users)| > 0
                           then Some(MergedRoster(old(store.Roster()), Elements(fetch.users)))
                           else old(store.users))
      ensures !(old(isOnline) && fetch.Fetched? && fetch.ok) ==>
        serverUsers == old(serverUsers) && store.users == old(store.users)
      ensures store.currentUser == old(store.currentUser) && store.queue == old(store.queue)
      ensures store.autoSync == old(store.autoSync)
      ensures isOnline == old(isOnline) && isSyncing == old(isSyncing)
    {
      if !isOnline {
        return;
      }
      if fetch.FetchFailed? || !fetch.ok {
        return;
      }
      var srvUsers := Elements(fetch.users);
      serverUsers := srvUsers;
      if |srvUsers| > 0 {
        store.MergeUsersLocal(srvUsers);
      }
    }

    /** The NetInfo listener: records whether the device is online; when it
        is, refreshes the server users, then drains the queue if auto-sync is
        on and the queue is not empty. `drained` says a drain was started,
        `failed` that it rethrew. */
    method OnConnectivityChange(isConnected: Option<bool>, isInternetReachable: Option<bool>,
                                fetch: FetchResult, post: HttpResult)
      returns (drained: bool, failed: bool)
      modifies this, store
      ensures isOnline == IsOnline(isConnected, isInternetReachable)
      ensures drained <==> isOnline && old(store.AutoSyncOn()) && |old(store.Queue())| > 0
      ensures failed <==> drained && PostSyncThrows(post)
      ensures drained && !failed ==> store.queue == Some([])
      ensures !(drained && !failed) ==> store.queue == old(store.queue)
      ensures drained ==> !isSyncing
      ensures !drained ==> isSyncing == old(isSyncing)
      ensures !isOnline ==> store.users == old(store.users) && serverUsers == old(serverUsers)
      ensures isOnline && fetch.Fetched? && fetch.ok ==>
        serverUsers == Elements(fetch.users)
        && store.users == (if |Elements(fetch.users)| > 0
                           then Some(MergedRoster(old(store.Roster()), Elements(fetch.users)))
                           else old(store.users))
      ensures isOnline && !(fetch.Fetched? && fetch.ok) ==>
        store.users == old(store.users) && serverUsers == old(serverUsers)
      ensures store.currentUser == old(store.currentUser) && store.autoSync == old(store.autoSync)
    {
      isOnline := IsOnline(isConnected, isInternetReachable);
      drained, failed := false, false;
      if isOnline {
        RefreshServerUsers(fetch);
        var auto := store.GetAutoSync();
        if auto {
          var q := store.GetQueue();
          if |q| > 0 {
            drained := true;
            var _, f := SyncNow(post);
            failed := f;
          }
        }
      }
    }
  }
}
