# Offline-first sync of the learning-progress tracker, in Dafny

This project models the sync logic of an offline-first learning-progress
tracker and proves properties of it. A field worker records students'
answers on a device that may be offline. The records wait in a local queue
and are later merged into the backend's canonical store. The model has
three parts.

- **The backend merge engine** (`Server`, `ServerProperties`), from the
  `POST /sync` handler. The store `{users, progress}` is a value `Db`. The
  method `Server.HandleSync` runs the handler's two loops. It pushes into
  the two arrays and keeps the set of dedup keys up to date. The method is
  proved equal to the specification function `Server.Merge`. The lemmas
  prove what the merge promises:
  - it only appends;
  - a duplicate-free store stays duplicate-free;
  - offering the same batch again stores nothing more (idempotence);
  - a rejected entry does not abort the rest of the batch;
  - each new record is the normalised copy of an accepted entry.

  The dedup key is the string `user::activityId::timestamp`, as in the
  code. So two different triples can collide (`CollidingKeysDropEntry`).
  `KeyInjective` shows the key is unambiguous when user names and activity
  ids contain no `:`.
- **The client's durable store** (`Storage`). This is the class
  `Storage.Store`, with one field per AsyncStorage key: roster, current
  user, pending queue, auto-sync text. A field is `None` when its key was
  never written, and a key never written reads as its default. Each method
  reads or replaces whole keys: a getter reads one key (`getSyncPayload`
  reads two) and writes nothing; `addUser` reads the roster and replaces the
  roster and the current user; the setters and `clearQueue` replace their
  key without reading it. `mergeUsersLocal` is specified by `MergedRoster`, and lemmas
  give its membership, distinctness and order.
- **The client's sync orchestrator** (`Context`). This is the class
  `Context.App`, which holds the store, the online flag, `isSyncing` and the
  server users. Its methods are `syncNow`, `addUser`, `selectUser`,
  `setAutoSync`, `refreshServerUsers` and the connectivity listener. Each
  request's outcome is a parameter: `HttpResult` for `postSync`,
  `FetchResult` for `GET /progress`. `makeUserId` is its hash loop, proved
  against `NameHash`. It is also shown to be a polynomial hash reduced modulo
  2^32, with a readable base that stays the same when normalised again.

`EndToEnd` joins the two sides. It shows the following:
- after a successful drain, every accepted queued entry's dedup key is in
  the canonical store (an older record with the same key may be the one
  kept), and every non-blank roster name is a canonical user;
- re-sending a drain whose reply was lost changes nothing;
- a stored record read back gives the client's entry again, with the
  backend's fresh id when the entry had none (the app's own entries carry no
  id, so they all come back with one).

It also holds three scenario methods:
- a first user on a new device;
- a drain that succeeds or fails;
- `addUser` on its own, called with `" Ana "`. It stores the trimmed
  `"Ana"` but posts the name as passed, without trimming it. The backend
  keeps `" Ana "`, and pulling the server's users back puts both spellings in
  the roster. The students screen trims the name before it calls `addUser`,
  so through that screen the two spellings agree. Only a caller that passes
  an untrimmed name sees them differ.

The supporting modules stand for the JavaScript built-ins the code relies
on:
- `JsText`: `trim`, `\s`, ASCII `toLowerCase`, `replace(/\s+/g, '-')`, and
  UTF-16 code units;
- `JsNumber`: `>>> 0` and `toString(36)`;
- `Json`: `Array.isArray` and `typeof`;
- `Collections`: `includes` followed by `push`, and insertion-ordered `Set`.

Three behaviours of the code are worth stating, because a reader might
expect otherwise:
- user names are not trimmed everywhere. The backend stores a submitted
  name untrimmed (only its trim must be non-empty), and `mergeUsersLocal`
  does not trim at all;
- overlapping drains are not guarded against: `isSyncing` is set but never
  checked;
- a corrupt stored value does not fall back to its default: `JSON.parse`
  would throw.

## Model

| member | source | states |
|---|---|---|
| Server.HandleSync | backend-offline-app/index.js:44-79 | The handler's loops produce exactly `Merge(db, body, ids)`. The reply is `ok` and counts the offered users and progress items, not the stored ones. |
| Server.Normalize | backend-offline-app/index.js:65-72 | The field rules for a pushed record. The id is kept if non-empty, else it is the fresh id. `user`, `activityId` and `timestamp` are copied. `answer` is kept (`None` for null or absent). `correct` is the boolean when it is one, else `None`. The record's key is the item's key. |
| Server.AcceptedNamesMembers | backend-offline-app/index.js:52-53 | A name passes the users filter exactly when it was offered as a string whose trim is non-empty. |
| Server.MergeProgressSplit | backend-offline-app/index.js:61-75 | Merging a batch `a + b` leaves the same store as merging `a` and then `b`. The new records appear in batch order. |
| Json.Elements | backend-offline-app/index.js:48-49 | A member that is not an array reads as an empty batch. |
| ServerProperties.NonArrayMembersIgnored | backend-offline-app/index.js:48-49 | Non-array `users` and `progress` leave the store unchanged and give a reply of zero counts, not an error. |
| ServerProperties.MergeUsersKeepsExisting | backend-offline-app/index.js:52-56 | The existing users stay as a prefix, in their order. |
| ServerProperties.MergeUsersMembers | backend-offline-app/index.js:52-56 | A name is stored after the merge exactly when it was stored before, or was offered as a string whose trim is non-empty. The stored name is the untrimmed one. |
| ServerProperties.MergeUsersDistinct | backend-offline-app/index.js:53-54 | A duplicate-free user list stays duplicate-free. |
| ServerProperties.MergeUsersIdempotent | backend-offline-app/index.js:52-56 | Offering the same users a second time adds nothing. |
| ServerProperties.MergeProgressKeepsExisting | backend-offline-app/index.js:60-65 | Only appends: the old `db.progress` is a prefix of the new one. |
| ServerProperties.MergeProgressUnique | backend-offline-app/index.js:59-75 | If no two stored records share a `user::activityId::timestamp` key, none do after the merge. This includes duplicates inside one batch. |
| ServerProperties.MergeProgressCovers | backend-offline-app/index.js:59-75 | After the merge, every accepted item's key is in the store. |
| ServerProperties.MergeProgressPresent | backend-offline-app/index.js:61-65 | When every accepted item's key is already stored, the merge changes nothing. |
| ServerProperties.MergeProgressIdempotent | backend-offline-app/index.js:59-75 | Merging the same batch twice leaves the store as one merge does, whatever ids the second run would make up. |
| ServerProperties.MergeProgressSkipsRejected | backend-offline-app/index.js:61-62 | An item with a falsy `user`, `activityId` or `timestamp`, or one that is not an object, has no effect anywhere in the batch. The rest of the batch is still processed. |
| ServerProperties.MergeProgressAppended | backend-offline-app/index.js:64-72 | Every appended record is the normalisation of an accepted item of the batch, with the fresh id for its own position. |
| ServerProperties.DuplicateInBatchStoredOnce | backend-offline-app/index.js:60-73 | Within one call the first accepted entry with a key wins. Any later entry of the same batch with the same key adds nothing, wherever the two stand and whatever the store held before, because keys added earlier in the call count. |
| ServerProperties.CollidingKeysDropEntry | backend-offline-app/index.js:59 | Users `a::b` and `a`, with activity ids `c` and `b::c`, give the same key. The second entry is dropped. |
| ServerProperties.KeyInjective | backend-offline-app/index.js:59 | When user and activity id contain no `:`, equal keys mean equal triples. The timestamp may contain `:`. |
| ServerProperties.NormalizeStable | backend-offline-app/index.js:66-71 | When a stored record with an id is posted back, normalising it gives the same record. |
| ServerProperties.MergeKeepsCanonical | backend-offline-app/index.js:51-75 | The canonical store's invariant is kept by every merge: no duplicate user and no duplicate key. |
| ServerProperties.MergeIdempotent | backend-offline-app/index.js:48-75 | Handling the same body twice leaves the store as handling it once. |
| Collections.AppendNew | backend-offline-app/index.js:53-54 | `includes` then `push` keeps the old list as a prefix and adds the element only if it is absent. Distinctness is preserved. |
| Collections.AddAllMembers | offline-app-example/app/storage.ts:74-75 | Adding a list to an insertion-ordered set loses nothing and invents nothing. |
| Collections.AddAllDistinct | offline-app-example/app/storage.ts:74-76 | The set built by adding a list has no duplicates. |
| Collections.AddAllIdempotent | offline-app-example/app/storage.ts:75 | Adding the same list twice gives the same result as adding it once. |
| JsText.TrimStart | offline-app-example/app/storage.ts:25 | The start of `trim`: a suffix of the input that starts at its first non-white-space character. Only white space is dropped. |
| JsText.TrimEnd | offline-app-example/app/storage.ts:25 | The end of `trim`: a prefix of the input that ends at its last non-white-space character. Only white space is dropped. |
| JsText.TrimIsSlice | offline-app-example/app/storage.ts:25 | `trim()` returns a slice of the input; only white space is cut at either side. |
| JsText.TrimEmptyIffBlank | backend-offline-app/index.js:53 | `u.trim().length > 0` holds exactly when `u` has a character that is not white space. |
| JsText.TrimIdempotent | offline-app-example/app/storage.ts:25-32 | Trimming the trimmed name again changes nothing. |
| JsText.ReplaceWhiteSpaceRuns | offline-app-example/app/context.tsx:20 | `replace(/\s+/g, '-')` leaves no white space and does not lengthen the text. |
| JsText.ReplaceWithoutWhiteSpace | offline-app-example/app/context.tsx:20 | Text with no white space is not changed by the replacement. |
| JsText.Utf16RoundTrip | offline-app-example/app/context.tsx:22-23 | The code units that `length` and `charCodeAt` count decode back to the name's code points. |
| JsText.Utf16LengthBmp | offline-app-example/app/context.tsx:22 | For characters below U+10000, `name.length` is the number of characters. |
| JsNumber.ToUint32 | offline-app-example/app/context.tsx:23 | `>>> 0` gives a value in `[0, 2^32)` and leaves values already in range alone. |
| JsNumber.Base36RoundTrip | offline-app-example/app/context.tsx:25 | Reading back the `toString(36)` digits gives the hash again. |
| JsNumber.ToBase36 | offline-app-example/app/context.tsx:25 | The numeral is non-empty and has only lower-case base-36 digits. It has no leading zero unless the number is 0. |
| Context.MakeUserId | offline-app-example/app/context.tsx:19-26 | The id is the base, a dash and the base-36 hash. The loop keeps the hash in `[0, 2^32)` after every step. |
| Context.HashUnits | offline-app-example/app/context.tsx:21-24 | The hash after any prefix of the code units is in `[0, 2^32)`. |
| Context.HashIsPolynomialMod | offline-app-example/app/context.tsx:21-24 | Reducing after every step gives the same hash as the unbounded polynomial hash reduced modulo 2^32 once. |
| Context.UserIdBaseNormal | offline-app-example/app/context.tsx:20 | The base has no white space and no upper-case ASCII letter. |
| Context.UserIdBaseIdempotent | offline-app-example/app/context.tsx:20 | Normalising a base again gives the same base. |
| Context.App.constructor | offline-app-example/app/context.tsx:53-56 | The provider starts online, not syncing, with no server users. |
| Context.App.SyncNow | offline-app-example/app/context.tsx:128-146 | The payload is the roster and the queue as they were. The call fails exactly when `postSync` throws, that is on a network error or a response that is not ok. The queue is cleared only on success and is unchanged on failure. `isSyncing` is false at the end either way. No other key changes. |
| Context.App.AddUser | offline-app-example/app/context.tsx:90-100 | The store is updated as `addUser` updates it, whatever the network outcome. When online, the name alone is posted as passed, without trimming it. A failed post changes nothing. |
| Context.App.SelectUser | offline-app-example/app/context.tsx:102-105 | Only the current user changes. |
| Context.App.SetAutoSync | offline-app-example/app/context.tsx:107-110 | The stored flag then reads as `v`; no other key changes. |
| Context.App.RefreshServerUsers | offline-app-example/app/context.tsx:112-126 | Offline, nothing changes. On a failure or a non-ok response, nothing changes either. On an ok response, the server users are kept and, when there are any, merged into the roster. |
| Context.App.OnConnectivityChange | offline-app-example/app/context.tsx:72-86 | Online means `isConnected` is true and `isInternetReachable` is not exactly false; null counts as online. When online, the server users are refreshed, with the outcomes `refreshServerUsers` gives. On an ok fetch the server users are kept and, when there are any, merged into the roster. On any other outcome neither the server users nor the roster changes. Offline, neither changes. A drain starts exactly when online, auto-sync is stored as on and the queue is not empty. Its success clears the queue; otherwise the queue is unchanged. |
| Storage.ReadAutoSync | offline-app-example/app/storage.ts:63-66 | A never-written flag reads as false. |
| Storage.AutoSyncRoundTrip | offline-app-example/app/storage.ts:63-70 | What `setAutoSync(v)` writes, `getAutoSync` reads back as `v`. |
| Storage.MergedRosterMembers | offline-app-example/app/storage.ts:72-77 | A name is in the merged roster exactly when it was in the roster or is a non-empty incoming name. Nothing is removed except duplicates, and names are not trimmed. |
| Storage.MergedRosterDistinct | offline-app-example/app/storage.ts:74-76 | The merged roster has no duplicates. |
| Storage.MergedRosterKeepsRoster | offline-app-example/app/storage.ts:72-77 | A duplicate-free roster stays first, in its order. Incoming names follow it. |
| Storage.DistinctAddAll | offline-app-example/app/storage.ts:74 | `new Set(existing)` of a duplicate-free list keeps the list as it is. |
| Storage.Store.constructor | offline-app-example/app/storage.ts:12-17 | A new install has none of the four keys written. |
| Storage.Store.GetUsers | offline-app-example/app/storage.ts:19-22 | A never-written roster reads as empty; otherwise the stored roster is returned. |
| Storage.Store.AddUser | offline-app-example/app/storage.ts:24-33 | A blank name changes nothing. Otherwise the trimmed name is appended only if absent and becomes the current user. The roster stays duplicate-free, and the queue and flag are untouched. |
| Storage.Store.AddTrimmed | offline-app-example/app/storage.ts:27-32 | The part of `addUser` after the blank check. The trimmed name is appended only if absent and then selected. The roster stays duplicate-free, and the queue and flag are untouched. |
| Storage.Store.GetCurrentUser | offline-app-example/app/storage.ts:35-37 | Returns the stored selection, or none if it was never set. |
| Storage.Store.SetCurrentUser | offline-app-example/app/storage.ts:39-41 | The selection becomes the name; only that key changes. |
| Storage.Store.GetQueue | offline-app-example/app/storage.ts:43-46 | A never-written queue reads as empty; otherwise the stored queue is returned. |
| Storage.Store.Enqueue | offline-app-example/app/storage.ts:48-52 | The entry goes last; earlier entries are unchanged; only the queue key changes. |
| Storage.Store.ClearQueue | offline-app-example/app/storage.ts:54-56 | The queue is written as empty; no other key is touched. |
| Storage.Store.GetSyncPayload | offline-app-example/app/storage.ts:58-61 | Returns the roster and queue exactly, with defaults for unwritten keys, and changes nothing. |
| Storage.Store.GetAutoSync | offline-app-example/app/storage.ts:63-66 | Returns false until set. After `"true"` it returns true, and after `"false"` it returns false. |
| Storage.Store.SetAutoSync | offline-app-example/app/storage.ts:68-70 | Writes the text for `v`; the next read is `v`. |
| Storage.Store.MergeUsersLocal | offline-app-example/app/storage.ts:72-77 | The roster becomes `MergedRoster`: the distinct existing names in first-seen order, then the truthy incoming names not yet seen. |
| Server.DedupKey | backend-offline-app/index.js:59 | Definition: the dedup key `user::activityId::timestamp`, a plain concatenation. Its injectivity and its collisions are stated by `KeyInjective` and `CollidingKeysDropEntry`. |
| Server.KeysOf | backend-offline-app/index.js:60 | Definition: the set of keys of the stored records, which `existingKeys` holds. `HandleSync` keeps its key set equal to it. |
| Server.AcceptedUser | backend-offline-app/index.js:53 | Definition: the users filter, a string whose trim is non-empty. |
| Server.AcceptedName | backend-offline-app/index.js:53-54 | Definition: what one submitted user contributes. That is its untrimmed name when it passes the filter, and nothing otherwise. |
| Server.AcceptedNames | backend-offline-app/index.js:52-53 | Definition: the offered names that pass the filter, in order. Its members are stated by `AcceptedNamesMembers`. |
| Server.MergeUsers | backend-offline-app/index.js:52-56 | Definition: the users loop as a fold of `includes`-then-`push`. Its properties are the `MergeUsers*` lemmas. |
| Server.Accepted | backend-offline-app/index.js:62 | Definition: the progress guard. The item must be an object with truthy `user`, `activityId` and `timestamp`. |
| Server.ProgressStep | backend-offline-app/index.js:62-74 | Definition: one iteration of the progress loop. It skips a rejected item or a known key, and otherwise pushes the normalised record. |
| Server.MergeProgress | backend-offline-app/index.js:61-75 | Definition: the progress loop as a left fold of `ProgressStep`. Its properties are the `MergeProgress*` lemmas. |
| Server.Merge | backend-offline-app/index.js:48-75 | Definition: the store after the handler. Users are merged, then progress, each from its `Array.isArray`-guarded member. |
| Server.ReplyFor | backend-offline-app/index.js:78 | Definition: the reply `{ok: true, savedUsers, savedProgress}` with the offered counts. |
| Storage.AutoSyncText | offline-app-example/app/storage.ts:69 | Definition: the text `"true"` or `"false"` written for the flag. Its round trip is `AutoSyncRoundTrip`. |
| Storage.NonEmptyNames | offline-app-example/app/storage.ts:75 | Definition: the truthy incoming names, in order. Its members are stated by `NonEmptyNamesMembers`. |
| Storage.MergedRoster | offline-app-example/app/storage.ts:74-76 | Definition: `new Set(existing)`, then each truthy incoming name added, in insertion order. Its properties are the `MergedRoster*` lemmas. |
| Storage.NonEmptyNamesMembers | offline-app-example/app/storage.ts:75 | A name passes the filter exactly when it is a non-empty incoming name. |
| Context.IsOnline | offline-app-example/app/context.tsx:73 | Definition: online means connected, with reachability not exactly false. An unknown reachability counts as online. |
| Context.PostSyncThrows | offline-app-example/app/context.tsx:139-146 | Definition: `postSync` throws on a network error or a response that is not ok. |
| Context.UserIdBase | offline-app-example/app/context.tsx:20 | Definition: the trimmed name, with its ASCII letters lower-cased and each white-space run replaced by `-`. Its properties are `UserIdBaseNormal` and `UserIdBaseIdempotent`. |
| Context.NameHash | offline-app-example/app/context.tsx:21-24 | The hash of the name's UTF-16 code units lies in `[0, 2^32)`. |
| JsText.Trim | offline-app-example/app/storage.ts:25 | The result is empty, or it neither starts nor ends with white space. |
| JsText.ToLowerAscii | offline-app-example/app/context.tsx:20 | The result has the same length, and each character is lower-cased, ASCII letters only. |
| JsText.Utf16Units | offline-app-example/app/context.tsx:22-23 | Every code unit is below 2^16, and there are at least as many units as characters. Surrogate pairs decode back, as `Utf16RoundTrip` states. |
| JsText.ReplaceOneRun | offline-app-example/app/context.tsx:20 | One maximal white-space run becomes exactly one `-`. The text before the run is kept in order, and the text after it is replaced in turn. |
| Collections.AddAll | offline-app-example/app/storage.ts:74-76 | Definition: adds each element in turn to an insertion-ordered set. Its properties are the `AddAll*` lemmas. |
| EndToEnd.ToWire | offline-app-example/app/context.tsx:141-144 | Definition: a queued entry as the backend reads the JSON body. An absent `id` becomes falsy, and a `null` `correct` is not a boolean. |
| EndToEnd.ToBody | offline-app-example/app/context.tsx:141-144 | Definition: the JSON body of a sync payload. Both members are arrays. |
| EndToEnd.ClientEntryAccepted | backend-offline-app/index.js:62 | The backend accepts a client entry exactly when its user, activity id and timestamp are non-empty. |
| EndToEnd.StoredRecordRoundTrip | backend-offline-app/index.js:65-72 | The stored record holds the client entry's data unchanged. Its id is the entry's id, or the fresh id when the entry had none. |
| EndToEnd.DrainDeliversProgress | offline-app-example/app/context.tsx:131-133 | After the backend merges a drained payload, every accepted queued entry's key is in the canonical store. |
| EndToEnd.DrainDeliversUsers | offline-app-example/app/context.tsx:131-133 | After the backend merges a drained payload, every roster name whose trim is non-empty is a canonical user. |
| EndToEnd.RedeliveryHarmless | backend-offline-app/index.js:59-75 | A drain whose reply was lost, sent again, stores nothing more than the first delivery. |

## Left out

- Express plumbing is not modelled: routing, CORS, `app.listen`, `GET /health` and `GET /progress`. The last only returns the store as it is.
- `readDB`/`writeDB` and `db.json` are file I/O. The store is a value passed in and returned.
- AsyncStorage and JSON text are replaced by typed fields. A corrupt stored value, which would make `JSON.parse` throw, cannot arise in the model.
- `fetch` and NetInfo are inputs. A connectivity event is a call with its two flags. HTTP statuses are reduced to ok or not ok. A body that is not JSON counts as a fetch failure.
- `Date.now()` and `Math.random()` ids: the fresh id is an opaque `IdSupply` indexed by the new record's position.
- Concurrency is not modelled; every operation runs to completion.
  - Interleaved async calls, `Promise.all`, and several devices posting at once are left out.
  - So is the race in which entries enqueued during an in-flight `syncNow` are also cleared.
  - The moment when `isSyncing` is true is not observable.
- React state is not modelled: the `users`, `currentUser` and `autoSync` copies, `refresh()`, `useMemo` and the `displayUsers` mapping. The stale capture of `isOnline` by the listener's closure is also left out; the listener sees the value it has just set.
- An unhandled rejection from `syncNow` inside the listener is returned as `failed`.
- Server.Item: `user`, `activityId`, `timestamp` and `id` are strings, and an absent one is the empty string, which is just as falsy. A truthy non-string value would be stringified into the key and copied; that is not modelled. Neither is a non-string `answer`.
- Context.MakeUserId, Context.UserIdBase, JsText.ToLowerAscii: `toLowerCase` is modelled for ASCII letters only. Other cased letters are left as they are.
- Context.MakeUserId, Context.NameHash, JsText.Utf16Units: a JavaScript string can hold a lone surrogate code unit, and `charCodeAt` and the hash then see it. A Dafny string holds Unicode scalar values only, so names with lone surrogates are not modelled.
- `offline-app-example/app/(tabs)/activities.tsx`: the submit-or-enqueue flow calls `submitProgress`, which `context.tsx` does not provide, so it is not part of this model.
- The screens' own sync paths are not modelled:
  - `offline-app-example/app/(tabs)/sync.tsx:54-75` runs a second drain that does not go through `syncNow`. It posts the payload, throws on a response that is not ok, and reads the reply as JSON before it calls `clearQueue`. So a reply that is not JSON also keeps the queue there.
  - `offline-app-example/app/(tabs)/students.tsx:55-61` calls `syncNow` when auto-sync is switched on while online. That is a drain trigger besides the connectivity listener.
  - The rest of the screens, and `offline-app-example/app/_layout.tsx`, only render UI and call the context's operations.
