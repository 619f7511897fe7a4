# Authentication glue: image cleanup and secondary-storage namespacing

This project models the two pieces of decision logic in the authentication
module of a React Router / Cloudflare Workers application
(`app/lib/auth/auth.server.ts`). Everything else in that file is
configuration handed to the `better-auth` library.

- **Profile-image cleanup** (`image_cleanup.dfy`, module `ImageCleanup`).
  After a user is deleted, the `afterDelete` hook passes the user's
  stored image reference to `deleteUserImageFromR2`. That function
  ignores null and empty references. It ignores external URLs, meaning
  any string that literally starts with `http://` or `https://`.
  Otherwise it cuts the reference at its first `?` and deletes the
  resulting R2 object key, unless that key is empty.
  The key computation is the pure function `DeletionKey`. It is built
  from `IndexOf`, a model of JavaScript's `String.prototype.indexOf`
  that counts characters rather than UTF-16 code units, and `StripQuery`. The lemmas compare it with an independent
  description, `IsDeletionKeyOf`. The R2 bucket is the class
  `ObjectStore`: the set of keys it holds plus a log of the delete
  requests it has received. `DeleteUserImage` and `AfterDelete` are
  methods over that class. They reassign the local key step by step, as
  the source does.
- **Secondary-storage adapter** (`secondary_storage.dfy`, module
  `SecondaryStorage`). The adapter's `get`, `set` and `delete` each
  rewrite the library's key `k` to `_auth:` + `k` before calling the
  Cloudflare KV namespace. The KV namespace is the class `KvStore`, a
  map from store keys to entries, where an entry is a value plus the TTL
  it was written with. The adapter is the class `AuthStorage`. `Read`
  states what a `get` finds. `Step` gives the store after one `set` or
  `delete`, and `Run` gives it after a sequence of them. The lemmas prove
  four things:
  - the prefixing is injective and can be undone;
  - `set` and `delete` of one key leave every other key's `get` unchanged;
  - `get` returns what the latest `set` of its key stored, or nothing after a `delete`;
  - no operation ever addresses or changes a store key outside the `_auth:` namespace.
- `wrappers.dfy` (module `Wrappers`) holds the `Option` datatype. It
  stands for the source's `string | null` and for lookups that may find
  nothing.

## Model

| member | source | states |
|---|---|---|
| `ImageCleanup.TruthyExactly` | app/lib/auth/auth.server.ts:107-108 | `Truthy` (the negation of `!imageUrl` here, and also the guard `if (user.image)` at line 76) holds exactly for a non-null, non-empty string |
| `ImageCleanup.StartsWithExactly` | app/lib/auth/auth.server.ts:111 | `StartsWith(s, p)` (`s.startsWith(p)`) holds exactly when `s` is `p` followed by some string |
| `ImageCleanup.ExternalUrlExactly` | app/lib/auth/auth.server.ts:110-111 | `IsExternalUrl` (the `isExternalUrl` constant) holds exactly when the reference is `http://` or `https://` followed by some string |
| `ImageCleanup.IndexOf` | app/lib/auth/auth.server.ts:115 | result is -1 exactly when the character is absent; otherwise it is an index holding the character, and no earlier position holds it (the first occurrence) |
| `ImageCleanup.StripQuery` | app/lib/auth/auth.server.ts:114-118 | result is a prefix of the input, contains no `?`, and ends either at the end of the input or just before a `?` (so it is the text before the first `?`) |
| `ImageCleanup.DeletionKey` | app/lib/auth/auth.server.ts:107-121 | null or empty references and `http://`/`https://` URLs give no key; any key given is non-empty, has no `?`, and is a prefix of the reference |
| `ImageCleanup.DeletionKeyCharacterised` | app/lib/auth/auth.server.ts:110-121 | for every reference and key: the key is deleted exactly when the reference is internal and the key is the non-empty, `?`-free prefix ending at the first `?` or at the end (both directions) |
| `ImageCleanup.NoDeletionExactly` | app/lib/auth/auth.server.ts:108-121 | a non-null reference causes no delete exactly when it is empty, is an external URL, or starts with `?` (its stripped key is empty) |
| `ImageCleanup.NoQueryDeletedAsIs` | app/lib/auth/auth.server.ts:114-120 | a non-empty internal reference without `?` is deleted under exactly its own string |
| `ImageCleanup.DeletionKeyIdempotent` | app/lib/auth/auth.server.ts:110-121 | the deleted key, used as a reference in turn, is deleted under itself (stripping is idempotent, and a prefix of an internal reference is internal) |
| `ImageCleanup.ExampleQueryStripped` | app/lib/auth/auth.server.ts:114-120 | `avatars/u123.png?v=2` is deleted as `avatars/u123.png` |
| `ImageCleanup.ExampleExternalKept` | app/lib/auth/auth.server.ts:110-113 | `https://cdn.example.com/x.png` causes no delete |
| `ImageCleanup.ExampleOnlyQueryKept` | app/lib/auth/auth.server.ts:119-121 | `?v=2` strips to the empty key and causes no delete |
| `ImageCleanup.ObjectStore.Delete` | app/lib/auth/auth.server.ts:120 | the bucket drops exactly that key (a missing key is no error) and logs one delete request for it |
| `ImageCleanup.DeleteUserImage` | app/lib/auth/auth.server.ts:107-123 | with no deletion key, the bucket and the request log are unchanged; otherwise exactly one delete request is logged, for that key, and only that key leaves the bucket |
| `ImageCleanup.AfterDelete` | app/lib/auth/auth.server.ts:75-79 | a user whose image is null or empty causes no delete request; otherwise the effect is that of `DeleteUserImage` on the user's image |
| `SecondaryStorage.Namespaced` | app/lib/auth/auth.server.ts:22-27 | every key the adapter sends to the store lies in the `_auth:` namespace and is longer by exactly the prefix |
| `SecondaryStorage.LibraryKey` | app/lib/auth/auth.server.ts:22-27 | a store key has a library key exactly when it lies in the namespace; that key is the store key without the prefix |
| `SecondaryStorage.LibraryKeyOfNamespaced` | app/lib/auth/auth.server.ts:22-27 | removing the prefix undoes adding it |
| `SecondaryStorage.NamespacedOfLibraryKey` | app/lib/auth/auth.server.ts:22-27 | adding the prefix undoes removing it, for every store key in the namespace |
| `SecondaryStorage.NamespacedInjective` | app/lib/auth/auth.server.ts:22-27 | two library keys map to the same store key exactly when they are equal |
| `SecondaryStorage.Read` | app/lib/auth/auth.server.ts:22 | `get` finds a value exactly when the namespaced key is stored, and the value it finds is the one stored under that key |
| `SecondaryStorage.Step` | app/lib/auth/auth.server.ts:23-27 | one `set(k, v)` or `delete(k)` changes no store key but `_auth:` + `k`; a `set` stores the value with its TTL there; after it, `get(k)` yields `v` (for `set`) or nothing (for `delete`), and `get` of every other key finds what it found before |
| `SecondaryStorage.ReadAfterRun` | app/lib/auth/auth.server.ts:22-27 | after any sequence of `set`/`delete` calls, `get(k)` yields what the last call on `k` left (the value set, or nothing after a delete), or what it found before when no call touched `k` |
| `SecondaryStorage.RunKeepsForeignEntries` | app/lib/auth/auth.server.ts:22-27 | no sequence of adapter calls adds, removes or changes a store entry outside the `_auth:` namespace |
| `SecondaryStorage.ForeignKeysNeverAddressed` | app/lib/auth/auth.server.ts:22-27 | no library key is sent to the store as a key outside the `_auth:` namespace |
| `SecondaryStorage.KvStore.Get` | app/lib/auth/auth.server.ts:22 | a missing key gives None, not an error; a present key gives its stored value |
| `SecondaryStorage.KvStore.Put` | app/lib/auth/auth.server.ts:24-26 | the store holds the value and TTL under that key; every other entry is unchanged |
| `SecondaryStorage.KvStore.Delete` | app/lib/auth/auth.server.ts:27 | exactly that key is removed |
| `SecondaryStorage.AuthStorage.Get` | app/lib/auth/auth.server.ts:22 | returns what the store holds under `_auth:` + key |
| `SecondaryStorage.AuthStorage.Set` | app/lib/auth/auth.server.ts:23-26 | writes value and TTL under `_auth:` + key and nothing else; a later `get` of that key yields the value; every other key's `get` is unchanged |
| `SecondaryStorage.AuthStorage.Delete` | app/lib/auth/auth.server.ts:27 | removes `_auth:` + key and nothing else; a later `get` of that key yields nothing; every other key's `get` is unchanged |

## Left out

- The `betterAuth(...)` construction and its option objects are not modelled: the admin plugin, the Drizzle adapter, social providers, account linking, and the email-and-password and verification flags (lines 7-20, 29-31, 43-45, 55-71, 95-98). The external library consumes them. This repository implements no logic for them.
- Rate limiting (lines 82-92) is not modelled. The file only sets `enabled: true`, `storage: "secondary-storage"`, `window: 60`, `max: 10` and the IP-address header list. The `storage` setting routes the library's counters through the secondary-storage adapter modelled here. The counter itself runs inside `better-auth`, which is not part of this model.
- `getServerSession` (lines 100-105) is not modelled. It passes the request's headers to a library call and returns the result.
- `sendResetPassword` and `sendVerificationEmail` (lines 32-53) are not modelled. They only write to the console in development and are empty stubs otherwise.
- JSON serialisation is not modelled: `JSON.stringify` in `set`, and the `"json"` read mode in `get`. Values are opaque, already-serialised strings. The model therefore does not capture a `get` of a stored value that is not valid JSON.
- TTL expiry is not modelled. `set` records the TTL it forwards as `expirationTtl`, and the model never expires an entry. `ReadAfterRun` therefore holds only while the entry has not expired.
- Cloudflare KV and R2 are in-memory stores in this model. Network failures, their propagation to the caller, and async or concurrent interleavings are not modelled. All calls are sequential and always succeed.
- Strings are sequences of Unicode scalar values, whereas JavaScript strings are UTF-16 code units. `IndexOf` therefore gives a smaller index than `indexOf("?")` when a character outside the Basic Multilingual Plane comes before the `?`: for `"😀?x"`, `indexOf` gives 2 and `IndexOf` gives 1. The prefix cut at that index is the same string in both, because `?` is a single code unit. So `StripQuery`, `DeletionKey` and the deleted key agree with the source for every well-formed string.
- Only the exact, case-sensitive prefixes `http://` and `https://` count as external. `HTTPS://x.png` or `ftp://x` is treated as an internal key and deleted.
