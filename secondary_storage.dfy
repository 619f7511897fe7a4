/** The secondary-storage adapter handed to the authentication library.

    The library keeps its sessions and rate-limit counters in a key-value
    store shared with the rest of the application.  The adapter rewrites
    every key `k` the library uses to `_auth:` + `k` before it reaches the
    store, so the library's entries live in a namespace of their own.
    Values are opaque, already-serialised strings. */
module SecondaryStorage {
  import opened Wrappers

  /** The prefix that marks the authentication library's entries. */
  const AuthPrefix: string := "_auth:"

  /** Store keys inside the authentication namespace. */
  predicate InAuthNamespace(storeKey: string) {
    |AuthPrefix| <= |storeKey| && storeKey[..|AuthPrefix|] == AuthPrefix
  }

  /** The store key under which the library's key `key` is kept. */
  function Namespaced(key: string): (r: string)
    ensures InAuthNamespace(r)
    ensures |r| == |AuthPrefix| + |key|
  {
    AuthPrefix + key
  }

  /** The library key a store key belongs to, if it is in the namespace. */
  function LibraryKey(storeKey: string): (r: Option<string>)
    ensures r.Some? <==> InAuthNamespace(storeKey)
    ensures r.Some? ==> |r.value| + |AuthPrefix| == |storeKey|
  {
    if InAuthNamespace(storeKey) then Some(storeKey[|AuthPrefix|..]) else None
  }

  /** Stripping the namespace undoes adding it. */
  lemma LibraryKeyOfNamespaced(key: string)
    ensures LibraryKey(Namespaced(key)) == Some(key)
  {
  }

  /** Adding the namespace undoes stripping it: every store key in the
      namespace is the namespaced form of exactly one library key. */
  lemma NamespacedOfLibraryKey(storeKey: string)
    requires LibraryKey(storeKey).Some?
    ensures Namespaced(LibraryKey(storeKey).value) == storeKey
  {
  }

  /** Distinct library keys are kept under distinct store keys. */
  lemma NamespacedInjective(a: string, b: string)
    ensures Namespaced(a) == Namespaced(b) <==> a == b
  {
  }

  /** One stored value with the time-to-live it was written with. */
  datatype Entry = Entry(value: string, ttl: Option<nat>)

  /** The value an adapter `get` of library key `key` finds in store state
      `m`. */
  function Read(m: map<string, Entry>, key: string): (r: Option<string>)
    ensures r.Some? <==> Namespaced(key) in m
    ensures r.Some? ==> r.value == m[Namespaced(key)].value
  {
    var storeKey := Namespaced(key);
    if storeKey in m then Some(m[storeKey].value) else None
  }

  /** No adapter operation addresses a store key outside the namespace, so
      the rest of the application's entries are never read or changed. */
  lemma ForeignKeysNeverAddressed(storeKey: string, key: string)
    requires !InAuthNamespace(storeKey)
    ensures Namespaced(key) != storeKey
  {
  }

  /** One state-changing call the library makes on the adapter. */
  datatype Op = SetOp(key: string, value: string, ttl: Option<nat>) | DeleteOp(key: string)

  /** The store state after one adapter call. */
  function Step(m: map<string, Entry>, op: Op): (r: map<string, Entry>)
    ensures forall storeKey :: storeKey != Namespaced(op.key) ==>
              (storeKey in r <==> storeKey in m) && (storeKey in m ==> r[storeKey] == m[storeKey])
    ensures op.SetOp? ==> Namespaced(op.key) in r && r[Namespaced(op.key)] == Entry(op.value, op.ttl)
    ensures op.SetOp? ==> Read(r, op.key) == Some(op.value)
    ensures op.DeleteOp? ==> Read(r, op.key) == None
    ensures forall other :: other != op.key ==> Read(r, other) == Read(m, other)
  {
    forall other | other != op.key
      ensures Namespaced(other) != Namespaced(op.key)
    {
      NamespacedInjective(other, op.key);
    }
    match op
    case SetOp(key, value, ttl) => m[Namespaced(key) := Entry(value, ttl)]
    case DeleteOp(key) => m - {Namespaced(key)}
  }

  /** The store state after a sequence of adapter calls, in order. */
  function Run(m: map<string, Entry>, ops: seq<Op>): map<string, Entry>
    decreases |ops|
  {
    if ops == [] then m else Step(Run(m, ops[..|ops| - 1]), ops[|ops| - 1])
  }

  /** What the last call on `key` in `ops` left for `get` to find, or
      `before` when no call in `ops` touched `key`. */
  function LatestFor(ops: seq<Op>, key: string, before: Option<string>): Option<string>
    decreases |ops|
  {
    if ops == [] then before
    else
      var last := ops[|ops| - 1];
      if last.key == key then (if last.SetOp? then Some(last.value) else None)
      else LatestFor(ops[..|ops| - 1], key, before)
  }

  /** After any sequence of calls, `get(key)` finds what the last `set` or
      `delete` of `key` left, whatever was done to other keys meanwhile. */
  lemma {:induction false} ReadAfterRun(m: map<string, Entry>, ops: seq<Op>, key: string)
    ensures Read(Run(m, ops), key) == LatestFor(ops, key, Read(m, key))
    decreases |ops|
  {
    if ops != [] {
      var init, last := ops[..|ops| - 1], ops[|ops| - 1];
      if last.key != key {
        ReadAfterRun(m, init, key);
      }
    }
  }

  /** No sequence of adapter calls adds, removes or changes an entry of
      the application outside the `_auth:` namespace. */
  lemma {:induction false} RunKeepsForeignEntries(m: map<string, Entry>, ops: seq<Op>, storeKey: string)
    requires !InAuthNamespace(storeKey)
    ensures storeKey in Run(m, ops) <==> storeKey in m
    ensures storeKey in m ==> Run(m, ops)[storeKey] == m[storeKey]
    decreases |ops|
  {
    if ops != [] {
      RunKeepsForeignEntries(m, ops[..|ops| - 1], storeKey);
    }
  }

  /** The application's key-value namespace. */
  class KvStore {
    var entries: map<string, Entry>

    constructor (entries: map<string, Entry>)
      ensures this.entries == entries
    {
      this.entries := entries;
    }

    /** A missing key yields None, never an error. */
    method Get(storeKey: string) returns (r: Option<string>)
      ensures r.Some? <==> storeKey in entries
      ensures r.Some? ==> r.value == entries[storeKey].value
    {
      r := if storeKey in entries then Some(entries[storeKey].value) else None;
    }

    /** Stores the value under `storeKey` with the given time-to-live,
        replacing any earlier entry. */
    method Put(storeKey: string, value: string, ttl: Option<nat>)
      modifies this
      ensures entries == old(entries)[storeKey := Entry(value, ttl)]
    {
      entries := entries[storeKey := Entry(value, ttl)];
    }

    /** Deleting a missing key is not an error. */
    method Delete(storeKey: string)
      modifies this
      ensures entries == old(entries) - {storeKey}
    {
      entries := entries - {storeKey};
    }
  }

  /** The adapter: each operation forwards to the store under the
      namespaced key. */
  class AuthStorage {
    const kv: KvStore

    constructor (kv: KvStore)
      ensures this.kv == kv
    {
      this.kv := kv;
    }

    method Get(key: string) returns (r: Option<string>)
      ensures r == Read(kv.entries, key)
    {
      r := kv.Get(Namespaced(key));
    }

    method Set(key: string, value: string, ttl: Option<nat>)
      modifies kv
      ensures kv.entries == old(kv.entries)[Namespaced(key) := Entry(value, ttl)]
      ensures kv.entries == Step(old(kv.entries), SetOp(key, value, ttl))
      ensures Read(kv.entries, key) == Some(value)
      ensures forall other :: other != key ==> Read(kv.entries, other) == Read(old(kv.entries), other)
    {
      kv.Put(Namespaced(key), value, ttl);
    }

    method Delete(key: string)
      modifies kv
      ensures kv.entries == old(kv.entries) - {Namespaced(key)}
      ensures kv.entries == Step(old(kv.entries), DeleteOp(key))
      ensures Read(kv.entries, key) == None
      ensures forall other :: other != key ==> Read(kv.entries, other) == Read(old(kv.entries), other)
    {
      kv.Delete(Namespaced(key));
    }
  }
}
