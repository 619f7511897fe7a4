/** Removal of a deleted user's profile image from object storage.

    A user record stores its image either as an external URL (an avatar
    hosted elsewhere, e.g. by an OAuth provider) or as the key of an object
    this application uploaded, possibly with a cache-busting query string
    (`avatars/u123.png?v=2`).  When the user is deleted, the object is
    removed under its key with the query string cut off; external URLs and
    empty references are left alone. */
module ImageCleanup {
  import opened Wrappers

  /** JavaScript truthiness of a `string | null`: null and "" are falsy. */
  predicate Truthy(s: Option<string>) {
    s.Some? && s.value != ""
  }

  /** `s.startsWith(p)`: a literal, case-sensitive prefix test. */
  predicate StartsWith(s: string, p: string) {
    |p| <= |s| && s[..|p|] == p
  }

  /** A reference that points outside the application's own storage. */
  predicate IsExternalUrl(s: string) {
    StartsWith(s, "http://") || StartsWith(s, "https://")
  }

  /** Truthy rules out exactly null and the empty string. */
  lemma TruthyExactly(s: Option<string>)
    ensures Truthy(s) <==> s != None && s != Some("")
  {
  }

  /** `s.startsWith(p)` holds exactly when `s` is `p` followed by more text. */
  lemma StartsWithExactly(s: string, p: string)
    ensures StartsWith(s, p) <==> exists t: string :: s == p + t
  {
    if StartsWith(s, p) {
      assert s == p + s[|p|..];
    }
  }

  /** An external URL is `http://` or `https://` followed by more text. */
  lemma ExternalUrlExactly(s: string)
    ensures IsExternalUrl(s) <==> exists t: string :: s == "http://" + t || s == "https://" + t
  {
    StartsWithExactly(s, "http://");
    StartsWithExactly(s, "https://");
  }

  /** `s.indexOf(c)`: the index of the first occurrence of `c`, or -1. */
  function IndexOf(s: string, c: char): (r: int)
    ensures -1 <= r < |s|
    ensures r == -1 <==> c !in s
    ensures 0 <= r ==> s[r] == c && forall i :: 0 <= i < r ==> s[i] != c
  {
    if s == [] then -1
    else if s[0] == c then 0
    else
      var j := IndexOf(s[1..], c);
      if j == -1 then -1 else j + 1
  }

  /** The object key of an internal reference: everything before the
      first '?', or the whole string when it has none. */
  function StripQuery(s: string): (r: string)
    ensures |r| <= |s| && s[..|r|] == r
    ensures '?' !in r
    ensures |r| < |s| ==> s[|r|] == '?'
  {
    var q := IndexOf(s, '?');
    if q != -1 then s[..q] else s
  }

  /** The key that deleting an image reference removes from object
      storage, or None when the reference causes no delete at all. */
  function DeletionKey(imageUrl: Option<string>): (r: Option<string>)
    ensures !Truthy(imageUrl) ==> r == None
    ensures imageUrl.Some? && IsExternalUrl(imageUrl.value) ==> r == None
    ensures r.Some? ==>
              r.value != "" && '?' !in r.value
              && |r.value| <= |imageUrl.value| && imageUrl.value[..|r.value|] == r.value
  {
    if !Truthy(imageUrl) || IsExternalUrl(imageUrl.value) then None
    else
      var key := StripQuery(imageUrl.value);
      if key != "" then Some(key) else None
  }

  /** Independent description of the key deleted for reference `s`: an
      internal reference, and `k` is the non-empty longest prefix of `s`
      that holds no '?'. */
  ghost predicate IsDeletionKeyOf(s: string, k: string) {
    !IsExternalUrl(s) && k != "" && '?' !in k
    && |k| <= |s| && s[..|k|] == k
    && (|k| == |s| || s[|k|] == '?')
  }

  /** DeletionKey deletes under `k` exactly when `k` is the key the
      independent description names. */
  lemma DeletionKeyCharacterised(s: string, k: string)
    ensures DeletionKey(Some(s)) == Some(k) <==> IsDeletionKeyOf(s, k)
  {
  }

  /** No delete is issued exactly for the empty string, an external URL,
      and a reference whose query string starts at its first character. */
  lemma NoDeletionExactly(s: string)
    ensures DeletionKey(Some(s)) == None <==> (s == "" || IsExternalUrl(s) || s[0] == '?')
  {
  }

  /** An internal reference without a '?' is deleted under exactly itself. */
  lemma NoQueryDeletedAsIs(s: string)
    requires s != "" && !IsExternalUrl(s) && '?' !in s
    ensures DeletionKey(Some(s)) == Some(s)
  {
  }

  /** The deleted key is a fixed point: used as a reference again, it is
      deleted under itself, so stripping twice changes nothing. */
  lemma DeletionKeyIdempotent(s: string)
    requires DeletionKey(Some(s)).Some?
    ensures DeletionKey(Some(DeletionKey(Some(s)).value)) == DeletionKey(Some(s))
  {
  }

  /** With the query string `?v=2`, only the part before '?' is the key. */
  lemma ExampleQueryStripped()
    ensures DeletionKey(Some("avatars/u123.png?v=2")) == Some("avatars/u123.png")
  {
    var s, k := "avatars/u123.png?v=2", "avatars/u123.png";
    assert !IsExternalUrl(s) by {
      assert s[..7] != "http://" by { assert s[0] != 'h'; }
      assert s[..8] != "https://" by { assert s[0] != 'h'; }
    }
    assert s[..|k|] == k;
    assert s[|k|] == '?';
    DeletionKeyCharacterised(s, k);
  }

  /** An image hosted elsewhere is never deleted. */
  lemma ExampleExternalKept()
    ensures DeletionKey(Some("https://cdn.example.com/x.png")) == None
  {
  }

  /** A reference that is only a query string yields an empty key. */
  lemma ExampleOnlyQueryKept()
    ensures DeletionKey(Some("?v=2")) == None
  {
  }

  /** The application's object bucket, as the set of keys it holds and the
      log of delete requests it has received. */
  class ObjectStore {
    var objects: set<string>
    var deleteCalls: seq<string>

    constructor (objects: set<string>)
      ensures this.objects == objects && deleteCalls == []
    {
      this.objects := objects;
      deleteCalls := [];
    }

    /** Deletes the object under `key`; a missing key is not an error. */
    method Delete(key: string)
      modifies this
      ensures objects == old(objects) - {key}
      ensures deleteCalls == old(deleteCalls) + [key]
    {
      objects := objects - {key};
      deleteCalls := deleteCalls + [key];
    }
  }

  /** Deletes the object an image reference names, if it names one: at
      most one delete request, for exactly DeletionKey(imageUrl), and every
      other object is kept. */
  method DeleteUserImage(store: ObjectStore, imageUrl: Option<string>)
    modifies store
    ensures DeletionKey(imageUrl).None? ==>
              store.objects == old(store.objects) && store.deleteCalls == old(store.deleteCalls)
    ensures DeletionKey(imageUrl).Some? ==>
              store.objects == old(store.objects) - {DeletionKey(imageUrl).value}
              && store.deleteCalls == old(store.deleteCalls) + [DeletionKey(imageUrl).value]
  {
    if !Truthy(imageUrl) {
      return;
    }
    var url := imageUrl.value;
    var isExternalUrl := StartsWith(url, "http://") || StartsWith(url, "https://");
    if !isExternalUrl {
      var objectKey := url;
      var queryParamIndex := IndexOf(objectKey, '?');
      if queryParamIndex != -1 {
        objectKey := objectKey[..queryParamIndex];
      }
      if objectKey != "" {
        store.Delete(objectKey);
      }
    }
  }

  /** The user record the deletion hook receives, abbreviated to the one
      field the hook reads. */
  datatype User = User(image: Option<string>)

  /** The hook run after a user is deleted: clean up an image only when the
      user has one.  A user without an image causes no delete request. */
  method AfterDelete(store: ObjectStore, user: User)
    modifies store
    ensures !Truthy(user.image) ==>
              store.objects == old(store.objects) && store.deleteCalls == old(store.deleteCalls)
    ensures DeletionKey(user.image).None? ==>
              store.objects == old(store.objects) && store.deleteCalls == old(store.deleteCalls)
    ensures DeletionKey(user.image).Some? ==>
              store.objects == old(store.objects) - {DeletionKey(user.image).value}
              && store.deleteCalls == old(store.deleteCalls) + [DeletionKey(user.image).value]
  {
    if Truthy(user.image) {
      DeleteUserImage(store, user.image);
    }
  }
}
