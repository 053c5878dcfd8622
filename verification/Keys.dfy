/** The string keys under which objects travel through the work queue, and how a worker turns a
    key back into a lookup. */
module Keys {
  import opened Wrappers

  type Key = string

  predicate SlashFree(s: string) {
    forall i | 0 <= i < |s| :: s[i] != '/'
  }

  /** The key of an object: `MetaNamespaceKeyFunc`. */
  function MetaKey(namespace: string, name: string): Key {
    if namespace != "" then namespace + "/" + name else name
  }

  function FirstSlash(s: string): (n: nat)
    ensures n <= |s| && SlashFree(s[..n]) && (n < |s| ==> s[n] == '/')
  {
    if s == "" || s[0] == '/' then 0 else 1 + FirstSlash(s[1..])
  }

  /** Namespace and name of a key: `SplitMetaNamespaceKey`, which refuses a second slash. */
  function SplitKey(key: Key): Option<(string, string)> {
    var n := FirstSlash(key);
    if n == |key| then Some(("", key))
    else if SlashFree(key[n + 1..]) then Some((key[..n], key[n + 1..]))
    else None
  }

  /** The key that `reconcile` reads in the indexer: through the lister of a namespace if there
      is one, through the cluster-wide lister otherwise; nothing for a key that does not split. */
  function LookupKey(key: Key): Option<Key> {
    match SplitKey(key)
    case None => None
    case Some((namespace, name)) =>
      if |namespace| > 0 then Some(namespace + "/" + name) else Some(name)
  }

  lemma FirstSlashIs(s: string, n: nat)
    requires n <= |s| && SlashFree(s[..n]) && (n < |s| ==> s[n] == '/')
    ensures FirstSlash(s) == n
  {
    if n > 0 {
      assert s[0] == s[..n][0];
      assert s[1..][..n - 1] == s[..n][1..];
      FirstSlashIs(s[1..], n - 1);
    }
  }

  lemma SplitIsSlashFree(key: Key)
    ensures match SplitKey(key)
            case None => true
            case Some((namespace, name)) => SlashFree(namespace) && SlashFree(name)
  {
    assert key[..|key|] == key;
  }

  /** A key is the namespace, a slash and the name; without a namespace it is the name. It is split at its
      slash; a second one is refused. */
  lemma KeysExactly(namespace: string, name: string)
    requires SlashFree(namespace) && SlashFree(name)
    ensures namespace != "" ==> MetaKey(namespace, name) == namespace + "/" + name
    ensures MetaKey("", name) == name
    ensures SplitKey(namespace + "/" + name) == Some((namespace, name)) && SplitKey(name) == Some(("", name))
    ensures namespace != "" ==> LookupKey(namespace + "/" + name) == Some(namespace + "/" + name)
    ensures LookupKey("/" + name) == Some(name) && LookupKey(name) == Some(name)
  {
    AtSlash(namespace, name);
    AtSlash("", name);
    assert "" + "/" + name == "/" + name;
    assert name[..|name|] == name;
    FirstSlashIs(name, |name|);
  }

  lemma SecondSlashIsRefused(namespace: string, name: string, rest: string)
    requires SlashFree(namespace) && SlashFree(name)
    ensures SplitKey(namespace + "/" + (name + "/" + rest)) == None
  {
    var more := name + "/" + rest;
    AtSlash(namespace, more);
    assert more[|name|] == '/';
  }

  lemma AtSlash(front: string, rest: string)
    requires SlashFree(front)
    ensures SplitKey(front + "/" + rest) == if SlashFree(rest) then Some((front, rest)) else None
  {
    var key := front + "/" + rest;
    assert key[..|front|] == front && key[|front| + 1..] == rest;
    FirstSlashIs(key, |front|);
  }

  /** A key splits back into the namespace and name it was made of exactly when neither holds
      a slash. */
  lemma KeyRoundTrip(namespace: string, name: string)
    ensures SplitKey(MetaKey(namespace, name)) == Some((namespace, name))
       <==> SlashFree(namespace) && SlashFree(name)
  {
    var key := MetaKey(namespace, name);
    SplitIsSlashFree(key);
    if SlashFree(namespace) && SlashFree(name) {
      if namespace == "" {
        assert key[..|key|] == name;
        FirstSlashIs(key, |key|);
      } else {
        assert key[..|namespace|] == namespace;
        FirstSlashIs(key, |namespace|);
        assert key[|namespace| + 1..] == name;
      }
    }
  }

  /** A worker looks up the very key it took exactly when that key splits and does not start
      with a slash. */
  lemma LookupIsExact(key: Key)
    ensures LookupKey(key) == Some(key)
       <==> SplitKey(key).Some? && (key != "" ==> key[0] != '/')
  {
    var n := FirstSlash(key);
    if SplitKey(key).Some? && n < |key| {
      assert key == key[..n] + "/" + key[n + 1..];
    }
  }

  /** The object an event names is the object its key looks up. */
  lemma EventKeyLooksUp(namespace: string, name: string)
    requires SlashFree(namespace) && SlashFree(name)
    ensures LookupKey(MetaKey(namespace, name)) == Some(MetaKey(namespace, name))
  {
    KeyRoundTrip(namespace, name);
  }
}
