/** The schema cache in front of discovery: entries and answers, and the controller object that holds
    the cache, one caller at a time. */
module SchemaCache {
  import opened Wrappers

  datatype GroupKind = GroupKind(group: string, kind: string)

  datatype GroupVersionKind = GroupVersionKind(group: string, version: string, kind: string)

  /** What discovery says about a kind; errors are cached like schemas. */
  datatype Answer = Answer(schema: Option<string>, error: Option<string>)

  type Discovery = map<GroupVersionKind, Answer>

  type Cache = map<GroupVersionKind, Answer>

  const NOT_FOUND := Answer(None, Some("not found"))

  function Ask(discovery: Discovery, gvk: GroupVersionKind): Answer {
    if gvk in discovery then discovery[gvk] else NOT_FOUND
  }

  predicate Matches(gvk: GroupVersionKind, gk: GroupKind) {
    gvk.group == gk.group && gvk.kind == gk.kind
  }

  function Purged<V>(cache: map<GroupVersionKind, V>, gk: GroupKind): map<GroupVersionKind, V> {
    map k | k in cache && !Matches(k, gk) :: cache[k]
  }

  /** A CRD object: the group and kind that its own type meta says, if anything, and those it defines. */
  datatype CRD = CRD(own: GroupKind, defined: GroupKind)

  class SchemaController {
    var cache: Cache

    constructor ()
      ensures cache == map[]
    {
      cache := map[];
    }

    method ResolveSchemaFromCache(gvk: GroupVersionKind) returns (exists_: bool, answer: Answer)
      ensures exists_ <==> gvk in cache
      ensures exists_ ==> answer == cache[gvk]
    {
      exists_ := gvk in cache;
      answer := if exists_ then cache[gvk] else Answer(None, None);
    }

    /** `discovery` is what the resolver would be told if it asked now. */
    method ResolveSchema(gvk: GroupVersionKind, discovery: Discovery) returns (answer: Answer)
      modifies this
      ensures answer == if gvk in old(cache) then old(cache)[gvk] else Ask(discovery, gvk)
      ensures cache == old(cache)[gvk := answer]
    {
      var found, cached := ResolveSchemaFromCache(gvk);
      if found {
        return cached;
      }
      answer := Ask(discovery, gvk);
      cache := cache[gvk := answer];
    }

    /** Removes every entry of the group and kind, whatever its version, and nothing else. */
    method PurgeCRDFromCache(gk: GroupKind)
      modifies this
      ensures cache == Purged(old(cache), gk)
      ensures forall k :: k in cache <==> k in old(cache) && !(k.group == gk.group && k.kind == gk.kind)
      ensures forall k | k in cache :: cache[k] == old(cache)[k]
    {
      var keys := cache.Keys;
      while keys != {}
        invariant keys <= cache.Keys <= old(cache).Keys
        invariant forall k | k in cache :: cache[k] == old(cache)[k]
        invariant forall k | k in old(cache) && k !in cache :: Matches(k, gk)
        invariant forall k | k in cache && k !in keys :: !Matches(k, gk)
      {
        var k :| k in keys;
        if k.group == gk.group && k.kind == gk.kind {
          cache := cache - {k};
        }
        keys := keys - {k};
      }
    }

    // -------------------------------------------------------------------------------------
    // Event handlers: they purge the group and kind that the CRD object has itself
    // -------------------------------------------------------------------------------------

    method OnAdd(crd: CRD)
      modifies this
      ensures cache == Purged(old(cache), crd.own)
      ensures forall k :: k in cache <==> k in old(cache) && !(k.group == crd.own.group && k.kind == crd.own.kind)
    {
      PurgeCRDFromCache(crd.own);
    }

    method OnUpdate(oldCrd: CRD, newCrd: CRD)
      modifies this
      ensures cache == Purged(Purged(old(cache), oldCrd.own), newCrd.own)
    {
      PurgeCRDFromCache(oldCrd.own);
      PurgeCRDFromCache(newCrd.own);
    }

    method OnDelete(crd: CRD)
      modifies this
      ensures cache == Purged(old(cache), crd.own)
      ensures forall k :: k in cache <==> k in old(cache) && !(k.group == crd.own.group && k.kind == crd.own.kind)
    {
      PurgeCRDFromCache(crd.own);
    }
  }

  // ---------------------------------------------------------------------------------------
  // Histories of one caller at a time
  // ---------------------------------------------------------------------------------------

  datatype Op =
    | Change(gvk: GroupVersionKind, answer: Answer)
    | Purge(gk: GroupKind)
    | Resolve(gvk: GroupVersionKind)

  /** What discovery says after the first `n` operations. */
  function DiscoveryAt(ops: seq<Op>, n: nat): Discovery
    requires n <= |ops|
  {
    if n == 0 then map[]
    else
      match ops[n - 1]
      case Change(gvk, answer) => DiscoveryAt(ops, n - 1)[gvk := answer]
      case _ => DiscoveryAt(ops, n - 1)
  }

  /** The cache after the first `n` operations, as the methods above leave it. */
  function CacheAt(ops: seq<Op>, n: nat): Cache
    requires n <= |ops|
  {
    if n == 0 then map[]
    else
      var before := CacheAt(ops, n - 1);
      match ops[n - 1]
      case Change(_, _) => before
      case Purge(gk) => Purged(before, gk)
      case Resolve(gvk) => if gvk in before then before else before[gvk := Ask(DiscoveryAt(ops, n - 1), gvk)]
  }

  /** What resolving returns after the first `n` operations. */
  function Result(ops: seq<Op>, n: nat, gvk: GroupVersionKind): Answer
    requires n <= |ops|
  {
    if gvk in CacheAt(ops, n) then CacheAt(ops, n)[gvk] else Ask(DiscoveryAt(ops, n), gvk)
  }

  /** Some operation from `i` on, before `n`, purges the group and kind. */
  ghost predicate PurgedBetween(ops: seq<Op>, i: nat, n: nat, gvk: GroupVersionKind)
    requires n <= |ops|
  {
    exists k | i <= k < n :: ops[k].Purge? && Matches(gvk, ops[k].gk)
  }

  /** Operation `i` is the first to resolve the kind since its group and kind were last purged. */
  ghost predicate IsFetch(ops: seq<Op>, n: nat, i: nat, gvk: GroupVersionKind)
    requires n <= |ops|
  {
    && i < n && ops[i] == Resolve(gvk) && !PurgedBetween(ops, i, n, gvk)
    && forall j | 0 <= j < i && ops[j] == Resolve(gvk) :: PurgedBetween(ops, j, i, gvk)
  }

  /** If any operation has resolved the kind since the last purge, one of them was the first. */
  lemma {:induction false} SomeFetch(ops: seq<Op>, n: nat, j: nat, gvk: GroupVersionKind) returns (i: nat)
    requires j < n <= |ops| && ops[j] == Resolve(gvk) && !PurgedBetween(ops, j, n, gvk)
    ensures IsFetch(ops, n, i, gvk)
    decreases j
  {
    if k :| 0 <= k < j && ops[k] == Resolve(gvk) && !PurgedBetween(ops, k, j, gvk) {
      i := SomeFetch(ops, n, k, gvk);
    } else {
      i := j;
    }
  }

  /** A cached entry is what discovery said when the kind was first resolved since the last purge. */
  lemma {:induction false} CacheIsFirstFetch(ops: seq<Op>, n: nat, gvk: GroupVersionKind)
    requires n <= |ops|
    ensures gvk in CacheAt(ops, n) ==> exists i: nat :: IsFetch(ops, n, i, gvk)
    ensures forall i: nat | IsFetch(ops, n, i, gvk) ::
              gvk in CacheAt(ops, n) && CacheAt(ops, n)[gvk] == Ask(DiscoveryAt(ops, i), gvk)
  {
    if n > 0 {
      var m := n - 1;
      CacheIsFirstFetch(ops, m, gvk);
      FetchesExtend(ops, n, m, gvk);
      hide IsFetch, PurgedBetween;
      if gvk in CacheAt(ops, m) {
        var i: nat :| IsFetch(ops, m, i, gvk);
      }
    }
  }

  /** How one more operation changes which fetches there are. */
  lemma FetchesExtend(ops: seq<Op>, n: nat, m: nat, gvk: GroupVersionKind)
    requires n == m + 1 <= |ops|
    ensures
      if ops[m].Purge? && Matches(gvk, ops[m].gk) then forall i: nat :: !IsFetch(ops, n, i, gvk)
      else forall i: nat | i != m :: IsFetch(ops, n, i, gvk) <==> IsFetch(ops, m, i, gvk)
    ensures IsFetch(ops, n, m, gvk) <==> ops[m] == Resolve(gvk) && forall i: nat :: !IsFetch(ops, m, i, gvk)
  {
    forall i: nat | i < m
      ensures PurgedBetween(ops, i, n, gvk) <==>
                PurgedBetween(ops, i, m, gvk) || (ops[m].Purge? && Matches(gvk, ops[m].gk))
    {
      if PurgedBetween(ops, i, n, gvk) {
        var k :| i <= k < n && ops[k].Purge? && Matches(gvk, ops[k].gk);
      }
    }
    if ops[m] == Resolve(gvk) && !IsFetch(ops, n, m, gvk) {
      var j :| 0 <= j < m && ops[j] == Resolve(gvk) && !PurgedBetween(ops, j, m, gvk);
      var i := SomeFetch(ops, m, j, gvk);
    }
  }

  /** What resolving returns, exactly: the answer of the first fetch since the last purge, or else
      what discovery says now. */
  lemma ResultIsFirstFetch(ops: seq<Op>, n: nat, gvk: GroupVersionKind)
    requires n <= |ops|
    ensures forall i: nat | IsFetch(ops, n, i, gvk) :: Result(ops, n, gvk) == Ask(DiscoveryAt(ops, i), gvk)
    ensures (forall i: nat :: !IsFetch(ops, n, i, gvk)) ==> Result(ops, n, gvk) == Ask(DiscoveryAt(ops, n), gvk)
  {
    CacheIsFirstFetch(ops, n, gvk);
  }

  predicate Changes(op: Op, gvk: GroupVersionKind) {
    op.Change? && op.gvk == gvk
  }

  lemma {:induction false} Unchanged(ops: seq<Op>, i: nat, n: nat, gvk: GroupVersionKind)
    requires i <= n <= |ops|
    requires forall c | i <= c < n :: !Changes(ops[c], gvk)
    ensures Ask(DiscoveryAt(ops, n), gvk) == Ask(DiscoveryAt(ops, i), gvk)
  {
    if i < n {
      Unchanged(ops, i, n - 1, gvk);
    }
  }

  /** Every change of the kind so far has been followed by a purge of its group and kind. */
  ghost predicate PurgedAfterChange(ops: seq<Op>, n: nat, gvk: GroupVersionKind)
    requires n <= |ops|
  {
    forall c | 0 <= c < n && Changes(ops[c], gvk) :: PurgedBetween(ops, c, n, gvk)
  }

  lemma PurgedSince(ops: seq<Op>, n: nat, c: nat, i: nat, gvk: GroupVersionKind)
    requires i <= c < n <= |ops| && PurgedBetween(ops, c, n, gvk)
    ensures PurgedBetween(ops, i, n, gvk)
  {
    var k :| c <= k < n && ops[k].Purge? && Matches(gvk, ops[k].gk);
  }

  /** If each change so far has been followed by a purge, resolving returns what discovery says. */
  lemma RefinesDirect(ops: seq<Op>, n: nat, gvk: GroupVersionKind)
    requires n <= |ops| && PurgedAfterChange(ops, n, gvk)
    ensures Result(ops, n, gvk) == Ask(DiscoveryAt(ops, n), gvk)
  {
    ResultIsFirstFetch(ops, n, gvk);
    if i: nat :| IsFetch(ops, n, i, gvk) {
      if c :| i <= c < n && Changes(ops[c], gvk) {
        PurgedSince(ops, n, c, i, gvk);
      } else {
        Unchanged(ops, i, n, gvk);
      }
    }
  }

  /** Without the purge the change goes unnoticed: as long as the kind is not purged, resolving
      returns the answer of the first fetch, whatever discovery says by now. */
  lemma StaleWithoutPurge(ops: seq<Op>, m: nat, n: nat, gvk: GroupVersionKind)
    requires m <= n <= |ops| && gvk in CacheAt(ops, m) && !PurgedBetween(ops, m, n, gvk)
    ensures gvk in CacheAt(ops, n) && Result(ops, n, gvk) == Result(ops, m, gvk)
  {
    if m < n {
      assert !PurgedBetween(ops, m, n - 1, gvk);
      assert !(ops[n - 1].Purge? && Matches(gvk, ops[n - 1].gk));
      StaleWithoutPurge(ops, m, n - 1, gvk);
    }
  }

  // ---------------------------------------------------------------------------------------
  // What the event handlers notice
  // ---------------------------------------------------------------------------------------

  datatype CRDEvent = Added(crd: CRD) | Updated(previous: CRD, crd: CRD) | Deleted(crd: CRD)

  /** What the handler of an event does. */
  function Handled(event: CRDEvent): seq<Op> {
    match event
    case Added(crd) => [Purge(crd.own)]
    case Updated(previous, crd) => [Purge(previous.own), Purge(crd.own)]
    case Deleted(crd) => [Purge(crd.own)]
  }

  predicate PurgesKind(event: CRDEvent, gvk: GroupVersionKind) {
    Matches(gvk, event.crd.own) || (event.Updated? && Matches(gvk, event.previous.own))
  }

  lemma {:induction false} Prefix(ops: seq<Op>, more: seq<Op>, n: nat)
    requires n <= |ops|
    ensures CacheAt(ops + more, n) == CacheAt(ops, n) && DiscoveryAt(ops + more, n) == DiscoveryAt(ops, n)
  {
    if n > 0 {
      Prefix(ops, more, n - 1);
      assert (ops + more)[n - 1] == ops[n - 1];
    }
  }

  lemma OneOp(ops: seq<Op>, op: Op)
    ensures
      var n, all := |ops|, ops + [op];
      && CacheAt(all, n + 1) ==
           (match op
            case Change(_, _) => CacheAt(ops, n)
            case Purge(gk) => Purged(CacheAt(ops, n), gk)
            case Resolve(gvk) =>
              if gvk in CacheAt(ops, n) then CacheAt(ops, n)
              else CacheAt(ops, n)[gvk := Ask(DiscoveryAt(ops, n), gvk)])
      && DiscoveryAt(all, n + 1) == if op.Change? then DiscoveryAt(ops, n)[op.gvk := op.answer] else DiscoveryAt(ops, n)
  {
    Prefix(ops, [op], |ops|);
  }

  /** A change and its event: resolving returns the new answer if and only if the kind was not cached, the
      handler purged it, or the answer was the same before. */
  lemma HandlerNotices(ops: seq<Op>, gvk: GroupVersionKind, answer: Answer, event: CRDEvent)
    ensures
      var cached, after := CacheAt(ops, |ops|), (ops + [Change(gvk, answer)]) + Handled(event);
      Result(after, |after|, gvk) == answer <==> gvk !in cached || PurgesKind(event, gvk) || cached[gvk] == answer
  {
    var changed := ops + [Change(gvk, answer)];
    OneOp(ops, Change(gvk, answer));
    if event.Updated? {
      var once := changed + [Purge(event.previous.own)];
      OneOp(changed, Purge(event.previous.own));
      OneOp(once, Purge(event.crd.own));
      assert changed + Handled(event) == once + [Purge(event.crd.own)];
    } else {
      OneOp(changed, Purge(event.crd.own));
    }
  }

  /** Every change of the kind is announced by an event of its CRD, which the handlers take at once. */
  ghost predicate Announced(ops: seq<Op>, gvk: GroupVersionKind, own: GroupKind) {
    forall c | 0 <= c < |ops| && Changes(ops[c], gvk) :: c + 1 < |ops| && ops[c + 1] == Purge(own)
  }

  lemma OwnKindRefines(ops: seq<Op>, gvk: GroupVersionKind, own: GroupKind)
    requires Matches(gvk, own) && Announced(ops, gvk, own)
    ensures Result(ops, |ops|, gvk) == Ask(DiscoveryAt(ops, |ops|), gvk)
  {
    forall c | 0 <= c < |ops| && Changes(ops[c], gvk) ensures PurgedBetween(ops, c, |ops|, gvk) {
      assert ops[c + 1] == Purge(own);
    }
    RefinesDirect(ops, |ops|, gvk);
  }

  const BEFORE := Answer(Some("before"), None)

  const NOW := Answer(Some("now"), None)

  /** The kind is resolved, and then its CRD is updated. */
  lemma OtherKindMisses(gvk: GroupVersionKind, own: GroupKind) returns (ops: seq<Op>)
    requires !Matches(gvk, own)
    ensures Announced(ops, gvk, own)
    ensures Result(ops, |ops|, gvk) == BEFORE && Ask(DiscoveryAt(ops, |ops|), gvk) == NOW
  {
    var crd := CRD(own, GroupKind(gvk.group, gvk.kind));
    var a := [] + [Change(gvk, BEFORE)];
    var b := a + [Purge(own)];
    var c := b + [Resolve(gvk)];
    OneOp([], Change(gvk, BEFORE));
    OneOp(a, Purge(own));
    OneOp(b, Resolve(gvk));
    HandlerNotices(c, gvk, NOW, Added(crd));
    ops := (c + [Change(gvk, NOW)]) + [Purge(own)];
    OneOp(c, Change(gvk, NOW));
    OneOp(c + [Change(gvk, NOW)], Purge(own));
    assert ops == [Change(gvk, BEFORE), Purge(own), Resolve(gvk), Change(gvk, NOW), Purge(own)];
  }

  /** In all histories in which every change is announced, resolving returns what discovery says: that is so
      exactly if the CRD object's own group and kind are those of the kind. */
  lemma HandlersRefineExactly(gvk: GroupVersionKind, own: GroupKind)
    ensures (forall ops | Announced(ops, gvk, own) :: Result(ops, |ops|, gvk) == Ask(DiscoveryAt(ops, |ops|), gvk))
       <==> Matches(gvk, own)
  {
    if Matches(gvk, own) {
      forall ops | Announced(ops, gvk, own) ensures Result(ops, |ops|, gvk) == Ask(DiscoveryAt(ops, |ops|), gvk) {
        OwnKindRefines(ops, gvk, own);
      }
    } else {
      var ops := OtherKindMisses(gvk, own);
    }
  }

  /** What CRD objects have as their own kind, unless their type meta is empty. */
  const CRD_KIND := GroupKind("apiextensions.k8s.io", "CustomResourceDefinition")

  /** A defined kind that is missed either way. */
  lemma WidgetsAreMissed(own: GroupKind) returns (ops: seq<Op>)
    requires own == CRD_KIND || own == GroupKind("", "")
    ensures
      var gvk := GroupVersionKind("example.com", "v1", "Widget");
      Announced(ops, gvk, own) && Result(ops, |ops|, gvk) != Ask(DiscoveryAt(ops, |ops|), gvk)
  {
    assert |"example.com"| == 11 && |CRD_KIND.group| == 20;
    ops := OtherKindMisses(GroupVersionKind("example.com", "v1", "Widget"), own);
  }
}
