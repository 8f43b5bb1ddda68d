/** The in-process (L1) render cache: entries, the tag index, and the byte budget for cached documents. */
module RenderCaches {
  import opened Collections
  import opened Options
  import opened Utf8

  const MAX_DOCUMENT: int := 1048576
  const DEFAULT_BUDGET: int := 33554432
  const DEFAULT_ENTRIES: nat := 1024

  /** `rendered` is a history value: the logical time at which the render finished. No operation reads it. */
  datatype RenderResult = RenderResult(html: string, cacheTags: seq<string>, rendered: nat)

  /** `source` is a history value too: the result the document was built from. */
  datatype CachedDocument = CachedDocument(body: Bytes, source: RenderResult)

  const BLANK: RenderResult := RenderResult("", [], 0)

  datatype CacheEntry = CacheEntry(result: RenderResult, document: Option<CachedDocument>, stored: int,
                                   tagVersions: map<string, string>)

  /** The value of a render cache: what the fields of `RenderCache` hold. */
  datatype Cache = Cache(items: map<string, CacheEntry>, tags: map<string, set<string>>,
                         keyTags: map<string, set<string>>, documentBytes: int)

  // ---------------------------------------------------------------- document bytes

  function DocumentSize(e: CacheEntry): nat {
    if e.document.Some? then |e.document.value.body| else 0
  }

  /** The number of document bytes that `items` holds. */
  ghost function SumDocuments(items: map<string, CacheEntry>): nat
    decreases |items|
  {
    if items == map[] then 0
    else
      var k :| k in items;
      DocumentSize(items[k]) + SumDocuments(items - {k})
  }

  lemma {:induction false} SumRemove(items: map<string, CacheEntry>, key: string)
    requires key in items
    ensures SumDocuments(items) == DocumentSize(items[key]) + SumDocuments(items - {key})
    decreases |items|
  {
    var k :| k in items && SumDocuments(items) == DocumentSize(items[k]) + SumDocuments(items - {k});
    if k != key {
      SumRemove(items - {k}, key);
      SumRemove(items - {key}, k);
      assert items - {k} - {key} == items - {key} - {k};
    }
  }

  lemma SumUpdate(items: map<string, CacheEntry>, key: string, e: CacheEntry)
    ensures SumDocuments(items[key := e]) == DocumentSize(e) + SumDocuments(items - {key})
    ensures key !in items ==> items - {key} == items
  {
    SumRemove(items[key := e], key);
    assert items[key := e] - {key} == items - {key};
  }

  lemma {:induction false} SumZero(items: map<string, CacheEntry>)
    requires forall k :: k in items ==> DocumentSize(items[k]) == 0
    ensures SumDocuments(items) == 0
    decreases |items|
  {
    if items != map[] {
      var k :| k in items;
      SumRemove(items, k);
      SumZero(items - {k});
    }
  }

  // ---------------------------------------------------------------- invariants

  ghost predicate Accounted(c: Cache, maxDocumentBytes: int) {
    c.documentBytes == SumDocuments(c.items) && c.documentBytes <= maxDocumentBytes
  }

  function Tags(result: RenderResult): set<string> {
    set t | t in result.cacheTags && t != ""
  }

  /** Every cached entry is found under each of its tags. The converse does not hold: evictions leave keys behind. */
  ghost predicate Indexed(c: Cache) {
    forall k, t :: k in c.items && t in Tags(c.items[k].result) ==> t in c.tags && k in c.tags[t]
  }

  // ---------------------------------------------------------------- specification of the operations

  /** A victim of an insertion into `c`: nobody while there is room, otherwise a cached key. */
  ghost predicate Victim(c: Cache, maxEntries: nat, victim: Option<string>) {
    if |c.items| < maxEntries then victim.None? else victim.Some? && victim.value in c.items
  }

  ghost predicate OldestVictim(c: Cache, victim: Option<string>) {
    victim.Some? ==>
      && victim.value in c.items
      && forall k :: k in c.items ==> c.items[victim.value].stored <= c.items[k].stored
  }

  function Unlinked(tags: map<string, set<string>>, previous: set<string>, key: string): map<string, set<string>> {
    map t | t in tags && (t !in previous || tags[t] - {key} != {}) :: if t in previous then tags[t] - {key} else tags[t]
  }

  function Linked(tags: map<string, set<string>>, added: set<string>, key: string): map<string, set<string>> {
    map t | t in tags.Keys + added ::
      (if t in tags then tags[t] else {}) + (if t in added then {key} else {})
  }

  function KeyTags(c: Cache, key: string): set<string> {
    if key in c.keyTags then c.keyTags[key] else {}
  }

  function Evicted(c: Cache, victim: Option<string>): map<string, CacheEntry> {
    if victim.Some? then c.items - {victim.value} else c.items
  }

  /** What storing `result` under `key` leaves, when `victim` makes room for it. */
  ghost function AfterSet(c: Cache, victim: Option<string>, key: string, result: RenderResult,
                          versions: map<string, string>, now: int): Cache
  {
    var items := Evicted(c, victim)[key := CacheEntry(result, None, now, versions)];
    Cache(items,
          Linked(Unlinked(c.tags, KeyTags(c, key), key), Tags(result), key),
          c.keyTags[key := Tags(result)],
          SumDocuments(items))
  }

  function Doomed(c: Cache, tags: seq<string>): set<string> {
    set t, k | t in tags && t in c.tags && k in c.tags[t] :: k
  }

  function Listed(tags: seq<string>): set<string> {
    set t | t in tags
  }

  function Under(tags: map<string, set<string>>, tag: string): set<string> {
    if tag in tags then tags[tag] else {}
  }

  /** What dropping everything indexed under `tags` leaves. */
  ghost function AfterInvalidate(c: Cache, tags: seq<string>): Cache {
    var items := c.items - Doomed(c, tags);
    Cache(items, c.tags - Listed(tags), c.keyTags - Doomed(c, tags), SumDocuments(items))
  }

  function WithoutDocument(e: CacheEntry): CacheEntry {
    e.(document := None)
  }

  predicate Attachable(c: Cache, key: string, document: Option<CachedDocument>) {
    document.Some? && |document.value.body| <= MAX_DOCUMENT && key in c.items
  }

  /** Attaching a document: the entry gets it, other entries may only lose theirs, and only when space is short. */
  ghost predicate DocumentStep(c: Cache, c': Cache, maxDocumentBytes: int, key: string, document: Option<CachedDocument>) {
    if !Attachable(c, key, document) then c' == c
    else
      var size := |document.value.body|;
      && c'.tags == c.tags
      && c'.keyTags == c.keyTags
      && c'.items.Keys == c.items.Keys
      && (forall k :: k in c.items && k != key ==> c'.items[k] in {c.items[k], WithoutDocument(c.items[k])})
      && (c.documentBytes - DocumentSize(c.items[key]) + size <= maxDocumentBytes ==>
            forall k :: k in c.items && k != key ==> c'.items[k] == c.items[k])
      && (if size <= maxDocumentBytes then
            && c'.items[key] == c.items[key].(document := document)
            && c'.documentBytes == SumDocuments(c'.items) <= maxDocumentBytes
          else
            && c'.items[key] == c.items[key]
            && (forall k :: k in c.items && k != key ==> DocumentSize(c'.items[k]) == 0)
            && c'.documentBytes == 0)
  }

  // ---------------------------------------------------------------- the class

  class RenderCache {
    var items: map<string, CacheEntry>
    var revalidating: set<string>
    var documentBytes: int
    var tags: map<string, set<string>>
    var keyTags: map<string, set<string>>
    const maxEntries: nat
    const maxDocumentBytes: int

    ghost function View(): Cache
      reads this
    {
      Cache(items, tags, keyTags, documentBytes)
    }

    ghost predicate Valid()
      reads this
    {
      && maxEntries > 0
      && |items| <= maxEntries
      && 0 <= maxDocumentBytes
      && Accounted(View(), maxDocumentBytes)
      && Indexed(View())
    }

    constructor (max: int, budget: nat)
      ensures Valid()
      ensures View() == Cache(map[], map[], map[], 0) && revalidating == {}
      ensures maxEntries == (if max <= 0 then DEFAULT_ENTRIES else max) && maxDocumentBytes == budget
    {
      items, tags, keyTags, documentBytes, revalidating := map[], map[], map[], 0, {};
      maxEntries := if max <= 0 then DEFAULT_ENTRIES else max;
      maxDocumentBytes := budget;
    }

    method Get(key: string) returns (e: Option<CacheEntry>)
      ensures e == if key in items then Some(items[key]) else None
    {
      e := if key in items then Some(items[key]) else None;
    }

    method SetDocument(key: string, document: Option<CachedDocument>)
      requires Valid()
      modifies this`items, this`documentBytes
      ensures DocumentStep(old(View()), View(), maxDocumentBytes, key, document)
      ensures maxDocumentBytes >= MAX_DOCUMENT ==> Valid()
    {
      if document.None? || |document.value.body| > MAX_DOCUMENT || key !in items {
        return;
      }
      ghost var c := View();
      var entry := items[key];
      var size := |document.value.body|;
      SumRemove(items, key);
      if entry.document.Some? {
        documentBytes := documentBytes - |entry.document.value.body|;
      }
      var room := MakeRoom(key, size);
      if !room {
        return;
      }
      ghost var left := items;
      SumUpdate(items, key, entry.(document := document));
      items := items[key := entry.(document := document)];
      documentBytes := documentBytes + size;
      AttachStep(c, left, View(), maxDocumentBytes, key, document);
    }

    /** Drops the documents of other entries, in any order, until `size` more bytes fit or nothing is left to drop. */
    method MakeRoom(key: string, size: nat) returns (room: bool)
      requires key in items && documentBytes == SumDocuments(items - {key})
      requires 0 <= maxDocumentBytes
      modifies this`items, this`documentBytes
      ensures items.Keys == old(items.Keys) && items[key] == old(items[key])
      ensures documentBytes == SumDocuments(items - {key}) <= old(documentBytes)
      ensures forall k :: k in items && k != key ==> items[k] in {old(items[k]), WithoutDocument(old(items[k]))}
      ensures old(documentBytes) + size <= maxDocumentBytes ==> items == old(items)
      ensures room <==> size <= maxDocumentBytes
      ensures room ==> documentBytes + size <= maxDocumentBytes
      ensures !room ==> documentBytes == 0 && forall k :: k in items && k != key ==> DocumentSize(items[k]) == 0
    {
      ghost var before := items;
      while documentBytes + size > maxDocumentBytes
        invariant items.Keys == before.Keys && items[key] == before[key]
        invariant documentBytes == SumDocuments(items - {key}) <= old(documentBytes)
        invariant forall k :: k in items && k != key ==> items[k] in {before[k], WithoutDocument(before[k])}
        invariant old(documentBytes) + size <= maxDocumentBytes ==> items == before
        decreases set k | k in items && k != key && items[k].document.Some?
      {
        var candidates := set k | k in items && k != key && items[k].document.Some?;
        if candidates == {} {
          forall k | k in items && k != key ensures DocumentSize(items[k]) == 0 {
            assert k !in candidates;
          }
          SumZero(items - {key});
          return false;
        }
        var candidate :| candidate in candidates;
        DropDocument(key, candidate);
        assert (set k | k in items && k != key && items[k].document.Some?) == candidates - {candidate};
      }
      return true;
    }

    method DropDocument(key: string, candidate: string)
      requires documentBytes == SumDocuments(items - {key})
      requires candidate in items && candidate != key && items[candidate].document.Some?
      modifies this`items, this`documentBytes
      ensures items == old(items)[candidate := WithoutDocument(old(items[candidate]))]
      ensures documentBytes == SumDocuments(items - {key}) <= old(documentBytes)
    {
      var cached := items[candidate];
      SumRemove(items - {key}, candidate);
      documentBytes := documentBytes - |cached.document.value.body|;
      cached := cached.(document := None);
      SumUpdate(items - {key}, candidate, cached);
      assert items[candidate := cached] - {key} == (items - {key})[candidate := cached];
      items := items[candidate := cached];
    }

    method SetWithTagVersions(key: string, result: RenderResult, tagVersions: map<string, string>, now: int)
      returns (ghost victim: Option<string>)
      requires Valid()
      modifies this`items, this`documentBytes, this`tags, this`keyTags
      ensures Valid()
      ensures Victim(old(View()), maxEntries, victim)
      ensures "" !in old(items) ==> OldestVictim(old(View()), victim)
      ensures View() == AfterSet(old(View()), victim, key, result, tagVersions, now)
    {
      ghost var c := View();
      victim := None;
      if |items| >= maxEntries {
        var oldest := Oldest();
        victim := Some(oldest);
        Discard(oldest);
      }
      assert items == Evicted(c, victim);
      Replace(key, CacheEntry(result, None, now, tagVersions));
      if key in keyTags {
        Unlink(keyTags[key], key);
      }
      UnlinkNothing(c.tags, key);
      assert tags == Unlinked(c.tags, KeyTags(c, key), key);
      var added := Link(result.cacheTags, key);
      keyTags := keyTags[key := added];
      SetKeepsIndex(c, victim, key, result, tagVersions, now);
    }

    method Discard(key: string)
      requires key in items && documentBytes == SumDocuments(items)
      modifies this`items, this`documentBytes
      ensures items == old(items) - {key} && |items| == |old(items)| - 1
      ensures documentBytes == SumDocuments(items) <= old(documentBytes)
    {
      SumRemove(items, key);
      if items[key].document.Some? {
        documentBytes := documentBytes - |items[key].document.value.body|;
      }
      assert (items - {key}).Keys == items.Keys - {key};
      items := items - {key};
    }

    method Replace(key: string, entry: CacheEntry)
      requires documentBytes == SumDocuments(items) && entry.document.None?
      modifies this`items, this`documentBytes
      ensures items == old(items)[key := entry] && |items| <= |old(items)| + 1
      ensures documentBytes == SumDocuments(items) <= old(documentBytes)
    {
      if key in items {
        SumRemove(items, key);
        if items[key].document.Some? {
          documentBytes := documentBytes - |items[key].document.value.body|;
        }
      }
      SumUpdate(items, key, entry);
      assert items[key := entry].Keys == items.Keys + {key};
      items := items[key := entry];
    }

    /** The eviction scan. Go visits the keys in any order, and an empty `oldest` means "none yet". */
    method Oldest() returns (oldest: string)
      requires items != map[]
      ensures oldest in items
      ensures "" !in items ==> forall k :: k in items ==> items[oldest].stored <= items[k].stored
    {
      oldest := "";
      var t := 0;
      var todo := items.Keys;
      while todo != {}
        invariant todo <= items.Keys
        invariant todo == items.Keys ==> oldest == ""
        invariant oldest == "" || oldest in items
        invariant todo != items.Keys ==> oldest in items
        invariant "" !in items && todo != items.Keys ==> oldest != "" && t == items[oldest].stored
        invariant "" !in items ==> forall k :: k in items.Keys - todo ==> oldest in items && items[oldest].stored <= items[k].stored
      {
        var k :| k in todo;
        todo := todo - {k};
        if oldest == "" || items[k].stored < t {
          oldest, t := k, items[k].stored;
        }
      }
    }

    method Unlink(previous: set<string>, key: string)
      modifies this`tags
      ensures tags == Unlinked(old(tags), previous, key)
    {
      var todo := previous;
      while todo != {}
        invariant todo <= previous
        invariant tags == Unlinked(old(tags), previous - todo, key)
      {
        var tag :| tag in todo;
        todo := todo - {tag};
        if tag in tags {
          tags := tags[tag := tags[tag] - {key}];
          if tags[tag] == {} {
            tags := tags - {tag};
          }
        }
      }
      assert previous - todo == previous;
    }

    method Link(cacheTags: seq<string>, key: string) returns (added: set<string>)
      modifies this`tags
      ensures added == set t | t in cacheTags && t != ""
      ensures tags == Linked(old(tags), added, key)
    {
      added := {};
      LinkNothing(tags, key);
      for i := 0 to |cacheTags|
        invariant added == set t | t in cacheTags[..i] && t != ""
        invariant tags == Linked(old(tags), added, key)
      {
        var tag := cacheTags[i];
        assert cacheTags[..i + 1] == cacheTags[..i] + [tag];
        if tag == "" { continue; }
        LinkOne(old(tags), added, tag, key);
        added := added + {tag};
        if tag !in tags {
          tags := tags[tag := {}];
        }
        tags := tags[tag := tags[tag] + {key}];
      }
      assert cacheTags[..|cacheTags|] == cacheTags;
    }

    method InvalidateTags(list: seq<string>)
      requires Valid()
      modifies this`items, this`documentBytes, this`tags, this`keyTags
      ensures Valid()
      ensures View() == AfterInvalidate(old(View()), list)
      ensures forall k :: k in items ==> forall t :: t in list && t != "" ==> t !in items[k].result.cacheTags
    {
      ghost var c := View();
      DoomedNone(c);
      for i := 0 to |list|
        invariant documentBytes == SumDocuments(items)
        invariant items == c.items - Doomed(c, list[..i])
        invariant keyTags == c.keyTags - Doomed(c, list[..i])
        invariant tags == c.tags - Listed(list[..i])
      {
        DoomedStep(c, list, i);
        DropTag(list[i]);
      }
      assert list[..|list|] == list;
      InvalidateKeepsIndex(c, list);
      SumMonotone(c.items, Doomed(c, list));
      SubsetSize(items.Keys, c.items.Keys);
    }

    method DropTag(tag: string)
      requires documentBytes == SumDocuments(items)
      modifies this`items, this`documentBytes, this`tags, this`keyTags
      ensures documentBytes == SumDocuments(items)
      ensures items == old(items) - Under(old(tags), tag) && keyTags == old(keyTags) - Under(old(tags), tag)
      ensures tags == old(tags) - {tag}
    {
      if tag in tags {
        DropKeys(tags[tag]);
      }
      tags := tags - {tag};
    }

    method DropKeys(keys: set<string>)
      requires documentBytes == SumDocuments(items)
      modifies this`items, this`documentBytes, this`keyTags
      ensures documentBytes == SumDocuments(items)
      ensures items == old(items) - keys && keyTags == old(keyTags) - keys
    {
      var todo := keys;
      while todo != {}
        invariant todo <= keys
        invariant documentBytes == SumDocuments(items)
        invariant items == old(items) - (keys - todo) && keyTags == old(keyTags) - (keys - todo)
      {
        var key :| key in todo;
        todo := todo - {key};
        if key in items {
          SumRemove(items, key);
          if items[key].document.Some? {
            documentBytes := documentBytes - |items[key].document.value.body|;
          }
        } else {
          assert items - {key} == items;
        }
        items := items - {key};
        keyTags := keyTags - {key};
      }
      assert keys - todo == keys;
    }

    method BeginRevalidate(key: string) returns (started: bool)
      modifies this`revalidating
      ensures started == (key !in old(revalidating))
      ensures revalidating == old(revalidating) + {key}
    {
      if key in revalidating {
        return false;
      }
      revalidating := revalidating + {key};
      return true;
    }

    method EndRevalidate(key: string)
      modifies this`revalidating
      ensures revalidating == old(revalidating) - {key}
    {
      revalidating := revalidating - {key};
    }
  }

  // ---------------------------------------------------------------- lemmas about the operations

  lemma RemovedTwice(items: map<string, CacheEntry>, k: string, keys: set<string>)
    requires k in keys
    ensures (items - {k}) - keys == items - keys
  {
  }

  lemma {:induction false} SumMonotone(items: map<string, CacheEntry>, keys: set<string>)
    ensures SumDocuments(items - keys) <= SumDocuments(items)
    decreases |items|
  {
    if k :| k in items && k in keys {
      SumRemove(items, k);
      SumMonotone(items - {k}, keys);
      RemovedTwice(items, k, keys);
    } else {
      assert items - keys == items;
    }
  }

  lemma UnlinkNothing(tags: map<string, set<string>>, key: string)
    ensures Unlinked(tags, {}, key) == tags
  {
  }

  lemma DoomedNone(c: Cache)
    ensures Doomed(c, []) == {} && c.items - {} == c.items && c.keyTags - {} == c.keyTags && c.tags - {} == c.tags
  {
  }

  lemma DoomedStep(c: Cache, list: seq<string>, i: nat)
    requires i < |list|
    ensures c.items - Doomed(c, list[..i]) - Under(c.tags - Listed(list[..i]), list[i]) == c.items - Doomed(c, list[..i + 1])
    ensures c.keyTags - Doomed(c, list[..i]) - Under(c.tags - Listed(list[..i]), list[i]) == c.keyTags - Doomed(c, list[..i + 1])
    ensures c.tags - Listed(list[..i]) - {list[i]} == c.tags - Listed(list[..i + 1])
  {
    var tag := list[i];
    assert list[..i + 1] == list[..i] + [tag];
    assert Listed(list[..i + 1]) == Listed(list[..i]) + {tag};
    assert Doomed(c, list[..i + 1]) == Doomed(c, list[..i]) + Under(c.tags - Listed(list[..i]), tag);
  }

  lemma AttachStep(c: Cache, left: map<string, CacheEntry>, c': Cache, max: int, key: string, document: Option<CachedDocument>)
    requires Indexed(c) && Attachable(c, key, document) && |document.value.body| <= max
    requires left.Keys == c.items.Keys && left[key] == c.items[key]
    requires forall k :: k in left && k != key ==> left[k] in {c.items[k], WithoutDocument(c.items[k])}
    requires c.documentBytes - DocumentSize(c.items[key]) + |document.value.body| <= max ==> left == c.items
    requires c' == Cache(left[key := c.items[key].(document := document)], c.tags, c.keyTags, c'.documentBytes)
    requires c'.documentBytes == SumDocuments(c'.items) <= max
    ensures DocumentStep(c, c', max, key, document) && Indexed(c') && c'.items.Keys == c.items.Keys
  {
    assert c'.items.Keys == c.items.Keys;
    assert forall k :: k in c'.items && k != key ==> c'.items[k] == left[k];
    IndexedKept(c, c');
  }

  lemma LinkOne(tags: map<string, set<string>>, added: set<string>, tag: string, key: string)
    ensures var l := Linked(tags, added, key);
            l[tag := Under(l, tag) + {key}] == Linked(tags, added + {tag}, key)
  {
    var l := Linked(tags, added, key);
    var r := Linked(tags, added + {tag}, key);
    assert l[tag := Under(l, tag) + {key}].Keys == r.Keys;
    assert l[tag := Under(l, tag) + {key}][tag] == r[tag];
  }

  lemma LinkNothing(tags: map<string, set<string>>, key: string)
    ensures Linked(tags, {}, key) == tags
  {
    assert forall t :: t in tags ==> tags[t] + {} == tags[t];
  }

  lemma IndexedKept(c: Cache, c': Cache)
    requires Indexed(c) && c'.tags == c.tags && c'.items.Keys <= c.items.Keys
    requires forall k :: k in c'.items ==> c'.items[k].result == c.items[k].result
    ensures Indexed(c')
  {
  }

  /** Storing keeps the index sound, whoever is evicted. */
  lemma SetKeepsIndex(c: Cache, victim: Option<string>, key: string, result: RenderResult,
                      versions: map<string, string>, now: int)
    requires Indexed(c)
    ensures Indexed(AfterSet(c, victim, key, result, versions, now))
  {
    var c' := AfterSet(c, victim, key, result, versions, now);
    var mid := Unlinked(c.tags, KeyTags(c, key), key);
    forall k, t | k in c'.items && t in Tags(c'.items[k].result)
      ensures t in c'.tags && k in c'.tags[t]
    {
      if k != key {
        assert k in c.items && t in c.tags && k in c.tags[t];
        assert k in c.tags[t] - {key};
        assert t in mid && k in mid[t];
      }
    }
  }

  /** After an invalidation no entry carries an invalidated tag, and the index is still sound. */
  lemma InvalidateKeepsIndex(c: Cache, tags: seq<string>)
    requires Indexed(c)
    ensures Indexed(AfterInvalidate(c, tags))
    ensures forall k, t :: k in AfterInvalidate(c, tags).items && t in tags && t != "" ==>
              t !in AfterInvalidate(c, tags).items[k].result.cacheTags
  {
    var c' := AfterInvalidate(c, tags);
    forall k, t | k in c'.items && t in Tags(c'.items[k].result)
      ensures t !in tags && t in c'.tags && k in c'.tags[t]
    {
      assert t in c.tags && k in c.tags[t];
    }
    forall k, t | k in c'.items && t in tags && t != ""
      ensures t !in c'.items[k].result.cacheTags
    {
      assert t in c'.items[k].result.cacheTags ==> t in Tags(c'.items[k].result);
    }
  }

  /** The accounting survives attaching a document exactly when the give-up return does not strand an old document. */
  lemma AccountedIff(c: Cache, c': Cache, max: int, key: string, document: Option<CachedDocument>)
    requires 0 <= max && Accounted(c, max)
    requires DocumentStep(c, c', max, key, document)
    ensures Accounted(c', max) <==>
              !(Attachable(c, key, document) && |document.value.body| > max && DocumentSize(c.items[key]) > 0)
  {
    if Attachable(c, key, document) && |document.value.body| > max {
      SumRemove(c'.items, key);
      SumZero(c'.items - {key});
    }
  }

  // ---------------------------------------------------------------- over whole runs

  datatype Operation =
    | Store(key: string, result: RenderResult, versions: map<string, string>, now: int, victim: Option<string>)
    | AttachDocument(key: string, document: Option<CachedDocument>)
    | Invalidate(tags: seq<string>)

  ghost predicate Performs(c: Cache, op: Operation, c': Cache, maxEntries: nat, budget: int) {
    match op
    case Store(key, result, versions, now, victim) =>
      Victim(c, maxEntries, victim) && c' == AfterSet(c, victim, key, result, versions, now)
    case AttachDocument(key, document) => DocumentStep(c, c', budget, key, document)
    case Invalidate(tags) => c' == AfterInvalidate(c, tags)
  }

  ghost predicate InBudget(c: Cache, maxEntries: nat, budget: int) {
    Accounted(c, budget) && |c.items| <= maxEntries && Indexed(c)
  }

  /** A run of operations on a new cache. */
  ghost predicate CacheRun(cs: seq<Cache>, ops: seq<Operation>, maxEntries: nat, budget: int) {
    && |cs| == |ops| + 1 && cs[0] == Cache(map[], map[], map[], 0)
    && forall n :: 0 <= n < |ops| ==> Performs(cs[n], ops[n], cs[n + 1], maxEntries, budget)
  }

  /** The budget fits every document that may be attached, or none that has bytes. */
  predicate Fitting(budget: int) {
    budget == 0 || budget >= MAX_DOCUMENT
  }

  /** Over every run the byte count is exact and within budget, the entries within the limit, and the index sound. */
  lemma {:induction false} BudgetRun(cs: seq<Cache>, ops: seq<Operation>, maxEntries: nat, budget: int, i: nat)
    requires CacheRun(cs, ops, maxEntries, budget) && maxEntries > 0 && Fitting(budget) && i < |cs|
    ensures InBudget(cs[i], maxEntries, budget)
  {
    if i > 0 {
      BudgetRun(cs, ops, maxEntries, budget, i - 1);
      BudgetStep(cs[i - 1], ops[i - 1], cs[i], maxEntries, budget);
    }
  }

  lemma BudgetStep(c: Cache, op: Operation, c': Cache, maxEntries: nat, budget: int)
    requires InBudget(c, maxEntries, budget) && Fitting(budget)
    requires Performs(c, op, c', maxEntries, budget)
    ensures InBudget(c', maxEntries, budget)
  {
    match op
    case Store(key, result, versions, now, victim) =>
      SetKeepsIndex(c, victim, key, result, versions, now);
      StoreInBudget(c, victim, key, CacheEntry(result, None, now, versions), maxEntries);
    case AttachDocument(key, document) =>
      AttachInBudget(c, key, document, c', maxEntries, budget);
    case Invalidate(tags) =>
      InvalidateKeepsIndex(c, tags);
      SumMonotone(c.items, Doomed(c, tags));
      SubsetSize(c'.items.Keys, c.items.Keys);
  }

  lemma AttachInBudget(c: Cache, key: string, document: Option<CachedDocument>, c': Cache, maxEntries: nat, budget: int)
    requires InBudget(c, maxEntries, budget) && Fitting(budget)
    requires DocumentStep(c, c', budget, key, document)
    ensures InBudget(c', maxEntries, budget)
  {
    if key in c.items { SumRemove(c.items, key); }
    AccountedIff(c, c', budget, key, document);
    SubsetSize(c'.items.Keys, c.items.Keys);
    IndexedKept(c, c');
  }

  lemma StoreInBudget(c: Cache, victim: Option<string>, key: string, e: CacheEntry, maxEntries: nat)
    requires Victim(c, maxEntries, victim) && |c.items| <= maxEntries && DocumentSize(e) == 0
    ensures |Evicted(c, victim)[key := e]| <= maxEntries
    ensures SumDocuments(Evicted(c, victim)[key := e]) <= SumDocuments(c.items)
  {
    var left := Evicted(c, victim);
    if victim.Some? {
      SumRemove(c.items, victim.value);
      assert left.Keys == c.items.Keys - {victim.value};
    }
    assert left[key := e].Keys == left.Keys + {key};
    SumUpdate(left, key, e);
    SumMonotone(left, {key});
  }

  function Zeros(n: nat): Bytes {
    seq(n, _ => 0)
  }

  /** Every other budget loses track: a document of one byte, then a larger one than the budget on the same entry. */
  lemma SmallBudgetLosesTrack(maxEntries: nat, budget: int) returns (cs: seq<Cache>, ops: seq<Operation>)
    requires maxEntries > 0 && 0 < budget < MAX_DOCUMENT
    ensures CacheRun(cs, ops, maxEntries, budget) && |cs| == 4 && !Accounted(cs[3], budget)
  {
    var small, large := CachedDocument(Zeros(1), BLANK), CachedDocument(Zeros(budget + 1), BLANK);
    var c0 := Cache(map[], map[], map[], 0);
    var c1 := AfterSet(c0, None, "k", BLANK, map[], 0);
    var e := CacheEntry(BLANK, Some(small), 0, map[]);
    var c2 := c1.(items := c1.items["k" := e], documentBytes := 1);
    var c3 := c2.(documentBytes := 0);
    OneDocument(c1.items, "k", e);
    assert c1.items == map["k" := e.(document := None)];
    cs, ops := [c0, c1, c2, c3], [Store("k", BLANK, map[], 0, None), AttachDocument("k", Some(small)), AttachDocument("k", Some(large))];
    assert Performs(c0, ops[0], c1, maxEntries, budget);
    assert Performs(c1, ops[1], c2, maxEntries, budget);
    assert Performs(c2, ops[2], c3, maxEntries, budget);
  }

  lemma OneDocument(items: map<string, CacheEntry>, key: string, e: CacheEntry)
    requires items.Keys <= {key}
    ensures SumDocuments(items[key := e]) == DocumentSize(e)
  {
    SumUpdate(items, key, e);
    assert items - {key} == map[];
  }

  /** The byte count is exact and within budget over every run if and only if the budget is at least 1 MiB, or zero. */
  lemma ExactIff(maxEntries: nat, budget: int)
    requires maxEntries > 0 && budget >= 0
    ensures Fitting(budget) <==>
            forall cs, ops, i: nat :: CacheRun(cs, ops, maxEntries, budget) && i < |cs| ==> Accounted(cs[i], budget)
  {
    if Fitting(budget) {
      forall cs, ops, i: nat | CacheRun(cs, ops, maxEntries, budget) && i < |cs| ensures Accounted(cs[i], budget) {
        BudgetRun(cs, ops, maxEntries, budget, i);
      }
    } else {
      var cs, ops := SmallBudgetLosesTrack(maxEntries, budget);
      assert CacheRun(cs, ops, maxEntries, budget) && !Accounted(cs[3], budget);
    }
  }

  // ---------------------------------------------------------------- what is found

  /** The entry is what the operation stored under its key, whatever document it has got since. */
  predicate StoredBy(op: Operation, key: string, e: CacheEntry) {
    op.Store? && op.key == key && e.result == op.result && e.stored == op.now && e.tagVersions == op.versions
  }

  /** The operation neither stores under the key nor invalidates a tag of the result. */
  predicate Leaves(op: Operation, key: string, result: RenderResult) {
    match op
    case Store(k, _, _, _, _) => k != key
    case AttachDocument(_, _) => true
    case Invalidate(tags) => forall t :: t in tags ==> t !in Tags(result)
  }

  /** What is found under a key is what was last stored under it, and none of its tags was invalidated since. */
  lemma {:induction false} FoundIsLastStored(cs: seq<Cache>, ops: seq<Operation>, maxEntries: nat, budget: int, i: nat, key: string) returns (n: nat)
    requires CacheRun(cs, ops, maxEntries, budget) && maxEntries > 0 && Fitting(budget) && i < |cs| && key in cs[i].items
    ensures n < i && StoredBy(ops[n], key, cs[i].items[key])
    ensures forall m :: n < m < i ==> Leaves(ops[m], key, cs[i].items[key].result)
  {
    n := 0;
    if i > 0 {
      BudgetRun(cs, ops, maxEntries, budget, i - 1);
      EntryStep(cs[i - 1], ops[i - 1], cs[i], maxEntries, budget, key);
      if StoredBy(ops[i - 1], key, cs[i].items[key]) {
        n := i - 1;
      } else {
        n := FoundIsLastStored(cs, ops, maxEntries, budget, i - 1, key);
      }
    }
  }

  lemma EntryStep(c: Cache, op: Operation, c': Cache, maxEntries: nat, budget: int, key: string)
    requires Performs(c, op, c', maxEntries, budget) && Indexed(c) && key in c'.items
    ensures StoredBy(op, key, c'.items[key])
            || (key in c.items && c'.items[key].(document := None) == c.items[key].(document := None) && Leaves(op, key, c'.items[key].result))
  {
    match op
    case Store(_, _, _, _, _) =>
    case AttachDocument(_, _) =>
    case Invalidate(tags) => InvalidateKeepsIndex(c, tags);
  }

  /** A store up to operation `i` put the key under the tag. */
  ghost predicate Tagged(ops: seq<Operation>, i: nat, key: string, t: string)
    requires i <= |ops|
  {
    exists n :: 0 <= n < i && TagsKey(ops[n], key, t)
  }

  predicate TagsKey(op: Operation, key: string, t: string) {
    op.Store? && op.key == key && t in Tags(op.result)
  }

  /** The index has a key only under tags that some store gave it. */
  lemma {:induction false} IndexFromStores(cs: seq<Cache>, ops: seq<Operation>, maxEntries: nat, budget: int, i: nat, key: string, t: string)
    requires CacheRun(cs, ops, maxEntries, budget) && i < |cs| && t in cs[i].tags && key in cs[i].tags[t]
    ensures Tagged(ops, i, key, t)
    decreases i
  {
    if i > 0 {
      assert Performs(cs[i - 1], ops[i - 1], cs[i], maxEntries, budget);
      if TagsKey(ops[i - 1], key, t) {
      } else {
        LinkedBefore(cs[i - 1], ops[i - 1], cs[i], maxEntries, budget, key, t);
        IndexFromStores(cs, ops, maxEntries, budget, i - 1, key, t);
        var n :| 0 <= n < i - 1 && TagsKey(ops[n], key, t);
        assert TagsKey(ops[n], key, t);
      }
    }
  }

  lemma LinkedBefore(c: Cache, op: Operation, c': Cache, maxEntries: nat, budget: int, key: string, t: string)
    requires Performs(c, op, c', maxEntries, budget) && t in c'.tags && key in c'.tags[t] && !TagsKey(op, key, t)
    ensures t in c.tags && key in c.tags[t]
  {
  }

  /** The operation neither stores under the key, nor evicts it, nor invalidates a tag that the key ever had. */
  ghost predicate Spares(ops: seq<Operation>, i: nat, key: string)
    requires i < |ops|
  {
    match ops[i]
    case Store(k, _, _, _, victim) => k != key && victim != Some(key)
    case AttachDocument(_, _) => true
    case Invalidate(tags) => forall t :: t in tags ==> !Tagged(ops, i, key, t)
  }

  /** What was stored under a key is found under it, as it was stored, until another store of it, its eviction or the
      invalidation of a tag it had. */
  lemma {:induction false} StaysFound(cs: seq<Cache>, ops: seq<Operation>, maxEntries: nat, budget: int, n: nat, i: nat)
    requires CacheRun(cs, ops, maxEntries, budget) && n < i < |cs| && ops[n].Store?
    requires forall m :: n < m < i ==> Spares(ops, m, ops[n].key)
    ensures ops[n].key in cs[i].items && StoredBy(ops[n], ops[n].key, cs[i].items[ops[n].key])
    decreases i
  {
    var before, key := i - 1, ops[n].key;
    assert Performs(cs[before], ops[before], cs[i], maxEntries, budget);
    if n < before {
      StaysFound(cs, ops, maxEntries, budget, n, before);
      assert Spares(ops, before, key);
      if ops[before].Invalidate? { NotDoomed(cs, ops, maxEntries, budget, before, key); }
      KeptStep(cs[before], ops[before], cs[i], maxEntries, budget, key);
    }
  }

  lemma NotDoomed(cs: seq<Cache>, ops: seq<Operation>, maxEntries: nat, budget: int, i: nat, key: string)
    requires CacheRun(cs, ops, maxEntries, budget) && i < |ops| && ops[i].Invalidate? && Spares(ops, i, key)
    ensures key !in Doomed(cs[i], ops[i].tags)
  {
    if key in Doomed(cs[i], ops[i].tags) {
      var t :| t in ops[i].tags && t in cs[i].tags && key in cs[i].tags[t];
      IndexFromStores(cs, ops, maxEntries, budget, i, key, t);
      assert false;
    }
  }

  lemma KeptStep(c: Cache, op: Operation, c': Cache, maxEntries: nat, budget: int, key: string)
    requires Performs(c, op, c', maxEntries, budget) && key in c.items
    requires op.Store? ==> op.key != key && op.victim != Some(key)
    requires op.Invalidate? ==> key !in Doomed(c, op.tags)
    ensures key in c'.items && c'.items[key].(document := None) == c.items[key].(document := None)
  {
  }

  function StoredKeys(ops: seq<Operation>, i: nat): set<string>
    requires i <= |ops|
  {
    set n | 0 <= n < i && ops[n].Store? :: ops[n].key
  }

  lemma {:induction false} OnlyStoredKeys(cs: seq<Cache>, ops: seq<Operation>, maxEntries: nat, budget: int, i: nat)
    requires CacheRun(cs, ops, maxEntries, budget) && i < |cs|
    ensures cs[i].items.Keys <= StoredKeys(ops, i)
    decreases i
  {
    if i > 0 {
      OnlyStoredKeys(cs, ops, maxEntries, budget, i - 1);
      assert Performs(cs[i - 1], ops[i - 1], cs[i], maxEntries, budget);
      assert StoredKeys(ops, i - 1) <= StoredKeys(ops, i);
      assert ops[i - 1].Store? ==> ops[i - 1].key in StoredKeys(ops, i);
    }
  }

  /** Nothing is evicted before as many different keys have been stored as the cache may hold. */
  lemma EvictsOnlyWhenFull(cs: seq<Cache>, ops: seq<Operation>, maxEntries: nat, budget: int, i: nat)
    requires CacheRun(cs, ops, maxEntries, budget) && i < |ops| && ops[i].Store? && |StoredKeys(ops, i)| < maxEntries
    ensures ops[i].victim.None?
  {
    OnlyStoredKeys(cs, ops, maxEntries, budget, i);
    SubsetSize(cs[i].items.Keys, StoredKeys(ops, i));
    assert Performs(cs[i], ops[i], cs[i + 1], maxEntries, budget);
  }

  // ---------------------------------------------------------------- revalidation

  /** A call of one of the two methods; `started` is what the first one answered. */
  datatype Revalidation = Begin(key: string, started: bool) | End(key: string)

  function Revalidating(calls: seq<Revalidation>): set<string> {
    if calls == [] then {}
    else
      var before, call := Revalidating(calls[..|calls| - 1]), calls[|calls| - 1];
      if call.Begin? then before + {call.key} else before - {call.key}
  }

  /** Every answer is the one the method gives. */
  predicate Answered(calls: seq<Revalidation>) {
    calls == []
    || (Answered(calls[..|calls| - 1])
        && (calls[|calls| - 1].Begin? ==> (calls[|calls| - 1].started <==> calls[|calls| - 1].key !in Revalidating(calls[..|calls| - 1]))))
  }

  /** A key is being revalidated from a begin until the next end. */
  lemma {:induction false} BegunNotEnded(calls: seq<Revalidation>, i: nat)
    requires i < |calls| && calls[i].Begin? && forall n :: i < n < |calls| ==> calls[n] != End(calls[i].key)
    ensures calls[i].key in Revalidating(calls)
    decreases |calls|
  {
    var before := calls[..|calls| - 1];
    if i < |before| {
      assert before[i] == calls[i];
      assert forall n :: i < n < |before| ==> before[n] == calls[n];
      BegunNotEnded(before, i);
    }
  }

  /** Revalidations of a key do not overlap: between two that started there is the end of one. */
  lemma {:induction false} OneRevalidation(calls: seq<Revalidation>, i: nat, j: nat)
    requires Answered(calls) && i < j < |calls|
    requires calls[i].Begin? && calls[j] == Begin(calls[i].key, true)
    ensures exists n :: i < n < j && calls[n] == End(calls[i].key)
    decreases |calls|
  {
    var before := calls[..|calls| - 1];
    if j < |before| {
      OneRevalidation(before, i, j);
      var n :| i < n < j && before[n] == End(before[i].key);
      assert calls[n] == End(calls[i].key);
    } else if forall n :: i < n < j ==> calls[n] != End(calls[i].key) {
      assert forall n :: i < n < |before| ==> before[n] == calls[n];
      BegunNotEnded(before, i);
    }
  }
}
