/**
 * One run of the CalDAV sync script (contrib/caldav/calcurse-caldav.py) as
 * a class over the state it touches: the in-memory sync database, the local
 * calcurse store, the server's collection and the sync database file.
 *
 * The calcurse store is a set of object hashes and the server's collection a
 * map from ETag to href. Importing an object into calcurse and PUTting one on
 * the server both hand out a name that is new to the store in question: the
 * model does not compute SHA-1 hashes or server ETags, it only keeps them
 * fresh (FreshName).
 */
module Sync {
  import opened Wrappers
  import opened Text
  import opened Reconcile
  import SyncDbFormat
  import Version
  import Config

  /** The three --init policies. */
  datatype InitMode = KeepRemote | KeepLocal | TwoWay

  /** One <D:prop> of a multiget answer: its getetag and calendar-data children, either of which may be absent. */
  datatype PropNode = PropNode(etag: Option<string>, calendarData: Option<string>)

  /**
   * pull_objects returns None when the multiget gets no response, and the
   * caller's unpacking of its result then raises this TypeError.
   */
  const NoResponse := "TypeError: cannot unpack non-iterable NoneType object"
  const MissingETag := "Missing ETag."
  const MissingCalendarData := "Missing calendar data."
  const NoSyncDb := "Sync database not found or empty. Please initialize the database first.\n\nSupported initialization modes are:\n  --init=keep-remote Remove all local calcurse items and import remote objects\n  --init=keep-local  Remove all remote objects and push local calcurse items\n  --init=two-way     Copy local objects to the CalDAV server and vice versa"

  /** The four numbers a run reports. */
  datatype Counts = Counts(imported: nat, removedLocally: nat, exported: nat, removedRemotely: nat)

  predicate Complete(node: PropNode) {
    node.etag.Some? && node.calendarData.Some?
  }

  /** How many records pull_objects gets through before it dies on a record that lacks a child. */
  function CompletePrefix(records: seq<PropNode>): (k: nat)
    ensures k <= |records|
    ensures forall i | 0 <= i < k :: Complete(records[i])
    ensures k < |records| ==> !Complete(records[k])
  {
    if records == [] || !Complete(records[0]) then 0 else 1 + CompletePrefix(records[1..])
  }

  /** A loop that stops at the first incomplete record stops at CompletePrefix. */
  lemma CompletePrefixEnds(records: seq<PropNode>, k: nat)
    requires k <= |records| && forall j | 0 <= j < k :: Complete(records[j])
    requires k == |records| || !Complete(records[k])
    ensures k == CompletePrefix(records)
  {
  }

  /** The ETags of complete records, without their surrounding quotes. */
  function TagsOf(records: seq<PropNode>): (r: seq<ETag>)
    requires forall i | 0 <= i < |records| :: Complete(records[i])
    ensures |r| == |records|
    ensures forall i | 0 <= i < |records| :: records[i].etag.Some? && r[i] == StripChar(records[i].etag.value, '"')
  {
    if records == [] then []
    else
      var n := |records| - 1;
      assert Complete(records[n]);
      var front := TagsOf(records[..n]);
      var r := front + [StripChar(records[n].etag.value, '"')];
      assert forall i | 0 <= i < n :: records[..n][i] == records[i] && r[i] == front[i];
      r
  }

  /** The collection path with any trailing slashes replaced by exactly one. */
  function CollectionPath(configured: string): (r: string)
    ensures |r| >= 1 && r[|r| - 1] == '/' && (|r| == 1 || r[|r| - 2] != '/')
  {
    RStripChar(configured, '/') + "/"
  }

  /** The collection path is the configured one up to its trailing slashes. */
  lemma CollectionPathOf(configured: string)
    ensures var r := CollectionPath(configured);
      && r[..|r| - 1] <= configured
      && (forall i | |r| - 1 <= i < |configured| :: configured[i] == '/')
  {
    var r := CollectionPath(configured);
    assert r[..|r| - 1] == RStripChar(configured, '/');
  }

  /** Normalising the collection path again changes nothing. */
  lemma CollectionPathIdempotent(configured: string)
    ensures CollectionPath(CollectionPath(configured)) == CollectionPath(configured)
  {
    var r := CollectionPath(configured);
    var stem := RStripChar(configured, '/');
    assert r == stem + ['/'];
    assert r[..|r| - 1] == stem;
    assert RStripChar(r, '/') == RStripChar(stem, '/');
  }

  /** A name that is not in `used`: a run of 'x' longer than every used name. */
  method FreshName(used: set<string>) returns (name: string)
    ensures name !in used
  {
    var longest: nat := 0;
    var rest := used;
    while rest != {}
      invariant rest <= used
      invariant forall s | s in used && s !in rest :: |s| <= longest
      decreases rest
    {
      var s :| s in rest;
      if |s| > longest {
        longest := |s|;
      }
      rest := rest - {s};
    }
    name := seq(longest + 1, _ => 'x');
  }

  /** The whole version check of a run: the banner parses and names version 4.0 or later. */
  predicate GatePasses(versionOutput: string) {
    var v := Version.CalcurseVersion(versionOutput);
    v.Success? && Version.VersionGate(v.value).Pass?
  }

  /** The database a run starts from: empty under --init, otherwise the file's contents. */
  function StartDb(init: Option<InitMode>, file: Option<string>): (db: map<ETag, Hash>)
    ensures init.Some? ==> db == map[]
    ensures init.None? ==> (db != map[] <==> Loaded(file))
    ensures init.None? && Loaded(file) ==> db == SyncDbFormat.Load(file).value
  {
    if init.Some? then map[]
    else match SyncDbFormat.Load(file)
      case Success(db) => db
      case Failure(_) => map[]
  }

  /** The database file holds at least one entry. */
  predicate Loaded(file: Option<string>) {
    SyncDbFormat.Load(file).Success? && SyncDbFormat.Load(file).value != map[]
  }

  /** The local store a run starts from: emptied by --init=keep-remote. */
  function StartLocal(init: Option<InitMode>, local: set<Hash>): (r: set<Hash>)
    ensures r <= local
    ensures init == Some(KeepRemote) ==> r == {}
    ensures r == local <==> init != Some(KeepRemote) || local == {}
  {
    if init == Some(KeepRemote) then {} else local
  }

  /** The server collection a run starts from: emptied by --init=keep-local. */
  function StartRemote(init: Option<InitMode>, remote: map<ETag, Href>): (r: map<ETag, Href>)
    ensures r.Keys <= remote.Keys
    ensures init == Some(KeepLocal) ==> r == map[]
    ensures r == remote <==> init != Some(KeepLocal) || remote == map[]
  {
    if init == Some(KeepLocal) then map[] else remote
  }

  /**
   * The listing get_hrefmap reports for the collection: every ETag with its
   * href, or nothing at all when the REPORT answer has an empty body.
   */
  function Listing(remote: map<ETag, Href>, emptyBody: bool): (hrefmap: map<ETag, Href>)
    ensures hrefmap.Keys <= remote.Keys
    ensures !emptyBody ==> hrefmap == remote
    ensures emptyBody ==> hrefmap == map[]
  {
    if emptyBody then map[] else remote
  }

  /**
   * What a pull_objects that got through every record leaves behind, from
   * database `db0` and local store `local0`: the imported objects are fresh,
   * and the database, the store and the two counts are as PulledDb and
   * PulledLocal say.
   */
  ghost predicate Pulled(db0: map<ETag, Hash>, local0: set<Hash>, hrefmap: map<ETag, Href>, records: seq<PropNode>,
                         hashes: seq<Hash>, db: map<ETag, Hash>, local: set<Hash>, counts: (nat, nat))
  {
    && (forall i | 0 <= i < |records| :: Complete(records[i]))
    && |hashes| == |records| && FreshImports(hashes, local0)
    && db == PulledDb(db0, hrefmap, TagsOf(records), hashes)
    && local == PulledLocal(local0, db0, hrefmap, TagsOf(records), hashes)
    && counts == (|records|, |Orphans(hrefmap, db0)|)
  }

  /**
   * The state a pull leaves when a record lacks a child: the complete
   * records before it are imported and recorded, and nothing is removed.
   */
  ghost predicate Imported(db0: map<ETag, Hash>, local0: set<Hash>, records: seq<PropNode>,
                           hashes: seq<Hash>, db: map<ETag, Hash>, local: set<Hash>)
  {
    var k := CompletePrefix(records);
    && |hashes| == k && FreshImports(hashes, local0)
    && db == Updated(db0, TagsOf(records[..k]), hashes) && local == local0 + ElemsOf(hashes)
  }

  /**
   * A successful pass from database `db0`, local store `local0` and server
   * collection `remote0`, with the listing `hrefmap` both phases use and the
   * multiget answer `records`: pull_objects, then push_objects, then
   * save_syncdb, ending in `db`, `local`, `remote` and `file`.
   */
  ghost predicate Synced(db0: map<ETag, Hash>, local0: set<Hash>, remote0: map<ETag, Href>, hrefmap: map<ETag, Href>, path: string,
                         records: seq<PropNode>, hashes: seq<Hash>, pushed: map<ETag, Hash>, order: seq<ETag>,
                         db: map<ETag, Hash>, local: set<Hash>, remote: map<ETag, Href>, file: Option<string>,
                         counts: Counts)
  {
    && (forall i | 0 <= i < |records| :: Complete(records[i]))
    && |hashes| == |records|
    && var etags := TagsOf(records);
       var db1 := PulledDb(db0, hrefmap, etags, hashes);
       var local1 := PulledLocal(local0, db0, hrefmap, etags, hashes);
       && FreshImports(hashes, local0)
       && PushRecord(pushed, db1, remote0, local1)
       && local == local1
       && db == PushedDb(db1, local1, hrefmap, pushed)
       && remote == PushedRemote(remote0, db1, local1, hrefmap, pushed, path)
       && SyncDbFormat.Enumerates(order, db) && file == Some(SyncDbFormat.Serialize(db, order))
       && counts == Counts(|records|, |Orphans(hrefmap, db0)|, |NewObjects(local1, db1)|, |Doomed(db1, local1, hrefmap)|)
  }

  /** The import loop that got through every record, then the removal loop, make a pull. */
  lemma PullComposes(db0: map<ETag, Hash>, local0: set<Hash>, hrefmap: map<ETag, Href>, records: seq<PropNode>,
                     hashes: seq<Hash>, db1: map<ETag, Hash>, local1: set<Hash>, orphan: set<ETag>,
                     db: map<ETag, Hash>, local: set<Hash>, counts: (nat, nat))
    requires CompletePrefix(records) == |records|
    requires |hashes| == |records| && FreshImports(hashes, local0)
    requires db1 == Updated(db0, TagsOf(records[..|records|]), hashes) && local1 == local0 + ElemsOf(hashes)
    requires orphan == db0.Keys - hrefmap.Keys && orphan <= db1.Keys
    requires db == db1 - orphan && local == local1 - RecordedHashes(db1, orphan)
    requires counts == (|records|, |orphan|)
    ensures Pulled(db0, local0, hrefmap, records, hashes, db, local, counts)
  {
    assert records[..|records|] == records;
    var etags := TagsOf(records);
    assert db1 == Updated(db0, etags, hashes);
    assert db == PulledDb(db0, hrefmap, etags, hashes);
    assert local == PulledLocal(local0, db0, hrefmap, etags, hashes);
  }

  /** A pull that got through every record, then a push and a save, make a synchronised pass. */
  lemma PassComposes(db0: map<ETag, Hash>, local0: set<Hash>, remote0: map<ETag, Href>, hrefmap: map<ETag, Href>, path: string,
                     records: seq<PropNode>, hashes: seq<Hash>, pushed: map<ETag, Hash>, order: seq<ETag>,
                     db1: map<ETag, Hash>, local1: set<Hash>, pulled: (nat, nat), exported: nat, removed: nat,
                     db: map<ETag, Hash>, local: set<Hash>, remote: map<ETag, Href>, file: Option<string>,
                     counts: Counts)
    requires Pulled(db0, local0, hrefmap, records, hashes, db1, local1, pulled)
    requires Pushed(db1, remote0, local1, hrefmap, path, pushed, db, remote, exported, removed)
    requires local == local1
    requires SyncDbFormat.Enumerates(order, db) && file == Some(SyncDbFormat.Serialize(db, order))
    requires counts == Counts(pulled.0, pulled.1, exported, removed)
    ensures Synced(db0, local0, remote0, hrefmap, path, records, hashes, pushed, order, db, local, remote, file, counts)
  {
  }

  /** The entries of `db` whose object is among `objects` and whose ETag the server listed. */
  ghost function DoomedAmong(db: map<ETag, Hash>, objects: set<Hash>, hrefmap: map<ETag, Href>): set<ETag> {
    set e | e in db && db[e] in objects && e in hrefmap
  }

  /** Taking one more element out of `todo` moves it into `all - todo`. */
  lemma TakeOut<T>(all: set<T>, todo: set<T>, x: T)
    requires x in todo
    ensures x in all ==> all - (todo - {x}) == (all - todo) + {x}
    ensures x !in all ==> all - (todo - {x}) == all - todo
    ensures |todo - {x}| == |todo| - 1
  {
  }

  /** Removing keys in two steps is removing their union. */
  lemma MapMinusUnion<K, V>(m: map<K, V>, a: set<K>, b: set<K>)
    ensures (m - a) - b == m - (a + b)
  {
  }

  /** One more removed entry adds its hash to the recorded hashes. */
  lemma RecordedMore(db: map<ETag, Hash>, done: set<ETag>, e: ETag)
    requires done <= db.Keys && e in db
    ensures RecordedHashes(db, done + {e}) == RecordedHashes(db, done) + {db[e]}
  {
  }

  /** One more orphan removed: its entry leaves the database and its hash the store. */
  lemma OrphanStep(db: map<ETag, Hash>, local: set<Hash>, orphan: set<ETag>, todo: set<ETag>, e: ETag)
    requires todo <= orphan <= db.Keys && e in todo
    ensures (db - (orphan - todo)) - {e} == db - (orphan - (todo - {e}))
    ensures (local - RecordedHashes(db, orphan - todo)) - {db[e]} == local - RecordedHashes(db, orphan - (todo - {e}))
    ensures |todo - {e}| == |todo| - 1
  {
    TakeOut(orphan, todo, e);
    RecordedMore(db, orphan - todo, e);
  }

  /** One more import: the database gains the entry, the store the hash, and the hashes stay fresh. */
  lemma ImportStep(db: map<ETag, Hash>, local: set<Hash>, etags: seq<ETag>, hashes: seq<Hash>, e: ETag, h: Hash)
    requires |etags| == |hashes| && FreshImports(hashes, local)
    requires h !in local + ElemsOf(hashes)
    ensures Updated(db, etags + [e], hashes + [h]) == Updated(db, etags, hashes)[e := h]
    ensures (local + ElemsOf(hashes)) + {h} == local + ElemsOf(hashes + [h])
    ensures FreshImports(hashes + [h], local)
  {
    assert (etags + [e])[..|etags|] == etags;
    assert (hashes + [h])[..|hashes|] == hashes;
    forall i | 0 <= i < |hashes| ensures hashes[i] != h {
      assert hashes[i] in ElemsOf(hashes);
    }
    ElemsAppend(hashes, h);
    assert (local + ElemsOf(hashes)) + {h} == local + (ElemsOf(hashes) + {h});
  }

  /** The elements of a sequence with one more element. */
  lemma ElemsAppend<T>(s: seq<T>, x: T)
    ensures ElemsOf(s + [x]) == ElemsOf(s) + {x}
  {
    assert forall y | y in ElemsOf(s) :: y in s + [x];
  }

  /** The tags of one more complete record. */
  lemma TagsStep(records: seq<PropNode>, k: nat)
    requires k < |records| && forall i | 0 <= i <= k :: Complete(records[i])
    ensures TagsOf(records[..k + 1]) == TagsOf(records[..k]) + [StripChar(records[k].etag.value, '"')]
  {
    assert records[..k + 1][..k] == records[..k];
  }

  /** One more pushed object: the record grows by one entry under a new ETag and stays injective. */
  lemma PushStep(objects: set<Hash>, todo: set<Hash>, pushed: map<ETag, Hash>, e: ETag, h: Hash)
    requires h in todo && todo <= objects && pushed.Values == objects - todo
    requires e !in pushed && Injective(pushed)
    ensures pushed[e := h].Values == objects - (todo - {h})
    ensures Injective(pushed[e := h])
    ensures |todo - {h}| == |todo| - 1
  {
    TakeOut(objects, todo, h);
    ValuesAdd(pushed, e, h);
    InjectiveAdd(pushed, e, h);
  }

  /**
   * One more PUT, of `h` under the new ETag `e`: the resource it replaces
   * joins the replaced ones and the new resource joins the pushed ones.
   */
  lemma ClobberStep(remote: map<ETag, Href>, pushed: map<ETag, Hash>, path: string, e: ETag, h: Hash)
    requires pushed.Keys !! remote.Keys && e !in pushed && e !in remote && h !in pushed.Values
    ensures var before := Stored(remote, pushed, path);
      (before - AtHref(before, ObjectHref(path, h)))[e := ObjectHref(path, h)] == Stored(remote, pushed[e := h], path)
  {
    var href := ObjectHref(path, h);
    var before := (remote - Clobbered(remote, pushed, path)) + PushedHrefs(pushed, path);
    HrefsAdd(pushed, path, e, h);
    FreshHref(pushed, path, h);
    ClobberedAdd(remote, pushed, path, e, h);
    AtHrefKept(remote, pushed, path, href);
    ReplaceOne(remote, Clobbered(remote, pushed, path), AtHref(remote, href), PushedHrefs(pushed, path), e, href);
  }

  /** Replacing the entries `a` of `m` by a new key, after removing `c` and adding `p`. */
  lemma ReplaceOne<K, V>(m: map<K, V>, c: set<K>, a: set<K>, p: map<K, V>, k: K, v: V)
    requires p.Keys !! m.Keys && a <= m.Keys && k !in m && k !in p
    ensures (((m - c) + p) - a)[k := v] == (m - (c + a)) + p[k := v]
  {
  }

  /** An object not yet pushed has an href no pushed object has. */
  lemma FreshHref(pushed: map<ETag, Hash>, path: string, h: Hash)
    requires h !in pushed.Values
    ensures ObjectHref(path, h) !in PushedHrefs(pushed, path).Values
  {
    var hrefs := PushedHrefs(pushed, path);
    forall k | k in pushed ensures hrefs[k] != ObjectHref(path, h) {
      assert pushed[k] in pushed.Values;
    }
  }

  /** Pushing one more object also replaces what the server stored at its href. */
  lemma ClobberedAdd(remote: map<ETag, Href>, pushed: map<ETag, Hash>, path: string, e: ETag, h: Hash)
    requires e !in pushed
    ensures Clobbered(remote, pushed[e := h], path) == Clobbered(remote, pushed, path) + AtHref(remote, ObjectHref(path, h))
  {
    HrefsAdd(pushed, path, e, h);
    ValuesAdd(PushedHrefs(pushed, path), e, ObjectHref(path, h));
  }

  /** The pushed resources add nothing at an href none of them has. */
  lemma AtHrefKept(remote: map<ETag, Href>, pushed: map<ETag, Hash>, path: string, href: Href)
    requires pushed.Keys !! remote.Keys && href !in PushedHrefs(pushed, path).Values
    ensures AtHref(Stored(remote, pushed, path), href) == AtHref(remote, href)
  {
    var hrefs := PushedHrefs(pushed, path);
    forall k | k in hrefs ensures hrefs[k] != href {
      assert hrefs[k] in hrefs.Values;
    }
  }

  /** A new key adds its value to the values of a map. */
  lemma ValuesAdd<K, V>(m: map<K, V>, k: K, v: V)
    requires k !in m
    ensures m[k := v].Values == m.Values + {v}
  {
    var after := m[k := v];
    forall x | x in after.Values ensures x in m.Values + {v} {
      var k' :| k' in after && after[k'] == x;
      if k' != k { assert m[k'] == x; }
    }
    forall x | x in m.Values ensures x in after.Values {
      var k' :| k' in m && m[k'] == x;
      assert after[k'] == x;
    }
    assert after[k] == v;
  }

  /** Updating a union of maps updates its right operand. */
  lemma UnionUpdate<K, V>(a: map<K, V>, b: map<K, V>, k: K, v: V)
    ensures (a + b)[k := v] == a + b[k := v]
  {
  }

  /** The hrefs of one more pushed object. */
  lemma HrefsAdd(pushed: map<ETag, Hash>, path: string, e: ETag, h: Hash)
    ensures PushedHrefs(pushed[e := h], path) == PushedHrefs(pushed, path)[e := ObjectHref(path, h)]
  {
  }

  /** A map stays injective when a new key gets a value no key had. */
  lemma InjectiveAdd<K, V>(m: map<K, V>, k: K, v: V)
    requires Injective(m) && k !in m && v !in m.Values
    ensures Injective(m[k := v])
  {
    var after := m[k := v];
    forall k1, k2 | k1 in after && k2 in after && after[k1] == after[k2] ensures k1 == k2 {
      if k1 != k && k2 != k {
        assert m[k1] == m[k2];
      }
    }
  }

  /** One more ETag of the inner removal loop: the removed set grows by it exactly when the server listed it. */
  lemma TagStep<K>(tags: set<K>, keys: set<K>, todo: set<K>, x: K)
    requires x in todo && todo <= tags
    ensures x in keys ==> (tags - (todo - {x})) * keys == (tags - todo) * keys + {x}
    ensures x in keys ==> |(todo - {x}) * keys| == |todo * keys| - 1
    ensures x !in keys ==> (tags - (todo - {x})) * keys == (tags - todo) * keys && (todo - {x}) * keys == todo * keys
  {
    if x in keys {
      assert (todo - {x}) * keys == todo * keys - {x};
    }
  }

  /** Removing one more key from two maps that already lost `done`. */
  lemma RemoveOne<K, V, W>(m: map<K, V>, r: map<K, W>, done: set<K>, x: K)
    ensures (m - done) - {x} == m - (done + {x})
    ensures (r - done) - {x} == r - (done + {x})
  {
  }

  /** Cardinality of a difference with a subset. */
  lemma CardMinusSubset<T>(a: set<T>, b: set<T>)
    requires b <= a
    ensures |a - b| == |a| - |b|
  {
    assert a == (a - b) + b;
  }

  /**
   * The ETags recorded for one more gone object, `h`, are those it had in the
   * database before any removal; their listed part is what the step removes.
   */
  lemma GoneStep(db: map<ETag, Hash>, gone: set<Hash>, todo: set<Hash>, hrefmap: map<ETag, Href>, h: Hash)
    requires h in todo && todo <= gone
    ensures var removed := DoomedAmong(db, gone - todo, hrefmap);
      var deletags := set e | e in db - removed && (db - removed)[e] == h;
      && deletags == (set e | e in db && db[e] == h)
      && DoomedAmong(db, gone - (todo - {h}), hrefmap) == removed + deletags * hrefmap.Keys
      && DoomedAmong(db, todo - {h}, hrefmap) == DoomedAmong(db, todo, hrefmap) - deletags * hrefmap.Keys
      && |DoomedAmong(db, todo - {h}, hrefmap)| == |DoomedAmong(db, todo, hrefmap)| - |deletags * hrefmap.Keys|
  {
    var removed := DoomedAmong(db, gone - todo, hrefmap);
    var deletags := set e | e in db - removed && (db - removed)[e] == h;
    assert deletags == (set e | e in db && db[e] == h);
    assert DoomedAmong(db, gone - (todo - {h}), hrefmap) == removed + deletags * hrefmap.Keys;
    assert DoomedAmong(db, todo - {h}, hrefmap) == DoomedAmong(db, todo, hrefmap) - deletags * hrefmap.Keys;
    CardMinusSubset(DoomedAmong(db, todo, hrefmap), deletags * hrefmap.Keys);
  }

  /** The removal loop of push_objects, run after the PUTs, removes exactly the doomed entries. */
  lemma DoomedAfterPush(db: map<ETag, Hash>, local: set<Hash>, hrefmap: map<ETag, Href>, pushed: map<ETag, Hash>)
    requires pushed.Values == NewObjects(local, db) && pushed.Keys !! db.Keys
    ensures DoomedAmong(db + pushed, GoneObjects(local, db), hrefmap) == Doomed(db, local, hrefmap)
  {
    forall e | e in DoomedAmong(db + pushed, GoneObjects(local, db), hrefmap) ensures e in Doomed(db, local, hrefmap) {
      if e in pushed {
        assert pushed[e] in pushed.Values;
      }
    }
  }

  /**
   * What push_objects leaves behind, from database `db0` and collection
   * `remote0`: the pushed entries, the new database and collection, and the
   * two counts.
   */
  ghost predicate Pushed(db0: map<ETag, Hash>, remote0: map<ETag, Href>, local: set<Hash>, hrefmap: map<ETag, Href>,
                         path: string, pushed: map<ETag, Hash>,
                         db: map<ETag, Hash>, remote: map<ETag, Href>, added: nat, deleted: nat)
  {
    && PushRecord(pushed, db0, remote0, local)
    && db == PushedDb(db0, local, hrefmap, pushed)
    && remote == PushedRemote(remote0, db0, local, hrefmap, pushed, path)
    && added == |NewObjects(local, db0)| && deleted == |Doomed(db0, local, hrefmap)|
  }

  /** The two loops of push_objects together do what PushedDb and PushedRemote say. */
  lemma PushComposes(db0: map<ETag, Hash>, remote0: map<ETag, Href>, local: set<Hash>, hrefmap: map<ETag, Href>,
                     path: string, objects: set<Hash>, pushed: map<ETag, Hash>, db1: map<ETag, Hash>,
                     gone: set<Hash>, removed: set<ETag>,
                     db: map<ETag, Hash>, remote: map<ETag, Href>, added: nat, deleted: nat)
    requires objects == NewObjects(local, db0) && gone == GoneObjects(local, db0)
    requires pushed.Values == objects && added == |objects|
    requires pushed.Keys !! db0.Keys && pushed.Keys !! remote0.Keys && Injective(pushed)
    requires db1 == db0 + pushed && removed == DoomedAmong(db1, gone, hrefmap)
    requires db == db1 - removed && remote == Stored(remote0, pushed, path) - removed
    requires deleted == |removed|
    ensures Pushed(db0, remote0, local, hrefmap, path, pushed, db, remote, added, deleted)
  {
    DoomedAfterPush(db0, local, hrefmap, pushed);
    PushedParts(db0, remote0, local, hrefmap, path, pushed, removed);
  }

  /** PushedDb and PushedRemote remove the doomed entries from the database and collection after the PUTs. */
  lemma PushedParts(db0: map<ETag, Hash>, remote0: map<ETag, Href>, local: set<Hash>, hrefmap: map<ETag, Href>,
                    path: string, pushed: map<ETag, Hash>, removed: set<ETag>)
    requires removed == Doomed(db0, local, hrefmap)
    ensures PushedDb(db0, local, hrefmap, pushed) == (db0 + pushed) - removed
    ensures PushedRemote(remote0, db0, local, hrefmap, pushed, path) == Stored(remote0, pushed, path) - removed
  {
  }

  class Session {
    /** The in-memory sync database: server ETag to local object hash. */
    var syncdb: map<ETag, Hash>
    /** The hashes of the objects in the local calcurse store. */
    var local: set<Hash>
    /** The server's collection: ETag to href. */
    var remote: map<ETag, Href>
    /** The sync database file; None while it does not exist. */
    var dbFile: Option<string>
    /** --dry-run: report what would be done and change nothing. */
    const dryRun: bool
    /** The collection path, ending in exactly one '/'. */
    const path: string

    /** A run over the given stores, with the dry-run setting resolved from the options. */
    constructor (local: set<Hash>, remote: map<ETag, Href>, dbFile: Option<string>, options: Config.Options, configuredPath: string)
      ensures this.local == local && this.remote == remote && this.dbFile == dbFile
      ensures this.dryRun == Config.DryRunSetting(options) && this.path == CollectionPath(configuredPath)
      ensures syncdb == map[]
    {
      this.local := local;
      this.remote := remote;
      this.dbFile := dbFile;
      this.dryRun := Config.Resolve(options).dryRun;
      this.path := CollectionPath(configuredPath);
      syncdb := map[];
    }

    /** calcurse_import: the object lands in the local store under a hash it did not hold. */
    method ImportObject(body: string) returns (h: Hash)
      modifies this`local
      ensures h !in old(local) && local == old(local) + {h}
    {
      h := FreshName(local);
      local := local + {h};
    }

    /** calcurse_remove: the object leaves the local store. */
    method RemoveObject(h: Hash)
      modifies this`local
      ensures local == old(local) - {h}
    {
      local := local - {h};
    }

    /** calcurse_wipe: empties the local store unless this is a dry run. */
    method WipeLocal()
      modifies this`local
      ensures local == if dryRun then old(local) else {}
    {
      if dryRun {
        return;
      }
      local := {};
    }

    /** wipe_remote: deletes every resource of the collection unless this is a dry run. */
    method WipeRemote()
      modifies this`remote
      ensures remote == if dryRun then old(remote) else map[]
    {
      if dryRun {
        return;
      }
      remote := map[];
    }

    /**
     * push_object: PUTs the object at path + hash + ".ics", which replaces any
     * resource the server stored there, and returns the ETag the server gives
     * it, one neither the server, the database nor `issued` (the ETags the
     * server handed out before) knew.
     */
    method PutObject(h: Hash, issued: set<ETag>) returns (etag: ETag)
      modifies this`remote
      ensures etag !in old(remote) && etag !in syncdb && etag !in issued
      ensures remote == (old(remote) - AtHref(old(remote), ObjectHref(path, h)))[etag := ObjectHref(path, h)]
    {
      var href := ObjectHref(path, h);
      etag := FreshName(remote.Keys + syncdb.Keys + issued);
      remote := (remote - AtHref(remote, href))[etag := href];
    }

    /** remove_remote_object: DELETEs the resource with this ETag. */
    method DeleteRemote(etag: ETag, href: Href)
      modifies this`remote
      ensures remote == old(remote) - {etag}
    {
      remote := remote - {etag};
    }

    /**
     * One round of the import loop: calcurse_import of record `k`'s calendar
     * data, then its entry in `db`, the database being built, under its
     * unquoted ETag.
     */
    method ImportRecord(records: seq<PropNode>, k: nat, db: map<ETag, Hash>, ghost db0: map<ETag, Hash>,
                        ghost local0: set<Hash>, ghost etags: seq<ETag>, ghost hashes: seq<Hash>)
      returns (db': map<ETag, Hash>, etag: ETag, h: Hash)
      requires k < |records| && forall j | 0 <= j <= k :: Complete(records[j])
      requires etags == TagsOf(records[..k]) && |hashes| == k && FreshImports(hashes, local0)
      requires db == Updated(db0, etags, hashes) && local == local0 + ElemsOf(hashes)
      modifies this`local
      ensures etags + [etag] == TagsOf(records[..k + 1])
      ensures FreshImports(hashes + [h], local0)
      ensures db' == Updated(db0, etags + [etag], hashes + [h]) && local == local0 + ElemsOf(hashes + [h])
    {
      var node := records[k];
      etag := StripChar(node.etag.value, '"');
      TagsStep(records, k);
      h := ImportObject(node.calendarData.value);
      ImportStep(db0, local0, etags, hashes, etag, h);
      db' := db[etag := h];
    }

    /**
     * The import loop of pull_objects: records are imported in turn, each
     * recorded under its unquoted ETag, up to the first one that lacks a child.
     * A dry run goes through the same records and imports nothing.
     */
    method ImportRecords(records: seq<PropNode>) returns (k: nat, ghost hashes: seq<Hash>)
      modifies this`syncdb, this`local
      ensures k == CompletePrefix(records)
      ensures dryRun ==> syncdb == old(syncdb) && local == old(local)
      ensures !dryRun ==> |hashes| == k && FreshImports(hashes, old(local))
      ensures !dryRun ==> syncdb == Updated(old(syncdb), TagsOf(records[..k]), hashes) && local == old(local) + ElemsOf(hashes)
    {
      if dryRun {
        k := CheckRecords(records);
        hashes := [];
      } else {
        var db;
        k, hashes, db := ImportAll(records, syncdb);
        syncdb := db;
      }
    }

    /** The import loop of a dry run: it only stops at the first record that lacks a child. */
    method CheckRecords(records: seq<PropNode>) returns (k: nat)
      ensures k == CompletePrefix(records)
    {
      k := 0;
      while k < |records| && Complete(records[k])
        invariant k <= |records|
        invariant forall j | 0 <= j < k :: Complete(records[j])
      {
        k := k + 1;
      }
      CompletePrefixEnds(records, k);
    }

    /** The import loop outside a dry run, building on the database `db0`. */
    method ImportAll(records: seq<PropNode>, db0: map<ETag, Hash>) returns (k: nat, hashes: seq<Hash>, db: map<ETag, Hash>)
      modifies this`local
      ensures k == CompletePrefix(records)
      ensures |hashes| == k && FreshImports(hashes, old(local))
      ensures db == Updated(db0, TagsOf(records[..k]), hashes) && local == old(local) + ElemsOf(hashes)
    {
      hashes := [];
      ghost var etags: seq<ETag> := [];
      ghost var local0 := local;
      db := db0;
      k := 0;
      while k < |records| && Complete(records[k])
        invariant k <= |records|
        invariant forall j | 0 <= j < k :: Complete(records[j])
        invariant etags == TagsOf(records[..k])
        invariant |hashes| == k && FreshImports(hashes, local0)
        invariant db == Updated(db0, etags, hashes)
        invariant local == local0 + ElemsOf(hashes)
      {
        var etag, objhash;
        db, etag, objhash := ImportRecord(records, k, db, db0, local0, etags, hashes);
        hashes := hashes + [objhash];
        etags := etags + [etag];
        k := k + 1;
      }
      CompletePrefixEnds(records, k);
    }

    /** The removal loop of pull_objects: each orphaned entry goes, together with its local object. */
    method RemoveOrphans(orphan: set<ETag>) returns (deleted: nat)
      requires orphan <= syncdb.Keys
      modifies this`syncdb, this`local
      ensures dryRun ==> syncdb == old(syncdb) && local == old(local) && deleted == 0
      ensures !dryRun ==>
        syncdb == old(syncdb) - orphan && local == old(local) - RecordedHashes(old(syncdb), orphan) && deleted == |orphan|
    {
      deleted := 0;
      if dryRun {
        // A dry run only reports what the loop would do.
        return;
      }
      var todo := orphan;
      while todo != {}
        invariant todo <= orphan
        invariant syncdb == old(syncdb) - (orphan - todo)
        invariant local == old(local) - RecordedHashes(old(syncdb), orphan - todo)
        invariant deleted + |todo| == |orphan|
        decreases todo
      {
        var etag :| etag in todo;
        var objhash := syncdb[etag];
        OrphanStep(old(syncdb), old(local), orphan, todo, etag);
        RemoveObject(objhash);
        syncdb := syncdb - {etag};
        deleted := deleted + 1;
        todo := todo - {etag};
      }
      assert orphan - todo == orphan;
    }

    /**
     * pull_objects: `hrefmap` is the server's listing and `response` the
     * multiget answer for the ETags missing from the database (None when the
     * server sent nothing, which ends the run).
     */
    method Pull(hrefmap: map<ETag, Href>, response: Option<seq<PropNode>>) returns (r: Result<(nat, nat)>, ghost hashes: seq<Hash>)
      modifies this`syncdb, this`local
      ensures response.None? ==> r.Failure? && syncdb == old(syncdb) && local == old(local)
      ensures response.Some? ==> (r.Success? <==> CompletePrefix(response.value) == |response.value|)
      ensures response.Some? && dryRun ==>
        syncdb == old(syncdb) && local == old(local) && (r.Success? ==> r.value == (0, 0))
      ensures response.Some? && !dryRun && r.Failure? ==>
        Imported(old(syncdb), old(local), response.value, hashes, syncdb, local)
      ensures response.Some? && !dryRun && r.Success? ==>
        Pulled(old(syncdb), old(local), hrefmap, response.value, hashes, syncdb, local, r.value)
    {
      if response.None? {
        return Failure(NoResponse), [];
      }
      r, hashes := PullRecords(hrefmap, response.value);
    }

    /**
     * The body of pull_objects once the server answered: every record is
     * imported and recorded under its unquoted ETag; a record without an ETag
     * or calendar data ends the run, keeping the imports made so far. Then
     * the entries the server no longer lists are removed together with their
     * objects.
     */
    method PullRecords(hrefmap: map<ETag, Href>, records: seq<PropNode>) returns (r: Result<(nat, nat)>, ghost hashes: seq<Hash>)
      modifies this`syncdb, this`local
      ensures r.Success? <==> CompletePrefix(records) == |records|
      ensures dryRun ==> syncdb == old(syncdb) && local == old(local) && (r.Success? ==> r.value == (0, 0))
      ensures !dryRun && r.Failure? ==> Imported(old(syncdb), old(local), records, hashes, syncdb, local)
      ensures !dryRun && r.Success? ==> Pulled(old(syncdb), old(local), hrefmap, records, hashes, syncdb, local, r.value)
    {
      ghost var db0, local0 := syncdb, local;
      var orphan := syncdb.Keys - hrefmap.Keys;
      var k;
      k, hashes := ImportRecords(records);
      if k < |records| {
        return Failure(if records[k].etag.None? then MissingETag else MissingCalendarData), hashes;
      }
      ghost var db1, local1 := syncdb, local;
      var deleted := RemoveOrphans(orphan);
      if dryRun {
        return Success((0, deleted)), hashes;
      }
      r := Success((k, deleted));
      PullComposes(db0, local0, hrefmap, records, hashes, db1, local1, orphan, syncdb, local, r.value);
    }

    /**
     * One round of the PUT loop of push_objects: push_object, then the new
     * entry in the database, continuing the PUTs of `pushed` made so far.
     */
    method PushOne(h: Hash, issued: set<ETag>, ghost db0: map<ETag, Hash>, ghost remote0: map<ETag, Href>,
                   ghost pushed: map<ETag, Hash>) returns (etag: ETag)
      modifies this`syncdb, this`remote
      requires issued == remote0.Keys && pushed.Keys !! remote0.Keys && h !in pushed.Values
      requires syncdb == db0 + pushed && remote == Stored(remote0, pushed, path)
      ensures local == old(local)
      ensures etag !in pushed && etag !in db0 && etag !in remote0
      ensures syncdb == db0 + pushed[etag := h] && remote == Stored(remote0, pushed[etag := h], path)
    {
      etag := PutObject(h, issued);
      ClobberStep(remote0, pushed, path, etag, h);
      UnionUpdate(db0, pushed, etag, h);
      syncdb := syncdb[etag := h];
    }

    /** The PUT loop of push_objects: every object gets a new server resource and a database entry. */
    method PushNew(objects: set<Hash>) returns (added: nat, ghost pushed: map<ETag, Hash>)
      modifies this`syncdb, this`remote
      ensures local == old(local)
      ensures dryRun ==> syncdb == old(syncdb) && remote == old(remote) && added == 0
      ensures !dryRun ==>
        && pushed.Values == objects
        && pushed.Keys !! old(syncdb).Keys && pushed.Keys !! old(remote).Keys
        && Injective(pushed)
        && syncdb == old(syncdb) + pushed
        && remote == Stored(old(remote), pushed, path)
        && added == |objects|
    {
      added := 0;
      pushed := map[];
      if dryRun {
        // A dry run only reports what the loop would do.
        return;
      }
      ghost var db0, remote0, local0 := syncdb, remote, local;
      var issued := remote.Keys;
      var todo := objects;
      while todo != {}
        invariant todo <= objects
        invariant local == local0
        invariant pushed.Values == objects - todo
        invariant pushed.Keys !! db0.Keys && pushed.Keys !! remote0.Keys && Injective(pushed)
        invariant syncdb == db0 + pushed
        invariant remote == Stored(remote0, pushed, path)
        invariant added + |todo| == |objects|
        decreases todo
      {
        var objhash :| objhash in todo;
        var etag := PushOne(objhash, issued, db0, remote0, pushed);
        PushStep(objects, todo, pushed, etag, objhash);
        pushed := pushed[etag := objhash];
        added := added + 1;
        todo := todo - {objhash};
      }
      assert objects - todo == objects;
    }

    /** The inner loop of push_objects: every listed ETag in `tags` is DELETEd and dropped. */
    method RemoveTags(tags: set<ETag>, hrefmap: map<ETag, Href>) returns (deleted: nat)
      modifies this`syncdb, this`remote
      ensures dryRun ==> syncdb == old(syncdb) && remote == old(remote) && deleted == 0
      ensures !dryRun ==>
        var listed := tags * hrefmap.Keys;
        syncdb == old(syncdb) - listed && remote == old(remote) - listed && deleted == |listed|
    {
      deleted := 0;
      if dryRun {
        // A dry run only reports what the loop would do.
        return;
      }
      ghost var db0, remote0 := syncdb, remote;
      ghost var done: set<ETag> := {};
      var db := syncdb;
      var todo := tags;
      while todo != {}
        invariant todo <= tags
        invariant syncdb == db0
        invariant done == (tags - todo) * hrefmap.Keys
        invariant db == db0 - done && remote == remote0 - done
        invariant deleted + |todo * hrefmap.Keys| == |tags * hrefmap.Keys|
        decreases todo
      {
        var etag :| etag in todo;
        TagStep(tags, hrefmap.Keys, todo, etag);
        if etag in hrefmap {
          var href := hrefmap[etag];
          DeleteRemote(etag, href);
          RemoveOne(db0, remote0, done, etag);
          db := db - {etag};
          done := done + {etag};
          deleted := deleted + 1;
        }
        todo := todo - {etag};
      }
      assert tags - todo == tags;
      syncdb := db;
    }

    /** The removal loop of push_objects: the listed entries of every gone object are removed on both sides. */
    method RemoveGone(gone: set<Hash>, hrefmap: map<ETag, Href>) returns (deleted: nat, ghost removed: set<ETag>)
      modifies this`syncdb, this`remote
      ensures local == old(local)
      ensures dryRun ==> syncdb == old(syncdb) && remote == old(remote) && deleted == 0
      ensures !dryRun ==>
        && removed == DoomedAmong(old(syncdb), gone, hrefmap)
        && syncdb == old(syncdb) - removed && remote == old(remote) - removed && deleted == |removed|
    {
      deleted := 0;
      removed := {};
      if dryRun {
        // A dry run only reports what the loop would do.
        return;
      }
      var todo := gone;
      while todo != {}
        invariant todo <= gone
        invariant removed == DoomedAmong(old(syncdb), gone - todo, hrefmap)
        invariant syncdb == old(syncdb) - removed && remote == old(remote) - removed
        invariant deleted + |DoomedAmong(old(syncdb), todo, hrefmap)| == |DoomedAmong(old(syncdb), gone, hrefmap)|
        decreases todo
      {
        var objhash :| objhash in todo;
        var deletags := set e | e in syncdb && syncdb[e] == objhash;
        GoneStep(old(syncdb), gone, todo, hrefmap, objhash);
        MapMinusUnion(old(syncdb), removed, deletags * hrefmap.Keys);
        MapMinusUnion(old(remote), removed, deletags * hrefmap.Keys);
        var n := RemoveTags(deletags, hrefmap);
        deleted := deleted + n;
        removed := removed + deletags * hrefmap.Keys;
        todo := todo - {objhash};
      }
      assert gone - todo == gone;
      assert DoomedAmong(old(syncdb), todo, hrefmap) == {};
    }

    /**
     * push_objects: every local object the database does not know is PUT and
     * recorded under the new ETag; every database entry whose object is gone
     * locally and whose ETag the server listed is DELETEd and dropped.
     */
    method Push(hrefmap: map<ETag, Href>) returns (added: nat, deleted: nat, ghost pushed: map<ETag, Hash>)
      modifies this`syncdb, this`remote
      ensures local == old(local)
      ensures dryRun ==> syncdb == old(syncdb) && remote == old(remote) && added == 0 && deleted == 0
      ensures !dryRun ==> Pushed(old(syncdb), old(remote), old(local), hrefmap, path, pushed, syncdb, remote, added, deleted)
    {
      if dryRun {
        return 0, 0, map[];
      }
      ghost var db0, remote0, local0 := syncdb, remote, local;
      var newObjects := NewObjects(local, syncdb);
      var gone := GoneObjects(local, syncdb);
      added, pushed := PushNew(newObjects);
      ghost var db1 := syncdb;
      ghost var removed;
      deleted, removed := RemoveGone(gone, hrefmap);
      PushComposes(db0, remote0, local0, hrefmap, path, newObjects, pushed, db1, gone, removed, syncdb, remote, added, deleted);
    }

    /** save_syncdb: writes the database out, unless this is a dry run. */
    method SaveSyncDb() returns (ghost order: seq<ETag>)
      modifies this`dbFile
      ensures local == old(local) && syncdb == old(syncdb) && remote == old(remote)
      ensures dryRun ==> dbFile == old(dbFile)
      ensures !dryRun ==> SyncDbFormat.Enumerates(order, syncdb) && dbFile == Some(SyncDbFormat.Serialize(syncdb, order))
    {
      if dryRun {
        return [];
      }
      var text;
      text, order := SyncDbFormat.SaveText(syncdb);
      dbFile := Some(text);
    }

    /**
     * The version gate, then either --init (wipe as the mode says and start
     * from an empty database) or loading the database file, which must hold
     * at least one entry.
     */
    method Start(versionOutput: string, init: Option<InitMode>) returns (o: Outcome)
      modifies this`syncdb, this`local, this`remote
      ensures o.Pass? <==> GatePasses(versionOutput) && (init.Some? || Loaded(dbFile))
      ensures !GatePasses(versionOutput) ==> syncdb == old(syncdb) && local == old(local) && remote == old(remote)
      ensures init.None? ==> local == old(local) && remote == old(remote)
      ensures dryRun ==> local == old(local) && remote == old(remote)
      ensures o.Pass? ==> syncdb == StartDb(init, dbFile)
      ensures o.Pass? && !dryRun ==> local == StartLocal(init, old(local)) && remote == StartRemote(init, old(remote))
    {
      o := CheckVersion(versionOutput);
      if o.Fail? {
        return;
      }
      if init.Some? {
        if init.value == KeepRemote {
          WipeLocal();
        } else if init.value == KeepLocal {
          WipeRemote();
        }
        syncdb := map[];
      } else {
        var loaded := LoadSyncDb();
        if loaded.Failure? {
          return Fail(loaded.error);
        }
        syncdb := loaded.value;
      }
      return Pass;
    }

    /**
     * calcurse_version and the check of its answer: a failure to read the
     * version, an output that is no calcurse banner and a version before 4.0
     * each stop the run.
     */
    method CheckVersion(versionOutput: string) returns (o: Outcome)
      ensures o.Pass? <==> GatePasses(versionOutput)
      ensures Version.CalcurseVersion(versionOutput).Success? ==> o == Version.VersionGate(Version.CalcurseVersion(versionOutput).value)
    {
      var version := Version.CalcurseVersion(versionOutput);
      if version.Failure? {
        return Fail(version.error);
      }
      o := Version.VersionGate(version.value);
    }

    /**
     * get_syncdb on the database file outside --init: a file that does not
     * parse fails as get_syncdb does, and an absent or empty database is
     * refused.
     */
    method LoadSyncDb() returns (r: Result<map<ETag, Hash>>)
      ensures r.Success? <==> Loaded(dbFile)
      ensures r.Success? ==> r.value == StartDb(None, dbFile) && r.value != map[]
    {
      r := SyncDbFormat.GetSyncDb(dbFile);
      if r.Success? && r.value == map[] {
        r := Failure(NoSyncDb);
      }
    }

    /**
     * One pass against the server: pull_objects and push_objects, both
     * against the listing `hrefmap` get_hrefmap gave before the pass, then
     * save_syncdb.
     */
    method SyncPass(hrefmap: map<ETag, Href>, multiget: Option<seq<PropNode>>)
      returns (r: Result<Counts>, ghost hashes: seq<Hash>, ghost pushed: map<ETag, Hash>, ghost order: seq<ETag>)
      modifies this`syncdb, this`local, this`remote, this`dbFile
      ensures r.Success? <==> multiget.Some? && CompletePrefix(multiget.value) == |multiget.value|
      ensures r.Failure? ==> remote == old(remote) && dbFile == old(dbFile)
      ensures dryRun ==> local == old(local) && remote == old(remote) && dbFile == old(dbFile)
      ensures dryRun && r.Success? ==> r.value == Counts(0, 0, 0, 0)
      ensures r.Success? && !dryRun ==>
        Synced(old(syncdb), old(local), old(remote), hrefmap, path, multiget.value, hashes, pushed, order, syncdb, local, remote, dbFile, r.value)
    {
      pushed, order := map[], [];
      ghost var db0, local0, remote0 := syncdb, local, remote;
      var pulled;
      pulled, hashes := Pull(hrefmap, multiget);
      if pulled.Failure? {
        return Failure(pulled.error), hashes, pushed, order;
      }
      ghost var db1, local1 := syncdb, local;
      var exported, removedRemotely;
      exported, removedRemotely, pushed := Push(hrefmap);
      order := SaveSyncDb();
      r := Success(Counts(pulled.value.0, pulled.value.1, exported, removedRemotely));
      if !dryRun {
        PassComposes(db0, local0, remote0, hrefmap, path, multiget.value, hashes, pushed, order, db1, local1,
                     pulled.value, exported, removedRemotely, syncdb, local, remote, dbFile, r.value);
      }
    }

    /**
     * One run of the script: Start, then get_hrefmap (`emptyBody` when its
     * REPORT answer is empty), then a pass. A run that stops early
     * leaves the database file as it was; a dry run changes neither store
     * nor the file.
     */
    method Run(versionOutput: string, init: Option<InitMode>, emptyBody: bool, multiget: Option<seq<PropNode>>)
      returns (r: Result<Counts>, ghost hashes: seq<Hash>, ghost pushed: map<ETag, Hash>, ghost order: seq<ETag>)
      modifies this`syncdb, this`local, this`remote, this`dbFile
      ensures !GatePasses(versionOutput) ==>
        r.Failure? && syncdb == old(syncdb) && local == old(local) && remote == old(remote) && dbFile == old(dbFile)
      ensures init.None? && !Loaded(old(dbFile)) ==>
        r.Failure? && local == old(local) && remote == old(remote) && dbFile == old(dbFile)
      ensures r.Failure? ==> dbFile == old(dbFile)
      ensures dryRun ==> local == old(local) && remote == old(remote) && dbFile == old(dbFile)
      ensures dryRun && r.Success? ==> r.value == Counts(0, 0, 0, 0)
      ensures r.Success? <==>
        GatePasses(versionOutput) && (init.Some? || Loaded(old(dbFile))) &&
        multiget.Some? && CompletePrefix(multiget.value) == |multiget.value|
      ensures r.Success? && !dryRun ==>
        Synced(StartDb(init, old(dbFile)), StartLocal(init, old(local)), StartRemote(init, old(remote)),
               Listing(StartRemote(init, old(remote)), emptyBody), path,
               multiget.value, hashes, pushed, order, syncdb, local, remote, dbFile, r.value)
    {
      hashes, pushed, order := [], map[], [];
      var started := Start(versionOutput, init);
      if started.Fail? {
        return Failure(started.error), hashes, pushed, order;
      }
      var hrefmap := Listing(remote, emptyBody);
      r, hashes, pushed, order := SyncPass(hrefmap, multiget);
    }
  }
}
