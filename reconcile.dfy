/**
 * The set and map arithmetic of pull_objects and push_objects
 * (contrib/caldav/calcurse-caldav.py), as functions of the state before a
 * step, and what a whole pass (pull, then push) achieves.
 *
 * The sync database maps ETags to object hashes, the local store is the set
 * of object hashes calcurse reports, and the server's index maps ETags to hrefs.
 */
module Reconcile {

  type ETag = string
  type Hash = string
  type Href = string

  function ElemsOf<T>(s: seq<T>): (r: set<T>)
    ensures r == {} <==> s == []
  {
    var r := set x | x in s;
    assert s != [] ==> s[0] in r;
    r
  }

  /** `missing` in pull_objects: listed on the server, unknown to the database. */
  function Missing(hrefmap: map<ETag, Href>, db: map<ETag, Hash>): (r: set<ETag>)
    ensures r <= hrefmap.Keys && r !! db.Keys
    ensures hrefmap.Keys <= db.Keys + r
  {
    hrefmap.Keys - db.Keys
  }

  /** `orphan` in pull_objects: known to the database, no longer on the server. */
  function Orphans(hrefmap: map<ETag, Href>, db: map<ETag, Hash>): (r: set<ETag>)
    ensures r <= db.Keys && r !! hrefmap.Keys
    ensures db.Keys <= hrefmap.Keys + r
  {
    db.Keys - hrefmap.Keys
  }

  /** `new` in push_objects: present locally, not recorded in the database. */
  function NewObjects(local: set<Hash>, db: map<ETag, Hash>): (r: set<Hash>)
    ensures r <= local && r !! db.Values
    ensures local <= db.Values + r
  {
    local - db.Values
  }

  /** `gone` in push_objects: recorded in the database, no longer present locally. */
  function GoneObjects(local: set<Hash>, db: map<ETag, Hash>): (r: set<Hash>)
    ensures r <= db.Values && r !! local
    ensures db.Values <= local + r
  {
    db.Values - local
  }

  /** The entries push_objects deletes: recorded for a gone object and still listed on the server. */
  function Doomed(db: map<ETag, Hash>, local: set<Hash>, hrefmap: map<ETag, Href>): (r: set<ETag>)
    ensures r <= db.Keys && r <= hrefmap.Keys
    ensures forall e | e in r :: db[e] !in local
  {
    set e | e in db && db[e] in GoneObjects(local, db) && e in hrefmap
  }

  /** The database after `syncdb[etags[i]] = hashes[i]` for i = 0, 1, ... in turn. */
  function Updated(db: map<ETag, Hash>, etags: seq<ETag>, hashes: seq<Hash>): (r: map<ETag, Hash>)
    requires |etags| == |hashes|
    ensures r.Keys == db.Keys + ElemsOf(etags)
    ensures forall e | e in db && e !in etags :: r[e] == db[e]
    decreases |etags|
  {
    if etags == [] then db
    else
      var n := |etags| - 1;
      assert ElemsOf(etags) == ElemsOf(etags[..n]) + {etags[n]} by {
        assert etags == etags[..n] + [etags[n]];
      }
      Updated(db, etags[..n], hashes[..n])[etags[n] := hashes[n]]
  }

  /** The last record for an ETag decides its hash. */
  lemma {:induction false} UpdatedAt(db: map<ETag, Hash>, etags: seq<ETag>, hashes: seq<Hash>, i: nat)
    requires |etags| == |hashes| && i < |etags|
    requires etags[i] !in etags[i + 1..]
    ensures etags[i] in Updated(db, etags, hashes) && Updated(db, etags, hashes)[etags[i]] == hashes[i]
  {
    var n := |etags| - 1;
    var e := etags[i];
    var front := etags[..n];
    var u := Updated(db, front, hashes[..n]);
    assert Updated(db, etags, hashes) == u[etags[n] := hashes[n]];
    if i < n {
      assert etags[n] != e by { assert etags[n] == etags[i + 1..][n - i - 1]; }
      assert front[i] == e && hashes[..n][i] == hashes[i];
      assert e !in front[i + 1..] by {
        forall j | i + 1 <= j < n ensures front[j] != e {
          assert front[j] == etags[i + 1..][j - i - 1];
        }
      }
      UpdatedAt(db, front, hashes[..n], i);
    }
  }

  /** The hashes the database records for the given ETags. */
  function RecordedHashes(db: map<ETag, Hash>, etags: set<ETag>): set<Hash>
    requires etags <= db.Keys
  {
    set e | e in etags :: db[e]
  }

  /** The database after pull_objects imported the records `etags` under the local hashes `hashes`. */
  function PulledDb(db: map<ETag, Hash>, hrefmap: map<ETag, Href>, etags: seq<ETag>, hashes: seq<Hash>): (r: map<ETag, Hash>)
    requires |etags| == |hashes|
    ensures r.Keys == (db.Keys + ElemsOf(etags)) - Orphans(hrefmap, db)
    ensures forall e | e in db && e in hrefmap && e !in etags :: r[e] == db[e]
  {
    Updated(db, etags, hashes) - Orphans(hrefmap, db)
  }

  /** The local store after pull_objects: imported objects added, objects of orphaned entries removed. */
  function PulledLocal(local: set<Hash>, db: map<ETag, Hash>, hrefmap: map<ETag, Href>, etags: seq<ETag>, hashes: seq<Hash>): (r: set<Hash>)
    requires |etags| == |hashes|
    ensures r <= local + ElemsOf(hashes)
    ensures forall e | e in Orphans(hrefmap, db) :: Updated(db, etags, hashes)[e] !in r
  {
    (local + ElemsOf(hashes)) - RecordedHashes(Updated(db, etags, hashes), Orphans(hrefmap, db))
  }

  /** The href push_object stores an object under: the collection path, the hash and ".ics". */
  function ObjectHref(path: string, objhash: Hash): (r: Href)
    ensures |r| == |path| + |objhash| + 4
    ensures r[..|path|] == path && r[|path|..|r| - 4] == objhash && r[|r| - 4..] == ".ics"
  {
    path + objhash + ".ics"
  }

  /** Different objects of one collection are stored under different hrefs. */
  lemma ObjectHrefInjective(path: string, h1: Hash, h2: Hash)
    requires ObjectHref(path, h1) == ObjectHref(path, h2)
    ensures h1 == h2
  {
  }

  /** The resources of the collection stored at `href`. */
  function AtHref(remote: map<ETag, Href>, href: Href): (r: set<ETag>)
    ensures r <= remote.Keys
    ensures forall e | e in remote :: e in r <==> remote[e] == href
  {
    set e | e in remote && remote[e] == href
  }

  /** The server resources created by pushing the objects of `pushed`. */
  function PushedHrefs(pushed: map<ETag, Hash>, path: string): (r: map<ETag, Href>)
    ensures r.Keys == pushed.Keys
  {
    map e | e in pushed :: ObjectHref(path, pushed[e])
  }

  /** The database after push_objects recorded `pushed` and deleted the doomed entries. */
  function PushedDb(db: map<ETag, Hash>, local: set<Hash>, hrefmap: map<ETag, Href>, pushed: map<ETag, Hash>): (r: map<ETag, Hash>)
    ensures r.Keys == (db.Keys + pushed.Keys) - Doomed(db, local, hrefmap)
    ensures r.Values <= db.Values + pushed.Values
  {
    (db + pushed) - Doomed(db, local, hrefmap)
  }

  /**
   * The resources that PUTting the objects of `pushed` replaces: a PUT
   * stores its body at the object's href whatever the server held there.
   */
  function Clobbered(remote: map<ETag, Href>, pushed: map<ETag, Hash>, path: string): (r: set<ETag>)
    ensures r <= remote.Keys
    ensures forall e | e in remote && e !in r :: remote[e] !in PushedHrefs(pushed, path).Values
  {
    set e | e in remote && remote[e] in PushedHrefs(pushed, path).Values
  }

  /** The server's collection after the PUTs of `pushed`: the replaced resources gone, the pushed ones added. */
  function Stored(remote: map<ETag, Href>, pushed: map<ETag, Hash>, path: string): (r: map<ETag, Href>)
    ensures r.Keys == (remote.Keys - Clobbered(remote, pushed, path)) + pushed.Keys
    ensures r.Values <= remote.Values + PushedHrefs(pushed, path).Values
  {
    (remote - Clobbered(remote, pushed, path)) + PushedHrefs(pushed, path)
  }

  /** The server's collection after push_objects: the PUTs stored, then the doomed resources deleted. */
  function PushedRemote(remote: map<ETag, Href>, db: map<ETag, Hash>, local: set<Hash>, hrefmap: map<ETag, Href>,
                        pushed: map<ETag, Hash>, path: string): (r: map<ETag, Href>)
    ensures r.Keys == Stored(remote, pushed, path).Keys - Doomed(db, local, hrefmap)
  {
    Stored(remote, pushed, path) - Doomed(db, local, hrefmap)
  }

  /** A push replaces nothing when no pushed object is already stored at its href. */
  lemma NothingClobbered(remote: map<ETag, Href>, pushed: map<ETag, Hash>, path: string)
    requires forall h | h in pushed.Values :: ObjectHref(path, h) !in remote.Values
    ensures Clobbered(remote, pushed, path) == {}
  {
    forall e | e in remote ensures remote[e] !in PushedHrefs(pushed, path).Values {
      assert remote[e] in remote.Values;
    }
  }

  /** No two keys of `m` map to the same value. */
  ghost predicate Injective<K, V>(m: map<K, V>) {
    forall k1, k2 | k1 in m && k2 in m && m[k1] == m[k2] :: k1 == k2
  }

  /** The hashes import returned: one per record, all new to the local store. */
  ghost predicate FreshImports(hashes: seq<Hash>, local: set<Hash>) {
    && (forall i | 0 <= i < |hashes| :: hashes[i] !in local)
    && (forall i, j | 0 <= i < j < |hashes| :: hashes[i] != hashes[j])
  }

  /**
   * The entries push_objects added: one for every new object, each under an
   * ETag the server returned for it and that neither the database nor the
   * server had seen before.
   */
  ghost predicate PushRecord(pushed: map<ETag, Hash>, db: map<ETag, Hash>, remote: map<ETag, Href>, local: set<Hash>) {
    && pushed.Values == NewObjects(local, db)
    && pushed.Keys !! db.Keys
    && pushed.Keys !! remote.Keys
    && Injective(pushed)
  }

  /** The state a successful pass aims for: the database pairs every server resource with a local object. */
  ghost predicate Converged(db: map<ETag, Hash>, local: set<Hash>, remote: map<ETag, Href>) {
    db.Keys == remote.Keys && db.Values == local
  }

  /** A sequence with no repeated element has as many elements as its set. */
  lemma {:induction false} DistinctCard<T>(s: seq<T>)
    requires forall i, j | 0 <= i < j < |s| :: s[i] != s[j]
    ensures |ElemsOf(s)| == |s|
  {
    if s != [] {
      var n := |s| - 1;
      DistinctCard(s[..n]);
      assert ElemsOf(s) == ElemsOf(s[..n]) + {s[n]};
      assert s[n] !in ElemsOf(s[..n]);
    }
  }

  lemma PullKeys(db: map<ETag, Hash>, hrefmap: map<ETag, Href>, etags: seq<ETag>, hashes: seq<Hash>)
    requires |etags| == |hashes|
    requires ElemsOf(etags) == Missing(hrefmap, db)
    ensures PulledDb(db, hrefmap, etags, hashes).Keys == hrefmap.Keys
  {
    assert Updated(db, etags, hashes).Keys == db.Keys + Missing(hrefmap, db);
  }

  lemma PullKeeps(db: map<ETag, Hash>, hrefmap: map<ETag, Href>, etags: seq<ETag>, hashes: seq<Hash>, e: ETag)
    requires |etags| == |hashes|
    requires ElemsOf(etags) == Missing(hrefmap, db)
    requires e in db && e in hrefmap
    ensures e in PulledDb(db, hrefmap, etags, hashes) && PulledDb(db, hrefmap, etags, hashes)[e] == db[e]
  {
    assert e !in ElemsOf(etags);
    assert e !in etags;
  }

  lemma PullImports(db: map<ETag, Hash>, hrefmap: map<ETag, Href>, etags: seq<ETag>, hashes: seq<Hash>, i: nat)
    requires |etags| == |hashes| && i < |etags|
    requires ElemsOf(etags) == Missing(hrefmap, db)
    requires forall i, j | 0 <= i < j < |etags| :: etags[i] != etags[j]
    ensures etags[i] in PulledDb(db, hrefmap, etags, hashes) && PulledDb(db, hrefmap, etags, hashes)[etags[i]] == hashes[i]
  {
    assert etags[i] in ElemsOf(etags);
    UpdatedAt(db, etags, hashes, i);
  }

  /**
   * When the multiget answers exactly the missing ETags, each once, pull_objects
   * leaves the database with the server's ETags and imports |missing| objects;
   * entries the server still lists keep their hash.
   */
  lemma PullConverges(db: map<ETag, Hash>, hrefmap: map<ETag, Href>, etags: seq<ETag>, hashes: seq<Hash>)
    requires |etags| == |hashes|
    requires ElemsOf(etags) == Missing(hrefmap, db)
    requires forall i, j | 0 <= i < j < |etags| :: etags[i] != etags[j]
    ensures PulledDb(db, hrefmap, etags, hashes).Keys == hrefmap.Keys
    ensures |etags| == |Missing(hrefmap, db)|
    ensures forall e | e in db && e in hrefmap :: PulledDb(db, hrefmap, etags, hashes)[e] == db[e]
    ensures forall i | 0 <= i < |etags| :: PulledDb(db, hrefmap, etags, hashes)[etags[i]] == hashes[i]
  {
    DistinctCard(etags);
    PullKeys(db, hrefmap, etags, hashes);
    forall e | e in db && e in hrefmap
      ensures e in PulledDb(db, hrefmap, etags, hashes) && PulledDb(db, hrefmap, etags, hashes)[e] == db[e]
    {
      PullKeeps(db, hrefmap, etags, hashes, e);
    }
    forall i | 0 <= i < |etags|
      ensures etags[i] in PulledDb(db, hrefmap, etags, hashes) && PulledDb(db, hrefmap, etags, hashes)[etags[i]] == hashes[i]
    {
      PullImports(db, hrefmap, etags, hashes, i);
    }
  }

  /**
   * A push whose database already holds only ETags the server lists leaves
   * the database recording exactly the local objects.
   */
  lemma PushConverges(db: map<ETag, Hash>, local: set<Hash>, hrefmap: map<ETag, Href>, pushed: map<ETag, Hash>)
    requires db.Keys <= hrefmap.Keys
    requires PushRecord(pushed, db, hrefmap, local)
    ensures PushedDb(db, local, hrefmap, pushed).Values == local
  {
    var after := PushedDb(db, local, hrefmap, pushed);
    var doomed := Doomed(db, local, hrefmap);
    forall h | h in local ensures h in after.Values {
      if h in db.Values {
        var e :| e in db && db[e] == h;
        assert e !in doomed && e !in pushed;
        assert after[e] == h;
      } else {
        assert h in pushed.Values;
        var e :| e in pushed && pushed[e] == h;
        assert after[e] == h;
      }
    }
    forall h | h in after.Values ensures h in local {
      var e :| e in after && after[e] == h;
      if e in pushed {
        assert h in pushed.Values;
      } else {
        assert e in db && e !in doomed;
      }
    }
  }

  /** When nothing is replaced, push_objects only adds the pushed objects and deletes the doomed ones. */
  lemma Unclobbered(remote: map<ETag, Href>, db: map<ETag, Hash>, local: set<Hash>, hrefmap: map<ETag, Href>,
                    pushed: map<ETag, Hash>, path: string)
    requires Clobbered(remote, pushed, path) == {}
    ensures PushedRemote(remote, db, local, hrefmap, pushed, path) == (remote + PushedHrefs(pushed, path)) - Doomed(db, local, hrefmap)
  {
    assert remote - {} == remote;
  }

  /**
   * One pass (pull, then push) from any state, where the multiget answers
   * exactly the missing ETags and no object to push is already stored at
   * its href, ends converged.
   */
  lemma PassConverges(db: map<ETag, Hash>, local: set<Hash>, remote: map<ETag, Href>,
                      etags: seq<ETag>, hashes: seq<Hash>, pushed: map<ETag, Hash>, path: string)
    requires |etags| == |hashes|
    requires ElemsOf(etags) == Missing(remote, db)
    requires forall i, j | 0 <= i < j < |etags| :: etags[i] != etags[j]
    requires var db1, local1 := PulledDb(db, remote, etags, hashes), PulledLocal(local, db, remote, etags, hashes);
      PushRecord(pushed, db1, remote, local1)
    requires forall h | h in pushed.Values :: ObjectHref(path, h) !in remote.Values
    ensures var db1, local1 := PulledDb(db, remote, etags, hashes), PulledLocal(local, db, remote, etags, hashes);
      Converged(PushedDb(db1, local1, remote, pushed), local1, PushedRemote(remote, db1, local1, remote, pushed, path))
  {
    var db1, local1 := PulledDb(db, remote, etags, hashes), PulledLocal(local, db, remote, etags, hashes);
    PullConverges(db, remote, etags, hashes);
    PushConverges(db1, local1, remote, pushed);
    NothingClobbered(remote, pushed, path);
    PushKeys(db1, local1, remote, pushed, path);
  }

  /** When the database and the collection have the same ETags and nothing is replaced, push keeps them equal. */
  lemma PushKeys(db: map<ETag, Hash>, local: set<Hash>, remote: map<ETag, Href>, pushed: map<ETag, Hash>, path: string)
    requires db.Keys == remote.Keys && Clobbered(remote, pushed, path) == {}
    ensures PushedDb(db, local, remote, pushed).Keys == PushedRemote(remote, db, local, remote, pushed, path).Keys
  {
    Unclobbered(remote, db, local, remote, pushed, path);
    var doomed := Doomed(db, local, remote);
    assert PushedDb(db, local, remote, pushed).Keys == (db.Keys + pushed.Keys) - doomed;
    assert PushedRemote(remote, db, local, remote, pushed, path).Keys == (remote.Keys + pushed.Keys) - doomed;
  }

  /**
   * Idempotence: a pass from a converged state, where the server has nothing
   * missing to send, changes nothing and counts nothing.
   */
  lemma ConvergedPassIsIdle(db: map<ETag, Hash>, local: set<Hash>, remote: map<ETag, Href>,
                            etags: seq<ETag>, hashes: seq<Hash>, pushed: map<ETag, Hash>, path: string)
    requires Converged(db, local, remote)
    requires |etags| == |hashes|
    requires ElemsOf(etags) == Missing(remote, db)
    requires var db1, local1 := PulledDb(db, remote, etags, hashes), PulledLocal(local, db, remote, etags, hashes);
      PushRecord(pushed, db1, remote, local1)
    ensures etags == [] && Orphans(remote, db) == {}
    ensures PulledDb(db, remote, etags, hashes) == db && PulledLocal(local, db, remote, etags, hashes) == local
    ensures NewObjects(local, db) == {} && Doomed(db, local, remote) == {} && pushed == map[]
    ensures PushedDb(db, local, remote, pushed) == db && PushedRemote(remote, db, local, remote, pushed, path) == remote
  {
    IdlePull(db, local, remote, etags, hashes);
    IdlePush(db, local, remote, pushed, path);
  }

  /** From a converged state with nothing missing, pull_objects changes nothing. */
  lemma IdlePull(db: map<ETag, Hash>, local: set<Hash>, remote: map<ETag, Href>, etags: seq<ETag>, hashes: seq<Hash>)
    requires Converged(db, local, remote)
    requires |etags| == |hashes|
    requires ElemsOf(etags) == Missing(remote, db)
    ensures etags == [] && hashes == [] && Orphans(remote, db) == {}
    ensures PulledDb(db, remote, etags, hashes) == db && PulledLocal(local, db, remote, etags, hashes) == local
  {
    assert Orphans(remote, db) == {};
    assert ElemsOf(hashes) == {};
    assert RecordedHashes(db, {}) == {};
  }

  /** From a converged state, push_objects finds nothing to push or delete. */
  lemma IdlePush(db: map<ETag, Hash>, local: set<Hash>, remote: map<ETag, Href>, pushed: map<ETag, Hash>, path: string)
    requires Converged(db, local, remote)
    requires PushRecord(pushed, db, remote, local)
    ensures NewObjects(local, db) == {} && Doomed(db, local, remote) == {} && pushed == map[]
    ensures PushedDb(db, local, remote, pushed) == db && PushedRemote(remote, db, local, remote, pushed, path) == remote
  {
    assert pushed.Values == {};
    assert forall e | e in pushed :: pushed[e] in pushed.Values;
    assert pushed == map[];
    assert Doomed(db, local, remote) == {};
    PushNothing(db, local, remote, path);
  }

  /** A push with nothing to PUT and nothing to delete leaves the database and the collection alone. */
  lemma PushNothing(db: map<ETag, Hash>, local: set<Hash>, remote: map<ETag, Href>, path: string)
    requires Doomed(db, local, remote) == {}
    ensures PushedDb(db, local, remote, map[]) == db && PushedRemote(remote, db, local, remote, map[], path) == remote
  {
    var none: map<ETag, Hash> := map[];
    assert PushedHrefs(none, path) == map[];
    assert Clobbered(remote, none, path) == {};
    assert Stored(remote, none, path) == remote;
    assert (db + none) - {} == db;
  }

  /** An object deleted locally since a converged state is deleted on the server, and its entry dropped, by the next pass. */
  lemma LocalDeletionReachesServer(db: map<ETag, Hash>, local: set<Hash>, remote: map<ETag, Href>, e: ETag,
                                   pushed: map<ETag, Hash>, path: string)
    requires Converged(db, local, remote) && e in db
    requires PushRecord(pushed, db, remote, local - {db[e]})
    ensures PulledDb(db, remote, [], []) == db && PulledLocal(local - {db[e]}, db, remote, [], []) == local - {db[e]}
    ensures e in Doomed(db, local - {db[e]}, remote)
    ensures e !in PushedDb(db, local - {db[e]}, remote, pushed)
    ensures e !in PushedRemote(remote, db, local - {db[e]}, remote, pushed, path)
  {
    assert Orphans(remote, db) == {};
    assert RecordedHashes(db, {}) == {};
    assert db[e] in GoneObjects(local - {db[e]}, db);
  }

  /** An object deleted on the server since a converged state is removed locally, and its entry dropped, by the next pull. */
  lemma RemoteDeletionReachesLocal(db: map<ETag, Hash>, local: set<Hash>, remote: map<ETag, Href>, e: ETag)
    requires Converged(db, local, remote) && e in db
    ensures Missing(remote - {e}, db) == {} && Orphans(remote - {e}, db) == {e}
    ensures e !in PulledDb(db, remote - {e}, [], [])
    ensures db[e] !in PulledLocal(local, db, remote - {e}, [], [])
  {
    assert Orphans(remote - {e}, db) == {e};
    assert db[e] in RecordedHashes(db, {e});
  }

  /**
   * An empty listing (get_hrefmap on an empty REPORT answer) orphans every
   * entry: the pull fetches nothing, empties the database and removes every
   * recorded object from the local store.
   */
  lemma EmptyListingRemovesRecorded(db: map<ETag, Hash>, local: set<Hash>)
    ensures Missing(map[], db) == {} && Orphans(map[], db) == db.Keys
    ensures PulledDb(db, map[], [], []) == map[]
    ensures PulledLocal(local, db, map[], [], []) == local - db.Values
  {
    assert Updated(db, [], []) == db;
    assert ElemsOf<Hash>([]) == {};
    forall h | h in db.Values ensures h in RecordedHashes(db, db.Keys) {
      var e :| e in db && db[e] == h;
    }
  }

  /**
   * A two-way initialisation against an empty server: the pass pushes every
   * local object once and pulls nothing.
   */
  lemma TwoWayOntoEmptyServer(local: set<Hash>, pushed: map<ETag, Hash>, path: string)
    requires PushRecord(pushed, map[], map[], local)
    ensures PulledDb(map[], map[], [], []) == map[] && PulledLocal(local, map[], map[], [], []) == local
    ensures |NewObjects(local, map[])| == |local| && Doomed(map[], local, map[]) == {}
    ensures PushedDb(map[], local, map[], pushed) == pushed
    ensures PushedDb(map[], local, map[], pushed).Values == local
    ensures PushedRemote(map[], map[], local, map[], pushed, path).Keys == pushed.Keys
  {
    assert RecordedHashes(map[], {}) == {};
    var empty: map<ETag, Hash> := map[];
    assert empty.Values == {};
    assert Doomed(empty, local, map[]) == {};
    assert (empty + pushed) - {} == pushed;
    Unclobbered(map[], empty, local, map[], pushed, path);
  }
  /**
   * A PUT replaces what the server stores at the object's href. In a
   * two-way initialisation where the server holds an edited copy of a local
   * object at that object's href, the pass imports the edit and then pushes
   * the old object over it: the edited resource disappears from the server,
   * the pass does not converge, and the next pull removes the imported edit.
   */
  lemma OverwrittenEditIsLost(path: string)
    ensures var remote := map["e1" := ObjectHref(path, "h")];
      var db1 := PulledDb(map[], remote, ["e1"], ["h2"]);
      var local1 := PulledLocal({"h"}, map[], remote, ["e1"], ["h2"]);
      var pushed := map["e2" := "h"];
      var db2 := PushedDb(db1, local1, remote, pushed);
      var remote2 := PushedRemote(remote, db1, local1, remote, pushed, path);
      && db1 == map["e1" := "h2"] && local1 == {"h", "h2"}
      && PushRecord(pushed, db1, remote, local1)
      && remote2 == map["e2" := ObjectHref(path, "h")]
      && !Converged(db2, local1, remote2)
      && Orphans(remote2, db2) == {"e1"}
      && PulledLocal(local1, db2, remote2, [], []) == {"h"}
  {
    var remote := map["e1" := ObjectHref(path, "h")];
    ExamplePull(remote);
    var db1: map<ETag, Hash>, local1: set<Hash> := map["e1" := "h2"], {"h", "h2"};
    var pushed := map["e2" := "h"];
    ExamplePush(path, remote, db1, local1, pushed);
    var db2 := map["e1" := "h2", "e2" := "h"];
    var remote2 := map["e2" := ObjectHref(path, "h")];
    assert Orphans(remote2, db2) == {"e1"};
    assert RecordedHashes(db2, {"e1"}) == {"h2"};
    assert ElemsOf<Hash>([]) == {};
  }

  /** The pull of OverwrittenEditIsLost: the edited copy is imported as "h2". */
  lemma ExamplePull(remote: map<ETag, Href>)
    requires remote.Keys == {"e1"}
    ensures PulledDb(map[], remote, ["e1"], ["h2"]) == map["e1" := "h2"]
    ensures PulledLocal({"h"}, map[], remote, ["e1"], ["h2"]) == {"h", "h2"}
  {
    var empty: map<ETag, Hash> := map[];
    assert Orphans(remote, empty) == {};
    assert Updated(empty, ["e1"], ["h2"]) == map["e1" := "h2"];
    assert ElemsOf(["h2"]) == {"h2"};
    assert RecordedHashes(map["e1" := "h2"], {}) == {};
  }

  /** The push of OverwrittenEditIsLost: "h" is new and its PUT replaces "e1". */
  lemma ExamplePush(path: string, remote: map<ETag, Href>, db1: map<ETag, Hash>, local1: set<Hash>, pushed: map<ETag, Hash>)
    requires remote == map["e1" := ObjectHref(path, "h")]
    requires db1 == map["e1" := "h2"] && local1 == {"h", "h2"} && pushed == map["e2" := "h"]
    ensures PushRecord(pushed, db1, remote, local1)
    ensures PushedDb(db1, local1, remote, pushed) == map["e1" := "h2", "e2" := "h"]
    ensures PushedRemote(remote, db1, local1, remote, pushed, path) == map["e2" := ObjectHref(path, "h")]
  {
    assert db1.Values == {"h2"} by { assert db1["e1"] == "h2"; }
    assert pushed.Values == {"h"} by { assert pushed["e2"] == "h"; }
    assert GoneObjects(local1, db1) == {};
    assert Doomed(db1, local1, remote) == {};
    assert PushedHrefs(pushed, path) == map["e2" := ObjectHref(path, "h")];
    assert Clobbered(remote, pushed, path) == {"e1"};
  }
}
