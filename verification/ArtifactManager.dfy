/** The ArtifactManager of src/pal/artifact/service.py, over its repository and its files.

    Every method that writes returns the sequence of its writes as a ghost: `Follows` says that it is legal and leads
    from the old store to the new one, so that whatever holds of every prefix of a legal sequence holds wherever the
    method is stopped. */
module ArtifactManager {
  import opened Wrappers
  import opened Collation
  import opened Artifacts
  import opened ArtifactRecovery
  import opened ArtifactReaping
  import opened ArtifactExposure
  import Segments

  ghost predicate Follows(s: Store, t: Store, trace: seq<Write>, p: Policy) {
    Legal(s, trace, p) && t == DoAll(s, trace)
  }

  lemma FollowOn(s: Store, t: Store, u: Store, first: seq<Write>, second: seq<Write>, p: Policy)
    requires Follows(s, t, first, p) && Follows(t, u, second, p)
    ensures Follows(s, u, first + second, p)
  {
    DoJoined(s, first, second, p);
  }

  /** Wherever a method is stopped, the store can be recovered. */
  lemma StoppedRecovers(s: Store, t: Store, trace: seq<Write>, p: Policy, n: nat, now: int,
                        scan: Key -> Option<set<string>>, outcome: string -> Removal)
    requires Inv(s) && Follows(s, t, trace, p) && n <= |trace| && AllSucceed(scan, outcome)
    ensures var crashed := DoAll(s, trace[..n]);
      var u := Recovered(crashed, now, scan, outcome);
      && (forall id :: id in crashed.records ==> Settled(u, id, now))
      && (forall k :: k in u.trees ==> Visible(u, k.id, now) && k == Place(u, k.id))
  {
    StoppedIsLegal(s, trace, n, p);
    RunKeeps(s, trace[..n], p);
    RecoverySettles(DoAll(s, trace[..n]), now, scan, outcome);
  }

  // ----- the candidates of a reaping -----

  /** `dict.setdefault` for each of `ids`. */
  function SetDefaults(c: map<string, string>, ids: set<string>, reason: string): map<string, string> {
    map id | id in c.Keys + ids :: if id in c then c[id] else reason
  }

  function PendingIds(s: Store, filter: string): set<string> {
    set id | id in s.records && Listed(s, filter, id) && PendingCleanup(s, id)
  }

  function PendingReasons(s: Store, ids: set<string>): map<string, string> {
    map id | id in ids && id in s.records :: Reason(s.records[id], "")
  }

  function MissingIds(s: Store, filter: string): set<string> {
    set id | id in s.records && Listed(s, filter, id) && MissingRow(s, id)
  }

  function ExpiredKeys(s: Store, filter: string, now: int): set<Key> {
    set k | k in s.hot && InScope(s.hot[k].scope, filter) && s.hot[k].expires <= now
  }

  /** The records the rows belong to. */
  function IdsOf(s: Store, keys: set<Key>): set<string> {
    set k | k in keys && k in s.hot && RowOf(s, k, s.hot[k].artifactId) :: s.hot[k].artifactId
  }

  predicate StrayAmong(s: Store, keys: set<Key>, id: string) {
    id !in s.records && exists k :: k in keys && k in s.hot && s.hot[k].artifactId == id
  }

  function WithoutStraysOf(s: Store, keys: set<Key>): Store {
    s.(hot := map k | k in s.hot && !StrayAmong(s, keys, s.hot[k].artifactId) :: s.hot[k])
  }

  lemma AllStrays(s: Store, filter: string, now: int)
    ensures WithoutStraysOf(s, ExpiredKeys(s, filter, now)) == WithoutStrays(s, filter, now)
  {
    var keys := ExpiredKeys(s, filter, now);
    forall id ensures StrayAmong(s, keys, id) <==> Stray(s, filter, now, id) {
      if StrayAmong(s, keys, id) {
        var k :| k in keys && k in s.hot && s.hot[k].artifactId == id;
        assert k in s.hot && InScope(s.hot[k].scope, filter);
      }
      if Stray(s, filter, now, id) {
        var k :| k in s.hot && s.hot[k].artifactId == id && InScope(s.hot[k].scope, filter) && s.hot[k].expires <= now;
        assert k in keys;
      }
    }
    assert WithoutStraysOf(s, keys).hot == WithoutStrays(s, filter, now).hot;
  }

  lemma ExpiredIds(s: Store, filter: string, now: int, id: string)
    ensures id in IdsOf(s, ExpiredKeys(s, filter, now)) <==>
            id in s.records && InScope(s.records[id].scope, filter) && HasExpiredRow(s, id, now)
  {
    if id in s.records && InScope(s.records[id].scope, filter) && HasExpiredRow(s, id, now) {
      var k :| k in s.hot && RowOf(s, k, id) && s.hot[k].expires <= now;
      assert k in ExpiredKeys(s, filter, now);
    }
  }

  /** The three queries, in the order the manager asks them, give the candidates with their reasons. */
  lemma CandidatesCollected(s: Store, filter: string, now: int)
    ensures SetDefaults(SetDefaults(PendingReasons(s, PendingIds(s, filter)), MissingIds(s, filter), "handler_missing"),
                        IdsOf(s, ExpiredKeys(s, filter, now)), "hot_ttl_expired")
            == Candidates(s, filter, now)
  {
    var first := PendingReasons(s, PendingIds(s, filter));
    var second := SetDefaults(first, MissingIds(s, filter), "handler_missing");
    var third := SetDefaults(second, IdsOf(s, ExpiredKeys(s, filter, now)), "hot_ttl_expired");
    forall id
      ensures id in third <==> id in Candidates(s, filter, now)
      ensures id in third ==> third[id] == Candidates(s, filter, now)[id]
    {
      ExpiredIds(s, filter, now, id);
    }
  }

  // ----- registering -----

  /** What a processor derives: a row, and the file behind it unless its path is "". */
  datatype Product = Product(repId: string, rep: Representation)

  function OneProduct(key: Key, x: Product): seq<Write> {
    if x.rep.path != "" then [PutFile(key, x.rep.path), PutRep(x.repId, x.rep)] else [PutRep(x.repId, x.rep)]
  }

  function ProductWrites(key: Key, products: seq<Product>): seq<Write> {
    if products == [] then [] else ProductWrites(key, products[..|products|-1]) + OneProduct(key, products[|products|-1])
  }

  function IngestWrites(id: string, r: Record, original: string, products: seq<Product>, final: Record): seq<Write> {
    [PutFile(KeyOf(r.scope, id), original), PutRecord(id, r.(status := Ready))]
    + ProductWrites(KeyOf(r.scope, id), products) + [PutRecord(id, final)]
  }

  lemma OneProductDone(s: Store, key: Key, x: Product, p: Policy)
    ensures DoAll(s, OneProduct(key, x)) == Do(if x.rep.path != "" then Do(s, PutFile(key, x.rep.path)) else s, PutRep(x.repId, x.rep))
    ensures Owned(s, key) && x.rep.artifactId == key.id ==> Legal(s, OneProduct(key, x), p)
  {
    if x.rep.path != "" {
      TwoWrites(s, PutFile(key, x.rep.path), PutRep(x.repId, x.rep), p);
    } else {
      SingleWrite(s, PutRep(x.repId, x.rep), p);
    }
  }

  lemma {:induction false} ProductsLegal(s: Store, id: string, products: seq<Product>, p: Policy)
    requires Live(s, id)
    requires forall i :: 0 <= i < |products| ==> products[i].rep.artifactId == id
    ensures Legal(s, ProductWrites(Place(s, id), products), p)
    ensures var t := DoAll(s, ProductWrites(Place(s, id), products));
      && t.records == s.records && t.hot == s.hot && t.sources == s.sources
      && FilesAt(s, Place(s, id)) <= FilesAt(t, Place(s, id))
  {
    if products != [] {
      var front, x := products[..|products|-1], products[|products|-1];
      var key := Place(s, id);
      ProductsLegal(s, id, front, p);
      OneProductStays(DoAll(s, ProductWrites(key, front)), key, x, p);
      DoJoined(s, ProductWrites(key, front), OneProduct(key, x), p);
    }
  }

  lemma OneProductStays(s: Store, key: Key, x: Product, p: Policy)
    requires Owned(s, key) && x.rep.artifactId == key.id
    ensures Legal(s, OneProduct(key, x), p)
    ensures var t := DoAll(s, OneProduct(key, x));
      && t.records == s.records && t.hot == s.hot && t.sources == s.sources && FilesAt(s, key) <= FilesAt(t, key)
  {
    OneProductDone(s, key, x, p);
  }

  // ----- the manager -----

  /** What an access comes to. */
  datatype Access = NotFound | HandlerRetired | Granted(record: Record)

  class ArtifactManager {
    const policy: Policy
    const writable: bool
    var records: map<string, Record>
    var reps: map<string, Representation>
    var hot: map<Key, HotRow>
    var trees: map<Key, set<string>>
    var sources: set<string>

    function Snapshot(): Store
      reads this
    {
      Store(records, reps, hot, trees, sources)
    }

    /** A manager started on what an earlier one left. */
    constructor (policy: Policy, writable: bool, store: Store)
      ensures this.policy == policy && this.writable == writable && Snapshot() == store
    {
      this.policy, this.writable := policy, writable;
      records, reps, hot, trees, sources := store.records, store.reps, store.hot, store.trees, store.sources;
    }

    // ----- single writes -----

    method UpsertRecord(id: string, r: Record)
      modifies this`records
      ensures Snapshot() == Do(old(Snapshot()), PutRecord(id, r))
    {
      records := records[id := r];
    }

    method UpsertRepresentation(repId: string, rep: Representation)
      modifies this`reps
      ensures Snapshot() == Do(old(Snapshot()), PutRep(repId, rep))
    {
      reps := reps[repId := rep];
    }

    method UpsertHotState(key: Key, row: HotRow, ghost checked: int)
      modifies this`hot
      ensures Snapshot() == Do(old(Snapshot()), PutHot(key, row, checked))
    {
      hot := hot[key := row];
    }

    method DeleteRepresentations(id: string)
      modifies this`reps
      ensures Snapshot() == Do(old(Snapshot()), DropReps(id))
    {
      reps := map r | r in reps && reps[r].artifactId != id :: reps[r];
    }

    method DeleteHotStates(id: string)
      modifies this`hot
      ensures Snapshot() == Do(old(Snapshot()), DropHot(id))
    {
      hot := map k | k in hot && hot[k].artifactId != id :: hot[k];
    }

    method WriteFile(key: Key, file: string)
      modifies this`trees
      ensures Snapshot() == Do(old(Snapshot()), PutFile(key, file))
    {
      trees := trees[key := (if key in trees then trees[key] else {}) + {file}];
    }

    method MigrateLegacyPendingCleanupRecords() returns (migrated: nat)
      modifies this`records
      ensures Snapshot() == Do(old(Snapshot()), MigrateLegacy)
      ensures migrated == |set id | id in old(records) && Migrated(old(records)[id]) != old(records)[id]|
    {
      migrated := |set id | id in records && Migrated(records[id]) != records[id]|;
      records := map id | id in records :: Migrated(records[id]);
    }

    // ----- retirement -----

    method RemoveFiles(id: string, removal: Removal) returns (ok: bool)
      requires id in records
      modifies this`trees, this`sources
      ensures ok == Succeeds(records[id], removal)
      ensures Snapshot() == DoAll(old(Snapshot()), RemovalWrites(old(Snapshot()), id, removal))
    {
      ghost var s := Snapshot();
      var key, source := KeyOf(records[id].scope, id), records[id].metadata.ownedSource;
      if removal.TreeStuck? {
        if key in trees {
          trees := trees[key := trees[key] - removal.lost];
        }
        SingleWrite(s, ShrinkTree(key, removal.lost), policy);
        return false;
      }
      trees := trees - {key};
      SingleWrite(s, DropTree(key), policy);
      if source != "" {
        if removal.SourceStuck? {
          return false;
        }
        sources := sources - {source};
        TwoWrites(s, DropTree(key), DropSource(id), policy);
      }
      return true;
    }

    method CloseRetirement(id: string, r: Record, tombstone: Record, removal: Removal, ok: bool)
      requires id in records && records[id] == tombstone && Buried(tombstone) && ok == Succeeds(r, removal)
      modifies this`records, this`reps, this`hot
      ensures Snapshot() == DoAll(old(Snapshot()), ClosingWrites(r, id, tombstone, removal))
    {
      ClosesLegal(Snapshot(), r, id, tombstone, removal, policy);
      if ok {
        DeleteRepresentations(id);
        DeleteHotStates(id);
        UpsertRecord(id, Finished(tombstone));
      } else {
        UpsertRecord(id, Deferred(tombstone));
      }
    }

    /** Whatever the removals do, the tombstone is written first and the record is completed last. */
    method RetireArtifactLocked(id: string, reason: string, now: int, removal: Removal)
      returns (wasRetired: bool, complete: bool, ghost trace: seq<Write>)
      modifies this
      ensures trace == RetireWrites(old(Snapshot()), id, reason, now, removal)
      ensures Follows(old(Snapshot()), Snapshot(), trace, policy)
      ensures wasRetired == (id in old(records) && !Gone(old(records)[id]))
      ensures complete == (id !in old(records) || Succeeds(old(records)[id], removal))
      ensures complete <==> id !in old(records) || removal.BothGone? || (removal.SourceStuck? && old(records)[id].metadata.ownedSource == "")
      // Only the time and the reason of the first retirement count; the paths are gone, and what remains to be cleaned is kept.
      ensures id in old(records) ==> id in records && var r, t := old(records)[id], records[id];
        && t.scope == r.scope && t.turn == r.turn && t.kind == r.kind && t.created == r.created
        && t.originalPath == "" && t.normalizedPath == "" && t.metadata.other == ""
        && t.metadata.retiredAt == (if r.metadata.retiredAt.Some? then r.metadata.retiredAt else Some(now))
        && t.metadata.reason == (if r.metadata.reason != "" then r.metadata.reason else if reason != "" then reason else "handler_retired")
        && t.status == (if complete then Retired else Retiring) && t.metadata.cleanupError == !complete
        && t.metadata.cleanup == (if complete then CleanupComplete else CleanupPending)
        && t.metadata.ownedSource == (if complete then "" else r.metadata.ownedSource)
      ensures id in old(records) ==> Snapshot() == RetireOne(old(Snapshot()), id, reason, now, removal)
      ensures id in old(records) ==> id in records && Gone(records[id])
    {
      ghost var s := Snapshot();
      trace := RetireWrites(s, id, reason, now, removal);
      if id !in records {
        DeleteHotStates(id);
        SingleWrite(s, DropHot(id), policy);
        return false, true, trace;
      }
      RetireLegal(s, id, reason, now, removal, policy);
      RetireStages(s, id, reason, now, removal, policy);
      var record := records[id];
      wasRetired := !Gone(record);
      var tombstone := Tombstone(record, reason, now);
      UpsertRecord(id, tombstone);
      assert RemovalWrites(Snapshot(), id, removal) == RemovalWrites(s, id, removal);
      complete := RemoveFiles(id, removal);
      CloseRetirement(id, record, tombstone, removal, complete);
    }

    // ----- reaping -----

    method SetDefault(c: map<string, string>, ids: set<string>, reason: string) returns (more: map<string, string>)
      ensures more == SetDefaults(c, ids, reason)
    {
      more := c;
      var rest := ids;
      while rest != {}
        invariant rest <= ids
        invariant more == SetDefaults(c, ids - rest, reason)
      {
        var id :| id in rest;
        if id !in more {
          more := more[id := reason];
        }
        rest := rest - {id};
      }
    }

    method CollectPending(filter: string) returns (candidates: map<string, string>)
      ensures candidates == PendingReasons(Snapshot(), PendingIds(Snapshot(), filter))
    {
      var s := Snapshot();
      var ids := PendingIds(s, filter);
      candidates := map[];
      var rest := ids;
      while rest != {}
        invariant rest <= ids
        invariant candidates == PendingReasons(s, ids - rest)
      {
        var id :| id in rest;
        candidates := candidates[id := Reason(s.records[id], "")];
        rest := rest - {id};
      }
    }

    method LookAtExpired(ghost s: Store, ghost seen: set<Key>, k: Key, row: HotRow, ghost c: map<string, string>,
                         before: map<string, string>, ghost traceBefore: seq<Write>)
      returns (candidates: map<string, string>, ghost trace: seq<Write>)
      requires k in s.hot && s.hot[k] == row && Collected(s, Snapshot(), seen, c, before)
      requires Follows(s, Snapshot(), traceBefore, policy)
      modifies this`hot
      ensures Follows(s, Snapshot(), trace, policy)
      ensures Collected(s, Snapshot(), seen + {k}, c, candidates)
    {
      LookedAt(s, Snapshot(), seen, c, before, k);
      candidates, trace := before, traceBefore;
      if row.artifactId !in records {
        ghost var t := Snapshot();
        DeleteHotStates(row.artifactId);
        SingleWrite(t, DropHot(row.artifactId), policy);
        FollowOn(s, t, Snapshot(), trace, [DropHot(row.artifactId)], policy);
        trace := trace + [DropHot(row.artifactId)];
      } else if records[row.artifactId].scope == row.scope && row.artifactId !in candidates {
        candidates := candidates[row.artifactId := "hot_ttl_expired"];
      }
    }

    method LookAtRows(rows: map<Key, HotRow>, c: map<string, string>)
      returns (candidates: map<string, string>, ghost trace: seq<Write>)
      requires rows.Keys <= hot.Keys && forall k :: k in rows ==> rows[k] == hot[k]
      modifies this`hot
      ensures Follows(old(Snapshot()), Snapshot(), trace, policy)
      ensures Collected(old(Snapshot()), Snapshot(), rows.Keys, c, candidates)
    {
      ghost var s := Snapshot();
      candidates, trace := c, [];
      var rest := rows.Keys;
      NothingCollected(s, c);
      while rest != {}
        invariant rest <= rows.Keys
        invariant Follows(s, Snapshot(), trace, policy)
        invariant Collected(s, Snapshot(), rows.Keys - rest, c, candidates)
      {
        var k :| k in rest;
        candidates, trace := LookAtExpired(s, rows.Keys - rest, k, rows[k], c, candidates, trace);
        assert rows.Keys - rest + {k} == rows.Keys - (rest - {k});
        rest := rest - {k};
      }
      assert rows.Keys - rest == rows.Keys;
    }

    /** Expired rows of no record are deleted on the way. */
    method CollectExpired(filter: string, now: int, c: map<string, string>)
      returns (candidates: map<string, string>, ghost trace: seq<Write>)
      modifies this`hot
      ensures Follows(old(Snapshot()), Snapshot(), trace, policy)
      ensures Snapshot() == WithoutStrays(old(Snapshot()), filter, now)
      ensures candidates == SetDefaults(c, IdsOf(old(Snapshot()), ExpiredKeys(old(Snapshot()), filter, now)), "hot_ttl_expired")
    {
      AllStrays(Snapshot(), filter, now);
      var keys := ExpiredKeys(Snapshot(), filter, now);
      var rows := map k | k in keys && k in hot :: hot[k];
      assert rows.Keys == keys;
      candidates, trace := LookAtRows(rows, c);
    }

    method RetireNext(ghost s: Store, ghost finished: map<string, string>, id: string, reason: string, now: int,
                      outcome: string -> Removal, before: Tally, ghost traceBefore: seq<Write>)
      returns (tally: Tally, ghost trace: seq<Write>)
      requires Progress(s, Snapshot(), finished, now, outcome, before) && Follows(s, Snapshot(), traceBefore, policy)
      requires id in s.records && id !in finished
      modifies this
      ensures Progress(s, Snapshot(), finished[id := reason], now, outcome, tally)
      ensures Follows(s, Snapshot(), trace, policy)
    {
      ghost var t := Snapshot();
      Progressed(s, t, finished, now, outcome, before, id, reason);
      var wasRetired, complete;
      ghost var more;
      wasRetired, complete, more := RetireArtifactLocked(id, reason, now, outcome(id));
      tally := Add(before, wasRetired, complete);
      FollowOn(s, t, Snapshot(), traceBefore, more, policy);
      trace := traceBefore + more;
    }

    method RetireCandidates(candidates: map<string, string>, now: int, outcome: string -> Removal)
      returns (tally: Tally, ghost trace: seq<Write>)
      requires candidates.Keys <= records.Keys
      modifies this
      ensures Follows(old(Snapshot()), Snapshot(), trace, policy)
      ensures Progress(old(Snapshot()), Snapshot(), candidates, now, outcome, tally)
    {
      ghost var s := Snapshot();
      tally, trace := Tally(0, 0, 0), [];
      var rest := candidates.Keys;
      NoProgress(s, now, outcome);
      assert Done(candidates, rest) == map[];
      while rest != {}
        invariant rest <= candidates.Keys
        invariant Progress(s, Snapshot(), Done(candidates, rest), now, outcome, tally)
        invariant Follows(s, Snapshot(), trace, policy)
      {
        var id :| id in rest;
        OneMoreDone(candidates, rest, id);
        tally, trace := RetireNext(s, Done(candidates, rest), id, candidates[id], now, outcome, tally, trace);
        rest := rest - {id};
      }
      assert Done(candidates, {}) == candidates;
    }

    /** Retires what is retiring, what has lost its hot row, and what has expired, within the scope. */
    method ReapExpired(filter: string, now: int, outcome: string -> Removal)
      returns (tally: Tally, ghost trace: seq<Write>)
      modifies this
      ensures Follows(old(Snapshot()), Snapshot(), trace, policy)
      ensures writable ==> Snapshot() == Reaped(old(Snapshot()), filter, now, outcome)
      ensures writable ==> Counted(old(Snapshot()), Candidates(old(Snapshot()), filter, now), outcome, tally)
      ensures !writable ==> Snapshot() == old(Snapshot()) && tally == Tally(0, 0, 0)
    {
      tally, trace := Tally(0, 0, 0), [];
      if !writable {
        return;
      }
      ghost var s := Snapshot();
      var candidates := CollectPending(filter);
      candidates := SetDefault(candidates, MissingIds(Snapshot(), filter), "handler_missing");
      candidates, trace := CollectExpired(filter, now, candidates);
      CandidatesCollected(s, filter, now);
      ghost var t := Snapshot();
      ghost var more;
      tally, more := RetireCandidates(candidates, now, outcome);
      FollowOn(s, t, Snapshot(), trace, more, policy);
      SameCounts(s, t, candidates, outcome);
      trace := trace + more;
    }

    // ----- recovery -----

    method ScanTree(ghost s: Store, ghost seen: set<Key>, k: Key, expected: bool, scan: Key -> Option<set<string>>)
      returns (gone: bool, ghost more: seq<Write>)
      requires k in s.trees && k !in seen && Snapshot() == ScannedAmong(s, seen, scan) && expected == Expected(s, k)
      modifies this`trees
      ensures Snapshot() == ScannedAmong(s, seen + {k}, scan)
      ensures Follows(old(Snapshot()), Snapshot(), more, policy)
      ensures k in old(trees) && trees.Keys == old(trees).Keys - if gone then {k} else {}
    {
      gone, more := false, [];
      OneMoreScanned(s, seen, scan, k, policy);
      if expected {
        return;
      }
      more := [ScanWrite(scan, k)];
      SingleWrite(Snapshot(), more[0], policy);
      var lost := scan(k);
      if lost.None? {
        trees := trees - {k};
        gone := true;
      } else {
        trees := trees[k := trees[k] - lost.value];
      }
    }

    method ReapOrphanedManagedFiles(scan: Key -> Option<set<string>>) returns (removed: nat, ghost trace: seq<Write>)
      modifies this`trees
      ensures Follows(old(Snapshot()), Snapshot(), trace, policy)
      ensures writable ==> Snapshot() == Scanned(old(Snapshot()), scan) && |old(trees).Keys| == removed + |trees.Keys|
      ensures !writable ==> Snapshot() == old(Snapshot()) && removed == 0
    {
      removed, trace := 0, [];
      if !writable {
        return;
      }
      ghost var s := Snapshot();
      var expected := ExpectedPlaces(Snapshot());
      var keys := trees.Keys;
      var rest := keys;
      NothingScanned(s, scan);
      while rest != {}
        invariant rest <= keys && |keys| == removed + |trees.Keys|
        invariant Follows(s, Snapshot(), trace, policy)
        invariant Snapshot() == ScannedAmong(s, keys - rest, scan)
      {
        var k :| k in rest;
        ghost var before := Snapshot();
        ghost var more;
        var gone;
        gone, more := ScanTree(s, keys - rest, k, k in expected, scan);
        FollowOn(s, before, Snapshot(), trace, more, policy);
        trace := trace + more;
        removed := removed + if gone then 1 else 0;
        assert keys - rest + {k} == keys - (rest - {k});
        rest := rest - {k};
      }
      assert keys - rest == keys;
      AllScanned(s, scan);
    }

    /** What a manager does when it starts. */
    method RecoverLifecycle(now: int, scan: Key -> Option<set<string>>, outcome: string -> Removal)
      returns (migrated: nat, orphansRemoved: nat, tally: Tally, ghost trace: seq<Write>)
      modifies this
      ensures Follows(old(Snapshot()), Snapshot(), trace, policy)
      ensures writable ==> Snapshot() == Recovered(old(Snapshot()), now, scan, outcome)
      ensures !writable ==> Snapshot() == old(Snapshot()) && migrated == orphansRemoved == 0 && tally == Tally(0, 0, 0)
    {
      migrated, orphansRemoved, tally, trace := 0, 0, Tally(0, 0, 0), [];
      if !writable {
        return;
      }
      ghost var s := Snapshot();
      migrated := MigrateLegacyPendingCleanupRecords();
      ghost var s1 := Snapshot();
      SingleWrite(s, MigrateLegacy, policy);
      ghost var first, second;
      orphansRemoved, first := ReapOrphanedManagedFiles(scan);
      ghost var s2 := Snapshot();
      FollowOn(s, s1, s2, [MigrateLegacy], first, policy);
      tally, second := ReapExpired("", now, outcome);
      FollowOn(s, s2, Snapshot(), [MigrateLegacy] + first, second, policy);
      trace := [MigrateLegacy] + first + second;
    }

    // ----- registering -----

    method WriteProducts(key: Key, products: seq<Product>)
      modifies this`trees, this`reps
      ensures Snapshot() == DoAll(old(Snapshot()), ProductWrites(key, products))
    {
      ghost var s := Snapshot();
      for i := 0 to |products|
        invariant Snapshot() == DoAll(s, ProductWrites(key, products[..i]))
        invariant records == s.records && hot == s.hot && sources == s.sources
      {
        ProductStep(s, key, products, i, policy);
        if products[i].rep.path != "" {
          WriteFile(key, products[i].rep.path);
        }
        UpsertRepresentation(products[i].repId, products[i].rep);
      }
      assert products[..|products|] == products;
    }

    /** Copies the source and lets the processor work on it. */
    method Ingest(id: string, r: Record, original: string, products: seq<Product>, final: Record)
      requires id in records && Place(Snapshot(), id) == KeyOf(r.scope, id)
      requires Ingestible(Snapshot(), id, r, products, final) && r.originalPath == original
      modifies this
      ensures Snapshot() == DoAll(old(Snapshot()), IngestWrites(id, r, original, products, final))
      ensures Follows(old(Snapshot()), Snapshot(), IngestWrites(id, r, original, products, final), policy)
      ensures records == old(records)[id := final] && hot == old(hot) && sources == old(sources)
    {
      ghost var s := Snapshot();
      var key := KeyOf(r.scope, id);
      IngestLegal(s, id, r, original, products, final, policy);
      IngestStages(s, id, r, original, products, final, policy);
      WriteFile(key, original);
      UpsertRecord(id, r.(status := Ready));
      WriteProducts(key, products);
      UpsertRecord(id, final);
    }

    /** Registers an artifact under a fresh identifier: the record first, then the tree and what is derived from it,
        and the hot row last. */
    method RegisterIngested(id: string, r: Record, source: Source, products: seq<Product>, verdict: Verdict, now: int)
      returns (ok: bool, ghost trace: seq<Write>)
      requires Filed(Snapshot()) && id !in records && Fresh(r, source, policy)
      requires forall i :: 0 <= i < |products| ==> products[i].rep.artifactId == id
      modifies this
      ensures ok == writable && (!writable ==> Snapshot() == old(Snapshot()))
      ensures Follows(old(Snapshot()), Snapshot(), trace, policy)
      ensures writable ==> trace == RegisterWrites(old(Snapshot()), policy, id, r, source, products, verdict, now)
      ensures writable ==> records == old(records)[id := Registered(r, verdict)] && sources == old(sources)
      ensures writable ==> hot == old(hot)[KeyOf(r.scope, id) := FirstRow(policy, id, r.scope, now)]
      ensures writable ==> RegisteredRight(old(Snapshot()), Snapshot(), policy, id, r, source, products, verdict, now)
    {
      trace := [];
      if !writable {
        return false, trace;
      }
      ghost var s := Snapshot();
      UpsertRecord(id, r);
      if r.status == Pending {
        Ingest(id, r, source.name, products, Registered(r, verdict));
      }
      ghost var s2 := Snapshot();
      RegisterFollows(s, s2, policy, id, r, source, products, verdict, now);
      RegisterIsRight(s, policy, id, r, source, products, verdict, now);
      var _ := RefreshHot(id, r.scope, now, now);
      trace := RegisterWrites(s, policy, id, r, source, products, verdict, now);
      return true, trace;
    }

    // ----- access -----

    /** The renewal, after an access granted at `checked`: it does not look at the expiry again.  Without write authority
        nothing is renewed, and what has expired by now is refused. */
    method RefreshHot(id: string, scope: string, ghost checked: int, now: int) returns (row: Option<HotRow>)
      modifies this`hot
      ensures writable ==> row == Some(RefreshedRow(old(Snapshot()), policy, id, scope, now))
      ensures writable ==> Snapshot() == Do(old(Snapshot()), PutHot(KeyOf(scope, id), RefreshedRow(old(Snapshot()), policy, id, scope, now), checked))
      ensures !writable ==> Snapshot() == old(Snapshot())
      // A writer counts the access and moves the expiry by the refresh time, within the hard expiry, which stays.
      ensures writable ==> var had, was := KeyOf(scope, id) in old(hot), old(hot);
        && row.Some? && row.value.lastAccessed == now && row.value.artifactId == id && row.value.scope == scope
        && row.value.hardExpires == (if had then was[KeyOf(scope, id)].hardExpires else now + policy.hardCap)
        && row.value.accesses == (if had then was[KeyOf(scope, id)].accesses + 1 else 1)
        && row.value.expires == if now + policy.refresh < row.value.hardExpires then now + policy.refresh else row.value.hardExpires
      ensures !writable ==> row == if KeyOf(scope, id) in hot && hot[KeyOf(scope, id)].expires > now then Some(hot[KeyOf(scope, id)]) else None
    {
      var key := KeyOf(scope, id);
      if !writable {
        return if key !in hot || hot[key].expires <= now then None else Some(hot[key]);
      }
      var hard := if key in hot then hot[key].hardExpires else now + policy.hardCap;
      var desired := now + policy.refresh;
      var refreshed := HotRow(id, scope, now, if desired < hard then desired else hard, hard,
                              if key in hot then hot[key].accesses + 1 else 1);
      UpsertHotState(key, refreshed, checked);
      return Some(refreshed);
    }

    /** Grants an artifact exactly when it is visible in the scope.  A writer retires what it refuses. */
    method RequireVisibleRecord(artifactId: string, scope: string, now: int, removal: Removal)
      returns (access: Access, ghost trace: seq<Write>)
      modifies this
      ensures var id, s := Segments.Strip(artifactId), old(Snapshot());
        && (access.NotFound? <==> id !in s.records || s.records[id].scope != scope)
        && (access.Granted? <==> Visible(s, id, now) && s.records[id].scope == scope)
        && (access.Granted? ==> access.record == s.records[id])
        && (!access.HandlerRetired? || !writable ==> Snapshot() == s)
        && (access.HandlerRetired? && writable ==> id in records && Gone(records[id]))
      ensures Follows(old(Snapshot()), Snapshot(), trace, policy)
    {
      trace := [];
      var id := Segments.Strip(artifactId);
      if id !in records || records[id].scope != scope {
        return NotFound, trace;
      }
      if Gone(records[id]) {
        return HandlerRetired, trace;
      }
      var key := KeyOf(scope, id);
      if key !in hot || hot[key].expires <= now {
        if writable {
          var wasRetired, complete;
          wasRetired, complete, trace := RetireArtifactLocked(id, if key !in hot then "handler_missing" else "hot_ttl_expired", now, removal);
        }
        return HandlerRetired, trace;
      }
      return Granted(records[id]), trace;
    }

    /** The way every tool reaches an artifact: check, then renew, each at its own reading of the clock. */
    method Describe(artifactId: string, scope: string, checked: int, renewed: int, removal: Removal)
      returns (access: Access, ghost trace: seq<Write>)
      requires Filed(Snapshot())
      modifies this
      ensures Follows(old(Snapshot()), Snapshot(), trace, policy)
      ensures var id, s := Segments.Strip(artifactId), old(Snapshot());
        && (access.Granted? <==> Visible(s, id, checked) && s.records[id].scope == scope && (writable || Visible(s, id, renewed)))
        && (access.Granted? && writable ==> Snapshot() == Do(s, PutHot(Place(s, id), RefreshedRow(s, policy, id, scope, renewed), checked)))
        && (access.HandlerRetired? && writable ==> id in records && Gone(records[id]))
        && (access.NotFound? || !writable ==> Snapshot() == s)
    {
      access, trace := RequireVisibleRecord(artifactId, scope, checked, removal);
      if access.Granted? {
        ghost var s := Snapshot();
        var id := Segments.Strip(artifactId);
        var row := RefreshHot(id, scope, checked, renewed);
        if row.None? {
          access := HandlerRetired;
        }
        if writable {
          trace := [PutHot(KeyOf(scope, id), RefreshedRow(s, policy, id, scope, renewed), checked)];
          SingleWrite(s, trace[0], policy);
        }
      }
    }

    method ToDataUrl(repId: string, now: int, removal: Removal) returns (url: Option<string>, ghost trace: seq<Write>)
      modifies this
      ensures url == DataUrl(old(Snapshot()), repId, now)
      ensures Follows(old(Snapshot()), Snapshot(), trace, policy)
      ensures !writable ==> Snapshot() == old(Snapshot())
      ensures repId in old(reps) && Visible(old(Snapshot()), old(reps)[repId].artifactId, now) ==> Snapshot() == old(Snapshot())
      // A writer retires the artifact whose expired handler it refuses.
      ensures repId in old(reps) && old(reps)[repId].path != "" && writable && !Visible(old(Snapshot()), old(reps)[repId].artifactId, now) ==>
        var id := old(reps)[repId].artifactId;
        id in old(records) ==> id in records && Gone(records[id])
    {
      url, trace := None, [];
      if repId !in reps || reps[repId].path == "" {
        return;
      }
      var rep := reps[repId];
      var id := rep.artifactId;
      if id !in records || Gone(records[id]) {
        return;
      }
      var key := KeyOf(records[id].scope, id);
      if key !in hot || hot[key].expires <= now {
        if writable {
          var wasRetired, complete;
          wasRetired, complete, trace := RetireArtifactLocked(id, if key !in hot then "handler_missing" else "hot_ttl_expired", now, removal);
        }
        return;
      }
      if key in trees && rep.path in trees[key] {
        url := Some(rep.path);
      }
    }

    // ----- the prompt -----

    method Newest(ids: set<string>) returns (id: string)
      requires ids != {} && ids <= records.Keys
      ensures id in ids && forall other :: other in ids && other != id ==> NewerFirst(Snapshot(), id, other)
    {
      id :| id in ids;
      var rest := ids - {id};
      while rest != {}
        invariant rest <= ids && id in ids - rest
        invariant forall other :: other in ids - rest && other != id ==> NewerFirst(Snapshot(), id, other)
      {
        var next :| next in rest;
        NewerFirstTotal(Snapshot(), id, next);
        if NewerFirst(Snapshot(), next, id) {
          forall other | other in ids - rest && other != id ensures NewerFirst(Snapshot(), next, other) {
            NewerFirstTransitive(Snapshot(), next, id, other);
          }
          id := next;
        }
        rest := rest - {next};
      }
    }

    method ListRecords(filter: string) returns (ids: seq<string>)
      ensures IsListing(Snapshot(), filter, ids)
      ensures forall id :: id in ids <==> id in records && (filter == "" || records[id].scope == filter)
      ensures forall i, j :: 0 <= i < j < |ids| ==> Before(Snapshot(), ids[i], ids[j])
    {
      var s := Snapshot();
      ids := [];
      var all := set id | id in s.records && Listed(s, filter, id);
      var rest := all;
      while rest != {}
        invariant rest <= all
        invariant forall id :: id in ids <==> id in all - rest
        invariant forall i, j :: 0 <= i < |ids| && j in rest ==> NewerFirst(s, ids[i], j)
        invariant forall i, j :: 0 <= i < j < |ids| ==> NewerFirst(s, ids[i], ids[j])
      {
        var id := Newest(rest);
        ids := ids + [id];
        rest := rest - {id};
      }
      forall i | 0 <= i < |ids| ensures Listed(s, filter, ids[i]) {
        assert ids[i] in ids;
      }
    }

    method FirstImageRepresentation(id: string) returns (rep: Option<string>)
      ensures rep == FirstImage(Snapshot(), id)
    {
      var normalized := RepsOf(Snapshot(), id, NormalizedImage);
      if normalized != {} {
        var first := FindFirst(normalized);
        return Some(first);
      }
      var pages := RepsOf(Snapshot(), id, PageImage);
      if pages != {} {
        var first := FindFirst(pages);
        return Some(first);
      }
      return None;
    }

    method VisibleRecordsForPrompt(scope: string, turn: string, explicitIds: seq<string>, listing: seq<string>, now: int)
      returns (shown: seq<Shown>)
      ensures shown == VisibleForPrompt(Snapshot(), scope, turn, explicitIds, listing, now)
      ensures Filed(Snapshot()) && IsListing(Snapshot(), scope, listing) ==>
        PromptRight(Snapshot(), scope, turn, Stripped(explicitIds), shown, now)
    {
      if Filed(Snapshot()) && IsListing(Snapshot(), scope, listing) {
        PromptShowsRight(Snapshot(), scope, turn, explicitIds, listing, now);
      }
      var s := Snapshot();
      var hotIds := HotIds(s, scope, now);
      var wanted := DropBlank(explicitIds);
      if wanted != [] {
        shown := ShowExplicit(scope, wanted, hotIds, now);
      } else {
        shown := ShowCurrent(scope, turn, listing, hotIds, now);
      }
    }

    method DropBlank(ids: seq<string>) returns (wanted: seq<string>)
      ensures wanted == Wanted(ids)
    {
      wanted := [];
      ghost var names := Stripped(ids);
      for i := 0 to |ids|
        invariant wanted == NotBlank(names[..i])
      {
        assert names[..i + 1][..i] == names[..i];
        var id := Segments.Strip(ids[i]);
        if id != "" {
          wanted := wanted + [id];
        }
      }
      assert names[..|ids|] == names;
    }

    method ShowExplicit(scope: string, wanted: seq<string>, hotIds: set<string>, now: int) returns (shown: seq<Shown>)
      requires hotIds == HotIds(Snapshot(), scope, now)
      ensures shown == ShownExplicit(Snapshot(), scope, wanted, now)
    {
      shown := [];
      for i := 0 to |wanted|
        invariant shown == ShownExplicit(Snapshot(), scope, wanted[..i], now)
      {
        assert wanted[..i + 1][..i] == wanted[..i];
        var id := wanted[i];
        if Listed(Snapshot(), scope, id) {
          shown := shown + [Shown(id, Gone(records[id]) || id !in hotIds)];
        }
      }
      assert wanted[..|wanted|] == wanted;
    }

    method ShowCurrent(scope: string, turn: string, listing: seq<string>, hotIds: set<string>, now: int) returns (shown: seq<Shown>)
      requires hotIds == HotIds(Snapshot(), scope, now)
      ensures shown == ShownCurrent(Snapshot(), scope, turn, listing, now)
    {
      shown := [];
      for i := 0 to |listing|
        invariant shown == ShownCurrent(Snapshot(), scope, turn, listing[..i], now)
      {
        assert listing[..i + 1][..i] == listing[..i];
        var id := listing[i];
        if id in records && id in hotIds && !Gone(records[id]) && records[id].turn == turn {
          shown := shown + [Shown(id, false)];
        }
      }
      assert listing[..|listing|] == listing;
    }

    /** The image to attach for an artifact that is visible, if there is one to show. */
    method ImageToAttach(id: string, now: int, removal: Removal) returns (image: Option<string>)
      requires Filed(Snapshot()) && Visible(Snapshot(), id, now)
      modifies this
      ensures Snapshot() == old(Snapshot()) && image == ImageFor(Snapshot(), policy, id, now)
    {
      image := None;
      var rep := FirstImageRepresentation(id);
      FirstImageOwn(Snapshot(), id);
      if rep.Some? && Fits(reps[rep.value], policy) {
        var url, trace := ToDataUrl(rep.value, now, removal);
        if url.Some? {
          image := rep;
        }
      }
    }

    /** Reaps the scope if it may, then shows what is there.  By `ReaderAgreesWithWriter`, with or without write
        authority the entries are the same. */
    method SelectPromptExposure(scope: string, turn: string, vision: bool, explicitIds: seq<string>, now: int, outcome: string -> Removal)
      returns (entries: seq<Entry>, ghost listing: seq<string>, ghost trace: seq<Write>)
      requires Filed(Snapshot())
      modifies this
      ensures Follows(old(Snapshot()), Snapshot(), trace, policy)
      ensures Snapshot() == if writable then Reaped(old(Snapshot()), scope, now, outcome) else old(Snapshot())
      ensures IsListing(Snapshot(), scope, listing)
      ensures entries == Exposure(Snapshot(), policy, scope, turn, explicitIds, listing, vision, now)
      ensures ExposureRight(Snapshot(), policy, scope, turn, explicitIds, vision, entries, now)
    {
      var tally;
      ReapedFiled(Snapshot(), scope, now, outcome);
      tally, trace := ReapExpired(scope, now, outcome);
      var ids := ListRecords(scope);
      listing := ids;
      var shown := VisibleRecordsForPrompt(scope, turn, explicitIds, ids, now);
      forall i | 0 <= i < |shown| && !shown[i].retired ensures Visible(Snapshot(), shown[i].id, now) {
        PromptShowsVisible(Snapshot(), scope, turn, explicitIds, ids, now, i);
      }
      entries := Render(shown, vision, now, outcome);
      ExposureIsRight(Snapshot(), policy, scope, turn, explicitIds, ids, vision, now);
    }

    method Render(shown: seq<Shown>, vision: bool, now: int, outcome: string -> Removal) returns (entries: seq<Entry>)
      requires Filed(Snapshot())
      requires forall i :: 0 <= i < |shown| && !shown[i].retired ==> Visible(Snapshot(), shown[i].id, now)
      modifies this
      ensures Snapshot() == old(Snapshot()) && entries == Entries(Snapshot(), policy, shown, vision, now)
    {
      ghost var s := Snapshot();
      entries := [];
      var attached := 0;
      for i := 0 to |shown|
        invariant Snapshot() == s && entries == Entries(s, policy, shown[..i], vision, now) && attached == Attached(entries)
      {
        assert shown[..i + 1][..i] == shown[..i];
        var entry := RenderOne(shown[i], vision, attached, now, outcome);
        attached := attached + if entry.image.Some? then 1 else 0;
        entries := entries + [entry];
      }
      assert shown[..|shown|] == shown;
    }

    method RenderOne(x: Shown, vision: bool, attached: nat, now: int, outcome: string -> Removal) returns (entry: Entry)
      requires Filed(Snapshot()) && (!x.retired ==> Visible(Snapshot(), x.id, now))
      modifies this
      ensures Snapshot() == old(Snapshot()) && entry == EntryFor(Snapshot(), policy, x, vision, attached, now)
    {
      var image := None;
      if !x.retired && records[x.id].kind == Image && vision && attached < policy.maxInlineImages {
        image := ImageToAttach(x.id, now, outcome(x.id));
      }
      entry := Entry(x.id, x.retired, image);
    }
  }

  function HotIds(s: Store, scope: string, now: int): (ids: set<string>)
    ensures forall id :: id in ids <==> HotIn(s, scope, id, now)
  {
    set k | k in s.hot && InScope(s.hot[k].scope, scope) && s.hot[k].expires > now :: s.hot[k].artifactId
  }

  lemma NewerFirstTotal(s: Store, a: string, b: string)
    requires a in s.records && b in s.records && a != b
    ensures NewerFirst(s, a, b) || NewerFirst(s, b, a)
  {
    Total(a, b);
  }

  lemma NewerFirstTransitive(s: Store, a: string, b: string, c: string)
    requires NewerFirst(s, a, b) && NewerFirst(s, b, c)
    ensures NewerFirst(s, a, c)
  {
    if TextLess(a, b) && TextLess(b, c) {
      Transitive(a, b, c);
    }
  }

  // ----- what registering writes -----

  datatype Source = Source(isFile: bool, size: int, name: string)

  /** What a registration leaves. */
  ghost predicate RegisteredRight(s: Store, t: Store, p: Policy, id: string, r: Record, source: Source, products: seq<Product>, verdict: Verdict, now: int) {
    && id in t.records && KeyOf(r.scope, id) in t.hot
    // Without a usable source the artifact has failed from the start; otherwise the processor's verdict counts.
    && t.records[id].status ==
       (if !source.isFile || source.size > p.maxOriginal || verdict.FailedNow? then Failed else if verdict.ReadyNow? then Ready else Partial)
    // The row runs for the refresh time, within the hard cap.
    && (var row := t.hot[KeyOf(r.scope, id)];
        && row.lastAccessed == now && row.hardExpires == now + p.hardCap && row.accesses == 1
        && (row.expires == now + p.refresh || row.expires == now + p.hardCap)
        && row.expires <= now + p.refresh && row.expires <= now + p.hardCap)
    // The source and everything derived from it is stored, and nothing else is touched.
    && (r.status == Pending ==> source.name in FilesAt(t, KeyOf(r.scope, id)) && Stored(s, t, KeyOf(r.scope, id), products))
    && (r.status == Failed ==> t.trees == s.trees && t.reps == s.reps)
  }

  /** Every product has its file and its row, the latest of each identifier; other files and rows are as before. */
  ghost predicate Stored(s: Store, t: Store, key: Key, products: seq<Product>) {
    && (forall i :: 0 <= i < |products| ==> FileStored(t, key, products[i]))
    && (forall i :: 0 <= i < |products| ==> RowStored(t, products, i))
    && (forall r :: RowSame(s, t, products, r))
    && (forall k :: k != key ==> TreeSame(s, t, k))
    && FilesAt(s, key) <= FilesAt(t, key)
  }

  predicate FileStored(t: Store, key: Key, x: Product) {
    x.rep.path != "" ==> x.rep.path in FilesAt(t, key)
  }

  ghost predicate RowStored(t: Store, products: seq<Product>, i: nat)
    requires i < |products|
  {
    (forall j :: i < j < |products| ==> products[j].repId != products[i].repId) ==>
      products[i].repId in t.reps && t.reps[products[i].repId] == products[i].rep
  }

  ghost predicate RowSame(s: Store, t: Store, products: seq<Product>, r: string) {
    (forall i :: 0 <= i < |products| ==> products[i].repId != r) ==>
      (r in t.reps <==> r in s.reps) && (r in s.reps ==> t.reps[r] == s.reps[r])
  }

  predicate TreeSame(s: Store, t: Store, k: Key) {
    (k in t.trees <==> k in s.trees) && (k in s.trees ==> t.trees[k] == s.trees[k])
  }

  lemma {:induction false} ProductsStored(s: Store, key: Key, products: seq<Product>, p: Policy)
    ensures Stored(s, DoAll(s, ProductWrites(key, products)), key, products)
  {
    if products != [] {
      var n := |products| - 1;
      var front, x := products[..n], products[n];
      ProductsStored(s, key, front, p);
      var mid := DoAll(s, ProductWrites(key, front));
      OneProductDone(mid, key, x, p);
      DoJoined(s, ProductWrites(key, front), OneProduct(key, x), p);
      StoredMore(s, mid, key, products);
    }
  }

  function WithProduct(s: Store, key: Key, x: Product): Store {
    Do(if x.rep.path != "" then Do(s, PutFile(key, x.rep.path)) else s, PutRep(x.repId, x.rep))
  }

  lemma StoredMore(s: Store, mid: Store, key: Key, products: seq<Product>)
    requires products != [] && Stored(s, mid, key, products[..|products|-1])
    ensures Stored(s, WithProduct(mid, key, products[|products|-1]), key, products)
  {
    var n := |products| - 1;
    var front, t := products[..n], WithProduct(mid, key, products[n]);
    forall i | 0 <= i < |products| ensures FileStored(t, key, products[i]) {
      if i < n {
        assert FileStored(mid, key, front[i]);
      }
    }
    forall i | 0 <= i < |products| ensures RowStored(t, products, i) {
      RowStoredMore(mid, key, products, i);
    }
    forall r ensures RowSame(s, t, products, r) {
      RowSameMore(s, mid, key, products, r);
    }
    forall k | k != key ensures TreeSame(s, t, k) {
      assert TreeSame(s, mid, k);
    }
  }

  lemma RowStoredMore(mid: Store, key: Key, products: seq<Product>, i: nat)
    requires i < |products|
    requires i < |products| - 1 ==> RowStored(mid, products[..|products|-1], i)
    ensures RowStored(WithProduct(mid, key, products[|products|-1]), products, i)
  {
    var n := |products| - 1;
    if i < n && forall j :: i < j < |products| ==> products[j].repId != products[i].repId {
      assert products[..n][i] == products[i];
      assert products[n].repId != products[i].repId;
    }
  }

  lemma RowSameMore(s: Store, mid: Store, key: Key, products: seq<Product>, r: string)
    requires products != [] && RowSame(s, mid, products[..|products|-1], r)
    ensures RowSame(s, WithProduct(mid, key, products[|products|-1]), products, r)
  {
    var n := |products| - 1;
    if forall i :: 0 <= i < |products| ==> products[i].repId != r {
      assert products[n].repId != r;
      assert forall i :: 0 <= i < n ==> products[..n][i] == products[i];
    }
  }

  lemma RegisterIsRight(s: Store, p: Policy, id: string, r: Record, source: Source, products: seq<Product>, verdict: Verdict, now: int)
    requires Filed(s) && id !in s.records && Fresh(r, source, p)
    requires forall i :: 0 <= i < |products| ==> products[i].rep.artifactId == id
    ensures var s2 := DoAll(Do(s, PutRecord(id, r)), MiddleWrites(id, r, source, products, verdict));
      RegisteredRight(s, Do(s2, PutHot(KeyOf(r.scope, id), FirstRow(p, id, r.scope, now), now)), p, id, r, source, products, verdict, now)
  {
    var s1 := Do(s, PutRecord(id, r));
    MiddleFollows(s1, p, id, r, source, products, verdict);
    var s2 := DoAll(s1, MiddleWrites(id, r, source, products, verdict));
    var t := Do(s2, PutHot(KeyOf(r.scope, id), FirstRow(p, id, r.scope, now), now));
    if r.status == Pending {
      IngestStores(s1, id, r, source.name, products, Registered(r, verdict), p);
      SameStored(s1, s2, s, t, KeyOf(r.scope, id), products);
    }
  }

  // Only trees and representation rows count.
  lemma SameStored(s: Store, t: Store, u: Store, v: Store, key: Key, products: seq<Product>)
    requires Stored(s, t, key, products) && u.trees == s.trees && u.reps == s.reps && v.trees == t.trees && v.reps == t.reps
    ensures Stored(u, v, key, products)
  {
    forall i | 0 <= i < |products| ensures FileStored(v, key, products[i]) && RowStored(v, products, i) {
      assert FileStored(t, key, products[i]) && RowStored(t, products, i);
    }
    forall r ensures RowSame(u, v, products, r) {
      assert RowSame(s, t, products, r);
    }
    forall k | k != key ensures TreeSame(u, v, k) {
      assert TreeSame(s, t, k);
    }
  }

  lemma IngestStores(s: Store, id: string, r: Record, original: string, products: seq<Product>, final: Record, p: Policy)
    requires Ingestible(s, id, r, products, final) && r.originalPath == original
    ensures var t := DoAll(s, IngestWrites(id, r, original, products, final));
      original in FilesAt(t, KeyOf(r.scope, id)) && Stored(s, t, KeyOf(r.scope, id), products)
  {
    var key := KeyOf(r.scope, id);
    IngestLegal(s, id, r, original, products, final, p);
    var s1 := Do(Do(s, PutFile(key, original)), PutRecord(id, r.(status := Ready)));
    var s2 := DoAll(s1, ProductWrites(key, products));
    ProductsStored(s1, key, products, p);
    FileFirst(s, s1, s2, key, original, products);
    SameStored(s, s2, s, Do(s2, PutRecord(id, final)), key, products);
  }

  // The original is stored before the products.
  lemma FileFirst(s: Store, s1: Store, t: Store, key: Key, original: string, products: seq<Product>)
    requires Stored(s1, t, key, products) && s1.reps == s.reps && s1.trees == Do(s, PutFile(key, original)).trees
    ensures Stored(s, t, key, products) && original in FilesAt(t, key)
  {
    assert original in FilesAt(s1, key);
    forall r ensures RowSame(s, t, products, r) {
      assert RowSame(s1, t, products, r);
    }
    forall k | k != key ensures TreeSame(s, t, k) {
      assert TreeSame(s1, t, k);
    }
  }

  /** How a processor rates its work.  One that raises counts as failed. */
  datatype Verdict = ReadyNow(normalizedPath: string) | PartialNow(normalizedPath: string) | FailedNow

  /** A new record: failed from the start when there is no source, or too much of it. */
  predicate Fresh(r: Record, source: Source, p: Policy) {
    && r.status == (if !source.isFile || source.size > p.maxOriginal then Failed else Pending)
    && (r.status == Pending ==> r.originalPath == source.name)
  }

  function Registered(r: Record, verdict: Verdict): Record {
    if r.status != Pending then r else
      match verdict
      case ReadyNow(path) => r.(status := Ready, normalizedPath := path)
      case PartialNow(path) => r.(status := Partial, normalizedPath := path)
      case FailedNow => r.(status := Failed)
  }

  function FirstRow(p: Policy, id: string, scope: string, now: int): HotRow {
    HotRow(id, scope, now, if p.refresh < p.hardCap then now + p.refresh else now + p.hardCap, now + p.hardCap, 1)
  }

  function RegisterWrites(s: Store, p: Policy, id: string, r: Record, source: Source, products: seq<Product>, verdict: Verdict, now: int): seq<Write> {
    [PutRecord(id, r)] + MiddleWrites(id, r, source, products, verdict)
    + [PutHot(KeyOf(r.scope, id), FirstRow(p, id, r.scope, now), now)]
  }

  function MiddleWrites(id: string, r: Record, source: Source, products: seq<Product>, verdict: Verdict): seq<Write> {
    if r.status == Pending then IngestWrites(id, r, source.name, products, Registered(r, verdict)) else []
  }

  lemma MiddleFollows(s1: Store, p: Policy, id: string, r: Record, source: Source, products: seq<Product>, verdict: Verdict)
    requires id in s1.records && s1.records[id] == r && Fresh(r, source, p)
    requires forall i :: 0 <= i < |products| ==> products[i].rep.artifactId == id
    ensures var ws := MiddleWrites(id, r, source, products, verdict);
      var s2 := DoAll(s1, ws);
      && Follows(s1, s2, ws, p)
      && s2.records == s1.records[id := Registered(r, verdict)] && s2.hot == s1.hot && s2.sources == s1.sources
  {
    if r.status == Pending {
      PendingFollows(s1, p, id, r, source.name, products, Registered(r, verdict));
    }
  }

  lemma PendingFollows(s1: Store, p: Policy, id: string, r: Record, original: string, products: seq<Product>, final: Record)
    requires Ingestible(s1, id, r, products, final) && r.originalPath == original
    ensures var ws := IngestWrites(id, r, original, products, final);
      var s2 := DoAll(s1, ws);
      && Follows(s1, s2, ws, p)
      && s2.records == s1.records[id := final] && s2.hot == s1.hot && s2.sources == s1.sources
  {
    IngestStages(s1, id, r, original, products, final, p);
    IngestLegal(s1, id, r, original, products, final, p);
  }

  // Everything up to the hot row.
  lemma RegisterLeads(s: Store, p: Policy, id: string, r: Record, source: Source, products: seq<Product>, verdict: Verdict)
    requires Filed(s) && id !in s.records && Fresh(r, source, p)
    requires forall i :: 0 <= i < |products| ==> products[i].rep.artifactId == id
    ensures var put, middle := PutRecord(id, r), MiddleWrites(id, r, source, products, verdict);
      var s2 := DoAll(Do(s, put), middle);
      && Allowed(s, put, p) && Legal(Do(s, put), middle, p)
      && s2.records == s.records[id := Registered(r, verdict)] && s2.hot == s.hot && s2.sources == s.sources
      && Live(s2, id) && s2.records[id].scope == r.scope && KeyOf(r.scope, id) !in s2.hot
  {
    var put := PutRecord(id, r);
    MiddleFollows(Do(s, put), p, id, r, source, products, verdict);
    assert s.records[id := r][id := Registered(r, verdict)] == s.records[id := Registered(r, verdict)];
    NoRowYet(s, id, r.scope);
  }

  lemma RegisterFollows(s: Store, s2: Store, p: Policy, id: string, r: Record, source: Source, products: seq<Product>, verdict: Verdict, now: int)
    requires Filed(s) && id !in s.records && Fresh(r, source, p)
    requires forall i :: 0 <= i < |products| ==> products[i].rep.artifactId == id
    requires s2 == DoAll(Do(s, PutRecord(id, r)), MiddleWrites(id, r, source, products, verdict))
    ensures s2.records == s.records[id := Registered(r, verdict)] && s2.hot == s.hot && s2.sources == s.sources
    ensures RefreshedRow(s2, p, id, r.scope, now) == FirstRow(p, id, r.scope, now)
    ensures Follows(s, Do(s2, PutHot(KeyOf(r.scope, id), FirstRow(p, id, r.scope, now), now)),
                    RegisterWrites(s, p, id, r, source, products, verdict, now), p)
  {
    var put, middle := PutRecord(id, r), MiddleWrites(id, r, source, products, verdict);
    var w := PutHot(KeyOf(r.scope, id), FirstRow(p, id, r.scope, now), now);
    RegisterLeads(s, p, id, r, source, products, verdict);
    FirstRowAllowed(s2, p, id, r.scope, now);
    SingleWrite(s, put, p);
    SingleWrite(s2, w, p);
    Joined(s, [put], middle, [w], p);
  }

  lemma FirstRowAllowed(s: Store, p: Policy, id: string, scope: string, now: int)
    requires Live(s, id) && s.records[id].scope == scope && KeyOf(scope, id) !in s.hot
    ensures RefreshedRow(s, p, id, scope, now) == FirstRow(p, id, scope, now)
    ensures Allowed(s, PutHot(KeyOf(scope, id), FirstRow(p, id, scope, now), now), p)
  {}

  lemma NoRowYet(s: Store, id: string, scope: string)
    requires Filed(s) && id !in s.records
    ensures KeyOf(scope, id) !in s.hot
  {
    assert RowFiled(s, KeyOf(scope, id));
  }

  // ----- counters -----

  function FreshlyRetired(s: Store, reasons: map<string, string>): set<string> {
    set id | id in reasons && Live(s, id)
  }

  function CleanedIds(s: Store, reasons: map<string, string>, outcome: string -> Removal): set<string> {
    set id | id in reasons && Cleaned(s, reasons, outcome, id)
  }

  /** The figures a reaping reports. */
  datatype Tally = Tally(retired: nat, cleaned: nat, pending: nat)

  function Add(t: Tally, wasRetired: bool, complete: bool): Tally {
    Tally(t.retired + (if wasRetired then 1 else 0), t.cleaned + (if complete then 1 else 0), t.pending + (if complete then 0 else 1))
  }

  predicate Counted(s: Store, reasons: map<string, string>, outcome: string -> Removal, t: Tally) {
    && t.retired == |FreshlyRetired(s, reasons)|
    && t.cleaned == |CleanedIds(s, reasons, outcome)|
    && t.cleaned + t.pending == |reasons|
  }

  lemma OneMoreFresh(s: Store, reasons: map<string, string>, id: string, reason: string)
    requires id !in reasons && id in s.records
    ensures |FreshlyRetired(s, reasons[id := reason])| == |FreshlyRetired(s, reasons)| + if Gone(s.records[id]) then 0 else 1
  {
    var before, after := FreshlyRetired(s, reasons), FreshlyRetired(s, reasons[id := reason]);
    if Gone(s.records[id]) {
      assert after == before;
    } else {
      assert after == before + {id};
    }
  }

  lemma OneMoreCleaned(s: Store, reasons: map<string, string>, outcome: string -> Removal, id: string, reason: string)
    requires id !in reasons && id in s.records
    ensures |CleanedIds(s, reasons[id := reason], outcome)|
            == |CleanedIds(s, reasons, outcome)| + if Succeeds(s.records[id], outcome(id)) then 1 else 0
  {
    var before, after := CleanedIds(s, reasons, outcome), CleanedIds(s, reasons[id := reason], outcome);
    if Succeeds(s.records[id], outcome(id)) {
      assert after == before + {id};
    } else {
      assert after == before;
    }
  }

  // The state of `RetireCandidates` once the artifacts of `reasons` have been retired.
  ghost predicate Progress(s: Store, t: Store, reasons: map<string, string>, now: int, outcome: string -> Removal, tally: Tally) {
    t == RetireSet(s, reasons, now, outcome) && Counted(s, reasons, outcome, tally)
  }

  // The candidates that are not in `rest` any more.
  function Done(candidates: map<string, string>, rest: set<string>): map<string, string> {
    map id | id in candidates && id !in rest :: candidates[id]
  }

  lemma OneMoreDone(candidates: map<string, string>, rest: set<string>, id: string)
    requires id in candidates && id in rest
    ensures id !in Done(candidates, rest) && Done(candidates, rest - {id}) == Done(candidates, rest)[id := candidates[id]]
  {}

  lemma NoProgress(s: Store, now: int, outcome: string -> Removal)
    ensures Progress(s, s, map[], now, outcome, Tally(0, 0, 0))
  {
    RetireNone(s, now, outcome);
  }

  lemma Progressed(s: Store, t: Store, reasons: map<string, string>, now: int, outcome: string -> Removal, tally: Tally,
                   id: string, reason: string)
    requires Progress(s, t, reasons, now, outcome, tally) && id in s.records && id !in reasons
    ensures id in t.records && t.records[id] == s.records[id]
    ensures Progress(s, RetireOne(t, id, reason, now, outcome(id)), reasons[id := reason], now, outcome,
                     Add(tally, !Gone(s.records[id]), Succeeds(s.records[id], outcome(id))))
  {
    RetireOneMore(s, reasons, now, outcome, id, reason);
    OneMoreFresh(s, reasons, id, reason);
    OneMoreCleaned(s, reasons, outcome, id, reason);
    OneLonger(reasons, id, reason);
  }

  lemma OneLonger(reasons: map<string, string>, id: string, reason: string)
    requires id !in reasons
    ensures |reasons[id := reason]| == |reasons| + 1
  {
    var more := reasons[id := reason];
    assert more.Keys == reasons.Keys + {id};
    assert |more| == |more.Keys| && |reasons| == |reasons.Keys|;
  }

  lemma SameCounts(s: Store, t: Store, reasons: map<string, string>, outcome: string -> Removal)
    requires s.records == t.records
    ensures FreshlyRetired(s, reasons) == FreshlyRetired(t, reasons)
    ensures CleanedIds(s, reasons, outcome) == CleanedIds(t, reasons, outcome)
  {}

  // ----- the orphan scan, tree by tree -----

  function ExpectedPlaces(s: Store): (keys: set<Key>)
    ensures forall k :: k in keys <==> Expected(s, k)
  {
    var keys := set id | id in s.records && s.records[id].status != Retired :: Place(s, id);
    assert forall k :: Expected(s, k) ==> Place(s, k.id) in keys;
    keys
  }

  function ScanWrite(scan: Key -> Option<set<string>>, k: Key): Write {
    match scan(k)
    case None => DropTree(k)
    case Some(lost) => ShrinkTree(k, lost)
  }

  function ScannedAmong(s: Store, keys: set<Key>, scan: Key -> Option<set<string>>): Store {
    s.(trees := map k | k in s.trees && (k !in keys || Expected(s, k) || scan(k).Some?) ::
      if k !in keys || Expected(s, k) || scan(k).None? then s.trees[k] else s.trees[k] - scan(k).value)
  }

  lemma NothingScanned(s: Store, scan: Key -> Option<set<string>>)
    ensures ScannedAmong(s, {}, scan) == s
  {
    assert ScannedAmong(s, {}, scan).trees == s.trees;
  }

  lemma AllScanned(s: Store, scan: Key -> Option<set<string>>)
    ensures ScannedAmong(s, s.trees.Keys, scan) == Scanned(s, scan)
  {
    assert ScannedAmong(s, s.trees.Keys, scan).trees == Scanned(s, scan).trees;
  }

  lemma OneMoreScanned(s: Store, keys: set<Key>, scan: Key -> Option<set<string>>, k: Key, p: Policy)
    requires k in s.trees && k !in keys
    ensures var t := ScannedAmong(s, keys, scan);
      && k in t.trees && t.trees[k] == s.trees[k]
      && (Expected(s, k) ==> ScannedAmong(s, keys + {k}, scan) == t)
      && (!Expected(s, k) ==> Allowed(t, ScanWrite(scan, k), p) && ScannedAmong(s, keys + {k}, scan) == Do(t, ScanWrite(scan, k)))
  {
    var t, u := ScannedAmong(s, keys, scan), ScannedAmong(s, keys + {k}, scan);
    if Expected(s, k) {
      assert u.trees == t.trees;
    } else {
      assert u.trees == Do(t, ScanWrite(scan, k)).trees;
    }
  }

  lemma ProductStep(s: Store, key: Key, products: seq<Product>, i: nat, p: Policy)
    requires i < |products|
    ensures var x, t := products[i], DoAll(s, ProductWrites(key, products[..i]));
      DoAll(s, ProductWrites(key, products[..i + 1]))
      == Do(if x.rep.path != "" then Do(t, PutFile(key, x.rep.path)) else t, PutRep(x.repId, x.rep))
  {
    assert products[..i + 1][..i] == products[..i];
    OneProductDone(DoAll(s, ProductWrites(key, products[..i])), key, products[i], p);
    DoJoined(s, ProductWrites(key, products[..i]), OneProduct(key, products[i]), p);
  }

  /** What a processor may do: it stays with its own artifact, and does not retire it. */
  predicate Ingestible(s: Store, id: string, r: Record, products: seq<Product>, final: Record) {
    && id in s.records && s.records[id] == r && !Gone(r) && !Gone(final)
    && final.scope == r.scope && final.created == r.created && final.originalPath == r.originalPath
    && (forall i :: 0 <= i < |products| ==> products[i].rep.artifactId == id)
  }

  lemma IngestStages(s: Store, id: string, r: Record, original: string, products: seq<Product>, final: Record, p: Policy)
    requires Ingestible(s, id, r, products, final) && r.originalPath == original
    ensures var key := KeyOf(r.scope, id);
      var s1 := Do(Do(s, PutFile(key, original)), PutRecord(id, r.(status := Ready)));
      var s2 := DoAll(s1, ProductWrites(key, products));
      && Allowed(s, PutFile(key, original), p)
      && Allowed(Do(s, PutFile(key, original)), PutRecord(id, r.(status := Ready)), p)
      && Legal(s1, ProductWrites(key, products), p)
      && s2.records == s1.records && s2.hot == s.hot && s2.sources == s.sources
      && Allowed(s2, PutRecord(id, final), p)
  {
    var key := KeyOf(r.scope, id);
    var s1 := Do(Do(s, PutFile(key, original)), PutRecord(id, r.(status := Ready)));
    ProductsLegal(s1, id, products, p);
  }

  lemma IngestLegal(s: Store, id: string, r: Record, original: string, products: seq<Product>, final: Record, p: Policy)
    requires Ingestible(s, id, r, products, final) && r.originalPath == original
    ensures var key := KeyOf(r.scope, id);
      var s1 := Do(Do(s, PutFile(key, original)), PutRecord(id, r.(status := Ready)));
      Follows(s, Do(DoAll(s1, ProductWrites(key, products)), PutRecord(id, final)), IngestWrites(id, r, original, products, final), p)
  {
    var key := KeyOf(r.scope, id);
    IngestStages(s, id, r, original, products, final, p);
    var file, ready, last := PutFile(key, original), PutRecord(id, r.(status := Ready)), PutRecord(id, final);
    TwoWrites(s, file, ready, p);
    SingleWrite(DoAll(Do(Do(s, file), ready), ProductWrites(key, products)), last, p);
    Joined(s, [file, ready], ProductWrites(key, products), [last], p);
  }

  // The state of `CollectExpired` once the rows `seen` have been looked at.
  ghost predicate Collected(s: Store, t: Store, seen: set<Key>, c: map<string, string>, candidates: map<string, string>) {
    t == WithoutStraysOf(s, seen) && candidates == SetDefaults(c, IdsOf(s, seen), "hot_ttl_expired")
  }

  lemma LookedAt(s: Store, t: Store, seen: set<Key>, c: map<string, string>, candidates: map<string, string>, k: Key)
    requires Collected(s, t, seen, c, candidates) && k in s.hot
    ensures t.records == s.records
    ensures var id := s.hot[k].artifactId;
      && (id !in s.records ==> Collected(s, Do(t, DropHot(id)), seen + {k}, c, candidates))
      && (id in s.records ==> Collected(s, t, seen + {k}, c,
          if RowOf(s, k, id) && id !in candidates then candidates[id := "hot_ttl_expired"] else candidates))
  {
    OneMoreKey(s, seen, k);
    var id := s.hot[k].artifactId;
    OneMoreDefault(c, IdsOf(s, seen), "hot_ttl_expired", id);
  }

  lemma OneMoreDefault(c: map<string, string>, ids: set<string>, reason: string, id: string)
    ensures var before := SetDefaults(c, ids, reason);
      SetDefaults(c, ids + {id}, reason) == if id in before then before else before[id := reason]
  {}

  lemma NothingCollected(s: Store, c: map<string, string>)
    ensures Collected(s, s, {}, c, c)
  {
    assert WithoutStraysOf(s, {}).hot == s.hot;
  }

  // One more expired row looked at.
  lemma OneMoreKey(s: Store, keys: set<Key>, k: Key)
    requires k in s.hot
    ensures var id := s.hot[k].artifactId;
      && (id !in s.records ==> WithoutStraysOf(s, keys + {k}) == Do(WithoutStraysOf(s, keys), DropHot(id)))
      && (id in s.records ==> WithoutStraysOf(s, keys + {k}) == WithoutStraysOf(s, keys))
      && IdsOf(s, keys + {k}) == IdsOf(s, keys) + if RowOf(s, k, id) then {id} else {}
  {
    var id := s.hot[k].artifactId;
    forall other ensures StrayAmong(s, keys + {k}, other) <==> StrayAmong(s, keys, other) || (id !in s.records && other == id) {
      if StrayAmong(s, keys + {k}, other) {
        var j :| j in keys + {k} && j in s.hot && s.hot[j].artifactId == other;
        assert j in keys || j == k;
      }
      if other == id {
        assert k in keys + {k};
      }
    }
    assert WithoutStraysOf(s, keys + {k}).hot ==
      if id in s.records then WithoutStraysOf(s, keys).hot else Do(WithoutStraysOf(s, keys), DropHot(id)).hot;
  }

  // ----- what an artifact can count on -----

  /** Once a writer has refused an artifact as retired, it is visible to nobody ever again. */
  lemma RefusedForever(s: Store, ws: seq<Write>, p: Policy, id: string, t: int)
    requires Legal(s, ws, p) && id in s.records && Gone(s.records[id])
    ensures !Visible(DoAll(s, ws), id, t)
  {
    NoResurrection(s, ws, p, id);
  }

  /** Whatever happens after its registration, an artifact is never visible once the hard cap has passed. */
  lemma RegisteredHardCap(s: Store, p: Policy, id: string, r: Record, source: Source, products: seq<Product>, verdict: Verdict, now: int,
                          ws: seq<Write>, t: int)
    requires Inv(s) && id !in s.records && Fresh(r, source, p)
    requires forall i :: 0 <= i < |products| ==> products[i].rep.artifactId == id
    requires Legal(s, RegisterWrites(s, p, id, r, source, products, verdict, now) + ws, p)
    ensures Visible(DoAll(s, RegisterWrites(s, p, id, r, source, products, verdict, now) + ws), id, t) ==> t < now + p.hardCap
  {
    var first := RegisterWrites(s, p, id, r, source, products, verdict, now);
    var s2 := DoAll(Do(s, PutRecord(id, r)), MiddleWrites(id, r, source, products, verdict));
    RegisterFollows(s, s2, p, id, r, source, products, verdict, now);
    DoJoined(s, first, ws, p);
    RunKeeps(s, first, p);
    HardCap(DoAll(s, first), ws, p, id, t);
  }
}
