/** Retirement, reaping and recovery of src/pal/artifact/service.py, as functions on the store.

    `RetireWrites` is what the manager writes for one artifact, in order; `RetireSet` is what it comes to for a whole
    set of artifacts, in no particular order.  Whether a removal succeeds is up to the file system: it is a parameter. */
module ArtifactRecovery {
  import opened Wrappers
  import opened Artifacts

  /** How the removal of an artifact's files ends.  A stuck tree may have lost some of its files. */
  datatype Removal = BothGone | TreeStuck(lost: set<string>) | SourceStuck

  // ----- retiring one artifact -----

  function Reason(r: Record, reason: string): string {
    if r.metadata.reason != "" then r.metadata.reason else if reason != "" then reason else "handler_retired"
  }

  function Tombstone(r: Record, reason: string, now: int): Record {
    r.(originalPath := "", normalizedPath := "", status := Retiring,
       metadata := Metadata(Some(if r.metadata.retiredAt.Some? then r.metadata.retiredAt.value else now), Reason(r, reason),
                            CleanupPending, false, r.metadata.ownedSource, ""))
  }

  function Finished(tombstone: Record): Record {
    tombstone.(status := Retired, metadata := tombstone.metadata.(cleanup := CleanupComplete, ownedSource := ""))
  }

  function Deferred(tombstone: Record): Record {
    tombstone.(metadata := tombstone.metadata.(cleanupError := true))
  }

  /** Without an owned source there is only a tree to remove. */
  predicate Succeeds(r: Record, removal: Removal) {
    removal.BothGone? || (removal.SourceStuck? && r.metadata.ownedSource == "")
  }

  function RemovalWrites(s: Store, id: string, removal: Removal): seq<Write>
    requires id in s.records
  {
    if removal.TreeStuck? then [ShrinkTree(Place(s, id), removal.lost)]
    else if s.records[id].metadata.ownedSource != "" && removal.BothGone? then [DropTree(Place(s, id)), DropSource(id)]
    else [DropTree(Place(s, id))]
  }

  function ClosingWrites(r: Record, id: string, tombstone: Record, removal: Removal): seq<Write> {
    if Succeeds(r, removal) then [DropReps(id), DropHot(id), PutRecord(id, Finished(tombstone))]
    else [PutRecord(id, Deferred(tombstone))]
  }

  function RetireWrites(s: Store, id: string, reason: string, now: int, removal: Removal): seq<Write> {
    if id !in s.records then [DropHot(id)] else
      var r := s.records[id];
      var tombstone := Tombstone(r, reason, now);
      [PutRecord(id, tombstone)] + RemovalWrites(s, id, removal) + ClosingWrites(r, id, tombstone, removal)
  }

  /** The record retirement leaves. */
  function After(r: Record, reason: string, now: int, removal: Removal): Record {
    if Succeeds(r, removal) then Finished(Tombstone(r, reason, now)) else Deferred(Tombstone(r, reason, now))
  }

  // ----- retiring a set of artifacts -----

  predicate Cleaned(s: Store, reasons: map<string, string>, outcome: string -> Removal, id: string) {
    id in reasons && id in s.records && Succeeds(s.records[id], outcome(id))
  }

  predicate Retires(s: Store, reasons: map<string, string>, key: Key) {
    key.id in reasons && key.id in s.records && Place(s, key.id) == key
  }

  predicate TreeTaken(s: Store, reasons: map<string, string>, outcome: string -> Removal, key: Key) {
    Retires(s, reasons, key) && !outcome(key.id).TreeStuck?
  }

  function TreeAfter(s: Store, reasons: map<string, string>, outcome: string -> Removal, key: Key): set<string>
    requires key in s.trees
  {
    if Retires(s, reasons, key) && outcome(key.id).TreeStuck? then s.trees[key] - outcome(key.id).lost else s.trees[key]
  }

  predicate SourceOf(s: Store, reasons: map<string, string>, outcome: string -> Removal, source: string, id: string) {
    id in reasons && id in s.records && outcome(id).BothGone? && source != "" && s.records[id].metadata.ownedSource == source
  }

  predicate SourceTaken(s: Store, reasons: map<string, string>, outcome: string -> Removal, source: string) {
    exists id :: id in reasons && SourceOf(s, reasons, outcome, source, id)
  }

  function RecordAfter(s: Store, reasons: map<string, string>, now: int, outcome: string -> Removal, id: string): Record
    requires id in s.records
  {
    if id in reasons then After(s.records[id], reasons[id], now, outcome(id)) else s.records[id]
  }

  function RecordsAfter(s: Store, reasons: map<string, string>, now: int, outcome: string -> Removal): map<string, Record> {
    map id | id in s.records :: RecordAfter(s, reasons, now, outcome, id)
  }

  function RepsAfter(s: Store, reasons: map<string, string>, outcome: string -> Removal): map<string, Representation> {
    map r | r in s.reps && !Cleaned(s, reasons, outcome, s.reps[r].artifactId) :: s.reps[r]
  }

  function HotAfter(s: Store, reasons: map<string, string>, outcome: string -> Removal): map<Key, HotRow> {
    map k | k in s.hot && !Cleaned(s, reasons, outcome, s.hot[k].artifactId) :: s.hot[k]
  }

  function TreesAfter(s: Store, reasons: map<string, string>, outcome: string -> Removal): map<Key, set<string>> {
    map k | k in s.trees && !TreeTaken(s, reasons, outcome, k) :: TreeAfter(s, reasons, outcome, k)
  }

  function SourcesAfter(s: Store, reasons: map<string, string>, outcome: string -> Removal): set<string> {
    set x | x in s.sources && !SourceTaken(s, reasons, outcome, x)
  }

  function RetireSet(s: Store, reasons: map<string, string>, now: int, outcome: string -> Removal): Store {
    Store(RecordsAfter(s, reasons, now, outcome), RepsAfter(s, reasons, outcome), HotAfter(s, reasons, outcome),
          TreesAfter(s, reasons, outcome), SourcesAfter(s, reasons, outcome))
  }

  /** What the writes for one more artifact come to. */
  function RetireOne(s: Store, id: string, reason: string, now: int, removal: Removal): Store
    requires id in s.records
  {
    var r, key := s.records[id], Place(s, id);
    Store(
      s.records[id := After(r, reason, now, removal)],
      if Succeeds(r, removal) then Do(s, DropReps(id)).reps else s.reps,
      if Succeeds(r, removal) then Do(s, DropHot(id)).hot else s.hot,
      if removal.TreeStuck? then Do(s, ShrinkTree(key, removal.lost)).trees else s.trees - {key},
      if removal.BothGone? && r.metadata.ownedSource != "" then s.sources - {r.metadata.ownedSource} else s.sources)
  }

  // The removals, after the tombstone is written.
  lemma RemovalLegal(s: Store, id: string, removal: Removal, p: Policy)
    requires id in s.records && Gone(s.records[id])
    ensures Legal(s, RemovalWrites(s, id, removal), p)
    ensures DoAll(s, RemovalWrites(s, id, removal)) == s.(
      trees := if removal.TreeStuck? then Do(s, ShrinkTree(Place(s, id), removal.lost)).trees else s.trees - {Place(s, id)},
      sources := if removal.BothGone? && s.records[id].metadata.ownedSource != "" then s.sources - {s.records[id].metadata.ownedSource}
                 else s.sources)
  {
    if removal.TreeStuck? {
      SingleWrite(s, ShrinkTree(Place(s, id), removal.lost), p);
    } else {
      SingleWrite(s, DropTree(Place(s, id)), p);
      TwoWrites(s, DropTree(Place(s, id)), DropSource(id), p);
    }
  }

  /** A tombstone: no paths, and when and why the artifact was retired. */
  predicate Buried(r: Record) {
    r.status == Retiring && r.originalPath == "" && r.normalizedPath == "" && r.metadata.retiredAt.Some? && r.metadata.reason != ""
  }

  /** A second retirement keeps the time and the reason of the first. */
  lemma RetiredTwice(r: Record, reason: string, now: int, again: string, later: int)
    ensures var once := Tombstone(r, reason, now);
      Buried(once) && Tombstone(once, again, later) == once && FirstRetirement(r.metadata, once.metadata)
  {}

  lemma ClosingLegal(s: Store, id: string, r: Record, p: Policy)
    requires id in s.records && Buried(s.records[id])
    requires r.scope == s.records[id].scope && r.created == s.records[id].created && Complete(r)
    requires r == s.records[id].(status := r.status, metadata := r.metadata)
    requires r.metadata.retiredAt == s.records[id].metadata.retiredAt && r.metadata.reason == s.records[id].metadata.reason
    ensures var ws := [DropReps(id), DropHot(id), PutRecord(id, r)];
      && Legal(s, ws, p)
      && DoAll(s, ws) == Store(s.records[id := r], Do(s, DropReps(id)).reps, Do(s, DropHot(id)).hot, s.trees, s.sources)
  {
    ThreeWrites(s, DropReps(id), DropHot(id), PutRecord(id, r), p);
  }

  lemma ClosesLegal(s: Store, r: Record, id: string, tombstone: Record, removal: Removal, p: Policy)
    requires id in s.records && s.records[id] == tombstone && Buried(tombstone)
    ensures Legal(s, ClosingWrites(r, id, tombstone, removal), p)
    ensures DoAll(s, ClosingWrites(r, id, tombstone, removal)) ==
      (if Succeeds(r, removal) then
         Store(s.records[id := Finished(tombstone)], Do(s, DropReps(id)).reps, Do(s, DropHot(id)).hot, s.trees, s.sources)
       else s.(records := s.records[id := Deferred(tombstone)]))
  {
    if Succeeds(r, removal) {
      ClosingLegal(s, id, Finished(tombstone), p);
    } else {
      SingleWrite(s, PutRecord(id, Deferred(tombstone)), p);
    }
  }

  lemma RemovalSame(s: Store, t: Store, id: string, removal: Removal)
    requires id in s.records && id in t.records && t.records[id].scope == s.records[id].scope
    requires t.records[id].metadata.ownedSource == s.records[id].metadata.ownedSource
    ensures RemovalWrites(t, id, removal) == RemovalWrites(s, id, removal)
  {}

  // The first stage: the tombstone.
  lemma BuryAllowed(s: Store, id: string, reason: string, now: int, p: Policy)
    requires id in s.records
    ensures var tombstone := Tombstone(s.records[id], reason, now);
      && Buried(tombstone) && tombstone.scope == s.records[id].scope
      && tombstone.metadata.ownedSource == s.records[id].metadata.ownedSource
      && Allowed(s, PutRecord(id, tombstone), p)
  {}

  // The three stages, one after the other.
  lemma RetireStages(s: Store, id: string, reason: string, now: int, removal: Removal, p: Policy)
    requires id in s.records
    ensures var r := s.records[id];
      var tombstone := Tombstone(r, reason, now);
      var s1 := Do(s, PutRecord(id, tombstone));
      var s2 := DoAll(s1, RemovalWrites(s, id, removal));
      && Allowed(s, PutRecord(id, tombstone), p)
      && Legal(s1, RemovalWrites(s, id, removal), p)
      && Legal(s2, ClosingWrites(r, id, tombstone, removal), p)
      && DoAll(s2, ClosingWrites(r, id, tombstone, removal)) == RetireOne(s, id, reason, now, removal)
  {
    var r := s.records[id];
    var tombstone := Tombstone(r, reason, now);
    BuryAllowed(s, id, reason, now, p);
    LaterStages(s, Do(s, PutRecord(id, tombstone)), id, tombstone, removal, p);
    assert s.records[id := tombstone][id := After(r, reason, now, removal)] == s.records[id := After(r, reason, now, removal)];
  }

  // The store after the removals.
  function Emptied(s: Store, s1: Store, id: string, removal: Removal): Store
    requires id in s.records
  {
    s1.(trees := if removal.TreeStuck? then Do(s, ShrinkTree(Place(s, id), removal.lost)).trees else s.trees - {Place(s, id)},
        sources := if removal.BothGone? && s.records[id].metadata.ownedSource != "" then s.sources - {s.records[id].metadata.ownedSource}
                   else s.sources)
  }

  lemma SecondStage(s: Store, s1: Store, id: string, tombstone: Record, removal: Removal, p: Policy)
    requires id in s.records && s1 == Do(s, PutRecord(id, tombstone)) && Buried(tombstone)
    requires tombstone.scope == s.records[id].scope && tombstone.metadata.ownedSource == s.records[id].metadata.ownedSource
    ensures Legal(s1, RemovalWrites(s, id, removal), p)
    ensures DoAll(s1, RemovalWrites(s, id, removal)) == Emptied(s, s1, id, removal)
  {
    RemovalSame(s, s1, id, removal);
    RemovalLegal(s1, id, removal, p);
  }

  lemma LaterStages(s: Store, s1: Store, id: string, tombstone: Record, removal: Removal, p: Policy)
    requires id in s.records && s1 == Do(s, PutRecord(id, tombstone)) && Buried(tombstone)
    requires tombstone.scope == s.records[id].scope && tombstone.metadata.ownedSource == s.records[id].metadata.ownedSource
    ensures var r := s.records[id];
      var s2 := DoAll(s1, RemovalWrites(s, id, removal));
      && Legal(s1, RemovalWrites(s, id, removal), p)
      && Legal(s2, ClosingWrites(r, id, tombstone, removal), p)
      && DoAll(s2, ClosingWrites(r, id, tombstone, removal)) == Store(
           s1.records[id := if Succeeds(r, removal) then Finished(tombstone) else Deferred(tombstone)],
           if Succeeds(r, removal) then Do(s, DropReps(id)).reps else s.reps,
           if Succeeds(r, removal) then Do(s, DropHot(id)).hot else s.hot,
           Emptied(s, s1, id, removal).trees, Emptied(s, s1, id, removal).sources)
  {
    SecondStage(s, s1, id, tombstone, removal, p);
    ClosesLegal(Emptied(s, s1, id, removal), s.records[id], id, tombstone, removal, p);
  }

  /** The writes of a retirement are legal, whatever the removals do, and come to `RetireOne`. */
  lemma RetireLegal(s: Store, id: string, reason: string, now: int, removal: Removal, p: Policy)
    requires id in s.records
    ensures Legal(s, RetireWrites(s, id, reason, now, removal), p)
    ensures DoAll(s, RetireWrites(s, id, reason, now, removal)) == RetireOne(s, id, reason, now, removal)
  {
    var r := s.records[id];
    var tombstone := Tombstone(r, reason, now);
    SingleWrite(s, PutRecord(id, tombstone), p);
    RetireStages(s, id, reason, now, removal, p);
    Joined(s, [PutRecord(id, tombstone)], RemovalWrites(s, id, removal), ClosingWrites(r, id, tombstone, removal), p);
  }

  lemma Joined(s: Store, us: seq<Write>, vs: seq<Write>, ws: seq<Write>, p: Policy)
    ensures DoAll(s, us + vs + ws) == DoAll(DoAll(DoAll(s, us), vs), ws)
    ensures Legal(s, us + vs + ws, p) <==> Legal(s, us, p) && Legal(DoAll(s, us), vs, p) && Legal(DoAll(DoAll(s, us), vs), ws, p)
  {
    DoJoined(s, us, vs, p);
    DoJoined(s, us + vs, ws, p);
  }

  lemma MoreRecords(s: Store, reasons: map<string, string>, now: int, outcome: string -> Removal, id: string, reason: string)
    requires id in s.records && id !in reasons
    ensures RecordsAfter(s, reasons, now, outcome)[id := After(s.records[id], reason, now, outcome(id))]
            == RecordsAfter(s, reasons[id := reason], now, outcome)
  {}

  lemma MoreCleaned(s: Store, reasons: map<string, string>, outcome: string -> Removal, id: string, reason: string, other: string)
    requires id in s.records && id !in reasons
    ensures Cleaned(s, reasons[id := reason], outcome, other) <==>
      Cleaned(s, reasons, outcome, other) || (other == id && Succeeds(s.records[id], outcome(id)))
  {}

  lemma MoreReps(s: Store, reasons: map<string, string>, now: int, outcome: string -> Removal, id: string, reason: string)
    requires id in s.records && id !in reasons
    ensures RetireOne(RetireSet(s, reasons, now, outcome), id, reason, now, outcome(id)).reps
            == RepsAfter(s, reasons[id := reason], outcome)
  {
    var after := RepsAfter(s, reasons[id := reason], outcome);
    var one := RetireOne(RetireSet(s, reasons, now, outcome), id, reason, now, outcome(id)).reps;
    forall r ensures r in one <==> r in after {
      if r in s.reps {
        MoreCleaned(s, reasons, outcome, id, reason, s.reps[r].artifactId);
      }
    }
  }

  lemma MoreHot(s: Store, reasons: map<string, string>, now: int, outcome: string -> Removal, id: string, reason: string)
    requires id in s.records && id !in reasons
    ensures RetireOne(RetireSet(s, reasons, now, outcome), id, reason, now, outcome(id)).hot
            == HotAfter(s, reasons[id := reason], outcome)
  {
    var after := HotAfter(s, reasons[id := reason], outcome);
    var one := RetireOne(RetireSet(s, reasons, now, outcome), id, reason, now, outcome(id)).hot;
    forall k ensures k in one <==> k in after {
      if k in s.hot {
        MoreCleaned(s, reasons, outcome, id, reason, s.hot[k].artifactId);
      }
    }
  }

  lemma MoreRetires(s: Store, reasons: map<string, string>, id: string, reason: string, k: Key)
    requires id in s.records && id !in reasons
    ensures Retires(s, reasons[id := reason], k) <==> Retires(s, reasons, k) || k == Place(s, id)
    ensures !Retires(s, reasons, Place(s, id))
  {}

  // One more artifact with a tree that goes, or is stuck.
  lemma TreesWithout(s: Store, reasons: map<string, string>, outcome: string -> Removal, id: string, reason: string)
    requires id in s.records && id !in reasons && !outcome(id).TreeStuck?
    ensures TreesAfter(s, reasons, outcome) - {Place(s, id)} == TreesAfter(s, reasons[id := reason], outcome)
  {
    var before, after := TreesAfter(s, reasons, outcome) - {Place(s, id)}, TreesAfter(s, reasons[id := reason], outcome);
    forall k ensures k in before <==> k in after
      ensures k in before ==> before[k] == after[k]
    {
      MoreRetires(s, reasons, id, reason, k);
    }
  }

  lemma TreesStuck(s: Store, reasons: map<string, string>, outcome: string -> Removal, id: string, reason: string)
    requires id in s.records && id !in reasons && outcome(id).TreeStuck?
    ensures var key, trees := Place(s, id), TreesAfter(s, reasons, outcome);
      TreesAfter(s, reasons[id := reason], outcome) == if key in trees then trees[key := trees[key] - outcome(id).lost] else trees
  {
    var key, trees := Place(s, id), TreesAfter(s, reasons, outcome);
    var before := if key in trees then trees[key := trees[key] - outcome(id).lost] else trees;
    var after := TreesAfter(s, reasons[id := reason], outcome);
    forall k ensures k in before <==> k in after
      ensures k in before ==> before[k] == after[k]
    {
      MoreRetires(s, reasons, id, reason, k);
    }
  }

  lemma MoreTrees(s: Store, reasons: map<string, string>, now: int, outcome: string -> Removal, id: string, reason: string)
    requires id in s.records && id !in reasons
    ensures RetireOne(RetireSet(s, reasons, now, outcome), id, reason, now, outcome(id)).trees
            == TreesAfter(s, reasons[id := reason], outcome)
  {
    if outcome(id).TreeStuck? {
      TreesStuck(s, reasons, outcome, id, reason);
    } else {
      TreesWithout(s, reasons, outcome, id, reason);
    }
  }

  lemma MoreSources(s: Store, reasons: map<string, string>, now: int, outcome: string -> Removal, id: string, reason: string)
    requires id in s.records && id !in reasons
    ensures RetireOne(RetireSet(s, reasons, now, outcome), id, reason, now, outcome(id)).sources
            == RetireSet(s, reasons[id := reason], now, outcome).sources
  {
    var more := reasons[id := reason];
    forall x ensures SourceTaken(s, more, outcome, x) <==> SourceTaken(s, reasons, outcome, x) || SourceOf(s, more, outcome, x, id) {
      if SourceTaken(s, reasons, outcome, x) {
        var other :| other in reasons && SourceOf(s, reasons, outcome, x, other);
        assert other in more && SourceOf(s, more, outcome, x, other);
      } else if SourceTaken(s, more, outcome, x) {
        var other :| other in more && SourceOf(s, more, outcome, x, other);
        assert other != id ==> SourceOf(s, reasons, outcome, x, other);
      }
    }
  }

  /** One more artifact retired: the order of retirement does not matter. */
  lemma RetireOneMore(s: Store, reasons: map<string, string>, now: int, outcome: string -> Removal, id: string, reason: string)
    requires id in s.records && id !in reasons
    ensures RetireOne(RetireSet(s, reasons, now, outcome), id, reason, now, outcome(id))
            == RetireSet(s, reasons[id := reason], now, outcome)
  {
    MoreRecords(s, reasons, now, outcome, id, reason);
    MoreReps(s, reasons, now, outcome, id, reason);
    MoreHot(s, reasons, now, outcome, id, reason);
    MoreTrees(s, reasons, now, outcome, id, reason);
    MoreSources(s, reasons, now, outcome, id, reason);
  }

  lemma RetireNone(s: Store, now: int, outcome: string -> Removal)
    ensures RetireSet(s, map[], now, outcome) == s
  {
    var t := RetireSet(s, map[], now, outcome);
    assert t.records == s.records && t.reps == s.reps && t.hot == s.hot && t.trees == s.trees && t.sources == s.sources;
  }
}
