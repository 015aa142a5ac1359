/** Which artifacts src/pal/artifact reaps, and what a recovery leaves: `reap_expired`, `reap_orphaned_managed_files`
    and `recover_lifecycle` as functions on the store. */
module ArtifactReaping {
  import opened Wrappers
  import opened Artifacts
  import opened ArtifactRecovery

  /** A filter of "" lets every scope through. */
  predicate InScope(scope: string, filter: string) {
    filter == "" || scope == filter
  }

  // ----- the repository's queries -----

  predicate RowOf(s: Store, k: Key, id: string) {
    k in s.hot && id in s.records && s.hot[k].artifactId == id && s.hot[k].scope == s.records[id].scope
  }

  predicate MissingRow(s: Store, id: string) {
    Live(s, id) && forall k :: k in s.hot ==> !RowOf(s, k, id)
  }

  predicate HasExpiredRow(s: Store, id: string, now: int) {
    exists k :: k in s.hot && RowOf(s, k, id) && s.hot[k].expires <= now
  }

  predicate PendingCleanup(s: Store, id: string) {
    id in s.records && s.records[id].status == Retiring
  }

  predicate Candidate(s: Store, filter: string, now: int, id: string) {
    && id in s.records && InScope(s.records[id].scope, filter)
    && (PendingCleanup(s, id) || MissingRow(s, id) || HasExpiredRow(s, id, now))
  }

  function CandidateReason(s: Store, id: string): string
    requires id in s.records
  {
    if PendingCleanup(s, id) then Reason(s.records[id], "")
    else if MissingRow(s, id) then "handler_missing"
    else "hot_ttl_expired"
  }

  function Candidates(s: Store, filter: string, now: int): map<string, string> {
    map id | id in s.records && Candidate(s, filter, now, id) :: CandidateReason(s, id)
  }

  /** An expired row of no record. */
  predicate Stray(s: Store, filter: string, now: int, id: string) {
    id !in s.records && exists k :: k in s.hot && s.hot[k].artifactId == id && InScope(s.hot[k].scope, filter) && s.hot[k].expires <= now
  }

  function WithoutStrays(s: Store, filter: string, now: int): Store {
    s.(hot := map k | k in s.hot && !Stray(s, filter, now, s.hot[k].artifactId) :: s.hot[k])
  }

  /** `reap_expired`. */
  function Reaped(s: Store, filter: string, now: int, outcome: string -> Removal): Store {
    RetireSet(WithoutStrays(s, filter, now), Candidates(s, filter, now), now, outcome)
  }

  /** The trees the orphan scan leaves alone. */
  predicate Expected(s: Store, key: Key) {
    key.id in s.records && s.records[key.id].status != Retired && Place(s, key.id) == key
  }

  /** `reap_orphaned_managed_files`; `scan` tells what a failed removal has lost. */
  function Scanned(s: Store, scan: Key -> Option<set<string>>): Store {
    s.(trees := map k | k in s.trees && (Expected(s, k) || scan(k).Some?) ::
      if Expected(s, k) || scan(k).None? then s.trees[k] else s.trees[k] - scan(k).value)
  }

  /** `recover_lifecycle`. */
  function Recovered(s: Store, now: int, scan: Key -> Option<set<string>>, outcome: string -> Removal): Store {
    Reaped(Scanned(Do(s, MigrateLegacy), scan), "", now, outcome)
  }

  ghost predicate AllSucceed(scan: Key -> Option<set<string>>, outcome: string -> Removal) {
    (forall k :: scan(k).None?) && (forall id :: outcome(id).BothGone?)
  }

  // ----- what a reaping does to one artifact -----

  lemma NoStrays(s: Store, filter: string, now: int)
    requires Filed(s)
    ensures WithoutStrays(s, filter, now) == s
  {
    forall k | k in s.hot ensures s.hot[k].artifactId in s.records {
      assert RowFiled(s, k);
    }
    assert WithoutStrays(s, filter, now).hot == s.hot;
  }

  lemma OneRow(s: Store, id: string, k: Key)
    requires Filed(s) && RowOf(s, k, id)
    ensures k == Place(s, id)
  {
    assert RowFiled(s, k);
  }

  lemma OwnRow(s: Store, id: string)
    requires Filed(s) && id in s.records && Place(s, id) in s.hot
    ensures RowOf(s, Place(s, id), id)
  {
    assert RowFiled(s, Place(s, id));
  }

  /** Among the live, exactly those are reaped that may not be used any more. */
  lemma CandidateIffNotVisible(s: Store, filter: string, now: int, id: string)
    requires Filed(s) && Live(s, id) && InScope(s.records[id].scope, filter)
    ensures Candidate(s, filter, now, id) <==> !Visible(s, id, now)
  {
    if Place(s, id) in s.hot {
      OwnRow(s, id);
    }
    if HasExpiredRow(s, id, now) {
      var k :| k in s.hot && RowOf(s, k, id) && s.hot[k].expires <= now;
      OneRow(s, id, k);
    }
    if !MissingRow(s, id) {
      var k :| k in s.hot && RowOf(s, k, id);
      OneRow(s, id, k);
    }
  }

  /** A visible artifact comes through a reaping untouched, whatever fails. */
  lemma ReapSpares(s: Store, filter: string, now: int, outcome: string -> Removal, id: string)
    requires Filed(s) && Visible(s, id, now)
    ensures var t, k := Reaped(s, filter, now, outcome), Place(s, id);
      && id in t.records && t.records[id] == s.records[id] && Visible(t, id, now)
      && k in t.hot && t.hot[k] == s.hot[k]
      && (k in t.trees <==> k in s.trees) && (k in s.trees ==> t.trees[k] == s.trees[k])
      && (forall r :: r in s.reps && s.reps[r].artifactId == id ==> r in t.reps && t.reps[r] == s.reps[r])
      && (forall r :: r in t.reps ==> r in s.reps && t.reps[r] == s.reps[r])
  {
    NoStrays(s, filter, now);
    CandidateIffNotVisible(s, "", now, id);
    assert !Candidate(s, filter, now, id);
    OwnRow(s, id);
  }

  /** What is reaped with success is settled: its record is complete, and nothing else of it is left. */
  lemma ReapSettles(s: Store, filter: string, now: int, outcome: string -> Removal, id: string)
    requires Filed(s) && Candidate(s, filter, now, id) && Succeeds(s.records[id], outcome(id))
    ensures var t := Reaped(s, filter, now, outcome);
      && id in t.records && Complete(t.records[id]) && t.records[id].metadata.ownedSource == ""
      && t.records[id].scope == s.records[id].scope
      && Bare(t, id) && Place(s, id) !in t.trees
  {
    NoStrays(s, filter, now);
    assert Cleaned(s, Candidates(s, filter, now), outcome, id);
    assert Retires(s, Candidates(s, filter, now), Place(s, id));
  }

  /** What is reaped says since when and why: for the first reason it was retired for, else because its row was missing,
      else because the row had expired. */
  lemma ReapReasons(s: Store, filter: string, now: int, outcome: string -> Removal, id: string)
    requires Filed(s) && Candidate(s, filter, now, id)
    ensures var r, t := s.records[id], Reaped(s, filter, now, outcome);
      && id in t.records && Gone(t.records[id]) && t.records[id].originalPath == t.records[id].normalizedPath == ""
      && t.records[id].metadata.retiredAt == (if r.metadata.retiredAt.Some? then r.metadata.retiredAt else Some(now))
      && t.records[id].metadata.reason ==
         (if r.metadata.reason != "" then r.metadata.reason
          else if r.status == Retiring then "handler_retired"
          else if !Gone(r) && Place(s, id) !in s.hot then "handler_missing"
          else "hot_ttl_expired")
  {
    NoStrays(s, filter, now);
    if Place(s, id) in s.hot {
      OwnRow(s, id);
    }
    forall k | RowOf(s, k, id) ensures k == Place(s, id) {
      OneRow(s, id, k);
    }
  }

  lemma ReapTakesSource(s: Store, filter: string, now: int, outcome: string -> Removal, id: string)
    requires Filed(s) && Candidate(s, filter, now, id) && outcome(id).BothGone? && s.records[id].metadata.ownedSource != ""
    ensures s.records[id].metadata.ownedSource !in Reaped(s, filter, now, outcome).sources
  {
    NoStrays(s, filter, now);
    assert SourceOf(s, Candidates(s, filter, now), outcome, s.records[id].metadata.ownedSource, id);
  }

  /** Reaping one scope leaves the artifacts of all others alone. */
  lemma ReapLeavesOtherScopes(s: Store, filter: string, now: int, outcome: string -> Removal, id: string)
    requires Filed(s) && id in s.records && filter != "" && s.records[id].scope != filter
    ensures var t, k := Reaped(s, filter, now, outcome), Place(s, id);
      && id in t.records && t.records[id] == s.records[id]
      && (k in t.hot <==> k in s.hot) && (k in s.hot ==> t.hot[k] == s.hot[k])
      && (k in t.trees <==> k in s.trees) && (k in s.trees ==> t.trees[k] == s.trees[k])
      && (forall r :: r in s.reps && s.reps[r].artifactId == id ==> r in t.reps && t.reps[r] == s.reps[r])
  {
    NoStrays(s, filter, now);
    assert !Candidate(s, filter, now, id);
    if Place(s, id) in s.hot {
      OwnRow(s, id);
    }
  }

  lemma ReapLeaves(s: Store, filter: string, now: int, outcome: string -> Removal, id: string)
    requires Filed(s) && id in s.records && !Candidate(s, filter, now, id)
    ensures var t := Reaped(s, filter, now, outcome);
      id in t.records && t.records[id] == s.records[id] && (Bare(t, id) <==> Bare(s, id))
  {
    NoStrays(s, filter, now);
    var t := Reaped(s, filter, now, outcome);
    assert !Cleaned(s, Candidates(s, filter, now), outcome, id);
    assert forall r :: r in s.reps && s.reps[r].artifactId == id ==> r in t.reps && t.reps[r] == s.reps[r];
    assert forall k :: k in s.hot && s.hot[k].artifactId == id ==> k in t.hot && t.hot[k] == s.hot[k];
  }

  // ----- recovery -----

  function Prepared(s: Store, scan: Key -> Option<set<string>>): Store {
    Scanned(Do(s, MigrateLegacy), scan)
  }

  lemma PreparedFiled(s: Store, scan: Key -> Option<set<string>>)
    requires Filed(s)
    ensures Filed(Prepared(s, scan))
  {
    var t := Prepared(s, scan);
    forall k | k in t.hot ensures RowFiled(t, k) {
      assert RowFiled(s, k);
    }
  }

  lemma PreparedSame(s: Store, scan: Key -> Option<set<string>>, id: string, now: int)
    requires id in s.records
    ensures var t := Prepared(s, scan);
      && id in t.records && t.records[id] == Migrated(s.records[id]) && Place(t, id) == Place(s, id)
      && t.reps == s.reps && t.hot == s.hot && t.sources == s.sources
      && (Visible(s, id, now) ==> Visible(t, id, now) && Expected(t, Place(t, id)))
      && (HasExpiredRow(t, id, now) <==> HasExpiredRow(s, id, now))
  {
    var t := Prepared(s, scan);
    if HasExpiredRow(t, id, now) {
      var k :| k in t.hot && RowOf(t, k, id) && t.hot[k].expires <= now;
      assert RowOf(s, k, id);
    }
    if HasExpiredRow(s, id, now) {
      var k :| k in s.hot && RowOf(s, k, id) && s.hot[k].expires <= now;
      assert RowOf(t, k, id);
    }
  }

  /** Either usable, or nothing but a complete record. */
  predicate Settled(s: Store, id: string, now: int) {
    Visible(s, id, now) || (id in s.records && Complete(s.records[id]) && Bare(s, id))
  }

  /** Recovery leaves what may still be used exactly as it was, whatever fails. */
  lemma RecoverySpares(s: Store, now: int, scan: Key -> Option<set<string>>, outcome: string -> Removal, id: string)
    requires Filed(s) && Visible(s, id, now)
    ensures var t, k := Recovered(s, now, scan, outcome), Place(s, id);
      && Visible(t, id, now) && t.records[id] == s.records[id] && t.hot[k] == s.hot[k]
      && FilesAt(t, k) == FilesAt(s, k)
      && (forall r :: r in s.reps && s.reps[r].artifactId == id ==> r in t.reps && t.reps[r] == s.reps[r])
  {
    PreparedFiled(s, scan);
    PreparedSame(s, scan, id, now);
    ReapSpares(Prepared(s, scan), "", now, outcome, id);
  }

  /** After a recovery whose removals succeed, the artifact is settled, unless its record was complete before and
      something other than an expired row was left of it. */
  lemma RecoverySettlesOne(s: Store, now: int, scan: Key -> Option<set<string>>, outcome: string -> Removal, id: string)
    requires Filed(s) && AllSucceed(scan, outcome) && id in s.records
    ensures Settled(Recovered(s, now, scan, outcome), id, now) <==>
            (Complete(s.records[id]) ==> Bare(s, id) || HasExpiredRow(s, id, now))
  {
    var t := Prepared(s, scan);
    PreparedFiled(s, scan);
    PreparedSame(s, scan, id, now);
    assert Bare(t, id) <==> Bare(s, id);
    if Live(t, id) {
      CandidateIffNotVisible(t, "", now, id);
      if Visible(t, id, now) {
        ReapSpares(t, "", now, outcome, id);
      } else {
        ReapSettles(t, "", now, outcome, id);
      }
    } else if Candidate(t, "", now, id) {
      ReapSettles(t, "", now, outcome, id);
    } else {
      ReapLeaves(t, "", now, outcome, id);
    }
  }

  /** After a recovery whose removals succeed, every managed tree belongs to an artifact that may be used. */
  lemma RecoveryTrees(s: Store, now: int, scan: Key -> Option<set<string>>, outcome: string -> Removal, k: Key)
    requires Filed(s) && AllSucceed(scan, outcome) && k in Recovered(s, now, scan, outcome).trees
    ensures var t := Recovered(s, now, scan, outcome);
      Visible(t, k.id, now) && k == Place(t, k.id)
  {
    var t := Prepared(s, scan);
    PreparedFiled(s, scan);
    NoStrays(t, "", now);
    assert Expected(t, k);
    if Candidate(t, "", now, k.id) {
      ReapSettles(t, "", now, outcome, k.id);
    } else {
      CandidateIffNotVisible(t, "", now, k.id);
      ReapSpares(t, "", now, outcome, k.id);
    }
  }

  /** From every state a run can have been stopped in, one recovery whose removals succeed settles every artifact,
      and leaves no managed tree but theirs. */
  lemma RecoverySettles(s: Store, now: int, scan: Key -> Option<set<string>>, outcome: string -> Removal)
    requires Inv(s) && AllSucceed(scan, outcome)
    ensures var t := Recovered(s, now, scan, outcome);
      && t.records.Keys == s.records.Keys
      && (forall id :: id in s.records ==> Settled(t, id, now))
      && (forall k :: k in t.trees ==> Visible(t, k.id, now) && k == Place(t, k.id))
  {
    var t := Recovered(s, now, scan, outcome);
    forall id | id in s.records ensures Settled(t, id, now) {
      assert Complete(s.records[id]) ==> Bare(s, id);
      RecoverySettlesOne(s, now, scan, outcome, id);
    }
    forall k | k in t.trees ensures Visible(t, k.id, now) && k == Place(t, k.id) {
      RecoveryTrees(s, now, scan, outcome, k);
    }
  }

  /** A source the recovered record owned is gone with it. */
  lemma RecoveryTakesSources(s: Store, now: int, scan: Key -> Option<set<string>>, outcome: string -> Removal, id: string)
    requires Inv(s) && AllSucceed(scan, outcome) && id in s.records
    requires s.records[id].metadata.ownedSource != "" && !Visible(s, id, now) && !Complete(s.records[id])
    ensures s.records[id].metadata.ownedSource !in Recovered(s, now, scan, outcome).sources
  {
    var t := Prepared(s, scan);
    PreparedFiled(s, scan);
    PreparedSame(s, scan, id, now);
    if Live(t, id) {
      CandidateIffNotVisible(t, "", now, id);
    }
    ReapTakesSource(t, "", now, outcome, id);
  }

  // ----- recoveries that fail -----

  /** Whatever fails, a tree that is left belongs to an artifact still known as live or retiring, or its own
      removal is what failed. */
  lemma TreesAccounted(s: Store, now: int, scan: Key -> Option<set<string>>, outcome: string -> Removal, k: Key)
    requires Filed(s) && k in Recovered(s, now, scan, outcome).trees
    ensures var t := Recovered(s, now, scan, outcome);
      || (Visible(t, k.id, now) && k == Place(t, k.id))
      || (PendingCleanup(t, k.id) && k == Place(t, k.id) && outcome(k.id).TreeStuck?)
      || scan(k).Some?
  {
    var t := Prepared(s, scan);
    PreparedFiled(s, scan);
    NoStrays(t, "", now);
    if Expected(t, k) {
      if Candidate(t, "", now, k.id) {
        assert Retires(t, Candidates(t, "", now), k);
      } else {
        CandidateIffNotVisible(t, "", now, k.id);
        ReapSpares(t, "", now, outcome, k.id);
      }
    }
  }

  /** Reaping keeps the invariant. */
  lemma ReapKeeps(s: Store, filter: string, now: int, outcome: string -> Removal)
    requires Inv(s)
    ensures Inv(Reaped(s, filter, now, outcome))
  {
    var t := Reaped(s, filter, now, outcome);
    NoStrays(s, filter, now);
    forall k | k in t.hot ensures RowFiled(t, k) {
      assert RowFiled(s, k);
    }
    forall id | id in t.records && Complete(t.records[id]) ensures Bare(t, id) {
      if Candidate(s, filter, now, id) {
        ReapSettles(s, filter, now, outcome, id);
      } else {
        ReapLeaves(s, filter, now, outcome, id);
      }
    }
    forall id | id in t.records && Live(t, id) ensures BytesThere(t, id, t.records[id]) {
      ReapLeavesFiles(s, filter, now, outcome, id);
    }
    forall r | r in t.reps && Live(t, t.reps[r].artifactId) ensures FileThere(t, t.reps[r]) {
      assert FileThere(s, s.reps[r]);
      ReapLeavesFiles(s, filter, now, outcome, t.reps[r].artifactId);
    }
  }

  // What is live after a reaping was not touched by it.
  lemma ReapLeavesFiles(s: Store, filter: string, now: int, outcome: string -> Removal, id: string)
    requires Filed(s) && Live(Reaped(s, filter, now, outcome), id)
    ensures var t := Reaped(s, filter, now, outcome);
      Live(s, id) && t.records[id] == s.records[id] && FilesAt(t, Place(s, id)) == FilesAt(s, Place(s, id))
  {
    NoStrays(s, filter, now);
    assert !Candidate(s, filter, now, id);
  }

  lemma PreparedKeeps(s: Store, scan: Key -> Option<set<string>>)
    requires Inv(s)
    ensures Inv(Prepared(s, scan))
  {
    var t := Prepared(s, scan);
    PreparedFiled(s, scan);
    forall id | id in t.records && Complete(t.records[id]) ensures Bare(t, id) {
      assert Complete(s.records[id]);
    }
    forall id | id in t.records && Live(t, id) ensures BytesThere(t, id, t.records[id]) {
      PreparedLeavesFiles(s, scan, id);
    }
    forall r | r in t.reps && Live(t, t.reps[r].artifactId) ensures FileThere(t, t.reps[r]) {
      PreparedLeavesFiles(s, scan, t.reps[r].artifactId);
      assert FileThere(s, s.reps[r]);
    }
  }

  lemma PreparedLeavesFiles(s: Store, scan: Key -> Option<set<string>>, id: string)
    requires Live(Prepared(s, scan), id)
    ensures var t := Prepared(s, scan);
      Live(s, id) && t.records[id] == s.records[id] && FilesAt(t, Place(s, id)) == FilesAt(s, Place(s, id))
  {
    assert Expected(Do(s, MigrateLegacy), Place(s, id));
  }

  lemma RecoveryKeeps(s: Store, now: int, scan: Key -> Option<set<string>>, outcome: string -> Removal)
    requires Inv(s)
    ensures Inv(Recovered(s, now, scan, outcome)) && Recovered(s, now, scan, outcome).records.Keys == s.records.Keys
  {
    PreparedKeeps(s, scan);
    ReapKeeps(Prepared(s, scan), "", now, outcome);
  }

  /** A recovery that failed anywhere is made good by a later one that does not. */
  lemma RetrySettles(s: Store, now: int, scan: Key -> Option<set<string>>, outcome: string -> Removal,
                     later: int, scanAgain: Key -> Option<set<string>>, outcomeAgain: string -> Removal)
    requires Inv(s) && AllSucceed(scanAgain, outcomeAgain)
    ensures var t := Recovered(Recovered(s, now, scan, outcome), later, scanAgain, outcomeAgain);
      && t.records.Keys == s.records.Keys
      && (forall id :: id in s.records ==> Settled(t, id, later))
      && (forall k :: k in t.trees ==> Visible(t, k.id, later) && k == Place(t, k.id))
  {
    RecoveryKeeps(s, now, scan, outcome);
    RecoverySettles(Recovered(s, now, scan, outcome), later, scanAgain, outcomeAgain);
  }

  lemma SettledPrepared(s: Store, now: int, scan: Key -> Option<set<string>>)
    requires forall id :: id in s.records ==> Settled(s, id, now)
    requires forall k :: k in s.trees ==> Visible(s, k.id, now) && k == Place(s, k.id)
    ensures Prepared(s, scan) == s
  {
    var t := Prepared(s, scan);
    forall id | id in s.records ensures t.records[id] == s.records[id] {
      assert Settled(s, id, now);
    }
    assert t.records == s.records;
    forall k | k in s.trees ensures Expected(Do(s, MigrateLegacy), k) {
      assert Visible(s, k.id, now) && k == Place(s, k.id);
    }
    assert t.trees == s.trees;
  }

  lemma SettledNotCandidate(s: Store, now: int, id: string)
    requires Inv(s) && Settled(s, id, now)
    ensures !Candidate(s, "", now, id)
  {
    if Visible(s, id, now) {
      CandidateIffNotVisible(s, "", now, id);
    }
  }

  /** Where everything is settled there is nothing to recover. */
  lemma SettledRecovers(s: Store, now: int, scan: Key -> Option<set<string>>, outcome: string -> Removal)
    requires Inv(s)
    requires forall id :: id in s.records ==> Settled(s, id, now)
    requires forall k :: k in s.trees ==> Visible(s, k.id, now) && k == Place(s, k.id)
    ensures Recovered(s, now, scan, outcome) == s
  {
    SettledPrepared(s, now, scan);
    SettledReaps(s, now, outcome);
  }

  lemma SettledReaps(s: Store, now: int, outcome: string -> Removal)
    requires Inv(s)
    requires forall id :: id in s.records ==> Settled(s, id, now)
    ensures Reaped(s, "", now, outcome) == s
  {
    NoCandidates(s, now);
    NoStrays(s, "", now);
    RetireNone(s, now, outcome);
  }

  lemma NoCandidates(s: Store, now: int)
    requires Inv(s)
    requires forall id :: id in s.records ==> Settled(s, id, now)
    ensures Candidates(s, "", now) == map[]
  {
    forall id | id in s.records ensures !Candidate(s, "", now, id) {
      SettledNotCandidate(s, now, id);
    }
  }

  // ----- the gap between a check and the refresh after it -----

  /** An access checks the artifact under the manager's lock and refreshes its hot row outside it.  When another
      thread retires the artifact in between, the refresh files a fresh row for a complete record, and no recovery
      takes it back before it expires. */
  lemma RacingRefreshLeavesRow(s: Store, p: Policy, id: string, now: int, scan: Key -> Option<set<string>>, outcome: string -> Removal)
    requires Inv(s) && AllSucceed(scan, outcome) && id in s.records && Complete(s.records[id])
    ensures var t := Do(s, PutHot(Place(s, id), RefreshedRow(s, p, id, s.records[id].scope, now), now));
      Settled(Recovered(t, now, scan, outcome), id, now) <==> p.refresh <= 0 || p.hardCap <= 0
  {
    var key, row := Place(s, id), RefreshedRow(s, p, id, s.records[id].scope, now);
    var t := Do(s, PutHot(key, row, now));
    assert Bare(s, id);
    forall k | k in t.hot ensures RowFiled(t, k) {
      if k != key {
        assert RowFiled(s, k);
      }
    }
    assert RowOf(t, key, id);
    RecoverySettlesOne(t, now, scan, outcome, id);
    if HasExpiredRow(t, id, now) {
      var k :| k in t.hot && RowOf(t, k, id) && t.hot[k].expires <= now;
      OneRow(t, id, k);
    }
  }
}
