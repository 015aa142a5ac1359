/** The store of src/pal/artifact: record, representation and hot rows, managed trees and owned source trees, and the
    single writes by which the manager changes it.

    The process may stop between any two writes, so what a crash can leave behind is what a prefix of a legal
    sequence of writes leaves behind. */
module Artifacts {
  import opened Wrappers

  // ----- rows -----

  datatype Status = Pending | Ready | Partial | Failed | Retiring | Retired

  datatype Cleanup = Unmanaged | CleanupPending | CleanupComplete

  datatype Kind = Image | NotImage

  datatype RepresentationKind = NormalizedImage | PageImage | NotVisual

  datatype Metadata = Metadata(retiredAt: Option<int>, reason: string, cleanup: Cleanup, cleanupError: bool,
                               ownedSource: string, other: string)

  datatype Record = Record(scope: string, turn: string, kind: Kind, created: int, originalPath: string,
                           normalizedPath: string, status: Status, metadata: Metadata)

  /** `path` is relative to the managed tree of the artifact; "" means none. */
  datatype Representation = Representation(artifactId: string, kind: RepresentationKind, path: string, base64Size: Option<int>)

  /** Times are the microseconds of IsoTime.Ticks, whose texts compare alike. */
  datatype HotRow = HotRow(artifactId: string, scope: string, lastAccessed: int, expires: int, hardExpires: int, accesses: nat)

  /** The identity of a hot row, and the place of a managed tree. */
  datatype Key = Key(dir: string, id: string)

  datatype Policy = Policy(refresh: int, hardCap: int, maxInlineImages: int, inlineBudget: int, maxOriginal: int)

  datatype Store = Store(records: map<string, Record>, reps: map<string, Representation>, hot: map<Key, HotRow>,
                         trees: map<Key, set<string>>, sources: set<string>)

  const Empty := Store(map[], map[], map[], map[], {})

  predicate Kept(c: char) {
    'a' <= c <= 'z' || 'A' <= c <= 'Z' || '0' <= c <= '9' || c == '-' || c == '_' || c >= '\U{80}'
  }

  /** The directory of a scope.  Different scopes may share one. */
  function SafeScope(scope: string): string {
    if scope == "" then "scope" else
      var cleaned := seq(|scope|, i requires 0 <= i < |scope| => if Kept(scope[i]) then scope[i] else '_');
      if |cleaned| <= 96 then cleaned else cleaned[..96]
  }

  /** A directory name is never empty, has at most 96 characters, all of them kept, and is the scope itself where it can be. */
  lemma ScopeNames(scope: string)
    ensures 0 < |SafeScope(scope)| <= 96
    ensures forall i :: 0 <= i < |SafeScope(scope)| ==> Kept(SafeScope(scope)[i])
    ensures 0 < |scope| <= 96 && (forall i :: 0 <= i < |scope| ==> Kept(scope[i])) ==> SafeScope(scope) == scope
    ensures scope != "" ==> forall i :: 0 <= i < |SafeScope(scope)| ==>
      i < |scope| && SafeScope(scope)[i] == if Kept(scope[i]) then scope[i] else '_'
  {}

  function KeyOf(scope: string, id: string): (key: Key)
    ensures key.dir == SafeScope(scope) && key.id == id
  {
    Key(SafeScope(scope), id)
  }

  predicate Gone(r: Record) {
    r.status == Retiring || r.status == Retired
  }

  predicate Complete(r: Record) {
    r.status == Retired && r.metadata.cleanup == CleanupComplete
  }

  predicate Live(s: Store, id: string) {
    id in s.records && !Gone(s.records[id])
  }

  /** The place of the artifact's managed tree, and the identity of its hot row. */
  function Place(s: Store, id: string): Key
    requires id in s.records
  {
    KeyOf(s.records[id].scope, id)
  }

  /** The handler may still be used: live, with a hot row that has not expired. */
  predicate Visible(s: Store, id: string, now: int) {
    Live(s, id) && Place(s, id) in s.hot && s.hot[Place(s, id)].expires > now
  }

  predicate NoReps(s: Store, id: string) {
    forall r :: r in s.reps ==> s.reps[r].artifactId != id
  }

  predicate NoRows(s: Store, id: string) {
    forall k :: k in s.hot ==> s.hot[k].artifactId != id
  }

  // ----- writes -----

  datatype Write =
    | PutRecord(id: string, record: Record)
    | PutRep(repId: string, rep: Representation)
    | PutHot(key: Key, row: HotRow, checked: int)   // `checked` is when the access before the renewal was granted
    | PutFile(key: Key, file: string)
    | DropReps(id: string)
    | DropHot(id: string)
    | DropTree(key: Key)
    | ShrinkTree(key: Key, lost: set<string>)   // a removal that failed half way
    | DropSource(id: string)
    | MigrateLegacy

  function Migrated(r: Record): Record {
    if r.status == Retired && r.metadata.cleanup != CleanupComplete then r.(status := Retiring) else r
  }

  function FilesAt(s: Store, key: Key): set<string> {
    if key in s.trees then s.trees[key] else {}
  }

  function Do(s: Store, w: Write): Store {
    match w
    case PutRecord(id, record) => s.(records := s.records[id := record])
    case PutRep(repId, rep) => s.(reps := s.reps[repId := rep])
    case PutHot(key, row, _) => s.(hot := s.hot[key := row])
    case PutFile(key, file) => s.(trees := s.trees[key := FilesAt(s, key) + {file}])
    case DropReps(id) => s.(reps := map r | r in s.reps && s.reps[r].artifactId != id :: s.reps[r])
    case DropHot(id) => s.(hot := map k | k in s.hot && s.hot[k].artifactId != id :: s.hot[k])
    case DropTree(key) => s.(trees := s.trees - {key})
    case ShrinkTree(key, lost) => if key in s.trees then s.(trees := s.trees[key := s.trees[key] - lost]) else s
    case DropSource(id) => if id in s.records then s.(sources := s.sources - {s.records[id].metadata.ownedSource}) else s
    case MigrateLegacy => s.(records := map id | id in s.records :: Migrated(s.records[id]))
  }

  function DoAll(s: Store, ws: seq<Write>): Store {
    if ws == [] then s else Do(DoAll(s, ws[..|ws|-1]), ws[|ws|-1])
  }

  /** The row an access at `now` leaves. */
  function RefreshedRow(s: Store, p: Policy, id: string, scope: string, now: int): HotRow {
    var key := KeyOf(scope, id);
    var hard := if key in s.hot then s.hot[key].hardExpires else now + p.hardCap;
    var desired := now + p.refresh;
    HotRow(id, scope, now, if desired < hard then desired else hard, hard, if key in s.hot then s.hot[key].accesses + 1 else 1)
  }

  predicate Owned(s: Store, key: Key) {
    Live(s, key.id) && Place(s, key.id) == key
  }

  /** A record that promises its bytes has them. */
  predicate BytesThere(s: Store, id: string, r: Record) {
    r.status == Ready || r.status == Partial ==> r.originalPath in FilesAt(s, KeyOf(r.scope, id))
  }

  /** A representation with a path has a file behind it. */
  predicate FileThere(s: Store, rep: Representation)
    requires rep.artifactId in s.records
  {
    rep.path != "" ==> rep.path in FilesAt(s, Place(s, rep.artifactId))
  }

  /** The time and reason of the first retirement. */
  predicate FirstRetirement(old': Metadata, new': Metadata) {
    (old'.retiredAt.Some? ==> new'.retiredAt == old'.retiredAt) && (old'.reason != "" ==> new'.reason == old'.reason)
  }

  /** The writes the manager makes: what is gone stays gone, and keeps the time and reason it went for but no paths; only
      the gone lose rows and trees; a row never comes before its file; the rows of a live artifact carry its scope, and
      a hot row is renewed only after a check that found it unexpired.  The renewal reads
      the clock again, and by then the row may have expired. */
  predicate Allowed(s: Store, w: Write, p: Policy) {
    match w
    case PutRecord(id, r) =>
      if id in s.records then
        && r.scope == s.records[id].scope && r.created == s.records[id].created
        && (Gone(s.records[id]) ==> Gone(r) && FirstRetirement(s.records[id].metadata, r.metadata))
        && (Gone(r) ==> r.originalPath == "" && r.normalizedPath == "" && r.metadata.retiredAt.Some? && r.metadata.reason != "")
        && (r.status == Retired ==> Complete(r) && NoReps(s, id) && NoRows(s, id))
        && BytesThere(s, id, r)
      else !Gone(r) && BytesThere(s, id, r)
    case PutRep(_, rep) => Live(s, rep.artifactId) && FileThere(s, rep)
    case PutHot(key, row, checked) =>
      && Owned(s, key) && row == RefreshedRow(s, p, key.id, s.records[key.id].scope, row.lastAccessed)
      && (key in s.hot ==> s.hot[key].expires > checked)
    case PutFile(key, _) => Owned(s, key)
    case DropReps(id) => !Live(s, id)
    case DropHot(id) => !Live(s, id)
    case DropTree(key) => !Owned(s, key)
    case ShrinkTree(key, _) => !Owned(s, key)
    case DropSource(id) => id in s.records && Gone(s.records[id])
    case MigrateLegacy => true
  }

  predicate Legal(s: Store, ws: seq<Write>, p: Policy) {
    ws == [] || (Legal(s, ws[..|ws|-1], p) && Allowed(DoAll(s, ws[..|ws|-1]), ws[|ws|-1], p))
  }

  // ----- sequences of writes -----

  lemma DoMore(s: Store, ws: seq<Write>, w: Write, p: Policy)
    ensures DoAll(s, ws + [w]) == Do(DoAll(s, ws), w)
    ensures Legal(s, ws + [w], p) <==> Legal(s, ws, p) && Allowed(DoAll(s, ws), w, p)
  {
    assert (ws + [w])[..|ws|] == ws;
  }

  lemma SingleWrite(s: Store, w: Write, p: Policy)
    ensures DoAll(s, [w]) == Do(s, w) && (Legal(s, [w], p) <==> Allowed(s, w, p))
  {
    assert [w] == [] + [w];
    DoMore(s, [], w, p);
  }

  lemma TwoWrites(s: Store, v: Write, w: Write, p: Policy)
    ensures DoAll(s, [v, w]) == Do(Do(s, v), w)
    ensures Legal(s, [v, w], p) <==> Allowed(s, v, p) && Allowed(Do(s, v), w, p)
  {
    SingleWrite(s, v, p);
    DoMore(s, [v], w, p);
    assert [v] + [w] == [v, w];
  }

  lemma ThreeWrites(s: Store, u: Write, v: Write, w: Write, p: Policy)
    ensures DoAll(s, [u, v, w]) == Do(Do(Do(s, u), v), w)
    ensures Legal(s, [u, v, w], p) <==> Allowed(s, u, p) && Allowed(Do(s, u), v, p) && Allowed(Do(Do(s, u), v), w, p)
  {
    TwoWrites(s, u, v, p);
    DoMore(s, [u, v], w, p);
    assert [u, v] + [w] == [u, v, w];
  }

  lemma {:induction false} DoJoined(s: Store, vs: seq<Write>, ws: seq<Write>, p: Policy)
    ensures DoAll(s, vs + ws) == DoAll(DoAll(s, vs), ws)
    ensures Legal(s, vs + ws, p) <==> Legal(s, vs, p) && Legal(DoAll(s, vs), ws, p)
  {
    if ws == [] {
      assert vs + ws == vs;
    } else {
      var front := ws[..|ws|-1];
      DoJoined(s, vs, front, p);
      assert (vs + ws)[..|vs + ws|-1] == vs + front;
    }
  }

  /** A legal sequence stopped anywhere is legal. */
  lemma {:induction false} StoppedIsLegal(s: Store, ws: seq<Write>, n: nat, p: Policy)
    requires Legal(s, ws, p) && n <= |ws|
    ensures Legal(s, ws[..n], p)
  {
    DoJoined(s, ws[..n], ws[n..], p);
    assert ws[..n] + ws[n..] == ws;
  }

  // ----- what every write keeps -----

  /** A hot row is filed under the scope of an existing record and never outlives its hard expiry. */
  predicate RowFiled(s: Store, key: Key) {
    key in s.hot ==>
      var row := s.hot[key];
      row.artifactId in s.records && row.scope == s.records[row.artifactId].scope
      && key == KeyOf(row.scope, row.artifactId) && row.expires <= row.hardExpires
  }

  predicate Filed(s: Store) {
    && (forall k :: k in s.hot ==> RowFiled(s, k))
    && (forall r :: r in s.reps ==> s.reps[r].artifactId in s.records)
  }

  /** Nothing but its record is left of an artifact whose cleanup is complete. */
  predicate Bare(s: Store, id: string) {
    NoReps(s, id) && NoRows(s, id)
  }

  predicate CompleteAreBare(s: Store) {
    forall id :: id in s.records && Complete(s.records[id]) ==> Bare(s, id)
  }

  /** What is live has the files its record and rows speak of. */
  predicate Backed(s: Store) {
    && (forall id :: id in s.records && Live(s, id) ==> BytesThere(s, id, s.records[id]))
    && (forall r :: r in s.reps && Live(s, s.reps[r].artifactId) ==> FileThere(s, s.reps[r]))
  }

  predicate Inv(s: Store) {
    Filed(s) && CompleteAreBare(s) && Backed(s)
  }

  // The files of an artifact that is live after a write.
  lemma FilesStay(s: Store, w: Write, p: Policy, id: string)
    requires Allowed(s, w, p) && id in s.records && Live(Do(s, w), id)
    ensures Live(s, id) && Place(Do(s, w), id) == Place(s, id)
    ensures FilesAt(s, Place(s, id)) <= FilesAt(Do(s, w), Place(s, id))
  {
    assert Live(s, id);
    assert Owned(s, Place(s, id));
  }

  lemma WriteBacks(s: Store, w: Write, p: Policy)
    requires Filed(s) && Backed(s) && Allowed(s, w, p)
    ensures Backed(Do(s, w))
  {
    var t := Do(s, w);
    forall id | id in t.records && Live(t, id) ensures BytesThere(t, id, t.records[id]) {
      if id in s.records {
        FilesStay(s, w, p, id);
      }
    }
    forall r | r in t.reps && Live(t, t.reps[r].artifactId) ensures FileThere(t, t.reps[r]) {
      var id := t.reps[r].artifactId;
      assert id in s.records;
      FilesStay(s, w, p, id);
    }
  }

  lemma WriteFiles(s: Store, w: Write, p: Policy)
    requires Filed(s) && Allowed(s, w, p)
    ensures Filed(Do(s, w))
  {
    var t := Do(s, w);
    forall k | k in t.hot ensures RowFiled(t, k) {
      if w.PutHot? && k == w.key {
      } else {
        assert RowFiled(s, k);
      }
    }
  }

  lemma WriteKeepsBare(s: Store, w: Write, p: Policy, id: string)
    requires Inv(s) && Allowed(s, w, p)
    requires id in Do(s, w).records && Complete(Do(s, w).records[id])
    ensures Bare(Do(s, w), id)
  {
    var t := Do(s, w);
    if !w.PutRecord? || w.id != id {
      assert id in s.records && Complete(s.records[id]);
      assert Bare(s, id);
    }
  }

  /** Every legal write keeps the invariant, so every crash point of every run has it. */
  lemma WriteKeeps(s: Store, w: Write, p: Policy)
    requires Inv(s) && Allowed(s, w, p)
    ensures Inv(Do(s, w))
  {
    WriteFiles(s, w, p);
    WriteBacks(s, w, p);
    forall id | id in Do(s, w).records && Complete(Do(s, w).records[id]) ensures Bare(Do(s, w), id) {
      WriteKeepsBare(s, w, p, id);
    }
  }

  lemma {:induction false} RunKeeps(s: Store, ws: seq<Write>, p: Policy)
    requires Inv(s) && Legal(s, ws, p)
    ensures Inv(DoAll(s, ws))
  {
    if ws != [] {
      RunKeeps(s, ws[..|ws|-1], p);
      WriteKeeps(DoAll(s, ws[..|ws|-1]), ws[|ws|-1], p);
    }
  }

  // ----- no resurrection, and the hard cap -----

  /** A record keeps its scope, and once it is retired it stays retired, since the same time and for the same reason. */
  predicate Later(s: Store, t: Store, id: string) {
    id in s.records ==>
      id in t.records && t.records[id].scope == s.records[id].scope && t.records[id].created == s.records[id].created
      && (Gone(s.records[id]) ==> Gone(t.records[id]) && FirstRetirement(s.records[id].metadata, t.records[id].metadata))
  }

  lemma OneWriteLater(s: Store, w: Write, p: Policy, id: string)
    requires Allowed(s, w, p)
    ensures Later(s, Do(s, w), id)
  {}

  lemma {:induction false} NoResurrection(s: Store, ws: seq<Write>, p: Policy, id: string)
    requires Legal(s, ws, p)
    ensures Later(s, DoAll(s, ws), id)
  {
    if ws != [] {
      NoResurrection(s, ws[..|ws|-1], p, id);
      OneWriteLater(DoAll(s, ws[..|ws|-1]), ws[|ws|-1], p, id);
    }
  }

  lemma StillLive(s: Store, w: Write, p: Policy, id: string)
    requires Allowed(s, w, p) && id in s.records && Live(Do(s, w), id)
    ensures Live(s, id) && Place(Do(s, w), id) == Place(s, id)
  {}

  // One write on the row of an artifact that is live before and after it.
  lemma RowStep(s: Store, w: Write, p: Policy, id: string)
    requires Filed(s) && Allowed(s, w, p) && id in s.records && Place(s, id) in s.hot && Live(Do(s, w), id)
    ensures var k, t := Place(s, id), Do(s, w);
      && k in t.hot && t.hot[k].hardExpires == s.hot[k].hardExpires
      && (t.hot[k] == s.hot[k] || (w.PutHot? && w.key == k && w.checked < s.hot[k].expires))
  {
    StillLive(s, w, p, id);
    assert RowFiled(s, Place(s, id));
  }

  /** As long as the artifact is live, its hot row stays, with the hard expiry it began with. */
  lemma {:induction false} HardExpiryFixed(s: Store, ws: seq<Write>, p: Policy, id: string)
    requires Inv(s) && Legal(s, ws, p)
    requires id in s.records && Place(s, id) in s.hot
    requires Live(DoAll(s, ws), id)
    ensures var k, t := Place(s, id), DoAll(s, ws);
      k == Place(t, id) && k in t.hot && t.hot[k].hardExpires == s.hot[k].hardExpires
  {
    if ws != [] {
      var front, w := ws[..|ws|-1], ws[|ws|-1];
      NoResurrection(s, front, p, id);
      StillLive(DoAll(s, front), w, p, id);
      HardExpiryFixed(s, front, p, id);
      RunKeeps(s, front, p);
      RowStep(DoAll(s, front), w, p, id);
    }
  }

  /** Whatever accesses occur, an artifact is never visible at or after the hard expiry of its first hot row. */
  lemma HardCap(s: Store, ws: seq<Write>, p: Policy, id: string, t: int)
    requires Inv(s) && Legal(s, ws, p)
    requires id in s.records && Place(s, id) in s.hot
    ensures Visible(DoAll(s, ws), id, t) ==> t < s.hot[Place(s, id)].hardExpires
  {
    if Visible(DoAll(s, ws), id, t) {
      HardExpiryFixed(s, ws, p, id);
      RunKeeps(s, ws, p);
      assert RowFiled(DoAll(s, ws), Place(s, id));
    }
  }

  /** Every renewal of the row follows a check made at the instant `t` or later. */
  predicate NotBefore(ws: seq<Write>, key: Key, t: int) {
    forall i :: 0 <= i < |ws| && ws[i].PutHot? && ws[i].key == key ==> ws[i].checked >= t
  }

  lemma {:induction false} ExpiredStays(s: Store, ws: seq<Write>, p: Policy, id: string, t: int)
    requires Inv(s) && Legal(s, ws, p)
    requires id in s.records && NotBefore(ws, Place(s, id), t) && Place(s, id) in s.hot && s.hot[Place(s, id)].expires <= t
    requires Live(DoAll(s, ws), id)
    ensures var k, after := Place(s, id), DoAll(s, ws);
      k == Place(after, id) && k in after.hot && after.hot[k] == s.hot[k]
  {
    if ws != [] {
      var front, w := ws[..|ws|-1], ws[|ws|-1];
      NoResurrection(s, front, p, id);
      StillLive(DoAll(s, front), w, p, id);
      ExpiredStays(s, front, p, id, t);
      RunKeeps(s, front, p);
      RowStep(DoAll(s, front), w, p, id);
      assert w == ws[|ws|-1];
    }
  }

  /** What has once expired is never visible again, whoever looks, unless a renewal goes back to a check made before
      the expiry. */
  lemma ExpiredForever(s: Store, ws: seq<Write>, p: Policy, id: string, t: int, later: int)
    requires Inv(s) && Legal(s, ws, p) && t <= later
    requires id in s.records && NotBefore(ws, Place(s, id), t) && Place(s, id) in s.hot && s.hot[Place(s, id)].expires <= t
    ensures !Visible(DoAll(s, ws), id, later)
  {
    if Visible(DoAll(s, ws), id, later) {
      ExpiredStays(s, ws, p, id, t);
    }
  }

  /** A write makes an artifact visible that was not, exactly when it renews its hot row and both the renewed time and
      the hard expiry lie ahead. */
  lemma ComesBackIff(s: Store, w: Write, p: Policy, id: string, t: int)
    requires Filed(s) && Allowed(s, w, p) && id in s.records && !Visible(s, id, t)
    ensures Visible(Do(s, w), id, t) <==>
            w.PutHot? && w.key == Place(s, id) && t < w.row.lastAccessed + p.refresh && t < w.row.hardExpires
  {
    OneWriteLater(s, w, p, id);
    if w.PutHot? && w.key == Place(s, id) {
      assert w.row == RefreshedRow(s, p, id, s.records[id].scope, w.row.lastAccessed);
    }
  }

  /** An access that was granted and renews the row after it has expired brings the artifact back, exactly when the hard
      expiry still lies ahead and the policy renews at all. */
  lemma RenewedAfterExpiry(s: Store, p: Policy, id: string, checked: int, renewed: int)
    requires Filed(s) && Visible(s, id, checked) && s.hot[Place(s, id)].expires <= renewed
    ensures var w := PutHot(Place(s, id), RefreshedRow(s, p, id, s.records[id].scope, renewed), checked);
      && Allowed(s, w, p) && !Visible(s, id, renewed)
      && (Visible(Do(s, w), id, renewed) <==> 0 < p.refresh && renewed < s.hot[Place(s, id)].hardExpires)
  {
    ComesBackIff(s, PutHot(Place(s, id), RefreshedRow(s, p, id, s.records[id].scope, renewed), checked), p, id, renewed);
  }

  /** Wherever a run is stopped, a live artifact that is ready, at least in part, still has its original, and every
      representation row of a live artifact has its file. */
  lemma LiveHasFiles(s: Store, ws: seq<Write>, p: Policy, id: string)
    requires Inv(s) && Legal(s, ws, p) && Live(DoAll(s, ws), id)
    ensures var t := DoAll(s, ws);
      var files := FilesAt(t, Place(t, id));
      && (t.records[id].status == Ready || t.records[id].status == Partial ==> t.records[id].originalPath in files)
      && (forall r :: r in t.reps && t.reps[r].artifactId == id && t.reps[r].path != "" ==> t.reps[r].path in files)
  {
    RunKeeps(s, ws, p);
    var t := DoAll(s, ws);
    forall r | r in t.reps && t.reps[r].artifactId == id && t.reps[r].path != "" ensures t.reps[r].path in FilesAt(t, Place(t, id)) {
      assert FileThere(t, t.reps[r]);
    }
  }

  // One ready artifact whose hot row expires at 7200 and for good at 86400.
  const Lone := Store(
    map["a" := Record("s", "t", NotImage, 0, "original", "", Ready, Metadata(None, "", Unmanaged, false, "", ""))],
    map[], map[KeyOf("s", "a") := HotRow("a", "s", 0, 7200, 86400, 1)], map[], {})

  /** The smallest such case: checked one tick before the expiry, renewed at it. */
  lemma LoneComesBack(p: Policy)
    requires p.refresh == 7200
    ensures var w := PutHot(KeyOf("s", "a"), RefreshedRow(Lone, p, "a", "s", 7200), 7199);
      Filed(Lone) && Allowed(Lone, w, p) && !Visible(Lone, "a", 7200) && Visible(Do(Lone, w), "a", 7200)
  {
    assert forall k :: k in Lone.hot ==> RowFiled(Lone, k);
    RenewedAfterExpiry(Lone, p, "a", 7199, 7200);
  }

  // ----- from nothing -----

  /** Every store the manager's writes lead to from the empty one satisfies the invariant, wherever they stop. */
  lemma FromEmpty(ws: seq<Write>, p: Policy, n: nat)
    requires Legal(Empty, ws, p) && n <= |ws|
    ensures Inv(DoAll(Empty, ws[..n]))
  {
    StoppedIsLegal(Empty, ws, n, p);
    RunKeeps(Empty, ws[..n], p);
  }

  /** No file of a live artifact is ever removed. */
  lemma {:induction false} LiveFilesKept(s: Store, ws: seq<Write>, p: Policy, id: string)
    requires Legal(s, ws, p)
    requires id in s.records && Live(DoAll(s, ws), id)
    ensures FilesAt(s, Place(s, id)) <= FilesAt(DoAll(s, ws), Place(s, id))
    ensures Place(s, id) in s.trees ==> Place(s, id) in DoAll(s, ws).trees
    ensures Place(DoAll(s, ws), id) == Place(s, id)
  {
    if ws != [] {
      var front, w := ws[..|ws|-1], ws[|ws|-1];
      NoResurrection(s, front, p, id);
      StillLive(DoAll(s, front), w, p, id);
      LiveFilesKept(s, front, p, id);
      assert Owned(DoAll(s, front), Place(s, id));
    }
  }
}
