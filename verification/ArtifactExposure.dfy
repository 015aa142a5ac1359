/** What src/pal/artifact shows in a prompt, and why a manager without write authority shows the same as one that
    reaps first. */
module ArtifactExposure {
  import opened Wrappers
  import opened Collation
  import opened Artifacts
  import opened ArtifactRecovery
  import opened ArtifactReaping
  import Segments

  // ----- listing records -----

  /** Newest first, then by identifier. */
  predicate NewerFirst(s: Store, a: string, b: string) {
    a in s.records && b in s.records
    && (s.records[a].created > s.records[b].created || (s.records[a].created == s.records[b].created && TextLess(a, b)))
  }

  predicate Listed(s: Store, filter: string, id: string) {
    id in s.records && InScope(s.records[id].scope, filter)
  }

  predicate IsListing(s: Store, filter: string, ids: seq<string>) {
    && (forall i :: 0 <= i < |ids| ==> Listed(s, filter, ids[i]))
    && (forall id :: id in s.records && Listed(s, filter, id) ==> id in ids)
    && (forall i, j :: 0 <= i < j < |ids| ==> NewerFirst(s, ids[i], ids[j]))
  }

  lemma NewerFirstAsymmetric(s: Store, a: string, b: string)
    ensures !(NewerFirst(s, a, b) && NewerFirst(s, b, a))
  {
    Asymmetric(a, b);
  }

  lemma HasMember(ids: seq<string>)
    ensures ids == [] || exists id :: id in ids
  {
    if ids != [] {
      assert ids[0] in ids;
    }
  }

  /** Two ordered sequences of the same texts are the same. */
  lemma {:induction false} OrderedUnique(s: Store, ids: seq<string>, other: seq<string>)
    requires forall i, j :: 0 <= i < j < |ids| ==> NewerFirst(s, ids[i], ids[j])
    requires forall i, j :: 0 <= i < j < |other| ==> NewerFirst(s, other[i], other[j])
    requires forall id :: id in ids <==> id in other
    ensures ids == other
  {
    if ids != [] {
      assert ids[0] in other;
      assert other[0] in ids;
      var i :| 0 <= i < |other| && other[i] == ids[0];
      var j :| 0 <= j < |ids| && ids[j] == other[0];
      if i > 0 && j > 0 {
        NewerFirstAsymmetric(s, ids[0], other[0]);
      }
      assert ids[0] == other[0];
      NewerFirstAsymmetric(s, ids[0], ids[0]);
      forall id ensures id in ids[1..] <==> id in other[1..] {
        assert id in ids[1..] ==> id in ids && id != ids[0];
        assert id in other[1..] ==> id in other && id != other[0];
      }
      OrderedUnique(s, ids[1..], other[1..]);
    } else {
      HasMember(other);
    }
  }

  lemma ListingUnique(s: Store, filter: string, ids: seq<string>, other: seq<string>)
    requires IsListing(s, filter, ids) && IsListing(s, filter, other)
    ensures ids == other
  {
    forall id ensures id in ids <==> id in other {
      if id in ids { assert Listed(s, filter, id); }
      if id in other { assert Listed(s, filter, id); }
    }
    OrderedUnique(s, ids, other);
  }

  // ----- choosing what to show -----

  /** An artifact as the prompt shows it: retired, or usable. */
  datatype Shown = Shown(id: string, retired: bool)

  predicate RowIn(s: Store, k: Key, scope: string, id: string, now: int) {
    k in s.hot && s.hot[k].artifactId == id && InScope(s.hot[k].scope, scope) && s.hot[k].expires > now
  }

  predicate HotIn(s: Store, scope: string, id: string, now: int) {
    exists k :: k in s.hot && RowIn(s, k, scope, id, now)
  }

  /** The explicit ids without white space around them. */
  function Stripped(ids: seq<string>): (names: seq<string>)
    ensures |names| == |ids| && forall i :: 0 <= i < |ids| ==> names[i] == Segments.Strip(ids[i])
  {
    seq(|ids|, i requires 0 <= i < |ids| => Segments.Strip(ids[i]))
  }

  function NotBlank(names: seq<string>): seq<string> {
    if names == [] then [] else
      NotBlank(names[..|names|-1]) + if names[|names|-1] == "" then [] else [names[|names|-1]]
  }

  function Wanted(ids: seq<string>): seq<string> {
    NotBlank(Stripped(ids))
  }

  function ExplicitItem(s: Store, scope: string, id: string, now: int): seq<Shown> {
    if !Listed(s, scope, id) then [] else [Shown(id, Gone(s.records[id]) || !HotIn(s, scope, id, now))]
  }

  function ShownExplicit(s: Store, scope: string, ids: seq<string>, now: int): seq<Shown> {
    if ids == [] then [] else
      ShownExplicit(s, scope, ids[..|ids|-1], now) + ExplicitItem(s, scope, ids[|ids|-1], now)
  }

  function CurrentItem(s: Store, scope: string, turn: string, id: string, now: int): seq<Shown> {
    if id in s.records && HotIn(s, scope, id, now) && !Gone(s.records[id]) && s.records[id].turn == turn then [Shown(id, false)] else []
  }

  function ShownCurrent(s: Store, scope: string, turn: string, listing: seq<string>, now: int): seq<Shown> {
    if listing == [] then [] else
      ShownCurrent(s, scope, turn, listing[..|listing|-1], now) + CurrentItem(s, scope, turn, listing[|listing|-1], now)
  }

  /** `_visible_records_for_prompt`: the explicit ids in the order given, else the current turn's, newest first. */
  function VisibleForPrompt(s: Store, scope: string, turn: string, explicitIds: seq<string>, listing: seq<string>, now: int): seq<Shown> {
    if Wanted(explicitIds) != [] then ShownExplicit(s, scope, Wanted(explicitIds), now)
    else ShownCurrent(s, scope, turn, listing, now)
  }

  // ----- images -----

  function RepsOf(s: Store, id: string, kind: RepresentationKind): set<string> {
    set r | r in s.reps && s.reps[r].artifactId == id && s.reps[r].kind == kind
  }

  ghost function FirstImage(s: Store, id: string): Option<string> {
    if RepsOf(s, id, NormalizedImage) != {} then Some(First(RepsOf(s, id, NormalizedImage)))
    else if RepsOf(s, id, PageImage) != {} then Some(First(RepsOf(s, id, PageImage)))
    else None
  }

  predicate Fits(rep: Representation, p: Policy) {
    rep.base64Size.Some? && rep.base64Size.value <= p.inlineBudget
  }

  /** The file behind `to_data_url`, if it may be shown. */
  function DataUrl(s: Store, repId: string, now: int): Option<string> {
    if repId in s.reps && s.reps[repId].path != "" && Visible(s, s.reps[repId].artifactId, now)
       && s.reps[repId].path in FilesAt(s, Place(s, s.reps[repId].artifactId))
    then Some(s.reps[repId].path) else None
  }

  /** An entry of the prompt, with the representation whose pixels are attached. */
  datatype Entry = Entry(id: string, retired: bool, image: Option<string>)

  function Attached(entries: seq<Entry>): nat {
    if entries == [] then 0 else Attached(entries[..|entries|-1]) + if entries[|entries|-1].image.Some? then 1 else 0
  }

  ghost function ImageFor(s: Store, p: Policy, id: string, now: int): Option<string> {
    match FirstImage(s, id)
    case Some(rep) => if rep in s.reps && Fits(s.reps[rep], p) && DataUrl(s, rep, now).Some? then Some(rep) else None
    case None => None
  }

  ghost function EntryFor(s: Store, p: Policy, shown: Shown, vision: bool, attached: nat, now: int): Entry {
    if shown.retired then Entry(shown.id, true, None)
    else if shown.id in s.records && s.records[shown.id].kind == Image && vision && attached < p.maxInlineImages
    then Entry(shown.id, false, ImageFor(s, p, shown.id, now))
    else Entry(shown.id, false, None)
  }

  ghost function Entries(s: Store, p: Policy, shown: seq<Shown>, vision: bool, now: int): seq<Entry> {
    if shown == [] then [] else
      var front := Entries(s, p, shown[..|shown|-1], vision, now);
      front + [EntryFor(s, p, shown[|shown|-1], vision, Attached(front), now)]
  }

  /** `select_prompt_exposure` without the reaping before it. */
  ghost function Exposure(s: Store, p: Policy, scope: string, turn: string, explicitIds: seq<string>, listing: seq<string>, vision: bool, now: int): seq<Entry> {
    Entries(s, p, VisibleForPrompt(s, scope, turn, explicitIds, listing, now), vision, now)
  }

  // ----- reader and writer agree -----

  /** Two stores that show an artifact alike. */
  predicate Alike(s: Store, t: Store, scope: string, id: string, now: int) {
    && (id in s.records <==> id in t.records)
    && (id in s.records ==>
          && t.records[id].scope == s.records[id].scope && t.records[id].created == s.records[id].created
          && t.records[id].turn == s.records[id].turn && t.records[id].kind == s.records[id].kind
          && (InScope(s.records[id].scope, scope) ==> (Visible(s, id, now) <==> Visible(t, id, now))))
  }

  /** Hot in the scope and not retired is the same as visible. */
  lemma HotIffVisible(s: Store, scope: string, id: string, now: int)
    requires Filed(s) && Listed(s, scope, id)
    ensures !Gone(s.records[id]) && HotIn(s, scope, id, now) <==> Visible(s, id, now)
  {
    if HotIn(s, scope, id, now) {
      var k :| k in s.hot && RowIn(s, k, scope, id, now);
      assert RowFiled(s, k);
    }
    if Visible(s, id, now) {
      assert RowFiled(s, Place(s, id));
      assert RowIn(s, Place(s, id), scope, id, now);
    }
  }

  lemma ReapedAlike(s: Store, scope: string, now: int, outcome: string -> Removal, id: string)
    requires Filed(s)
    ensures Alike(s, Reaped(s, scope, now, outcome), scope, id, now)
  {
    var t := Reaped(s, scope, now, outcome);
    if id in s.records && InScope(s.records[id].scope, scope) {
      if Visible(s, id, now) {
        ReapSpares(s, scope, now, outcome, id);
      } else if Live(s, id) {
        CandidateIffNotVisible(s, scope, now, id);
      }
    }
  }

  lemma ReapedFiled(s: Store, scope: string, now: int, outcome: string -> Removal)
    requires Filed(s)
    ensures Filed(Reaped(s, scope, now, outcome))
  {
    NoStrays(s, scope, now);
    var t := Reaped(s, scope, now, outcome);
    forall k | k in t.hot ensures RowFiled(t, k) {
      assert RowFiled(s, k);
    }
  }

  lemma ItemsAlike(s: Store, t: Store, scope: string, turn: string, id: string, now: int)
    requires Filed(s) && Filed(t) && Alike(s, t, scope, id, now)
    ensures ExplicitItem(s, scope, id, now) == ExplicitItem(t, scope, id, now)
    ensures Listed(s, scope, id) ==> CurrentItem(s, scope, turn, id, now) == CurrentItem(t, scope, turn, id, now)
  {
    if Listed(s, scope, id) {
      HotIffVisible(s, scope, id, now);
      HotIffVisible(t, scope, id, now);
    }
  }

  lemma {:induction false} ExplicitAlike(s: Store, t: Store, scope: string, ids: seq<string>, now: int)
    requires Filed(s) && Filed(t) && forall id :: Alike(s, t, scope, id, now)
    ensures ShownExplicit(s, scope, ids, now) == ShownExplicit(t, scope, ids, now)
  {
    if ids != [] {
      ExplicitAlike(s, t, scope, ids[..|ids|-1], now);
      assert Alike(s, t, scope, ids[|ids|-1], now);
      ItemsAlike(s, t, scope, "", ids[|ids|-1], now);
    }
  }

  lemma {:induction false} CurrentAlike(s: Store, t: Store, scope: string, turn: string, listing: seq<string>, now: int)
    requires Filed(s) && Filed(t) && forall id :: Alike(s, t, scope, id, now)
    requires forall i :: 0 <= i < |listing| ==> Listed(s, scope, listing[i])
    ensures ShownCurrent(s, scope, turn, listing, now) == ShownCurrent(t, scope, turn, listing, now)
  {
    if listing != [] {
      CurrentAlike(s, t, scope, turn, listing[..|listing|-1], now);
      assert Alike(s, t, scope, listing[|listing|-1], now);
      ItemsAlike(s, t, scope, turn, listing[|listing|-1], now);
    }
  }

  lemma ListingAlike(s: Store, t: Store, scope: string, listing: seq<string>, now: int)
    requires IsListing(s, scope, listing) && forall id :: Alike(s, t, scope, id, now)
    ensures IsListing(t, scope, listing)
  {
    forall i, j | 0 <= i < j < |listing| ensures NewerFirst(t, listing[i], listing[j]) {
      assert NewerFirst(s, listing[i], listing[j]);
      assert Alike(s, t, scope, listing[i], now) && Alike(s, t, scope, listing[j], now);
    }
    forall i | 0 <= i < |listing| ensures Listed(t, scope, listing[i]) {
      assert Alike(s, t, scope, listing[i], now);
    }
    forall id | id in t.records && Listed(t, scope, id) ensures id in listing {
      assert Alike(s, t, scope, id, now);
      assert Listed(s, scope, id);
    }
  }

  /** What is shown as usable may be used. */
  lemma {:induction false} ShownAreVisible(s: Store, scope: string, turn: string, ids: seq<string>, now: int, i: nat)
    requires Filed(s)
    ensures i < |ShownExplicit(s, scope, ids, now)| ==>
      var x := ShownExplicit(s, scope, ids, now)[i];
      Listed(s, scope, x.id) && x.id in ids && (!x.retired <==> Visible(s, x.id, now))
    ensures i < |ShownCurrent(s, scope, turn, ids, now)| && (forall j :: 0 <= j < |ids| ==> Listed(s, scope, ids[j])) ==>
      var x := ShownCurrent(s, scope, turn, ids, now)[i];
      Listed(s, scope, x.id) && !x.retired && Visible(s, x.id, now)
  {
    if ids != [] {
      ShownAreVisible(s, scope, turn, ids[..|ids|-1], now, i);
      if Listed(s, scope, ids[|ids|-1]) {
        HotIffVisible(s, scope, ids[|ids|-1], now);
      }
    }
  }

  lemma PromptShowsVisible(s: Store, scope: string, turn: string, explicitIds: seq<string>, listing: seq<string>, now: int, i: nat)
    requires Filed(s) && IsListing(s, scope, listing) && i < |VisibleForPrompt(s, scope, turn, explicitIds, listing, now)|
    ensures var x := VisibleForPrompt(s, scope, turn, explicitIds, listing, now)[i];
      Listed(s, scope, x.id) && (!x.retired <==> Visible(s, x.id, now))
  {
    ShownAreVisible(s, scope, turn, Wanted(explicitIds), now, i);
    ShownAreVisible(s, scope, turn, listing, now, i);
  }

  lemma RepsAlike(s: Store, scope: string, now: int, outcome: string -> Removal, id: string, kind: RepresentationKind)
    requires Filed(s) && Visible(s, id, now)
    ensures var t := Reaped(s, scope, now, outcome);
      && RepsOf(s, id, kind) == RepsOf(t, id, kind)
      && (forall r :: r in RepsOf(s, id, kind) ==> t.reps[r] == s.reps[r] && DataUrl(t, r, now) == DataUrl(s, r, now))
  {
    ReapSpares(s, scope, now, outcome, id);
  }

  lemma FirstImageOwn(s: Store, id: string)
    ensures FirstImage(s, id).Some? ==>
      FirstImage(s, id).value in RepsOf(s, id, NormalizedImage) || FirstImage(s, id).value in RepsOf(s, id, PageImage)
  {}

  lemma ImagesAlike(s: Store, p: Policy, scope: string, now: int, outcome: string -> Removal, id: string)
    requires Filed(s) && Visible(s, id, now)
    ensures ImageFor(s, p, id, now) == ImageFor(Reaped(s, scope, now, outcome), p, id, now)
  {
    RepsAlike(s, scope, now, outcome, id, NormalizedImage);
    RepsAlike(s, scope, now, outcome, id, PageImage);
    FirstImageOwn(s, id);
    assert FirstImage(Reaped(s, scope, now, outcome), id) == FirstImage(s, id);
  }

  lemma {:induction false} EntriesAlike(s: Store, p: Policy, scope: string, shown: seq<Shown>, vision: bool, now: int, outcome: string -> Removal)
    requires Filed(s)
    requires forall i :: 0 <= i < |shown| && !shown[i].retired ==> Visible(s, shown[i].id, now)
    ensures Entries(s, p, shown, vision, now) == Entries(Reaped(s, scope, now, outcome), p, shown, vision, now)
  {
    if shown != [] {
      var x := shown[|shown|-1];
      EntriesAlike(s, p, scope, shown[..|shown|-1], vision, now, outcome);
      if !x.retired {
        ImagesAlike(s, p, scope, now, outcome, x.id);
        ReapSpares(s, scope, now, outcome, x.id);
      }
    }
  }

  /** A manager without write authority shows exactly what a writer shows after reaping the scope: the same ids in
      the same order, the same ones retired, the same images attached, whichever removals fail. */
  lemma ReaderAgreesWithWriter(s: Store, p: Policy, scope: string, turn: string, explicitIds: seq<string>, vision: bool, now: int,
                               outcome: string -> Removal, listing: seq<string>, listingAfter: seq<string>)
    requires Filed(s) && IsListing(s, scope, listing) && IsListing(Reaped(s, scope, now, outcome), scope, listingAfter)
    ensures Exposure(s, p, scope, turn, explicitIds, listing, vision, now)
            == Exposure(Reaped(s, scope, now, outcome), p, scope, turn, explicitIds, listingAfter, vision, now)
  {
    var t := Reaped(s, scope, now, outcome);
    ReapedFiled(s, scope, now, outcome);
    forall id ensures Alike(s, t, scope, id, now) {
      ReapedAlike(s, scope, now, outcome, id);
    }
    ListingAlike(s, t, scope, listing, now);
    ListingUnique(t, scope, listing, listingAfter);
    ExplicitAlike(s, t, scope, Wanted(explicitIds), now);
    CurrentAlike(s, t, scope, turn, listing, now);
    var shown := VisibleForPrompt(s, scope, turn, explicitIds, listing, now);
    forall i | 0 <= i < |shown| && !shown[i].retired ensures Visible(s, shown[i].id, now) {
      PromptShowsVisible(s, scope, turn, explicitIds, listing, now, i);
    }
    EntriesAlike(s, p, scope, shown, vision, now, outcome);
  }

  // ----- what an exposure may contain -----

  lemma {:induction false} EntriesFollowShown(s: Store, p: Policy, shown: seq<Shown>, vision: bool, now: int, i: nat)
    requires i < |shown|
    ensures var entries := Entries(s, p, shown, vision, now);
      && |entries| == |shown| && entries[i].id == shown[i].id && entries[i].retired == shown[i].retired
      && (entries[i].image.Some? ==>
            var rep := entries[i].image.value;
            vision && !entries[i].retired && rep in s.reps && s.reps[rep].artifactId == entries[i].id
            && s.reps[rep].kind != NotVisual && DataUrl(s, rep, now).Some? && Fits(s.reps[rep], p))
  {
    if i == |shown| - 1 {
      EntriesLength(s, p, shown[..i], vision, now);
    } else {
      EntriesFollowShown(s, p, shown[..|shown|-1], vision, now, i);
    }
  }

  lemma {:induction false} EntriesLength(s: Store, p: Policy, shown: seq<Shown>, vision: bool, now: int)
    ensures |Entries(s, p, shown, vision, now)| == |shown|
    ensures Attached(Entries(s, p, shown, vision, now)) <= if p.maxInlineImages > 0 then p.maxInlineImages else 0
  {
    if shown != [] {
      var front := Entries(s, p, shown[..|shown|-1], vision, now);
      EntriesLength(s, p, shown[..|shown|-1], vision, now);
      assert Entries(s, p, shown, vision, now)[..|shown|-1] == front;
    }
  }

  predicate AttachesOwn(s: Store, e: Entry)
    requires e.image.Some?
  {
    !e.retired && e.image.value in s.reps && s.reps[e.image.value].artifactId == e.id
  }

  /** The prompt never shows an artifact that may not be used as usable, attaches pixels only of usable ones, and
      never more images than the policy allows. */
  lemma ExposureSound(s: Store, p: Policy, scope: string, turn: string, explicitIds: seq<string>, listing: seq<string>, vision: bool, now: int)
    requires Filed(s) && IsListing(s, scope, listing)
    ensures var entries := Exposure(s, p, scope, turn, explicitIds, listing, vision, now);
      && Attached(entries) <= (if p.maxInlineImages > 0 then p.maxInlineImages else 0)
      && forall i :: 0 <= i < |entries| ==>
           && Listed(s, scope, entries[i].id) && (!entries[i].retired <==> Visible(s, entries[i].id, now))
           && (entries[i].image.Some? ==> vision && AttachesOwn(s, entries[i]))
  {
    var shown := VisibleForPrompt(s, scope, turn, explicitIds, listing, now);
    EntriesLength(s, p, shown, vision, now);
    var entries := Exposure(s, p, scope, turn, explicitIds, listing, vision, now);
    forall i | 0 <= i < |entries|
      ensures Listed(s, scope, entries[i].id) && (!entries[i].retired <==> Visible(s, entries[i].id, now))
      ensures entries[i].image.Some? ==> vision && AttachesOwn(s, entries[i])
    {
      EntriesFollowShown(s, p, shown, vision, now, i);
      PromptShowsVisible(s, scope, turn, explicitIds, listing, now, i);
    }
  }

  // ----- which artifacts a prompt shows -----

  ghost predicate NoExplicit(names: seq<string>) {
    forall i :: 0 <= i < |names| ==> names[i] == ""
  }

  /** Visible, of this turn, and of the scope unless all scopes are asked for. */
  predicate InTurn(s: Store, scope: string, turn: string, id: string, now: int) {
    Visible(s, id, now) && (scope == "" || s.records[id].scope == scope) && s.records[id].turn == turn
  }

  /** Created later, or at the same time under a smaller identifier. */
  predicate Before(s: Store, a: string, b: string) {
    a in s.records && b in s.records && s.records[a].created >= s.records[b].created
    && (s.records[a].created == s.records[b].created ==> TextLess(a, b))
  }

  /** Without explicit ids: what is visible of this turn, each once, newest first. */
  ghost predicate TurnShown(s: Store, scope: string, turn: string, shown: seq<Shown>, now: int) {
    && (forall i :: 0 <= i < |shown| ==>
          !shown[i].retired && InTurn(s, scope, turn, shown[i].id, now))
    && (forall id :: id in s.records && InTurn(s, scope, turn, id, now) ==> Shown(id, false) in shown)
    && (forall i, j :: 0 <= i < j < |shown| ==> Before(s, shown[i].id, shown[j].id))
  }

  predicate Asked(s: Store, scope: string, name: string) {
    name != "" && name in s.records && (scope == "" || s.records[name].scope == scope)
  }

  /** `picks` are the positions of the explicit ids that are shown. */
  ghost predicate Picked(s: Store, scope: string, names: seq<string>, shown: seq<Shown>, picks: seq<nat>, now: int) {
    && |picks| == |shown|
    && (forall i, j :: 0 <= i < j < |picks| ==> picks[i] < picks[j])
    && (forall i :: 0 <= i < |picks| ==> PickedAt(s, scope, names, shown[i], picks[i], now))
    && (forall k :: 0 <= k < |names| && Asked(s, scope, names[k]) ==> k in picks)
  }

  ghost predicate PickedAt(s: Store, scope: string, names: seq<string>, x: Shown, k: nat, now: int) {
    k < |names| && Asked(s, scope, names[k]) && x.id == names[k] && (x.retired <==> !Visible(s, x.id, now))
  }

  /** With explicit ids: those that name a record of the scope, in the order given and as often as given. */
  ghost predicate ExplicitShown(s: Store, scope: string, names: seq<string>, shown: seq<Shown>, now: int) {
    exists picks :: Picked(s, scope, names, shown, picks, now)
  }

  /** What a prompt should show, for the explicit ids without white space around them. */
  ghost predicate PromptRight(s: Store, scope: string, turn: string, names: seq<string>, shown: seq<Shown>, now: int) {
    if NoExplicit(names) then TurnShown(s, scope, turn, shown, now) else ExplicitShown(s, scope, names, shown, now)
  }

  lemma {:induction false} BlankOnly(names: seq<string>)
    ensures NotBlank(names) == [] <==> NoExplicit(names)
  {
    if names != [] {
      var front := names[..|names|-1];
      BlankOnly(front);
      assert forall i :: 0 <= i < |front| ==> front[i] == names[i];
    }
  }

  // The last explicit id shows itself, or nothing.
  lemma ExplicitSnoc(s: Store, scope: string, names: seq<string>, now: int)
    requires Filed(s) && names != []
    ensures var name, before := names[|names|-1], ShownExplicit(s, scope, NotBlank(names[..|names|-1]), now);
      ShownExplicit(s, scope, NotBlank(names), now) ==
        if Asked(s, scope, name) then before + [Shown(name, !Visible(s, name, now))] else before
  {
    var name, front := names[|names|-1], NotBlank(names[..|names|-1]);
    if name != "" {
      assert NotBlank(names)[..|front|] == front;
      if Listed(s, scope, name) {
        HotIffVisible(s, scope, name, now);
      }
    } else {
      assert NotBlank(names) == front + [] == front;
    }
  }

  lemma {:induction false} ExplicitPicks(s: Store, scope: string, names: seq<string>, now: int) returns (picks: seq<nat>)
    requires Filed(s)
    ensures Picked(s, scope, names, ShownExplicit(s, scope, NotBlank(names), now), picks, now)
  {
    picks := [];
    if names != [] {
      var n := |names| - 1;
      picks := ExplicitPicks(s, scope, names[..n], now);
      ExplicitSnoc(s, scope, names, now);
      if Asked(s, scope, names[n]) {
        PicksOneMore(s, scope, names, ShownExplicit(s, scope, NotBlank(names[..n]), now), picks, now);
        picks := picks + [n];
      } else {
        PicksNoMore(s, scope, names, ShownExplicit(s, scope, NotBlank(names[..n]), now), picks, now);
      }
    }
  }

  lemma PickedLonger(s: Store, scope: string, names: seq<string>, x: Shown, k: nat, now: int)
    requires names != [] && PickedAt(s, scope, names[..|names|-1], x, k, now)
    ensures PickedAt(s, scope, names, x, k, now) && k < |names| - 1
  {}

  // The last explicit id is shown, after those before it.
  lemma PicksOneMore(s: Store, scope: string, names: seq<string>, shown: seq<Shown>, picks: seq<nat>, now: int)
    requires names != [] && Picked(s, scope, names[..|names|-1], shown, picks, now) && Asked(s, scope, names[|names|-1])
    ensures var id := names[|names|-1];
      Picked(s, scope, names, shown + [Shown(id, !Visible(s, id, now))], picks + [|names| - 1], now)
  {
    var n := |names| - 1;
    forall i | 0 <= i < |picks| ensures PickedAt(s, scope, names, shown[i], picks[i], now) && picks[i] < n {
      PickedLonger(s, scope, names, shown[i], picks[i], now);
    }
    forall k | 0 <= k < |names| && Asked(s, scope, names[k]) ensures k in picks + [n] {
      assert k < n ==> names[..n][k] == names[k];
    }
  }

  lemma PicksNoMore(s: Store, scope: string, names: seq<string>, shown: seq<Shown>, picks: seq<nat>, now: int)
    requires names != [] && Picked(s, scope, names[..|names|-1], shown, picks, now) && !Asked(s, scope, names[|names|-1])
    ensures Picked(s, scope, names, shown, picks, now)
  {
    var n := |names| - 1;
    forall i | 0 <= i < |picks| ensures PickedAt(s, scope, names, shown[i], picks[i], now) {
      PickedLonger(s, scope, names, shown[i], picks[i], now);
    }
    forall k | 0 <= k < |names| && Asked(s, scope, names[k]) ensures k in picks {
      assert names[..n][k] == names[k];
    }
  }

  // A usable artifact of the listing and of this turn.
  predicate OfTurn(s: Store, turn: string, listing: seq<string>, x: Shown, now: int) {
    !x.retired && x.id in listing && Visible(s, x.id, now) && s.records[x.id].turn == turn
  }

  // What has been shown once the listing is done.
  ghost predicate TurnDone(s: Store, turn: string, listing: seq<string>, shown: seq<Shown>, now: int) {
    && (forall i :: 0 <= i < |shown| ==> OfTurn(s, turn, listing, shown[i], now))
    && (forall k :: 0 <= k < |listing| ==> TurnSeen(s, turn, listing[k], shown, now))
    && (forall i, j :: 0 <= i < j < |shown| ==> NewerFirst(s, shown[i].id, shown[j].id))
  }

  ghost predicate TurnSeen(s: Store, turn: string, id: string, shown: seq<Shown>, now: int) {
    Visible(s, id, now) && s.records[id].turn == turn ==> Shown(id, false) in shown
  }

  lemma {:induction false} CurrentShown(s: Store, scope: string, turn: string, listing: seq<string>, now: int)
    requires Filed(s) && forall i :: 0 <= i < |listing| ==> Listed(s, scope, listing[i])
    requires forall i, j :: 0 <= i < j < |listing| ==> NewerFirst(s, listing[i], listing[j])
    ensures TurnDone(s, turn, listing, ShownCurrent(s, scope, turn, listing, now), now)
  {
    if listing != [] {
      var n := |listing| - 1;
      CurrentShown(s, scope, turn, listing[..n], now);
      HotIffVisible(s, scope, listing[n], now);
      TurnGoesOn(s, turn, listing, ShownCurrent(s, scope, turn, listing[..n], now), now);
    }
  }

  // The last of the listing, after those before it.
  lemma TurnGoesOn(s: Store, turn: string, listing: seq<string>, before: seq<Shown>, now: int)
    requires listing != [] && TurnDone(s, turn, listing[..|listing|-1], before, now)
    requires forall i, j :: 0 <= i < j < |listing| ==> NewerFirst(s, listing[i], listing[j])
    ensures var id := listing[|listing|-1];
      TurnDone(s, turn, listing, before + (if Visible(s, id, now) && s.records[id].turn == turn then [Shown(id, false)] else []), now)
  {
    var n := |listing| - 1;
    var front, id := listing[..n], listing[n];
    var item := if Visible(s, id, now) && s.records[id].turn == turn then [Shown(id, false)] else [];
    forall i | 0 <= i < |before| ensures OfTurn(s, turn, listing, before[i], now) && NewerFirst(s, before[i].id, id) {
      assert OfTurn(s, turn, front, before[i], now);
      FrontIsNewer(s, listing, before[i].id);
    }
    forall k | 0 <= k < |listing| ensures TurnSeen(s, turn, listing[k], before + item, now) {
      if k < n {
        assert TurnSeen(s, turn, front[k], before, now);
      } else if item != [] {
        assert item[0] in item;
      }
    }
  }

  lemma FrontIsNewer(s: Store, listing: seq<string>, id: string)
    requires listing != [] && id in listing[..|listing|-1]
    requires forall i, j :: 0 <= i < j < |listing| ==> NewerFirst(s, listing[i], listing[j])
    ensures id in listing && NewerFirst(s, id, listing[|listing|-1])
  {
    var k :| 0 <= k < |listing| - 1 && listing[..|listing|-1][k] == id;
    assert listing[k] == id;
  }

  lemma CurrentIsRight(s: Store, scope: string, turn: string, listing: seq<string>, now: int)
    requires Filed(s) && IsListing(s, scope, listing)
    ensures TurnShown(s, scope, turn, ShownCurrent(s, scope, turn, listing, now), now)
  {
    CurrentShown(s, scope, turn, listing, now);
    var shown := ShownCurrent(s, scope, turn, listing, now);
    forall i | 0 <= i < |shown|
      ensures !shown[i].retired && InTurn(s, scope, turn, shown[i].id, now)
    {
      assert OfTurn(s, turn, listing, shown[i], now);
      MemberListed(s, scope, listing, shown[i].id);
    }
    forall i, j | 0 <= i < j < |shown| ensures Before(s, shown[i].id, shown[j].id) {
      assert NewerFirst(s, shown[i].id, shown[j].id);
    }
    forall id | id in s.records && InTurn(s, scope, turn, id, now) ensures Shown(id, false) in shown {
      assert Listed(s, scope, id);
      var k :| 0 <= k < |listing| && listing[k] == id;
      assert TurnSeen(s, turn, listing[k], shown, now);
    }
  }

  lemma MemberListed(s: Store, scope: string, listing: seq<string>, id: string)
    requires IsListing(s, scope, listing) && id in listing
    ensures Listed(s, scope, id)
  {}

  /** The prompt shows exactly the artifacts it should. */
  lemma PromptShowsRight(s: Store, scope: string, turn: string, explicitIds: seq<string>, listing: seq<string>, now: int)
    requires Filed(s) && IsListing(s, scope, listing)
    ensures PromptRight(s, scope, turn, Stripped(explicitIds), VisibleForPrompt(s, scope, turn, explicitIds, listing, now), now)
  {
    var names := Stripped(explicitIds);
    BlankOnly(names);
    if NoExplicit(names) {
      CurrentIsRight(s, scope, turn, listing, now);
    } else {
      var picks := ExplicitPicks(s, scope, names, now);
    }
  }

  // ----- which images it attaches -----

  /** The identifiers and states of the entries. */
  function Heads(entries: seq<Entry>): seq<Shown> {
    seq(|entries|, i requires 0 <= i < |entries| => Shown(entries[i].id, entries[i].retired))
  }

  lemma EntriesHeads(s: Store, p: Policy, shown: seq<Shown>, vision: bool, now: int)
    ensures Heads(Entries(s, p, shown, vision, now)) == shown
  {
    EntriesLength(s, p, shown, vision, now);
    forall i | 0 <= i < |shown| ensures Heads(Entries(s, p, shown, vision, now))[i] == shown[i] {
      EntriesFollowShown(s, p, shown, vision, now, i);
    }
  }

  /** The representation to show for an artifact: its first normalized image, else its first page image. */
  ghost predicate Preferred(s: Store, id: string, rep: string) {
    && rep in s.reps && s.reps[rep].artifactId == id
    && (s.reps[rep].kind == NormalizedImage
        || (s.reps[rep].kind == PageImage
            && forall r :: r in s.reps && s.reps[r].artifactId == id ==> s.reps[r].kind != NormalizedImage))
    && (forall r :: r in s.reps && s.reps[r].artifactId == id && s.reps[r].kind == s.reps[rep].kind ==> TextLessEq(rep, r))
  }

  /** It may be attached: small enough, with a file behind it. */
  ghost predicate Attachable(s: Store, p: Policy, id: string, rep: string, now: int) {
    && Preferred(s, id, rep) && s.reps[rep].base64Size.Some? && s.reps[rep].base64Size.value <= p.inlineBudget
    && s.reps[rep].path != "" && Visible(s, id, now) && s.reps[rep].path in FilesAt(s, Place(s, id))
  }

  ghost function ImagesBefore(entries: seq<Entry>, i: nat): nat
    requires i <= |entries|
  {
    |set j | 0 <= j < i && entries[j].image.Some?|
  }

  /** Pixels go with an entry exactly when it is a visible image, the model sees images, fewer than the maximum are attached
      before it, and its preferred representation may be attached. */
  ghost predicate ImageRight(s: Store, p: Policy, vision: bool, entries: seq<Entry>, i: nat, now: int)
    requires i < |entries|
  {
    var e := entries[i];
    && (e.image.Some? ==> Attachable(s, p, e.id, e.image.value, now))
    && (e.image.Some? <==>
          && !e.retired && e.id in s.records && s.records[e.id].kind == Image && vision
          && ImagesBefore(entries, i) < p.maxInlineImages
          && exists rep :: Attachable(s, p, e.id, rep, now))
  }

  lemma PreferredUnique(s: Store, id: string, rep: string, other: string)
    requires Preferred(s, id, rep) && Preferred(s, id, other)
    ensures rep == other
  {
    Asymmetric(rep, other);
  }

  lemma FirstImagePreferred(s: Store, id: string)
    ensures FirstImage(s, id).Some? ==> Preferred(s, id, FirstImage(s, id).value)
    ensures forall rep :: Preferred(s, id, rep) ==> FirstImage(s, id) == Some(rep)
  {
    if FirstImage(s, id).Some? {
      PreferredFirst(s, id);
    }
    forall rep | Preferred(s, id, rep) ensures FirstImage(s, id) == Some(rep) {
      assert rep in RepsOf(s, id, s.reps[rep].kind);
      PreferredFirst(s, id);
      PreferredUnique(s, id, rep, FirstImage(s, id).value);
    }
  }

  lemma PreferredFirst(s: Store, id: string)
    requires FirstImage(s, id).Some?
    ensures Preferred(s, id, FirstImage(s, id).value)
  {
    var rep := FirstImage(s, id).value;
    var kind := if RepsOf(s, id, NormalizedImage) != {} then NormalizedImage else PageImage;
    assert rep == First(RepsOf(s, id, kind)) && IsFirst(RepsOf(s, id, kind), rep);
    forall r | r in s.reps && s.reps[r].artifactId == id && s.reps[r].kind == kind ensures TextLessEq(rep, r) {
      assert r in RepsOf(s, id, kind);
    }
    if kind == PageImage {
      forall r | r in s.reps && s.reps[r].artifactId == id ensures s.reps[r].kind != NormalizedImage {
        assert r !in RepsOf(s, id, NormalizedImage);
      }
    }
  }

  lemma ImageForRight(s: Store, p: Policy, id: string, now: int)
    ensures ImageFor(s, p, id, now).Some? <==> exists rep :: Attachable(s, p, id, rep, now)
    ensures ImageFor(s, p, id, now).Some? ==> Attachable(s, p, id, ImageFor(s, p, id, now).value, now)
  {
    FirstImagePreferred(s, id);
    if ImageFor(s, p, id, now).Some? {
      assert Attachable(s, p, id, ImageFor(s, p, id, now).value, now);
    }
    if rep :| Attachable(s, p, id, rep, now) {
      assert FirstImage(s, id) == Some(rep);
    }
  }

  lemma {:induction false} AttachedCounts(entries: seq<Entry>, i: nat)
    requires i <= |entries|
    ensures Attached(entries[..i]) == ImagesBefore(entries, i)
  {
    if i > 0 {
      AttachedCounts(entries, i - 1);
      assert entries[..i][..i - 1] == entries[..i - 1];
      var before, all := set j | 0 <= j < i - 1 && entries[j].image.Some?, set j | 0 <= j < i && entries[j].image.Some?;
      assert all == before + if entries[i - 1].image.Some? then {i - 1} else {};
    }
  }

  lemma {:induction false} EntryAt(s: Store, p: Policy, shown: seq<Shown>, vision: bool, now: int, i: nat)
    requires i < |shown|
    ensures var entries := Entries(s, p, shown, vision, now);
      |entries| == |shown| && entries[i] == EntryFor(s, p, shown[i], vision, Attached(entries[..i]), now)
  {
    var n := |shown| - 1;
    var front, entries := Entries(s, p, shown[..n], vision, now), Entries(s, p, shown, vision, now);
    EntriesLength(s, p, shown[..n], vision, now);
    assert entries == front + [EntryFor(s, p, shown[n], vision, Attached(front), now)];
    assert entries[..n] == front;
    if i < n {
      EntryAt(s, p, shown[..n], vision, now, i);
      assert entries[..i] == front[..i];
    }
  }

  lemma EntriesImages(s: Store, p: Policy, shown: seq<Shown>, vision: bool, now: int, i: nat)
    requires i < |shown|
    ensures |Entries(s, p, shown, vision, now)| == |shown| && ImageRight(s, p, vision, Entries(s, p, shown, vision, now), i, now)
  {
    EntryAt(s, p, shown, vision, now, i);
    AttachedCounts(Entries(s, p, shown, vision, now), i);
    ImageForRight(s, p, shown[i].id, now);
  }

  /** What an exposure consists of: the right artifacts, each with the pixels it should have. */
  ghost predicate ExposureRight(s: Store, p: Policy, scope: string, turn: string, explicitIds: seq<string>, vision: bool, entries: seq<Entry>, now: int) {
    && PromptRight(s, scope, turn, Stripped(explicitIds), Heads(entries), now)
    && (forall i :: 0 <= i < |entries| ==> ImageRight(s, p, vision, entries, i, now))
  }

  lemma ExposureIsRight(s: Store, p: Policy, scope: string, turn: string, explicitIds: seq<string>, listing: seq<string>, vision: bool, now: int)
    requires Filed(s) && IsListing(s, scope, listing)
    ensures ExposureRight(s, p, scope, turn, explicitIds, vision, Exposure(s, p, scope, turn, explicitIds, listing, vision, now), now)
  {
    var shown := VisibleForPrompt(s, scope, turn, explicitIds, listing, now);
    PromptShowsRight(s, scope, turn, explicitIds, listing, now);
    EntriesHeads(s, p, shown, vision, now);
    EntriesLength(s, p, shown, vision, now);
    forall i | 0 <= i < |shown| ensures ImageRight(s, p, vision, Entries(s, p, shown, vision, now), i, now) {
      EntriesImages(s, p, shown, vision, now, i);
    }
  }
}
