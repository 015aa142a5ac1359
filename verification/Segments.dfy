/** Splitting a reply into Telegram messages: `_utf16_prefix_end` and `_segment_text` of
    providers/telegram/endpoint.py.  Lengths are UTF-16 code units, as in section 2.1 of RFC 2781. */
module Segments {

  /** What Python's `str.strip` removes. */
  predicate Space(c: char) {
    var u := c as int;
    || 0x09 <= u <= 0x0D || 0x1C <= u <= 0x20 || u == 0x85 || u == 0xA0 || u == 0x1680 || 0x2000 <= u <= 0x200A
    || u == 0x2028 || u == 0x2029 || u == 0x202F || u == 0x205F || u == 0x3000
  }

  predicate Blank(s: string) {
    forall i :: 0 <= i < |s| ==> Space(s[i])
  }

  predicate Trimmed(s: string) {
    s == "" || (!Space(s[0]) && !Space(s[|s|-1]))
  }

  /** The number of leading characters `strip` removes. */
  function Leading(s: string): (n: nat)
    ensures n <= |s| && Blank(s[..n]) && (n < |s| ==> !Space(s[n]))
  {
    if s == "" || !Space(s[0]) then 0 else
      assert s[..1 + Leading(s[1..])] == [s[0]] + s[1..][..Leading(s[1..])];
      1 + Leading(s[1..])
  }

  /** Where the trailing white space starts. */
  function Trailing(s: string): (n: nat)
    ensures n <= |s| && Blank(s[n..]) && (n > 0 ==> !Space(s[n-1]))
  {
    if s == "" || !Space(s[|s|-1]) then |s| else
      var n := Trailing(s[..|s|-1]);
      assert s[n..] == s[..|s|-1][n..] + [s[|s|-1]];
      n
  }

  function Strip(s: string): (r: string)
    ensures Trimmed(r)
  {
    if Leading(s) == |s| then "" else
      LeadingBeforeTrailing(s);
      s[Leading(s)..Trailing(s)]
  }

  /** What is stripped off is white space on both sides, and nothing else is lost. */
  lemma StripMeans(s: string) returns (lo: nat, hi: nat)
    ensures lo <= hi <= |s| && Strip(s) == s[lo..hi] && Blank(s[..lo]) && Blank(s[hi..])
    ensures Strip(s) == "" <==> Blank(s)
  {
    if Leading(s) == |s| {
      lo, hi := |s|, |s|;
      assert s[..|s|] == s;
    } else {
      LeadingBeforeTrailing(s);
      lo, hi := Leading(s), Trailing(s);
      assert !Space(s[lo]);
    }
  }

  lemma LeadingBeforeTrailing(s: string)
    requires Leading(s) < |s|
    ensures Leading(s) < Trailing(s)
  {
    forall k | Trailing(s) <= k < |s| ensures Space(s[k]) {
      BlankAt(s, Trailing(s), k);
    }
  }

  lemma BlankAt(s: string, from: nat, k: nat)
    requires from <= k < |s| && Blank(s[from..])
    ensures Space(s[k])
  {
    assert s[from..][k - from] == s[k];
  }

  function Unit(c: char): nat {
    if c as int > 0xFFFF then 2 else 1
  }

  /** Length in UTF-16 code units. */
  function Units(s: string): nat {
    if s == "" then 0 else Units(s[..|s|-1]) + Unit(s[|s|-1])
  }

  /** One unit a character, and one more for each beyond the basic plane. */
  lemma {:induction false} UnitsCount(s: string)
    ensures Units(s) == |s| + |set i | 0 <= i < |s| && s[i] as int >= 0x10000|
  {
    if s != "" {
      var n := |s| - 1;
      UnitsCount(s[..n]);
      var before, all := set i | 0 <= i < n && s[..n][i] as int >= 0x10000, set i | 0 <= i < |s| && s[i] as int >= 0x10000;
      assert all == before + if s[n] as int >= 0x10000 then {n} else {};
    }
  }

  lemma {:induction false} UnitsPrefix(s: string, n: nat)
    requires n <= |s|
    ensures Units(s[..n]) + |s| - n <= Units(s)
    decreases |s|
  {
    if n == |s| {
      assert s[..n] == s;
    } else {
      UnitsPrefix(s[..|s|-1], n);
      assert s[..|s|-1][..n] == s[..n];
    }
  }

  lemma {:induction false} UnitsDrop(s: string, n: nat)
    requires n <= |s|
    ensures Units(s[n..]) + n <= Units(s)
    decreases |s|
  {
    if n == |s| {
      UnitsPrefix(s, 0);
    } else {
      UnitsDrop(s[..|s|-1], n);
      assert s[..|s|-1][n..] == s[n..][..|s[n..]|-1];
    }
  }

  /** The largest prefix that fits `limit`; a single astral character is kept whole even when it does not. */
  ghost predicate PrefixEnd(s: string, limit: nat, end: nat) {
    && end <= |s|
    && (end < |s| ==> Units(s[..end + 1]) > limit && end >= 1)
    && (Units(s[..end]) <= limit || (end == 1 && limit == 1 && s[0] as int > 0xFFFF))
  }

  function End(s: string, limit: nat): (end: nat)
    requires limit >= 1
    ensures PrefixEnd(s, limit, end)
    decreases |s|
  {
    if Units(s) <= limit || |s| == 0 then
      assert s[..|s|] == s;
      |s|
    else if |s| == 1 then
      assert s[..1] == s && Units(s[..0]) == 0;
      1
    else
      var front := s[..|s|-1];
      var end := End(front, limit);
      assert forall n :: 0 <= n <= |front| ==> front[..n] == s[..n];
      assert s[..|s|] == s;
      end
  }

  lemma EndUnique(s: string, limit: nat, a: nat, b: nat)
    requires limit >= 1 && PrefixEnd(s, limit, a) && PrefixEnd(s, limit, b)
    ensures a == b
  {
    if a < b {
      EndOrder(s, limit, a, b);
    } else if b < a {
      EndOrder(s, limit, b, a);
    }
  }

  lemma EndOrder(s: string, limit: nat, a: nat, b: nat)
    requires limit >= 1 && PrefixEnd(s, limit, a) && PrefixEnd(s, limit, b)
    ensures b <= a
  {
    if a < b {
      assert s[..b][..a + 1] == s[..a + 1];
      UnitsPrefix(s[..b], a + 1);
    }
  }

  method Utf16PrefixEnd(s: string, limit: nat) returns (end: nat)
    requires limit >= 1
    ensures PrefixEnd(s, limit, end)
  {
    var consumed := 0;
    for index := 0 to |s|
      invariant consumed == Units(s[..index]) <= limit
    {
      var units := Unit(s[index]);
      assert s[..index + 1][..index] == s[..index];
      if consumed + units > limit {
        if index == 0 {
          assert Units(s[..1]) == 2 && limit == 1;
          if |s| > 1 {
            UnitsPrefix(s[..2], 1);
            assert s[..2][..1] == s[..1];
          }
          return 1;
        }
        return index;
      }
      consumed := consumed + units;
    }
    assert s[..|s|] == s;
    return |s|;
  }

  // ----- where a message is cut -----

  predicate OccursAt(s: string, sub: string, i: int) {
    0 <= i && i + |sub| <= |s| && s[i..i + |sub|] == sub
  }

  /** `s.rfind(sub, 0, stop)`: the last start of `sub` that ends by `stop`, or -1. */
  function RFind(s: string, sub: string, stop: nat): (r: int)
    requires stop <= |s|
    ensures r == -1 || (OccursAt(s, sub, r) && r + |sub| <= stop)
    ensures forall i :: OccursAt(s, sub, i) && i + |sub| <= stop ==> i <= r
    decreases stop
  {
    if stop < |sub| then -1
    else if OccursAt(s, sub, stop - |sub|) then stop - |sub|
    else if stop == 0 then -1
    else RFind(s, sub, stop - 1)
  }

  /** Cut at the last blank line within reach, else at the last line break, else where the limit is hit. */
  function SplitAt(s: string, end: nat): nat
    requires end < |s|
  {
    var paragraph := RFind(s, "\n\n", end + 1);
    var line := RFind(s, "\n", end + 1);
    if paragraph > 0 then paragraph else if line > 0 then line else end
  }

  /** The last start of `sub`, not at the very beginning, that ends by `stop`. */
  ghost predicate LastStart(s: string, sub: string, stop: nat, at: int) {
    && 0 < at && OccursAt(s, sub, at) && at + |sub| <= stop
    && (forall i :: OccursAt(s, sub, i) && i + |sub| <= stop ==> i <= at)
  }

  ghost predicate Occurs(s: string, sub: string, stop: nat) {
    exists i :: 0 < i && OccursAt(s, sub, i) && i + |sub| <= stop
  }

  /** Where a text is cut that hits the limit at `hardEnd`: at the last blank line in reach, and only without one at the
      last line break, and only without either at the limit. */
  ghost predicate CutAt(s: string, hardEnd: nat, at: nat) {
    && at <= |s|
    && if Occurs(s, "\n\n", hardEnd + 1) then LastStart(s, "\n\n", hardEnd + 1, at)
       else if Occurs(s, "\n", hardEnd + 1) then LastStart(s, "\n", hardEnd + 1, at)
       else at == hardEnd
  }

  lemma SplitIsCut(s: string, hardEnd: nat)
    requires hardEnd < |s|
    ensures CutAt(s, hardEnd, SplitAt(s, hardEnd))
  {
    FoundLast(s, "\n\n", hardEnd + 1);
    FoundLast(s, "\n", hardEnd + 1);
  }

  lemma FoundLast(s: string, sub: string, stop: nat)
    requires stop <= |s|
    ensures if RFind(s, sub, stop) > 0 then LastStart(s, sub, stop, RFind(s, sub, stop)) && Occurs(s, sub, stop)
            else !Occurs(s, sub, stop)
  {}

  /** `parts` are what is left of `s`, cut again and again at the right place, each time with as much in reach as the limit
      allows. */
  ghost predicate CutRight(s: string, limit: nat, parts: seq<string>)
    decreases |parts|
  {
    parts != [] && exists hardEnd: nat ::
      && PrefixEnd(s, limit, hardEnd)
      && (hardEnd >= |s| ==> parts == [s])
      && (hardEnd < |s| ==> exists at: nat ::
            CutAt(s, hardEnd, at) && parts[0] == Strip(s[..at]) && CutRight(Strip(s[at..]), limit, parts[1..]))
  }

  lemma {:induction false} SegmentsCutRight(s: string, limit: nat)
    requires limit >= 1 && s != "" && Trimmed(s)
    ensures CutRight(s, limit, Segments(s, limit))
    decreases |s|
  {
    var hardEnd := End(s, limit);
    assert PrefixEnd(s, limit, hardEnd);
    if hardEnd < |s| {
      var at := SplitAt(s, hardEnd);
      SegmentsStep(s, limit);
      SplitIsCut(s, hardEnd);
      SplitWithin(s, hardEnd);
      RestNotEmpty(s, at);
      StripShrinks(s[at..]);
      SegmentsCutRight(Strip(s[at..]), limit);
      assert Segments(s, limit)[1..] == Segments(Strip(s[at..]), limit);
    }
  }

  lemma RestNotEmpty(s: string, at: nat)
    requires s != "" && Trimmed(s) && at < |s|
    ensures Strip(s[at..]) != ""
  {
    assert s[at..][|s| - at - 1] == s[|s|-1];
  }

  lemma SplitWithin(s: string, end: nat)
    requires 1 <= end < |s|
    ensures 1 <= SplitAt(s, end) <= end
  {}

  /** The segments of an already stripped text. */
  function Segments(s: string, limit: nat): seq<string>
    requires limit >= 1
    decreases |s|
  {
    if s == "" then []
    else if End(s, limit) >= |s| then [s]
    else
      SplitWithin(s, End(s, limit));
      var at := SplitAt(s, End(s, limit));
      StripShrinks(s[at..]);
      [Strip(s[..at])] + Segments(Strip(s[at..]), limit)
  }

  lemma StripShrinks(s: string)
    ensures |Strip(s)| <= |s|
  {}

  /** `_segment_text`. */
  method SegmentText(text: string, limit: int) returns (parts: seq<string>)
    ensures parts == if Strip(text) == "" then [""] else Segments(Strip(text), if limit < 1 then 1 else limit)
    ensures Strip(text) != "" ==> CutRight(Strip(text), if limit < 1 then 1 else limit, parts)
  {
    var stripped := Strip(text);
    if stripped == "" {
      return [""];
    }
    var effectiveLimit: nat := if limit < 1 then 1 else limit;
    SegmentsCutRight(stripped, effectiveLimit);
    parts := [];
    var remaining := stripped;
    while remaining != ""
      invariant Trimmed(remaining)
      invariant parts + Segments(remaining, effectiveLimit) == Segments(stripped, effectiveLimit)
      decreases |remaining|
    {
      var hardEnd := Utf16PrefixEnd(remaining, effectiveLimit);
      EndUnique(remaining, effectiveLimit, hardEnd, End(remaining, effectiveLimit));
      if hardEnd >= |remaining| {
        assert Segments(remaining, effectiveLimit) == [remaining];
        parts := parts + [remaining];
        return;
      }
      var chunk, rest := CutOne(remaining, hardEnd);
      MovePart(parts, remaining, effectiveLimit, chunk, rest);
      parts := parts + [chunk];
      remaining := rest;
    }
  }

  // One more part cut off.
  lemma MovePart(parts: seq<string>, s: string, limit: nat, chunk: string, rest: string)
    requires limit >= 1 && s != "" && End(s, limit) < |s|
    requires SplitAt(s, End(s, limit)) <= |s| && chunk == Strip(s[..SplitAt(s, End(s, limit))])
    requires rest == Strip(s[SplitAt(s, End(s, limit))..])
    ensures (parts + [chunk]) + Segments(rest, limit) == parts + Segments(s, limit)
  {
    SegmentsStep(s, limit);
  }

  lemma SegmentsStep(s: string, limit: nat)
    requires limit >= 1 && s != "" && End(s, limit) < |s|
    ensures var at := SplitAt(s, End(s, limit));
      1 <= at <= |s| && Segments(s, limit) == [Strip(s[..at])] + Segments(Strip(s[at..]), limit)
  {
    SplitWithin(s, End(s, limit));
  }

  /** One round of the loop: the next chunk and what is left of the text. */
  method CutOne(remaining: string, hardEnd: nat) returns (chunk: string, rest: string)
    requires Trimmed(remaining) && 1 <= hardEnd < |remaining|
    ensures 1 <= SplitAt(remaining, hardEnd) <= hardEnd
    ensures chunk == Strip(remaining[..SplitAt(remaining, hardEnd)])
    ensures rest == Strip(remaining[SplitAt(remaining, hardEnd)..]) && |rest| < |remaining|
    ensures exists at: nat :: CutAt(remaining, hardEnd, at) && chunk == Strip(remaining[..at]) && rest == Strip(remaining[at..])
  {
    var splitAt := RFind(remaining, "\n\n", hardEnd + 1);
    if splitAt <= 0 {
      splitAt := RFind(remaining, "\n", hardEnd + 1);
    }
    if splitAt <= 0 {
      splitAt := hardEnd;
    }
    SplitWithin(remaining, hardEnd);
    assert splitAt == SplitAt(remaining, hardEnd);
    SplitIsCut(remaining, hardEnd);
    chunk := Strip(remaining[..splitAt]);
    ChunkNotEmpty(remaining, splitAt);
    if chunk == "" {
      assert false;
    }
    StripShrinks(remaining[splitAt..]);
    rest := Strip(remaining[splitAt..]);
  }

  /** The fallback for an empty chunk is never needed: the text left over starts with something to send. */
  lemma ChunkNotEmpty(s: string, at: nat)
    requires Trimmed(s) && 1 <= at <= |s|
    ensures Strip(s[..at]) != "" && Leading(s[..at]) == 0
  {
    assert s[..at][0] == s[0];
  }

  // ----- what the segments are -----

  /** `parts` are substrings of `s` at the given offsets, in order, with only white space between them. */
  ghost predicate Covers(s: string, parts: seq<string>, starts: seq<nat>) {
    && |starts| == |parts| > 0
    && (forall i :: 0 <= i < |parts| ==> Placed(s, parts[i], starts[i]))
    && (forall i :: 0 <= i < |parts| - 1 ==> Gap(s, starts[i] + |parts[i]|, starts[i + 1]))
    && starts[0] == 0 && starts[|starts|-1] + |parts[|parts|-1]| == |s|
  }

  function Shift(starts: seq<nat>, offset: nat): seq<nat> {
    seq(|starts|, i requires 0 <= i < |starts| => starts[i] + offset)
  }

  // What is left after a cut is a suffix, behind the white space at the cut.
  lemma RestOffset(s: string, at: nat) returns (gap: nat)
    requires s != "" && Trimmed(s) && 1 <= at < |s|
    ensures at + gap < |s| && Blank(s[at..][..gap]) && Strip(s[at..]) == s[at + gap..] && s[at + gap..] != ""
  {
    var tail := s[at..];
    assert tail[|tail|-1] == s[|s|-1];
    gap := Leading(tail);
    forall k | 0 <= k < gap ensures Space(tail[k]) {
      assert tail[..gap][k] == tail[k];
    }
    assert Trailing(tail) == |tail|;
    assert tail[gap..|tail|] == s[at + gap..];
  }

  lemma SliceOfSuffix(s: string, shift: nat, lo: nat, hi: nat)
    requires shift <= |s| && lo <= hi <= |s| - shift
    ensures s[shift..][lo..hi] == s[shift + lo..shift + hi]
  {}

  ghost predicate Placed(s: string, part: string, start: nat) {
    start + |part| <= |s| && s[start..start + |part|] == part
  }

  ghost predicate Gap(s: string, from: nat, to: nat) {
    from <= to <= |s| && Blank(s[from..to])
  }

  // A segment of the rest, seen in the whole text.
  lemma PlacedLater(s: string, shift: nat, part: string, start: nat)
    requires shift <= |s| && Placed(s[shift..], part, start)
    ensures Placed(s, part, start + shift)
  {
    SliceOfSuffix(s, shift, start, start + |part|);
  }

  lemma GapLater(s: string, shift: nat, from: nat, to: nat)
    requires shift <= |s| && Gap(s[shift..], from, to)
    ensures Gap(s, from + shift, to + shift)
  {
    SliceOfSuffix(s, shift, from, to);
  }

  // The white space behind the first segment is that on both sides of the cut.
  lemma FirstGap(s: string, at: nat, cut: nat, gap: nat)
    requires cut <= at <= at + gap <= |s|
    requires Blank(s[..at][cut..]) && Blank(s[at..][..gap])
    ensures Gap(s, cut, at + gap)
  {
    assert s[cut..at + gap] == s[..at][cut..] + s[at..][..gap];
  }

  lemma CoverPlaced(s: string, shift: nat, parts: seq<string>, inner: seq<nat>, i: nat)
    requires shift <= |s| && Covers(s[shift..], parts, inner) && i < |parts|
    ensures Placed(s, parts[i], inner[i] + shift)
  {
    PlacedLater(s, shift, parts[i], inner[i]);
  }

  lemma CoverGap(s: string, shift: nat, parts: seq<string>, inner: seq<nat>, i: nat)
    requires shift <= |s| && Covers(s[shift..], parts, inner) && i < |parts| - 1
    ensures Gap(s, inner[i] + |parts[i]| + shift, inner[i + 1] + shift)
  {
    GapLater(s, shift, inner[i] + |parts[i]|, inner[i + 1]);
  }

  lemma CoverJoin(s: string, at: nat, cut: nat, gap: nat, parts: seq<string>, inner: seq<nat>)
    requires 0 < cut <= at <= at + gap <= |s|
    requires Blank(s[..at][cut..]) && Blank(s[at..][..gap])
    requires Covers(s[at + gap..], parts, inner)
    ensures Covers(s, [s[..cut]] + parts, [0] + Shift(inner, at + gap))
  {
    FirstGap(s, at, cut, gap);
    JoinCovers(s, cut, at + gap, parts, inner);
  }

  lemma JoinCovers(s: string, cut: nat, shift: nat, parts: seq<string>, inner: seq<nat>)
    requires cut <= shift <= |s| && Covers(s[shift..], parts, inner) && Gap(s, cut, shift)
    ensures Covers(s, [s[..cut]] + parts, [0] + Shift(inner, shift))
  {
    var all, starts := [s[..cut]] + parts, [0] + Shift(inner, shift);
    forall i | 0 <= i < |all| ensures Placed(s, all[i], starts[i]) {
      JoinedPlaced(s, cut, shift, parts, inner, i);
    }
    forall i | 0 <= i < |all| - 1 ensures Gap(s, starts[i] + |all[i]|, starts[i + 1]) {
      JoinedGap(s, cut, shift, parts, inner, i);
    }
  }

  lemma JoinedPlaced(s: string, cut: nat, shift: nat, parts: seq<string>, inner: seq<nat>, i: nat)
    requires cut <= shift <= |s| && Covers(s[shift..], parts, inner) && i <= |parts|
    ensures Placed(s, ([s[..cut]] + parts)[i], ([0] + Shift(inner, shift))[i])
  {
    if i > 0 {
      CoverPlaced(s, shift, parts, inner, i - 1);
    }
  }

  lemma JoinedGap(s: string, cut: nat, shift: nat, parts: seq<string>, inner: seq<nat>, i: nat)
    requires cut <= shift <= |s| && Covers(s[shift..], parts, inner) && i < |parts| && Gap(s, cut, shift)
    ensures Gap(s, ([0] + Shift(inner, shift))[i] + |([s[..cut]] + parts)[i]|, ([0] + Shift(inner, shift))[i + 1])
  {
    if i > 0 {
      CoverGap(s, shift, parts, inner, i - 1);
    }
  }

  // A text that is cut, as its first segment, the white space at the cut, and the rest.
  lemma CutInTwo(s: string, limit: nat) returns (cut: nat, at: nat, gap: nat)
    requires limit >= 1 && s != "" && Trimmed(s) && End(s, limit) < |s|
    ensures 0 < cut <= at <= at + gap < |s|
    ensures Blank(s[..at][cut..]) && Blank(s[at..][..gap])
    ensures Trimmed(s[at + gap..]) && s[at + gap..] != ""
    ensures Segments(s, limit) == [s[..cut]] + Segments(s[at + gap..], limit)
  {
    at := SplitAt(s, End(s, limit));
    SegmentsStep(s, limit);
    SplitWithin(s, End(s, limit));
    ChunkNotEmpty(s, at);
    gap := RestOffset(s, at);
    cut := Trailing(s[..at]);
    assert Strip(s[..at]) == s[..cut];
  }

  /** Nothing but white space is lost, and nothing is reordered. */
  lemma {:induction false} SegmentsCover(s: string, limit: nat) returns (starts: seq<nat>)
    requires limit >= 1 && s != "" && Trimmed(s)
    ensures Covers(s, Segments(s, limit), starts)
    decreases |s|
  {
    if End(s, limit) >= |s| {
      starts := [0];
    } else {
      var cut, at, gap := CutInTwo(s, limit);
      var inner := SegmentsCover(s[at + gap..], limit);
      starts := [0] + Shift(inner, at + gap);
      CoverJoin(s, at, cut, gap, Segments(s[at + gap..], limit), inner);
    }
  }

  /** A segment is sent as one message: it is trimmed, not empty, and fits the limit unless it is one astral character
      under a limit of one unit. */
  predicate Fits(part: string, limit: nat) {
    part != "" && Trimmed(part) && (Units(part) <= limit || (limit == 1 && |part| == 1 && part[0] as int > 0xFFFF))
  }

  lemma {:induction false} SegmentsFit(s: string, limit: nat)
    requires limit >= 1 && Trimmed(s)
    ensures forall i :: 0 <= i < |Segments(s, limit)| ==> Fits(Segments(s, limit)[i], limit)
    decreases |s|
  {
    if s != "" {
      var end := End(s, limit);
      if end >= |s| {
        assert s[..end] == s;
      } else {
        SplitWithin(s, end);
        var at := SplitAt(s, end);
        ChunkNotEmpty(s, at);
        StripShrinks(s[at..]);
        SegmentsFit(Strip(s[at..]), limit);
        var cut := Trailing(s[..at]);
        assert Strip(s[..at]) == s[..cut];
        UnitsPrefix(s[..end], cut);
        assert s[..end][..cut] == s[..cut];
      }
    }
  }

  /** A text that fits is sent whole. */
  lemma FittingTextWhole(s: string, limit: nat)
    requires limit >= 1 && s != "" && Units(s) <= limit
    ensures Segments(s, limit) == [s]
  {}
}
