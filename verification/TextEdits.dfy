/** The text edit engine of the change manager: every replacement is located in the
    original text, overlapping replacements are refused, and the accepted ranges are
    spliced in one left-to-right pass. */
module TextEdits {
  import opened Wrappers
  import opened Ordering
  import opened Strings

  datatype TextReplacement = TextReplacement(oldText: string, newText: string, expectedCount: Option<nat>)

  /** A range of the original text and the text that takes its place. */
  datatype Range = Range(start: nat, end: nat, newText: string)

  datatype EditError = WrongCount | NotFound | Overlapping

  // ---------------------------------------------------------------- occurrences

  predicate MatchesAt(text: string, needle: string, i: nat) {
    i + |needle| <= |text| && text[i..i + |needle|] == needle
  }

  /** `text.find(needle, start)`. */
  function Find(text: string, needle: string, start: nat): (r: Option<nat>)
    ensures r.Some? ==> start <= r.value && MatchesAt(text, needle, r.value)
    ensures forall i | start <= i < (if r.Some? then r.value else |text| + 1) :: !MatchesAt(text, needle, i)
    decreases |text| + 1 - start
  {
    if start + |needle| > |text| then None
    else if MatchesAt(text, needle, start) then Some(start)
    else Find(text, needle, start + 1)
  }

  ghost predicate StrictlyIncreasing(s: seq<nat>) {
    forall i, j :: 0 <= i < j < |s| ==> s[i] < s[j]
  }

  /** `found` lists every match position, overlapping ones included, each once, in order. */
  ghost predicate IsAllOccurrences(text: string, needle: string, found: seq<nat>) {
    StrictlyIncreasing(found) && forall i: nat :: i in found <==> MatchesAt(text, needle, i)
  }

  function OccurrencesFrom(text: string, needle: string, start: nat): seq<nat>
    requires start <= |text| + 1
    decreases |text| + 1 - start
  {
    match Find(text, needle, start)
    case None => []
    case Some(i) => [i] + OccurrencesFrom(text, needle, i + 1)
  }

  function Occurrences(text: string, needle: string): seq<nat> {
    OccurrencesFrom(text, needle, 0)
  }

  /** Exactly the match positions from `start` on, in order. */
  ghost predicate IsAllFrom(text: string, needle: string, start: nat, found: seq<nat>) {
    StrictlyIncreasing(found) && forall i: nat :: i in found <==> start <= i && MatchesAt(text, needle, i)
  }

  lemma {:induction false} OccurrencesFromExact(text: string, needle: string, start: nat, found: seq<nat>)
    requires start <= |text| + 1 && found == OccurrencesFrom(text, needle, start)
    ensures IsAllFrom(text, needle, start, found)
    decreases |text| + 1 - start
  {
    var first := Find(text, needle, start);
    if first.None? {
      NothingFound(text, needle, start);
    } else {
      var later := OccurrencesFrom(text, needle, first.value + 1);
      OccurrencesFromExact(text, needle, first.value + 1, later);
      FirstThenLater(text, needle, start, first.value, later);
    }
  }

  lemma {:induction false} NothingFound(text: string, needle: string, start: nat)
    requires Find(text, needle, start).None?
    ensures IsAllFrom(text, needle, start, [])
  {}

  lemma {:induction false} FirstThenLater(text: string, needle: string, start: nat, i: nat, later: seq<nat>)
    requires start <= i && MatchesAt(text, needle, i) && forall k: nat | start <= k < i :: !MatchesAt(text, needle, k)
    requires IsAllFrom(text, needle, i + 1, later)
    ensures IsAllFrom(text, needle, start, [i] + later)
  {
    assert forall j | 0 <= j < |later| :: later[j] in later;
  }

  lemma {:induction false} OccurrencesExact(text: string, needle: string)
    ensures IsAllOccurrences(text, needle, Occurrences(text, needle))
  {
    OccurrencesFromExact(text, needle, 0, Occurrences(text, needle));
  }

  lemma {:induction false} AllOccurrencesUnique(a: seq<nat>, b: seq<nat>)
    requires StrictlyIncreasing(a) && StrictlyIncreasing(b)
    requires forall i: nat :: i in a <==> i in b
    ensures a == b
  {
    assert a != [] ==> a[0] in b;
    assert b != [] ==> b[0] in a;
    if a != [] {
      assert a[0] == b[0];
      forall i: nat ensures i in a[1..] <==> i in b[1..] {
        assert i in a[1..] <==> i in a && i != a[0];
        assert i in b[1..] <==> i in b && i != b[0];
      }
      AllOccurrencesUnique(a[1..], b[1..]);
    }
  }

  method FindOccurrences(text: string, needle: string) returns (found: seq<nat>)
    ensures IsAllOccurrences(text, needle, found)
    ensures found == Occurrences(text, needle)
  {
    var start: nat := 0;
    found := [];
    while true
      invariant start <= |text| + 1
      invariant StrictlyIncreasing(found)
      invariant forall i: nat :: i in found <==> i < start && MatchesAt(text, needle, i)
      decreases |text| + 1 - start
    {
      var idx := Find(text, needle, start);
      if idx.None? {
        OccurrencesExact(text, needle);
        AllOccurrencesUnique(found, Occurrences(text, needle));
        return;
      }
      assert forall k :: 0 <= k < |found| ==> found[k] in found;
      found := found + [idx.value];
      start := idx.value + 1;
    }
  }

  // ---------------------------------------------------------------- ranges

  /** The tuple order `ranges.sort()` uses. */
  predicate RangeLeq(a: Range, b: Range) {
    a.start < b.start || (a.start == b.start && (a.end < b.end || (a.end == b.end && StrLeq(a.newText, b.newText))))
  }

  lemma {:induction false} RangeLeqIsTotalOrder()
    ensures TotalOrder(RangeLeq)
  {
    StrLeqIsTotalOrder();
  }

  function RangesAt(starts: seq<nat>, rep: TextReplacement): (r: seq<Range>)
    ensures |r| == |starts|
    ensures forall i | 0 <= i < |r| :: r[i] == Range(starts[i], starts[i] + |rep.oldText|, rep.newText)
  {
    seq(|starts|, i requires 0 <= i < |starts| => Range(starts[i], starts[i] + |rep.oldText|, rep.newText))
  }

  /** The ranges one replacement asks for, or why it is refused. */
  function RangesOf(text: string, rep: TextReplacement): Result<seq<Range>, EditError> {
    var starts := Occurrences(text, rep.oldText);
    if rep.expectedCount.Some? && |starts| != rep.expectedCount.value then Err(WrongCount)
    else if starts == [] then Err(NotFound)
    else Ok(RangesAt(starts, rep))
  }

  function Collect(text: string, reps: seq<TextReplacement>): Result<seq<Range>, EditError> {
    if reps == [] then Ok([])
    else
      match Collect(text, reps[..|reps| - 1])
      case Err(e) => Err(e)
      case Ok(before) =>
        match RangesOf(text, reps[|reps| - 1])
        case Err(e) => Err(e)
        case Ok(rs) => Ok(before + rs)
  }

  predicate AdjacentDisjoint(rs: seq<Range>) {
    forall i :: 1 <= i < |rs| ==> rs[i - 1].end <= rs[i].start
  }

  predicate WellFormedRanges(rs: seq<Range>, length: nat) {
    forall i :: 0 <= i < |rs| ==> rs[i].start <= rs[i].end <= length
  }

  /** One range replaced in place. */
  function Replace(text: string, r: Range): string
    requires r.start <= r.end <= |text|
  {
    text[..r.start] + r.newText + text[r.end..]
  }

  /** What the documentation promises: the ranges replaced one after another, the
      highest offset first, so that no replacement moves a range still to come. */
  function HighestFirst(text: string, rs: seq<Range>): string
    requires WellFormedRanges(rs, |text|) && AdjacentDisjoint(rs)
    decreases |rs|
  {
    if rs == [] then text
    else
      var last := rs[|rs| - 1];
      var rest := rs[..|rs| - 1];
      EarlierEndLower(rs, |text|);
      HighestFirst(Replace(text, last), rest)
  }

  lemma {:induction false} EarlierEndLower(rs: seq<Range>, length: nat)
    requires WellFormedRanges(rs, length) && AdjacentDisjoint(rs) && rs != []
    ensures forall i :: 0 <= i < |rs| - 1 ==> rs[i].end <= rs[|rs| - 1].start
  {
    if |rs| > 1 {
      EarlierEndLower(rs[..|rs| - 1], length);
      assert rs[|rs| - 2].end <= rs[|rs| - 1].start;
    }
  }

  lemma {:induction false} RangesOfInside(text: string, rep: TextReplacement)
    requires RangesOf(text, rep).Ok?
    ensures WellFormedRanges(RangesOf(text, rep).value, |text|)
    ensures rep.oldText != [] ==> forall r :: r in RangesOf(text, rep).value ==> r.start < r.end
  {
    var starts := Occurrences(text, rep.oldText);
    OccurrencesExact(text, rep.oldText);
    forall k | 0 <= k < |starts| ensures starts[k] + |rep.oldText| <= |text| {
      assert starts[k] in starts && MatchesAt(text, rep.oldText, starts[k]);
    }
  }

  /** Ranges collected from `text` lie inside it. */
  lemma {:induction false} CollectedInside(text: string, reps: seq<TextReplacement>)
    requires Collect(text, reps).Ok?
    ensures WellFormedRanges(Collect(text, reps).value, |text|)
    ensures (forall rep :: rep in reps ==> rep.oldText != []) ==>
              forall r :: r in Collect(text, reps).value ==> r.start < r.end
  {
    if reps != [] {
      CollectedInside(text, reps[..|reps| - 1]);
      RangesOfInside(text, reps[|reps| - 1]);
    }
  }

  lemma {:induction false} SortedInside(rs: seq<Range>, length: nat)
    requires WellFormedRanges(rs, length)
    ensures WellFormedRanges(Sort(rs, RangeLeq), length)
  {
    SameElements(Sort(rs, RangeLeq), rs);
    forall i | 0 <= i < |rs| ensures Sort(rs, RangeLeq)[i].start <= Sort(rs, RangeLeq)[i].end <= length {
      assert Sort(rs, RangeLeq)[i] in rs;
    }
  }

  /** The result the edit request stands for. */
  function Edited(text: string, reps: seq<TextReplacement>): Result<string, EditError> {
    match Collect(text, reps)
    case Err(e) => Err(e)
    case Ok(rs) =>
      CollectedInside(text, reps);
      SortedInside(rs, |text|);
      var sorted := Sort(rs, RangeLeq);
      if AdjacentDisjoint(sorted) then Ok(HighestFirst(text, sorted)) else Err(Overlapping)
  }

  // ---------------------------------------------------------------- the splice

  /** What is left to emit when everything before `cursor` has been emitted. */
  function SpliceFrom(text: string, rs: seq<Range>, cursor: nat): string
    requires WellFormedRanges(rs, |text|) && AdjacentDisjoint(rs)
    requires cursor <= |text| && (rs != [] ==> cursor <= rs[0].start)
    decreases |rs|
  {
    if rs == [] then text[cursor..]
    else text[cursor..rs[0].start] + rs[0].newText + SpliceFrom(text, rs[1..], rs[0].end)
  }

  lemma {:induction false} ReplaceKeepsBefore(text: string, r: Range, a: nat, b: nat)
    requires a <= b <= r.start <= r.end <= |text|
    ensures b <= |Replace(text, r)| && Replace(text, r)[a..b] == text[a..b]
  {}

  /** Replacing the last range first does not disturb the splice of the others. */
  lemma {:induction false} SplicePeelsLast(text: string, rs: seq<Range>, cursor: nat)
    requires rs != [] && WellFormedRanges(rs, |text|) && AdjacentDisjoint(rs) && cursor <= rs[0].start
    ensures var last, rest := rs[|rs| - 1], rs[..|rs| - 1];
            WellFormedRanges(rest, |Replace(text, last)|) && cursor <= |Replace(text, last)| &&
            SpliceFrom(text, rs, cursor) == SpliceFrom(Replace(text, last), rest, cursor)
    decreases |rs|
  {
    EarlierEndLower(rs, |text|);
    var last := rs[|rs| - 1];
    var t := Replace(text, last);
    if |rs| == 1 {
      assert SpliceFrom(text, rs, cursor) == text[cursor..last.start] + last.newText + text[last.end..];
      assert t[cursor..] == text[cursor..last.start] + last.newText + text[last.end..];
    } else {
      SplicePeelsLast(text, rs[1..], rs[0].end);
      assert rs[1..][..|rs| - 2] == rs[..|rs| - 1][1..];
      assert rs[0].end <= last.start;
      ReplaceKeepsBefore(text, last, cursor, rs[0].start);
    }
  }

  lemma {:induction false} SpliceIsHighestFirst(text: string, rs: seq<Range>)
    requires WellFormedRanges(rs, |text|) && AdjacentDisjoint(rs)
    ensures SpliceFrom(text, rs, 0) == HighestFirst(text, rs)
    decreases |rs|
  {
    if rs != [] {
      EarlierEndLower(rs, |text|);
      SplicePeelsLast(text, rs, 0);
      SpliceIsHighestFirst(Replace(text, rs[|rs| - 1]), rs[..|rs| - 1]);
    }
  }

  method CollectRanges(text: string, reps: seq<TextReplacement>) returns (r: Result<seq<Range>, EditError>)
    ensures r == Collect(text, reps)
  {
    var ranges: seq<Range> := [];
    for k := 0 to |reps|
      invariant Collect(text, reps[..k]) == Ok(ranges)
    {
      assert reps[..k + 1][..k] == reps[..k];
      var starts := FindOccurrences(text, reps[k].oldText);
      if reps[k].expectedCount.Some? && |starts| != reps[k].expectedCount.value {
        CollectFails(text, reps, k + 1, WrongCount);
        return Err(WrongCount);
      }
      if starts == [] {
        CollectFails(text, reps, k + 1, NotFound);
        return Err(NotFound);
      }
      ranges := ranges + RangesAt(starts, reps[k]);
    }
    assert reps[..|reps|] == reps;
    r := Ok(ranges);
  }

  lemma {:induction false} SpliceStep(text: string, rs: seq<Range>, cursor: nat, parts: seq<string>)
    requires rs != [] && WellFormedRanges(rs, |text|) && AdjacentDisjoint(rs) && cursor <= rs[0].start
    ensures WellFormedRanges(rs[1..], |text|) && AdjacentDisjoint(rs[1..])
    ensures Join(parts + [text[cursor..rs[0].start]] + [rs[0].newText]) + SpliceFrom(text, rs[1..], rs[0].end)
         == Join(parts) + SpliceFrom(text, rs, cursor)
  {
    var kept, rest := text[cursor..rs[0].start], SpliceFrom(text, rs[1..], rs[0].end);
    assert (parts + [kept] + [rs[0].newText])[..|parts| + 1] == parts + [kept];
    assert (parts + [kept])[..|parts|] == parts;
    assert Join(parts) + kept + rs[0].newText + rest == Join(parts) + (kept + rs[0].newText + rest);
  }

  method SplicePass(text: string, ranges: seq<Range>) returns (r: string)
    requires WellFormedRanges(ranges, |text|) && AdjacentDisjoint(ranges)
    ensures r == HighestFirst(text, ranges)
  {
    SpliceIsHighestFirst(text, ranges);
    var parts: seq<string> := [];
    var cursor: nat := 0;
    for i := 0 to |ranges|
      invariant cursor <= |text|
      invariant WellFormedRanges(ranges[i..], |text|) && AdjacentDisjoint(ranges[i..])
      invariant i < |ranges| ==> cursor <= ranges[i].start
      invariant Join(parts) + SpliceFrom(text, ranges[i..], cursor) == SpliceFrom(text, ranges, 0)
    {
      assert ranges[i..][1..] == ranges[i + 1..] && ranges[i..][0] == ranges[i];
      SpliceStep(text, ranges[i..], cursor, parts);
      parts := parts + [text[cursor..ranges[i].start]] + [ranges[i].newText];
      cursor := ranges[i].end;
    }
    assert (parts + [text[cursor..]])[..|parts|] == parts;
    parts := parts + [text[cursor..]];
    r := Join(parts);
  }

  method NoOverlap(ranges: seq<Range>) returns (ok: bool)
    ensures ok == AdjacentDisjoint(ranges)
  {
    var i := 1;
    while i < |ranges|
      invariant forall j :: 1 <= j < i && j < |ranges| ==> ranges[j - 1].end <= ranges[j].start
    {
      if ranges[i].start < ranges[i - 1].end { return false; }
      i := i + 1;
    }
    return true;
  }

  method ApplyEdits(text: string, reps: seq<TextReplacement>) returns (r: Result<string, EditError>)
    ensures r == Edited(text, reps)
    ensures forall t :: r == Ok(t) <==> EditsTo(text, reps, t)
    ensures r in {Err(WrongCount), Err(NotFound)} <==> exists rep | rep in reps :: Unfit(text, rep)
  {
    forall t ensures Edited(text, reps) == Ok(t) <==> EditsTo(text, reps, t) { EditedMeans(text, reps, t); }
    CountErrorsExact(text, reps);
    var collected := CollectRanges(text, reps);
    if collected.Err? { return Err(collected.error); }
    CollectedInside(text, reps);
    SortedInside(collected.value, |text|);
    var ranges := Sort(collected.value, RangeLeq);
    var ok := NoOverlap(ranges);
    if !ok { return Err(Overlapping); }
    var spliced := SplicePass(text, ranges);
    r := Ok(spliced);
  }

  lemma {:induction false} CollectFails(text: string, reps: seq<TextReplacement>, k: nat, e: EditError)
    requires k <= |reps| && Collect(text, reps[..k]) == Err(e)
    ensures Collect(text, reps) == Err(e)
    decreases |reps| - k
  {
    if k == |reps| {
      assert reps[..k] == reps;
    } else {
      assert reps[..k + 1][..k] == reps[..k];
      CollectFails(text, reps, k + 1, e);
    }
  }

  // ---------------------------------------------------------------- acceptance

  predicate Apart(a: Range, b: Range) {
    a.end <= b.start || b.end <= a.start
  }

  /** No two requested ranges share a character; says nothing about any order. */
  ghost predicate PairwiseDisjoint(rs: seq<Range>) {
    && (forall a, b :: a in rs && b in rs && a != b ==> Apart(a, b))
    && (forall a :: a in rs ==> multiset(rs)[a] == 1)
  }

  lemma {:induction false} OnceAt<T>(s: seq<T>, i: nat)
    requires i < |s| && s[i] !in s[..i] && s[i] !in s[i + 1..]
    ensures multiset(s)[s[i]] == 1
  {
    assert s == s[..i] + [s[i]] + s[i + 1..];
  }

  lemma {:induction false} TwiceAt<T>(s: seq<T>, i: nat)
    requires 1 <= i < |s| && s[i - 1] == s[i]
    ensures multiset(s)[s[i]] >= 2
  {
    assert s == s[..i - 1] + [s[i], s[i]] + s[i + 1..];
  }

  lemma {:induction false} AdjacentImpliesPairwise(s: seq<Range>)
    requires AdjacentDisjoint(s) && forall r :: r in s ==> r.start < r.end
    ensures PairwiseDisjoint(s)
  {
    forall i, j | 0 <= i < j < |s| ensures s[i].end <= s[j].start && s[i] != s[j] {
      LaterStartsAfter(s, i, j);
      assert s[i] in s;
    }
    forall a | a in s ensures multiset(s)[a] == 1 {
      var i :| 0 <= i < |s| && s[i] == a;
      OnceAt(s, i);
    }
  }

  lemma {:induction false} PairwiseImpliesAdjacent(s: seq<Range>)
    requires PairwiseDisjoint(s) && SortedBy(s, RangeLeq) && forall r :: r in s ==> r.start < r.end
    ensures AdjacentDisjoint(s)
  {
    forall i | 1 <= i < |s| ensures s[i - 1].end <= s[i].start {
      assert s[i - 1] in s && s[i] in s && RangeLeq(s[i - 1], s[i]);
      if s[i - 1] == s[i] { TwiceAt(s, i); }
    }
  }

  /** Checking neighbours after sorting is enough, and never refuses too much. */
  lemma {:induction false} AdjacentCheckExact(rs: seq<Range>)
    requires forall r :: r in rs ==> r.start < r.end
    ensures AdjacentDisjoint(Sort(rs, RangeLeq)) <==> PairwiseDisjoint(rs)
  {
    var s := Sort(rs, RangeLeq);
    RangeLeqIsTotalOrder();
    SortSorted(rs, RangeLeq);
    SameElements(s, rs);
    if AdjacentDisjoint(s) { AdjacentImpliesPairwise(s); }
    if PairwiseDisjoint(rs) { PairwiseImpliesAdjacent(s); }
  }

  lemma {:induction false} LaterStartsAfter(s: seq<Range>, i: nat, j: nat)
    requires i < j < |s| && AdjacentDisjoint(s)
    requires forall r :: r in s ==> r.start < r.end
    ensures s[i].end <= s[j].start
    decreases j - i
  {
    assert s[j - 1].end <= s[j].start;
    if i < j - 1 {
      LaterStartsAfter(s, i, j - 1);
      assert s[j - 1] in s;
    }
  }

  /** An edit is refused for overlap exactly when two of its ranges share a character. */
  lemma {:induction false} OverlapExact(text: string, reps: seq<TextReplacement>)
    requires forall rep :: rep in reps ==> rep.oldText != []
    requires Collect(text, reps).Ok?
    ensures Edited(text, reps) == Err(Overlapping) <==> !PairwiseDisjoint(Collect(text, reps).value)
  {
    CollectedInside(text, reps);
    AdjacentCheckExact(Collect(text, reps).value);
  }

  lemma {:induction false} CollectOkExact(text: string, reps: seq<TextReplacement>)
    ensures Collect(text, reps).Ok? <==> forall rep :: rep in reps ==> RangesOf(text, rep).Ok?
  {
    if reps != [] {
      var n := |reps| - 1;
      CollectOkExact(text, reps[..n]);
      assert reps == reps[..n] + [reps[n]];
    }
  }

  function Without<T>(s: seq<T>, k: nat): seq<T>
    requires k < |s|
  {
    s[..k] + s[k + 1..]
  }

  lemma {:induction false} WithoutElements<T>(s: seq<T>, k: nat)
    requires k < |s|
    ensures multiset(Without(s, k)) == multiset(s) - multiset{s[k]}
  {
    assert s == s[..k] + [s[k]] + s[k + 1..];
  }

  lemma {:induction false} CollectStep(text: string, reps: seq<TextReplacement>)
    requires reps != [] && Collect(text, reps).Ok?
    ensures var n := |reps| - 1;
            Collect(text, reps[..n]).Ok? && RangesOf(text, reps[n]).Ok? &&
            multiset(Collect(text, reps).value) == multiset(Collect(text, reps[..n]).value) +
                multiset(RangesOf(text, reps[n]).value)
  {}

  lemma {:induction false} WithoutInit<T>(s: seq<T>, k: nat)
    requires k < |s| - 1
    ensures var w := Without(s, k);
            w != [] && w[..|w| - 1] == Without(s[..|s| - 1], k) && w[|w| - 1] == s[|s| - 1] && s[..|s| - 1][k] == s[k]
  {}

  /** Dropping the k-th replacement drops exactly its ranges. */
  lemma {:induction false} CollectWithout(text: string, reps: seq<TextReplacement>, k: nat)
    requires k < |reps| && Collect(text, reps).Ok?
    ensures Collect(text, Without(reps, k)).Ok? && RangesOf(text, reps[k]).Ok?
    ensures multiset(Collect(text, reps).value) == multiset(Collect(text, Without(reps, k)).value) +
            multiset(RangesOf(text, reps[k]).value)
    decreases |reps|
  {
    var init, last := reps[..|reps| - 1], reps[|reps| - 1];
    CollectStep(text, reps);
    if k == |reps| - 1 {
      assert Without(reps, k) == init;
    } else {
      WithoutInit(reps, k);
      CollectWithout(text, init, k);
      CollectAppend(text, Without(reps, k));
    }
  }

  lemma {:induction false} CollectAppend(text: string, reps: seq<TextReplacement>)
    requires reps != [] && Collect(text, reps[..|reps| - 1]).Ok? && RangesOf(text, reps[|reps| - 1]).Ok?
    ensures var n := |reps| - 1;
            Collect(text, reps).Ok? &&
            multiset(Collect(text, reps).value) == multiset(Collect(text, reps[..n]).value) +
                multiset(RangesOf(text, reps[n]).value)
  {}

  lemma {:induction false} CollectOfPermutation(text: string, a: seq<TextReplacement>, b: seq<TextReplacement>)
    requires multiset(a) == multiset(b) && Collect(text, a).Ok? && Collect(text, b).Ok?
    ensures multiset(Collect(text, a).value) == multiset(Collect(text, b).value)
    decreases |a|
  {
    assert |a| == |multiset(a)| == |multiset(b)| == |b|;
    if a != [] {
      var n := |a| - 1;
      SameElements(a, b);
      assert a[n] in b;
      var k :| 0 <= k < |b| && b[k] == a[n];
      assert Without(a, n) == a[..n];
      WithoutElements(a, n);
      WithoutElements(b, k);
      CollectStep(text, a);
      CollectWithout(text, b, k);
      CollectOfPermutation(text, a[..n], Without(b, k));
    }
  }

  /** Acceptance and result do not depend on the order of the replacements. */
  lemma {:induction false} EditOrderIrrelevant(text: string, a: seq<TextReplacement>, b: seq<TextReplacement>)
    requires multiset(a) == multiset(b)
    ensures Edited(text, a).Ok? <==> Edited(text, b).Ok?
    ensures Edited(text, a).Ok? ==> Edited(text, a) == Edited(text, b)
  {
    SameElements(a, b);
    CollectOkExact(text, a);
    CollectOkExact(text, b);
    if Collect(text, a).Ok? {
      CollectOfPermutation(text, a, b);
      RangeLeqIsTotalOrder();
      SortOfPermutation(Collect(text, a).value, Collect(text, b).value, RangeLeq);
    }
  }

  // ---------------------------------------------------------------- what an edit asks for

  /** The positions where `needle` stands in `text`. */
  ghost function MatchSet(text: string, needle: string): set<nat> {
    set i: nat | i <= |text| && MatchesAt(text, needle, i)
  }

  /** The replacement finds nothing, or not as often as it expects. */
  ghost predicate Unfit(text: string, rep: TextReplacement) {
    var count := |MatchSet(text, rep.oldText)|;
    count == 0 || (rep.expectedCount.Some? && rep.expectedCount.value != count)
  }

  /** The replacement asks for this range: its old text stands there, its new text is to take the place. */
  predicate Asks(text: string, rep: TextReplacement, r: Range) {
    MatchesAt(text, rep.oldText, r.start) && r.end == r.start + |rep.oldText| && r.newText == rep.newText
  }

  /** The replacements that ask for a range. */
  ghost function Askers(text: string, reps: seq<TextReplacement>, r: Range): set<nat> {
    set k: nat | k < |reps| && Asks(text, reps[k], r)
  }

  /** Every range as often as there are replacements that ask for it. */
  ghost predicate AskedExactly(text: string, reps: seq<TextReplacement>, rs: seq<Range>) {
    forall r :: multiset(rs)[r] == |Askers(text, reps, r)|
  }

  /** The ranges all replacements ask for, in order and apart, are what turns `text` into `result`. */
  ghost predicate EditsTo(text: string, reps: seq<TextReplacement>, result: string) {
    && (forall rep | rep in reps :: !Unfit(text, rep))
    && exists rs :: TurnsInto(text, reps, rs, result)
  }

  ghost predicate TurnsInto(text: string, reps: seq<TextReplacement>, rs: seq<Range>, result: string) {
    && AskedExactly(text, reps, rs) && SortedBy(rs, RangeLeq)
    && WellFormedRanges(rs, |text|) && AdjacentDisjoint(rs) && result == HighestFirst(text, rs)
  }

  /** A strictly increasing list of the members of a set is as long as the set is large. */
  lemma {:induction false} CountOfStrict(s: seq<nat>, all: set<nat>)
    requires StrictlyIncreasing(s) && forall i: nat :: i in s <==> i in all
    ensures |all| == |s|
  {
    if s == [] {
      assert all == {};
    } else {
      var n := |s| - 1;
      assert s == s[..n] + [s[n]] && s[n] !in s[..n] && s[n] in all;
      forall i: nat ensures i in s[..n] <==> i in all - {s[n]} {}
      CountOfStrict(s[..n], all - {s[n]});
    }
  }

  /** As many occurrences are found as there are positions. */
  lemma {:induction false} OccurrencesCount(text: string, needle: string)
    ensures |Occurrences(text, needle)| == |MatchSet(text, needle)|
  {
    var found := Occurrences(text, needle);
    OccurrencesExact(text, needle);
    CountOfStrict(found, MatchSet(text, needle));
  }

  lemma {:induction false} RangesOfFits(text: string, rep: TextReplacement)
    ensures RangesOf(text, rep).Ok? <==> !Unfit(text, rep)
    ensures RangesOf(text, rep) == Err(WrongCount) <==>
            rep.expectedCount.Some? && rep.expectedCount.value != |MatchSet(text, rep.oldText)|
  {
    OccurrencesCount(text, rep.oldText);
  }

  lemma {:induction false} OnceIn<T>(s: seq<T>, x: T)
    requires forall i, j | 0 <= i < j < |s| :: s[i] != s[j]
    ensures multiset(s)[x] == if x in s then 1 else 0
  {
    if x in s {
      var i :| 0 <= i < |s| && s[i] == x;
      OnceAt(s, i);
    }
  }

  /** One replacement's ranges: each one it asks for, once. */
  lemma {:induction false} RangesOfAsked(text: string, rep: TextReplacement, r: Range)
    requires RangesOf(text, rep).Ok?
    ensures multiset(RangesOf(text, rep).value)[r] == if Asks(text, rep, r) then 1 else 0
  {
    var starts, rs := Occurrences(text, rep.oldText), RangesOf(text, rep).value;
    OccurrencesExact(text, rep.oldText);
    OnceIn(rs, r);
    if Asks(text, rep, r) {
      assert r.start in starts;
      var i :| 0 <= i < |starts| && starts[i] == r.start;
      assert rs[i] == r;
    }
    if r in rs {
      var i :| 0 <= i < |rs| && rs[i] == r;
      assert starts[i] in starts;
    }
  }

  lemma {:induction false} AskersStep(text: string, reps: seq<TextReplacement>, r: Range)
    requires reps != []
    ensures var n := |reps| - 1;
            |Askers(text, reps, r)| == |Askers(text, reps[..n], r)| + if Asks(text, reps[n], r) then 1 else 0
  {
    var n := |reps| - 1;
    var before := Askers(text, reps[..n], r);
    assert n !in before;
    assert forall k: nat | k < n :: reps[..n][k] == reps[k];
    assert Askers(text, reps, r) == before + if Asks(text, reps[n], r) then {n} else {};
  }

  /** What is collected is what is asked for, each range as often as it is asked for. */
  lemma {:induction false} CollectedAsked(text: string, reps: seq<TextReplacement>, r: Range)
    requires Collect(text, reps).Ok?
    ensures multiset(Collect(text, reps).value)[r] == |Askers(text, reps, r)|
  {
    if reps == [] {
      assert Askers(text, reps, r) == {};
    } else {
      var n := |reps| - 1;
      CollectedAsked(text, reps[..n], r);
      RangesOfAsked(text, reps[n], r);
      CollectStep(text, reps);
      AskersStep(text, reps, r);
    }
  }

  lemma {:induction false} CollectedExactly(text: string, reps: seq<TextReplacement>)
    requires Collect(text, reps).Ok?
    ensures AskedExactly(text, reps, Collect(text, reps).value)
    ensures AskedExactly(text, reps, Sort(Collect(text, reps).value, RangeLeq))
  {
    var rs := Collect(text, reps).value;
    forall r ensures multiset(rs)[r] == |Askers(text, reps, r)| { CollectedAsked(text, reps, r); }
    assert multiset(Sort(rs, RangeLeq)) == multiset(rs);
  }

  /** An edit fails before the overlap check exactly when some replacement is unfit; the first unfit one says why. */
  lemma {:induction false} CountErrorsExact(text: string, reps: seq<TextReplacement>)
    ensures Collect(text, reps).Err? <==> exists rep | rep in reps :: Unfit(text, rep)
    ensures Edited(text, reps) in {Err(WrongCount), Err(NotFound)} <==> exists rep | rep in reps :: Unfit(text, rep)
  {
    CollectOkExact(text, reps);
    forall rep | rep in reps ensures RangesOf(text, rep).Ok? <==> !Unfit(text, rep) { RangesOfFits(text, rep); }
    CollectError(text, reps);
  }

  lemma {:induction false} CollectError(text: string, reps: seq<TextReplacement>)
    ensures Collect(text, reps).Err? ==> Collect(text, reps).error in {WrongCount, NotFound}
  {
    if reps != [] { CollectError(text, reps[..|reps| - 1]); }
  }

  /** The first unfit replacement decides which error is reported. */
  lemma {:induction false} FirstUnfitDecides(text: string, reps: seq<TextReplacement>, k: nat)
    requires k < |reps| && Unfit(text, reps[k]) && forall j | 0 <= j < k :: !Unfit(text, reps[j])
    ensures Edited(text, reps) ==
            Err(if reps[k].expectedCount.Some? && reps[k].expectedCount.value != |MatchSet(text, reps[k].oldText)|
                then WrongCount else NotFound)
  {
    forall j | 0 <= j <= k ensures RangesOf(text, reps[j]).Ok? <==> !Unfit(text, reps[j]) {
      RangesOfFits(text, reps[j]);
    }
    forall rep | rep in reps[..k] ensures RangesOf(text, rep).Ok? {
      var j :| 0 <= j < k && reps[j] == rep;
    }
    CollectOkExact(text, reps[..k]);
    assert reps[..k + 1][..k] == reps[..k];
    RangesOfFits(text, reps[k]);
    CollectFails(text, reps, k + 1, RangesOf(text, reps[k]).error);
  }

  /** The edit has a result exactly when the replacements turn the text into one, and it is that one. */
  lemma {:induction false} EditedMeans(text: string, reps: seq<TextReplacement>, result: string)
    ensures Edited(text, reps) == Ok(result) <==> EditsTo(text, reps, result)
  {
    CountErrorsExact(text, reps);
    if Collect(text, reps).Ok? {
      CollectedSorted(text, reps);
      var sorted := Sort(Collect(text, reps).value, RangeLeq);
      if Edited(text, reps) == Ok(result) { assert TurnsInto(text, reps, sorted, result); }
      if EditsTo(text, reps, result) { ResultOfRanges(text, reps, sorted, result); }
    }
  }

  lemma {:induction false} CollectedSorted(text: string, reps: seq<TextReplacement>)
    requires Collect(text, reps).Ok?
    ensures var sorted := Sort(Collect(text, reps).value, RangeLeq);
            AskedExactly(text, reps, sorted) && SortedBy(sorted, RangeLeq) && WellFormedRanges(sorted, |text|)
  {
    CollectedExactly(text, reps);
    CollectedInside(text, reps);
    SortedInside(Collect(text, reps).value, |text|);
    RangeLeqIsTotalOrder();
    SortSorted(Collect(text, reps).value, RangeLeq);
  }

  /** There is only one way to list the ranges asked for. */
  lemma {:induction false} ResultOfRanges(text: string, reps: seq<TextReplacement>, sorted: seq<Range>, result: string)
    requires EditsTo(text, reps, result) && AskedExactly(text, reps, sorted) && SortedBy(sorted, RangeLeq)
    ensures TurnsInto(text, reps, sorted, result)
  {
    var rs :| TurnsInto(text, reps, rs, result);
    RangeLeqIsTotalOrder();
    SameAsked(text, reps, rs, sorted);
    SortedUnique(rs, sorted, RangeLeq);
  }

  lemma {:induction false} SameAsked(text: string, reps: seq<TextReplacement>, a: seq<Range>, b: seq<Range>)
    requires AskedExactly(text, reps, a) && AskedExactly(text, reps, b)
    ensures multiset(a) == multiset(b)
  {
    forall r ensures multiset(a)[r] == multiset(b)[r] {
      assert multiset(a)[r] == |Askers(text, reps, r)|;
      assert multiset(b)[r] == |Askers(text, reps, r)|;
    }
  }

  /** Two of the ranges asked for share a character. */
  ghost predicate AskedTwice(text: string, reps: seq<TextReplacement>) {
    || (exists r :: |Askers(text, reps, r)| >= 2)
    || exists a, b :: Askers(text, reps, a) != {} && Askers(text, reps, b) != {} && a != b && !Apart(a, b)
  }

  /** When every replacement fits and none looks for the empty text, the edit is refused exactly when two of the
      ranges asked for share a character. */
  lemma {:induction false} OverlapAsked(text: string, reps: seq<TextReplacement>)
    requires forall rep | rep in reps :: rep.oldText != [] && !Unfit(text, rep)
    ensures Edited(text, reps) == Err(Overlapping) <==> AskedTwice(text, reps)
  {
    CountErrorsExact(text, reps);
    OverlapExact(text, reps);
    CollectedExactly(text, reps);
    AskedTwiceExact(text, reps, Collect(text, reps).value);
  }

  lemma {:induction false} AskedIn(text: string, reps: seq<TextReplacement>, rs: seq<Range>, r: Range)
    requires AskedExactly(text, reps, rs)
    ensures multiset(rs)[r] == |Askers(text, reps, r)| && (r in rs <==> Askers(text, reps, r) != {})
  {
    assert multiset(rs)[r] == |Askers(text, reps, r)|;
  }

  lemma {:induction false} AskedTwiceExact(text: string, reps: seq<TextReplacement>, rs: seq<Range>)
    requires AskedExactly(text, reps, rs)
    ensures AskedTwice(text, reps) <==> !PairwiseDisjoint(rs)
  {
    if r :| |Askers(text, reps, r)| >= 2 { AskedIn(text, reps, rs, r); }
    if a, b :| Askers(text, reps, a) != {} && Askers(text, reps, b) != {} && a != b && !Apart(a, b) {
      AskedIn(text, reps, rs, a);
      AskedIn(text, reps, rs, b);
    }
    if r :| r in rs && multiset(rs)[r] != 1 { AskedIn(text, reps, rs, r); }
    if a, b :| a in rs && b in rs && a != b && !Apart(a, b) {
      AskedIn(text, reps, rs, a);
      AskedIn(text, reps, rs, b);
    }
  }

  // ---------------------------------------------------------------- what the result holds

  /** By how much the first `i` ranges move what follows them. */
  function Shift(rs: seq<Range>, i: nat): int
    requires i <= |rs|
  {
    if i == 0 then 0 else Shift(rs, i - 1) + |rs[i - 1].newText| - (rs[i - 1].end - rs[i - 1].start)
  }

  lemma {:induction false} ShiftOfInit(rs: seq<Range>, i: nat)
    requires i < |rs|
    ensures Shift(rs[..|rs| - 1], i) == Shift(rs, i)
  {
    if i > 0 { ShiftOfInit(rs, i - 1); }
  }

  /** One character after a replacement. */
  lemma {:induction false} Replaced(text: string, r: Range, p: nat)
    requires r.start <= r.end <= |text| && p < |Replace(text, r)|
    ensures |Replace(text, r)| == |text| + |r.newText| - (r.end - r.start)
    ensures Replace(text, r)[p] ==
            if p < r.start then text[p]
            else if p < r.start + |r.newText| then r.newText[p - r.start]
            else text[p - |r.newText| + (r.end - r.start)]
  {}

  /** Between range `i - 1` and range `i` the text is kept, moved by the ranges before it. */
  lemma {:induction false} KeptAt(text: string, rs: seq<Range>, i: nat, p: nat)
    requires WellFormedRanges(rs, |text|) && AdjacentDisjoint(rs) && i <= |rs| && p < |text|
    requires (i > 0 ==> rs[i - 1].end <= p) && (i < |rs| ==> p < rs[i].start)
    ensures 0 <= p + Shift(rs, i) < |HighestFirst(text, rs)| && HighestFirst(text, rs)[p + Shift(rs, i)] == text[p]
    decreases |rs|, 1
  {
    if rs != [] {
      PeelLast(text, rs);
      if i < |rs| { KeptBefore(text, rs, i, p); } else { KeptAfter(text, rs, p); }
    }
  }

  lemma {:induction false} PeelLast(text: string, rs: seq<Range>)
    requires WellFormedRanges(rs, |text|) && AdjacentDisjoint(rs) && rs != []
    ensures var last, rest := rs[|rs| - 1], rs[..|rs| - 1];
            WellFormedRanges(rest, |Replace(text, last)|) && AdjacentDisjoint(rest) &&
            HighestFirst(text, rs) == HighestFirst(Replace(text, last), rest) &&
            (rest != [] ==> rest[|rest| - 1].end <= last.start)
  {
    EarlierEndLower(rs, |text|);
  }

  lemma {:induction false} KeptBefore(text: string, rs: seq<Range>, i: nat, p: nat)
    requires WellFormedRanges(rs, |text|) && AdjacentDisjoint(rs) && i < |rs| && p < rs[i].start
    requires i > 0 ==> rs[i - 1].end <= p
    ensures 0 <= p + Shift(rs, i) < |HighestFirst(text, rs)| && HighestFirst(text, rs)[p + Shift(rs, i)] == text[p]
    decreases |rs|, 0
  {
    PeelLast(text, rs);
    ShiftOfInit(rs, i);
    BeforeLast(rs, i, p);
    Replaced(text, rs[|rs| - 1], p);
    KeptAt(Replace(text, rs[|rs| - 1]), rs[..|rs| - 1], i, p);
  }

  lemma {:induction false} KeptAfter(text: string, rs: seq<Range>, p: nat)
    requires WellFormedRanges(rs, |text|) && AdjacentDisjoint(rs) && rs != [] && rs[|rs| - 1].end <= p < |text|
    ensures 0 <= p + Shift(rs, |rs|) < |HighestFirst(text, rs)|
    ensures HighestFirst(text, rs)[p + Shift(rs, |rs|)] == text[p]
    decreases |rs|, 0
  {
    var n := |rs| - 1;
    var q := p + |rs[n].newText| - (rs[n].end - rs[n].start);
    PeelLast(text, rs);
    ShiftOfInit(rs, n);
    Replaced(text, rs[n], q);
    KeptAt(Replace(text, rs[n]), rs[..n], n, q);
  }

  lemma {:induction false} BeforeLast(rs: seq<Range>, i: nat, p: nat)
    requires AdjacentDisjoint(rs) && i < |rs| && p < rs[i].start && forall k | 0 <= k < |rs| :: rs[k].start <= rs[k].end
    ensures p < rs[|rs| - 1].start
    decreases |rs| - i
  {
    if i < |rs| - 1 { BeforeLast(rs, i + 1, p); }
  }

  /** In the place of range `i` stands its new text. */
  lemma {:induction false} PlacedAt(text: string, rs: seq<Range>, i: nat, k: nat)
    requires WellFormedRanges(rs, |text|) && AdjacentDisjoint(rs) && i < |rs| && k < |rs[i].newText|
    ensures 0 <= rs[i].start + Shift(rs, i) + k < |HighestFirst(text, rs)|
    ensures HighestFirst(text, rs)[rs[i].start + Shift(rs, i) + k] == rs[i].newText[k]
    decreases |rs|
  {
    var n := |rs| - 1;
    var last, rest := rs[n], rs[..n];
    EarlierEndLower(rs, |text|);
    ShiftOfInit(rs, i);
    if i < n {
      PlacedAt(Replace(text, last), rest, i, k);
    } else {
      Replaced(text, last, last.start + k);
      KeptAt(Replace(text, last), rest, n, last.start + k);
    }
  }

  /** And nothing else: the result is as long as the kept text and the new texts together. */
  lemma {:induction false} ResultLength(text: string, rs: seq<Range>)
    requires WellFormedRanges(rs, |text|) && AdjacentDisjoint(rs)
    ensures |HighestFirst(text, rs)| == |text| + Shift(rs, |rs|)
    decreases |rs|
  {
    if rs != [] {
      EarlierEndLower(rs, |text|);
      ResultLength(Replace(text, rs[|rs| - 1]), rs[..|rs| - 1]);
      ShiftOfInit(rs, |rs| - 1);
    }
  }
}
