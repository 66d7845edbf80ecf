/**
 * Day 5: an ingredient database of inclusive id ranges that count as fresh,
 * and a list of ingredient ids. Part one counts the listed ids that are
 * fresh; part two counts every id that some range covers, by sorting the
 * ranges by start and merging the overlapping ones.
 */
module Day05 {
  import opened Text

  /** `RangeInclusive<u64>`: every id from `start` to `end`, both included;
      empty when `end < start`. */
  datatype FreshRange = FreshRange(start: nat, end: nat)

  datatype IngredientDatabase = IngredientDatabase(freshRanges: seq<FreshRange>, ids: seq<nat>)

  /** `RangeInclusive::contains`. */
  predicate Contains(r: FreshRange, id: nat) {
    r.start <= id <= r.end
  }

  /** The ids a range contains. */
  ghost function Interval(r: FreshRange): set<nat> {
    set id: nat | id <= r.end && Contains(r, id)
  }

  /** The ids some range covers. */
  ghost function Union(ranges: seq<FreshRange>): set<nat> {
    if ranges == [] then {}
    else
      var last := ranges[|ranges| - 1];
      Union(ranges[..|ranges| - 1]) + Interval(last)
  }

  lemma {:induction false} UnionMembers(ranges: seq<FreshRange>, id: nat)
    ensures id in Union(ranges) <==> exists r :: r in ranges && Contains(r, id)
    decreases |ranges|
  {
    if ranges != [] {
      var init, last := ranges[..|ranges| - 1], ranges[|ranges| - 1];
      UnionMembers(init, id);
      assert ranges == init + [last];
      if id in Union(ranges) && id !in Union(init) {
        assert Contains(last, id);
      }
    }
  }

  /** The union does not depend on the order of the ranges. */
  lemma UnionOfPermutation(a: seq<FreshRange>, b: seq<FreshRange>)
    requires multiset(a) == multiset(b)
    ensures Union(a) == Union(b)
  {
    forall id | id in Union(a)
      ensures id in Union(b)
    {
      UnionMembers(a, id);
      UnionMembers(b, id);
      var r :| r in a && Contains(r, id);
      assert r in multiset(b);
    }
    forall id | id in Union(b)
      ensures id in Union(a)
    {
      UnionMembers(a, id);
      UnionMembers(b, id);
      var r :| r in b && Contains(r, id);
      assert r in multiset(a);
    }
  }

  // ---------------------------------------------------------------------
  // Part one

  /** The test `fresh_ingredients` applies to one id: some range contains
      it. */
  predicate IsFresh(ranges: seq<FreshRange>, id: nat) {
    exists r :: r in ranges && Contains(r, id)
  }

  /** `IngredientDatabase::fresh_ingredients`: the listed ids that are
      fresh, counted with their repetitions. */
  function FreshIngredients(db: IngredientDatabase): (n: nat)
    ensures n <= |db.ids|
  {
    FreshCount(db.freshRanges, db.ids)
  }

  function FreshCount(ranges: seq<FreshRange>, ids: seq<nat>): (n: nat)
    ensures n <= |ids|
  {
    if ids == [] then 0
    else FreshCount(ranges, ids[..|ids| - 1]) + (if IsFresh(ranges, ids[|ids| - 1]) then 1 else 0)
  }

  /** The positions of the fresh ids among the first `k`. */
  ghost function FreshPositions(ranges: seq<FreshRange>, ids: seq<nat>, k: nat): set<nat>
    requires k <= |ids|
  {
    set j: nat | j < k && IsFresh(ranges, ids[j])
  }

  lemma {:induction false} FreshCountPositions(ranges: seq<FreshRange>, ids: seq<nat>)
    ensures FreshCount(ranges, ids) == |FreshPositions(ranges, ids, |ids|)|
    decreases |ids|
  {
    if ids != [] {
      var init := ids[..|ids| - 1];
      FreshCountPositions(ranges, init);
      assert FreshPositions(ranges, init, |init|) == FreshPositions(ranges, ids, |init|);
      if IsFresh(ranges, ids[|ids| - 1]) {
        assert FreshPositions(ranges, ids, |ids|) == FreshPositions(ranges, ids, |init|) + {|init|};
      } else {
        assert FreshPositions(ranges, ids, |ids|) == FreshPositions(ranges, ids, |init|);
      }
    }
  }

  /** Part one counts the list positions whose id some range covers. */
  lemma FreshIngredientsCounts(db: IngredientDatabase)
    ensures FreshIngredients(db)
            == |set j: nat | j < |db.ids| && db.ids[j] in Union(db.freshRanges)|
  {
    FreshCountPositions(db.freshRanges, db.ids);
    forall j: nat | j < |db.ids|
      ensures IsFresh(db.freshRanges, db.ids[j]) <==> db.ids[j] in Union(db.freshRanges)
    {
      UnionMembers(db.freshRanges, db.ids[j]);
    }
    assert FreshPositions(db.freshRanges, db.ids, |db.ids|)
           == set j: nat | j < |db.ids| && db.ids[j] in Union(db.freshRanges);
  }

  // ---------------------------------------------------------------------
  // Sorting by start

  /** Every later range starts no earlier. */
  predicate SortedByStart(rs: seq<FreshRange>) {
    forall i, j :: 0 <= i < j < |rs| ==> rs[i].start <= rs[j].start
  }

  /** Inserts `r` after every range that starts no later than it. */
  function InsertByStart(sorted: seq<FreshRange>, r: FreshRange): (rs: seq<FreshRange>)
    ensures multiset(rs) == multiset(sorted) + multiset{r}
    ensures |rs| == |sorted| + 1
  {
    if sorted == [] then [r]
    else
      var init, last := sorted[..|sorted| - 1], sorted[|sorted| - 1];
      assert sorted == init + [last];
      if last.start <= r.start then sorted + [r] else InsertByStart(init, r) + [last]
  }

  lemma {:induction false} InsertByStartSorted(sorted: seq<FreshRange>, r: FreshRange)
    requires SortedByStart(sorted)
    ensures SortedByStart(InsertByStart(sorted, r))
    decreases |sorted|
  {
    if sorted != [] {
      var init, last := sorted[..|sorted| - 1], sorted[|sorted| - 1];
      if last.start > r.start {
        InsertByStartSorted(init, r);
        var rest := InsertByStart(init, r);
        forall k | 0 <= k < |rest|
          ensures rest[k].start <= last.start
        {
          assert rest[k] in multiset(rest);
          if rest[k] != r {
            assert rest[k] in init;
            var i :| 0 <= i < |init| && init[i] == rest[k];
            assert sorted[i] == init[i];
          }
        }
        SortedSnoc(rest, last);
      }
    }
  }

  lemma SortedSnoc(rs: seq<FreshRange>, r: FreshRange)
    requires SortedByStart(rs)
    requires forall k :: 0 <= k < |rs| ==> rs[k].start <= r.start
    ensures SortedByStart(rs + [r])
  {
  }

  /** `sort_by_key(|range| *range.start())`: a stable sort by start,
      written as insertion sort. */
  function SortByStart(rs: seq<FreshRange>): (sorted: seq<FreshRange>)
    ensures multiset(sorted) == multiset(rs)
    ensures |sorted| == |rs|
  {
    if rs == [] then []
    else
      assert rs == rs[..|rs| - 1] + [rs[|rs| - 1]];
      InsertByStart(SortByStart(rs[..|rs| - 1]), rs[|rs| - 1])
  }

  lemma {:induction false} SortByStartSorted(rs: seq<FreshRange>)
    ensures SortedByStart(SortByStart(rs))
    decreases |rs|
  {
    if rs != [] {
      SortByStartSorted(rs[..|rs| - 1]);
      InsertByStartSorted(SortByStart(rs[..|rs| - 1]), rs[|rs| - 1]);
    }
  }

  // ---------------------------------------------------------------------
  // Part two

  /** No range is empty. */
  predicate AllWellFormed(rs: seq<FreshRange>) {
    forall r :: r in rs ==> r.start <= r.end
  }

  /** Ranges that are not empty, in increasing order, with a gap of at least
      one id between any two. */
  predicate Separated(rs: seq<FreshRange>) {
    && (forall k :: 0 <= k < |rs| ==> rs[k].start <= rs[k].end)
    && (forall i, j :: 0 <= i < j < |rs| ==> rs[i].end < rs[j].start)
  }

  /** `range.end() - range.start() + 1` in `u64`: an empty range underflows and
      the range of every `u64` overflows, both panicking. */
  function RangeSize(r: FreshRange): (n: Result<nat>)
    ensures !n.Err?
    ensures n.Ok? ==> r.start <= r.end && n.value == r.end - r.start + 1 < U64_LIMIT
  {
    if r.end < r.start then Panic
    else if r.end - r.start + 1 >= U64_LIMIT then Panic
    else Ok(r.end - r.start + 1)
  }

  function RangeSizes(rs: seq<FreshRange>): (ns: seq<Result<nat>>)
    ensures |ns| == |rs|
  {
    seq(|rs|, k requires 0 <= k < |rs| => RangeSize(rs[k]))
  }

  /** The number of ids some range covers, as a `u64` sum gives it: it
      panics when the count does not fit. */
  ghost function CoveredCount(ranges: seq<FreshRange>): Result<nat> {
    if |Union(ranges)| < U64_LIMIT then Ok(|Union(ranges)|) else Panic
  }

  /** `IngredientDatabase::possible_fresh_ingredients`: sorts a copy of the
      ranges by start, merges them, and adds up the sizes of the merged
      ranges. When no range is empty this counts the ids some range
      covers. */
  method PossibleFreshIngredients(db: IngredientDatabase) returns (total: Result<nat>)
    ensures AllWellFormed(db.freshRanges) ==> total == CoveredCount(db.freshRanges)
  {
    var sortedRanges := SortByStart(db.freshRanges);
    SortByStartSorted(db.freshRanges);
    var mergedRanges := MergeSorted(sortedRanges);
    UnionOfPermutation(sortedRanges, db.freshRanges);
    total := SumOutcomes(RangeSizes(mergedRanges));
    if AllWellFormed(db.freshRanges) {
      assert AllWellFormed(sortedRanges) by {
        forall r | r in sortedRanges
          ensures r.start <= r.end
        {
          assert r in multiset(sortedRanges);
        }
      }
      SeparatedSum(mergedRanges);
    }
  }

  /** The loop of `possible_fresh_ingredients`: each range, in order of
      start, is merged into the last merged range when that contains its
      start, and appended otherwise. The merged ranges cover the same ids,
      and when no range is empty they are separated. */
  method MergeSorted(sortedRanges: seq<FreshRange>) returns (mergedRanges: seq<FreshRange>)
    requires SortedByStart(sortedRanges)
    ensures Union(mergedRanges) == Union(sortedRanges)
    ensures AllWellFormed(sortedRanges) ==> Separated(mergedRanges)
  {
    mergedRanges := [];
    for i := 0 to |sortedRanges|
      invariant Union(mergedRanges) == Union(sortedRanges[..i])
      invariant AllWellFormed(sortedRanges) ==> Separated(mergedRanges)
      invariant mergedRanges != [] ==> 0 < i && mergedRanges[|mergedRanges| - 1].start <= sortedRanges[i - 1].start
    {
      var range := sortedRanges[i];
      PrefixStep(sortedRanges, i + 1);
      assert mergedRanges != [] ==> mergedRanges[|mergedRanges| - 1].start <= range.start;
      assert AllWellFormed(sortedRanges) ==> range.start <= range.end;
      mergedRanges := MergeRange(mergedRanges, range, sortedRanges[..i]);
    }
    assert sortedRanges[..|sortedRanges|] == sortedRanges;
  }

  /** One step of the loop: `range` is merged into the last merged range
      when that contains its start, and appended otherwise. */
  method MergeRange(mergedRanges: seq<FreshRange>, range: FreshRange, consumed: seq<FreshRange>)
    returns (next: seq<FreshRange>)
    requires Union(mergedRanges) == Union(consumed)
    requires mergedRanges != [] ==> mergedRanges[|mergedRanges| - 1].start <= range.start
    ensures Union(next) == Union(consumed + [range])
    ensures Separated(mergedRanges) && range.start <= range.end ==> Separated(next)
    ensures next != [] && next[|next| - 1].start <= range.start
  {
    if mergedRanges != [] && Contains(mergedRanges[|mergedRanges| - 1], range.start) {
      var lastMergedRange := mergedRanges[|mergedRanges| - 1];
      var before := mergedRanges[..|mergedRanges| - 1];
      assert before + [lastMergedRange] == mergedRanges;
      MergeStep(before, lastMergedRange, range, consumed);
      next := before + [FreshRange(Min(lastMergedRange.start, range.start), Max(lastMergedRange.end, range.end))];
    } else {
      PushStep(mergedRanges, range, consumed);
      next := mergedRanges + [range];
    }
  }

  function Min(a: nat, b: nat): nat { if a <= b then a else b }

  function Max(a: nat, b: nat): nat { if a >= b then a else b }

  /** Merging a range whose start the last merged range contains keeps the
      union and the order. */
  lemma MergeStep(before: seq<FreshRange>, last: FreshRange, r: FreshRange, consumed: seq<FreshRange>)
    requires Contains(last, r.start)
    requires Union(before + [last]) == Union(consumed)
    ensures Union(before + [FreshRange(last.start, Max(last.end, r.end))]) == Union(consumed + [r])
    ensures Separated(before + [last]) ==> Separated(before + [FreshRange(last.start, Max(last.end, r.end))])
  {
    var merged := FreshRange(last.start, Max(last.end, r.end));
    assert (before + [last])[..|before|] == before;
    assert (before + [merged])[..|before|] == before;
    assert (consumed + [r])[..|consumed|] == consumed;
    assert Interval(merged) == Interval(last) + Interval(r);
    if Separated(before + [last]) {
      forall i, j | 0 <= i < j < |before| + 1
        ensures (before + [merged])[i].end < (before + [merged])[j].start
      {
        assert (before + [last])[i].end < (before + [last])[j].start;
      }
      forall k | 0 <= k < |before| + 1
        ensures (before + [merged])[k].start <= (before + [merged])[k].end
      {
        assert (before + [last])[k].start <= (before + [last])[k].end;
      }
    }
  }

  /** Appending a range that starts after the last merged range ends keeps
      the union and the order. */
  lemma PushStep(merged: seq<FreshRange>, r: FreshRange, consumed: seq<FreshRange>)
    requires Union(merged) == Union(consumed)
    requires merged != [] ==> merged[|merged| - 1].start <= r.start
    requires merged != [] ==> !Contains(merged[|merged| - 1], r.start)
    ensures Union(merged + [r]) == Union(consumed + [r])
    ensures Separated(merged) && r.start <= r.end ==> Separated(merged + [r])
  {
    assert (merged + [r])[..|merged|] == merged;
    assert (consumed + [r])[..|consumed|] == consumed;
    if Separated(merged) && r.start <= r.end && merged != [] {
      var last := merged[|merged| - 1];
      forall i | 0 <= i < |merged|
        ensures merged[i].end < r.start
      {
        if i < |merged| - 1 {
          assert merged[i].end < last.start;
        }
      }
    }
  }

  /** The ids of a range that is not empty, counted. */
  lemma {:induction false} IntervalSize(r: FreshRange)
    requires r.start <= r.end
    ensures |Interval(r)| == r.end - r.start + 1
    decreases r.end - r.start
  {
    if r.start == r.end {
      assert Interval(r) == {r.start} by {
        assert r.start in Interval(r);
      }
    } else {
      var shorter := FreshRange(r.start, r.end - 1);
      IntervalSize(shorter);
      assert r.end !in Interval(shorter);
      assert Interval(r) == Interval(shorter) + {r.end} by {
        assert r.end in Interval(r);
      }
    }
  }

  lemma {:induction false} UnionBelow(rs: seq<FreshRange>, bound: nat)
    requires forall k :: 0 <= k < |rs| ==> rs[k].end < bound
    ensures forall id :: id in Union(rs) ==> id < bound
    decreases |rs|
  {
    if rs != [] {
      UnionBelow(rs[..|rs| - 1], bound);
    }
  }

  /** Adding up the sizes of separated ranges counts the ids they cover. */
  lemma {:induction false} SeparatedSum(rs: seq<FreshRange>)
    requires Separated(rs)
    ensures SumOutcomes(RangeSizes(rs)) == CoveredCount(rs)
    decreases |rs|
  {
    if rs != [] {
      var init, last := rs[..|rs| - 1], rs[|rs| - 1];
      assert Separated(init);
      SeparatedSum(init);
      assert init + [last] == rs;
      SeparatedLast(init, last);
      UnionBelow(init, last.start);
      DisjointUnion(init, last);
      CoveredStep(rs);
    }
  }

  /** Every range but the last of separated ranges ends before the last begins. */
  lemma SeparatedLast(init: seq<FreshRange>, last: FreshRange)
    requires Separated(init + [last])
    ensures forall k :: 0 <= k < |init| ==> init[k].end < last.start
  {
    forall k | 0 <= k < |init|
      ensures init[k].end < last.start
    {
      assert (init + [last])[k] == init[k];
      assert (init + [last])[|init|] == last;
    }
  }

  /** A range that begins after every id of a union adds its own size. */
  lemma DisjointUnion(init: seq<FreshRange>, last: FreshRange)
    requires forall id :: id in Union(init) ==> id < last.start
    ensures |Union(init + [last])| == |Union(init)| + |Interval(last)|
  {
    var a, b := Union(init), Interval(last);
    assert (init + [last])[..|init|] == init;
    assert Union(init + [last]) == a + b;
    assert a * b == {};
  }

  /** One more separated range: the sum of sizes and the count of covered
      ids take the same step. */
  lemma {:induction false} CoveredStep(rs: seq<FreshRange>)
    requires rs != [] && rs[|rs| - 1].start <= rs[|rs| - 1].end
    requires SumOutcomes(RangeSizes(rs[..|rs| - 1])) == CoveredCount(rs[..|rs| - 1])
    requires |Union(rs)| == |Union(rs[..|rs| - 1])| + |Interval(rs[|rs| - 1])|
    ensures SumOutcomes(RangeSizes(rs)) == CoveredCount(rs)
  {
    var init, last := rs[..|rs| - 1], rs[|rs| - 1];
    IntervalSize(last);
    assert RangeSizes(rs)[..|rs| - 1] == RangeSizes(init);
    assert RangeSizes(rs)[|rs| - 1] == RangeSize(last);
    if |Union(init)| >= U64_LIMIT {
      assert SumOutcomes(RangeSizes(init)) == Panic;
    } else if |Interval(last)| >= U64_LIMIT {
      assert RangeSize(last) == Panic;
    } else {
      assert SumOutcomes(RangeSizes(init)) == Ok(|Union(init)|);
      assert RangeSize(last) == Ok(|Interval(last)|);
    }
  }

  // ---------------------------------------------------------------------
  // Reading the database

  /** The index of the first blank line, or the number of lines. */
  function FirstBlank(lines: seq<string>): (k: nat)
    ensures k <= |lines|
    ensures k < |lines| ==> lines[k] == []
  {
    if lines == [] then 0
    else if lines[0] == [] then 0
    else FirstBlank(lines[1..]) + 1
  }

  /** No line before the first blank line is blank. */
  lemma {:induction false} BeforeFirstBlank(lines: seq<string>, j: nat)
    requires j < FirstBlank(lines)
    ensures lines[j] != []
    decreases j
  {
    if j > 0 {
      BeforeFirstBlank(lines[1..], j - 1);
    }
  }

  /** The lines that are not blank, in order. */
  function NonBlank(lines: seq<string>): seq<string> {
    if lines == [] then []
    else NonBlank(lines[..|lines| - 1]) + (if lines[|lines| - 1] == [] then [] else [lines[|lines| - 1]])
  }

  /** A range line `start-end`, split at the first `-`. */
  function RangeFromLine(line: string): (r: Result<FreshRange>)
    ensures !r.Panic?
    ensures r.Ok? ==> r.value.start < U64_LIMIT && r.value.end < U64_LIMIT
  {
    match SplitOnce(line, '-')
    case None => Err
    case Some((a, b)) =>
      var start :- ParseUnsigned(a, U64_LIMIT);
      var end :- ParseUnsigned(b, U64_LIMIT);
      Ok(FreshRange(start, end))
  }

  function IdFromLine(line: string): Result<nat> {
    ParseUnsigned(line, U64_LIMIT)
  }

  /** The database the lines describe: the lines before the first blank
      line are ranges, the other lines that are not blank are ids, and any
      line that does not read is an error. */
  function DatabaseOf(lines: seq<string>): Result<IngredientDatabase> {
    DatabaseWith(lines, RangeFromLine, IdFromLine)
  }

  /** `DatabaseOf` for any way of reading one range line and one id line. */
  function DatabaseWith(lines: seq<string>, readRange: string -> Result<FreshRange>,
                        readId: string -> Result<nat>): Result<IngredientDatabase>
  {
    var k := FirstBlank(lines);
    var ranges := seq(k, j requires 0 <= j < k => readRange(lines[j]));
    var idLines := NonBlank(lines[k..]);
    var ids := seq(|idLines|, j requires 0 <= j < |idLines| => readId(idLines[j]));
    if AllOk(ranges) && AllOk(ids) then Ok(IngredientDatabase(Values(ranges), Values(ids))) else Err
  }

  /** `IngredientDatabase::try_from_buf_read`, over the lines already read. */
  method TryFromLines(lines: seq<string>) returns (r: Result<IngredientDatabase>)
    ensures r == DatabaseOf(lines)
  {
    r := ReadDatabase(lines, RangeFromLine, IdFromLine);
  }

  /** The loop of `try_from_buf_read`, for any line readers: a flag records
      whether a blank line has been seen; before it every line is a range,
      after it every line that is not blank is an id, and the first line
      that does not read stops it with an error. */
  method ReadDatabase(lines: seq<string>, readRange: string -> Result<FreshRange>,
                      readId: string -> Result<nat>) returns (r: Result<IngredientDatabase>)
    ensures r == DatabaseWith(lines, readRange, readId)
  {
    var readEmptyLine := false;
    var freshRanges: seq<FreshRange> := [];
    var ids: seq<nat> := [];
    ghost var k := FirstBlank(lines);
    for i := 0 to |lines|
      invariant readEmptyLine <==> k < i
      invariant |freshRanges| == (if readEmptyLine then k else i)
      invariant ReadAs(readRange, lines, freshRanges)
      invariant !readEmptyLine ==> ids == []
      invariant readEmptyLine ==> ReadAs(readId, NonBlank(lines[k..i]), ids)
      invariant readEmptyLine ==> |ids| == |NonBlank(lines[k..i])|
    {
      var line := lines[i];
      if readEmptyLine {
        NonBlankStep(lines, k, i);
      }
      if line == [] {
        if !readEmptyLine {
          if i < k {
            BeforeFirstBlank(lines, i);
          }
          assert lines[k..i + 1] == [[]];
          assert NonBlank([[]]) == NonBlank([]) + [];
        }
        readEmptyLine := true;
      } else if !readEmptyLine {
        var range := readRange(line);
        if !range.Ok? {
          RangeLineFails(lines, readRange, readId, i);
          return Err;
        }
        ReadAsNext(readRange, lines, freshRanges, range.value);
        freshRanges := freshRanges + [range.value];
      } else {
        var id := readId(line);
        if !id.Ok? {
          IdLineFails(lines, readRange, readId, k, i);
          return Err;
        }
        ReadAsSnoc(readId, NonBlank(lines[k..i]), ids, line, id.value);
        ids := ids + [id.value];
      }
    }
    assert lines[k..|lines|] == lines[k..];
    if !readEmptyLine {
      assert lines[k..] == [];
    }
    DatabaseRead(lines, readRange, readId, freshRanges, ids);
    r := Ok(IngredientDatabase(freshRanges, ids));
  }

  lemma NonBlankStep(lines: seq<string>, k: nat, i: nat)
    requires k <= i < |lines|
    ensures NonBlank(lines[k..i + 1]) == NonBlank(lines[k..i]) + (if lines[i] == [] then [] else [lines[i]])
  {
    assert lines[k..i + 1][..i - k] == lines[k..i];
  }

  lemma {:induction false} NonBlankAppend(a: seq<string>, b: seq<string>)
    ensures NonBlank(a + b) == NonBlank(a) + NonBlank(b)
    decreases |b|
  {
    if b == [] {
      assert a + b == a;
    } else {
      var init := b[..|b| - 1];
      assert (a + b)[..|a + b| - 1] == a + init;
      NonBlankAppend(a, init);
    }
  }

  /** Lines whose ranges and ids all read give the database of those
      values. */
  lemma DatabaseRead(lines: seq<string>, readRange: string -> Result<FreshRange>,
                     readId: string -> Result<nat>, freshRanges: seq<FreshRange>, ids: seq<nat>)
    requires |freshRanges| == FirstBlank(lines) && ReadAs(readRange, lines, freshRanges)
    requires |ids| == |NonBlank(lines[FirstBlank(lines)..])|
    requires ReadAs(readId, NonBlank(lines[FirstBlank(lines)..]), ids)
    ensures DatabaseWith(lines, readRange, readId) == Ok(IngredientDatabase(freshRanges, ids))
  {
    var k := FirstBlank(lines);
    var idLines := NonBlank(lines[k..]);
    var rangeOutcomes := seq(k, j requires 0 <= j < k => readRange(lines[j]));
    var idOutcomes := seq(|idLines|, j requires 0 <= j < |idLines| => readId(idLines[j]));
    assert AllOk(rangeOutcomes);
    assert Values(rangeOutcomes) == freshRanges;
    assert AllOk(idOutcomes);
    assert Values(idOutcomes) == ids;
  }

  /** A range line that does not read makes the whole reading fail. */
  lemma RangeLineFails(lines: seq<string>, readRange: string -> Result<FreshRange>,
                       readId: string -> Result<nat>, i: nat)
    requires i < FirstBlank(lines) && !readRange(lines[i]).Ok?
    ensures DatabaseWith(lines, readRange, readId).Err?
  {
    var k := FirstBlank(lines);
    var rangeOutcomes := seq(k, j requires 0 <= j < k => readRange(lines[j]));
    assert !rangeOutcomes[i].Ok?;
  }

  /** An id line that does not read makes the whole reading fail. */
  lemma IdLineFails(lines: seq<string>, readRange: string -> Result<FreshRange>,
                    readId: string -> Result<nat>, k: nat, i: nat)
    requires k == FirstBlank(lines) && k < i < |lines|
    requires lines[i] != [] && !readId(lines[i]).Ok?
    ensures DatabaseWith(lines, readRange, readId).Err?
  {
    var n := |NonBlank(lines[k..i])|;
    IdLineAt(lines, k, i);
    var idLines := NonBlank(lines[k..]);
    var ids := seq(|idLines|, j requires 0 <= j < |idLines| => readId(idLines[j]));
    assert !ids[n].Ok?;
  }

  /** A line that is not blank after the first blank line is the id line
      that follows the id lines before it. */
  lemma IdLineAt(lines: seq<string>, k: nat, i: nat)
    requires k < i < |lines| && lines[i] != []
    ensures |NonBlank(lines[k..i])| < |NonBlank(lines[k..])|
    ensures NonBlank(lines[k..])[|NonBlank(lines[k..i])|] == lines[i]
  {
    assert lines[k..] == lines[k..i + 1] + lines[i + 1..];
    NonBlankAppend(lines[k..i + 1], lines[i + 1..]);
    NonBlankStep(lines, k, i);
  }

  /** A range written as `start-end`. */
  function RangeLine(r: FreshRange): string {
    Decimal(r.start) + "-" + Decimal(r.end)
  }

  lemma RangeLineReads(r: FreshRange)
    requires r.start < U64_LIMIT && r.end < U64_LIMIT
    ensures RangeFromLine(RangeLine(r)) == Ok(r)
  {
    var a, b := Decimal(r.start), Decimal(r.end);
    DigitsAvoid(a, '-');
    SplitOnceAt(a, b, '-');
    assert RangeLine(r) == a + ['-'] + b;
    ParseDecimal(r.start, U64_LIMIT);
    ParseDecimal(r.end, U64_LIMIT);
  }

  /** A database written out: its ranges, a blank line, then its ids. */
  function DatabaseLines(db: IngredientDatabase): seq<string> {
    RangeLines(db.freshRanges) + [[]] + IdLines(db.ids)
  }

  function RangeLines(ranges: seq<FreshRange>): (ls: seq<string>)
    ensures |ls| == |ranges|
  {
    seq(|ranges|, j requires 0 <= j < |ranges| => RangeLine(ranges[j]))
  }

  function IdLines(ids: seq<nat>): (ls: seq<string>)
    ensures |ls| == |ids|
  {
    seq(|ids|, j requires 0 <= j < |ids| => Decimal(ids[j]))
  }

  lemma RangeLinesRead(ranges: seq<FreshRange>)
    requires forall r :: r in ranges ==> r.start < U64_LIMIT && r.end < U64_LIMIT
    ensures ReadAs(RangeFromLine, RangeLines(ranges), ranges)
  {
    var lines := RangeLines(ranges);
    forall j | 0 <= j < |ranges|
      ensures RangeFromLine(lines[j]) == Ok(ranges[j])
    {
      assert ranges[j] in ranges;
      RangeLineReads(ranges[j]);
    }
  }

  lemma IdLinesRead(ids: seq<nat>)
    requires forall id :: id in ids ==> id < U64_LIMIT
    ensures ReadAs(IdFromLine, IdLines(ids), ids)
  {
    var lines := IdLines(ids);
    forall j | 0 <= j < |ids|
      ensures IdFromLine(lines[j]) == Ok(ids[j])
    {
      assert ids[j] in ids;
      ParseDecimal(ids[j], U64_LIMIT);
    }
  }

  lemma {:induction false} NonBlankAll(lines: seq<string>)
    requires forall j :: 0 <= j < |lines| ==> lines[j] != []
    ensures NonBlank(lines) == lines
    decreases |lines|
  {
    if lines != [] {
      NonBlankAll(lines[..|lines| - 1]);
    }
  }

  /** Reading a written database gives it back, when every value fits
      `u64`. */
  lemma {:induction false} DatabaseRoundTrip(db: IngredientDatabase)
    requires forall r :: r in db.freshRanges ==> r.start < U64_LIMIT && r.end < U64_LIMIT
    requires forall id :: id in db.ids ==> id < U64_LIMIT
    ensures DatabaseOf(DatabaseLines(db)) == Ok(db)
  {
    var lines := DatabaseLines(db);
    var n := |db.freshRanges|;
    var rangeTexts, idTexts := RangeLines(db.freshRanges), IdLines(db.ids);
    assert lines[..n] == rangeTexts;
    FirstBlankIs(lines, n);
    assert lines[n..] == [[]] + idTexts;
    NonBlankAppend([[]], idTexts);
    assert NonBlank([[]]) == NonBlank([]) + [];
    NonBlankAll(idTexts);
    RangeLinesRead(db.freshRanges);
    IdLinesRead(db.ids);
    PrefixReads(RangeFromLine, lines, rangeTexts, db.freshRanges);
    DatabaseRead(lines, RangeFromLine, IdFromLine, db.freshRanges, db.ids);
  }

  lemma {:induction false} FirstBlankIs(lines: seq<string>, k: nat)
    requires k < |lines| && lines[k] == []
    requires forall j :: 0 <= j < k ==> lines[j] != []
    ensures FirstBlank(lines) == k
    decreases k
  {
    if k > 0 {
      FirstBlankIs(lines[1..], k - 1);
    }
  }

  // ---------------------------------------------------------------------
  // The database of the tests

  const EXAMPLE_RANGES := [FreshRange(3, 5), FreshRange(10, 14), FreshRange(16, 20), FreshRange(12, 18)]
  const EXAMPLE_IDS: seq<nat> := [1, 5, 8, 11, 17, 32]

  /** Of the listed ids, 5, 11 and 17 are fresh. */
  lemma ExampleFreshIngredients(db: IngredientDatabase)
    requires db == IngredientDatabase(EXAMPLE_RANGES, EXAMPLE_IDS)
    ensures FreshIngredients(db) == 3
  {
    var rs := db.freshRanges;
    ExampleFreshness(rs);
    var p1: seq<nat> := [1];
    FreshCountSnoc(rs, [], 1);
    var p2 := p1 + [5];
    FreshCountSnoc(rs, p1, 5);
    var p3 := p2 + [8];
    FreshCountSnoc(rs, p2, 8);
    var p4 := p3 + [11];
    FreshCountSnoc(rs, p3, 11);
    var p5 := p4 + [17];
    FreshCountSnoc(rs, p4, 17);
    var p6 := p5 + [32];
    FreshCountSnoc(rs, p5, 32);
    assert p6 == db.ids;
  }

  lemma ExampleFreshness(rs: seq<FreshRange>)
    requires rs == EXAMPLE_RANGES
    ensures !IsFresh(rs, 1) && !IsFresh(rs, 8) && !IsFresh(rs, 32)
    ensures IsFresh(rs, 5) && IsFresh(rs, 11) && IsFresh(rs, 17)
  {
    assert rs[0] in rs && rs[1] in rs && rs[2] in rs;
  }

  lemma FreshCountSnoc(ranges: seq<FreshRange>, ids: seq<nat>, id: nat)
    ensures FreshCount(ranges, ids + [id]) == FreshCount(ranges, ids) + (if IsFresh(ranges, id) then 1 else 0)
  {
    assert (ids + [id])[..|ids|] == ids;
  }

  /** The ranges of the tests cover 3 to 5 and 10 to 20: 14 ids. */
  lemma ExampleCoveredCount(ranges: seq<FreshRange>)
    requires ranges == EXAMPLE_RANGES
    ensures CoveredCount(ranges) == Ok(14)
  {
    var low, high := FreshRange(3, 5), FreshRange(10, 20);
    ExampleUnion(ranges);
    assert Interval(low) * Interval(high) == {};
    IntervalSize(low);
    IntervalSize(high);
    assert |Interval(low) + Interval(high)| == 14;
  }

  lemma ExampleUnion(ranges: seq<FreshRange>)
    requires ranges == EXAMPLE_RANGES
    ensures Union(ranges) == Interval(FreshRange(3, 5)) + Interval(FreshRange(10, 20))
  {
    var r1, r2, r3 := ranges[..1], ranges[..2], ranges[..3];
    assert r1[..0] == [] && r2[..1] == r1 && r3[..2] == r2 && ranges[..3] == r3;
    assert Union(r1) == Interval(ranges[0]);
    assert Union(r2) == Union(r1) + Interval(ranges[1]);
    assert Union(r3) == Union(r2) + Interval(ranges[2]);
    assert Union(ranges) == Union(r3) + Interval(ranges[3]);
    assert Interval(ranges[1]) + Interval(ranges[2]) + Interval(ranges[3]) == Interval(FreshRange(10, 20));
  }
}
