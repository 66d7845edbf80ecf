/**
 * Day 3: banks of batteries, one line of digits per bank. Turning on exactly
 * `k` batteries of a bank gives the number their digits spell, in bank
 * order; the bank's joltage is the largest such number, and the answer is
 * the sum over all banks.
 */
module Day03 {
  import opened Text

  /** A bank of batteries: each battery's joltage rating, in order. */
  datatype BatteryBank = BatteryBank(batteries: seq<nat>)

  /** Every rating is a decimal digit, as parsing guarantees. */
  predicate IsDigits(s: seq<nat>) {
    forall i :: 0 <= i < |s| ==> s[i] <= 9
  }

  // ---------------------------------------------------------------------
  // The greedy choice

  /** The best battery of the window `s[lo..hi]`: a position holding the
      largest rating, and the first such position. The source walks the
      enumerated window backwards with `max_by_key`, which keeps the last
      maximum it meets, so that the first maximum of the window wins ties. */
  function FirstMaxIn(s: seq<nat>, lo: nat, hi: nat): (i: nat)
    requires lo < hi <= |s|
    ensures lo <= i < hi
    decreases hi
  {
    if hi == lo + 1 then lo
    else
      var i := FirstMaxIn(s, lo, hi - 1);
      if s[hi - 1] > s[i] then hi - 1 else i
  }

  /** No battery of the window is rated higher than the chosen one, and every
      battery before it is rated lower. */
  lemma {:induction false} FirstMaxInIsFirstMax(s: seq<nat>, lo: nat, hi: nat)
    requires lo < hi <= |s|
    ensures forall j :: lo <= j < hi ==> s[j] <= s[FirstMaxIn(s, lo, hi)]
    ensures forall j :: lo <= j < FirstMaxIn(s, lo, hi) ==> s[j] < s[FirstMaxIn(s, lo, hi)]
    decreases hi
  {
    if hi > lo + 1 {
      FirstMaxInIsFirstMax(s, lo, hi - 1);
    }
  }

  /** The digits the greedy choice turns on from position `left`: the best
      battery among those that still leave `k - 1` batteries after it, then
      the same behind that battery. */
  function SelectFrom(s: seq<nat>, left: nat, k: nat): (ds: seq<nat>)
    requires left + k <= |s|
    ensures |ds| == k
    decreases k
  {
    if k == 0 then []
    else
      var p := FirstMaxIn(s, left, |s| - (k - 1));
      [s[p]] + SelectFrom(s, p + 1, k - 1)
  }

  function Select(s: seq<nat>, k: nat): (ds: seq<nat>)
    requires k <= |s|
    ensures |ds| == k
  {
    SelectFrom(s, 0, k)
  }

  /** `max_joltage`: the number the greedy choice spells. It panics when the
      bank has fewer than `k` batteries (the `assert!`) and when the number
      leaves `u64` (debug-build overflow of `joltage * 10 + best`). */
  function Joltage(s: seq<nat>, k: nat): Result<nat> {
    if k > |s| then Panic
    else if NumberValue(Select(s, k)) >= U64_LIMIT then Panic
    else Ok(NumberValue(Select(s, k)))
  }

  /** `BatteryBank::max_joltage`: one window per battery to turn on, from
      `k - 1` batteries held in reserve down to none. */
  method MaxJoltage(bank: BatteryBank, activeBatteries: nat) returns (r: Result<nat>)
    ensures r == Joltage(bank.batteries, activeBatteries)
  {
    var s := bank.batteries;
    if activeBatteries > |s| {
      return Panic;
    }
    var joltage: nat := 0;
    var left: nat := 0;
    ghost var chosen: seq<nat> := [];
    ghost var target := Select(s, activeBatteries);
    for reservedBatteries := activeBatteries downto 0
      invariant left + reservedBatteries <= |s|
      invariant joltage == NumberValue(chosen) < U64_LIMIT
      invariant chosen + SelectFrom(s, left, reservedBatteries) == target
    {
      var position := FirstMaxIn(s, left, |s| - reservedBatteries);
      var best := s[position];
      Advance(s, left, reservedBatteries, chosen, target, position);
      NumberValueSnoc(chosen, best);
      left := position + 1;
      if joltage * 10 + best >= U64_LIMIT {
        Overflows(chosen + [best], SelectFrom(s, left, reservedBatteries), target);
        return Panic;
      }
      joltage := joltage * 10 + best;
      chosen := chosen + [best];
    }
    assert chosen + [] == chosen;
    return Ok(joltage);
  }

  /** One window of the loop: the greedy choice takes the window's best
      battery and continues behind it. */
  lemma Advance(s: seq<nat>, left: nat, reserved: nat, chosen: seq<nat>, target: seq<nat>, position: nat)
    requires left + reserved < |s|
    requires chosen + SelectFrom(s, left, reserved + 1) == target
    requires position == FirstMaxIn(s, left, |s| - reserved)
    ensures (chosen + [s[position]]) + SelectFrom(s, position + 1, reserved) == target
  {
    var next := SelectFrom(s, position + 1, reserved);
    SelectFromStep(s, left, reserved);
    assert (chosen + [s[position]]) + next == chosen + ([s[position]] + next);
  }

  lemma SelectFromStep(s: seq<nat>, left: nat, k: nat)
    requires left + k < |s|
    ensures SelectFrom(s, left, k + 1) == [s[FirstMaxIn(s, left, |s| - k)]] + SelectFrom(s, FirstMaxIn(s, left, |s| - k) + 1, k)
  {
  }

  /** A chosen prefix that already leaves `u64` makes the whole number
      leave it. */
  lemma Overflows(picked: seq<nat>, next: seq<nat>, target: seq<nat>)
    requires picked + next == target
    ensures NumberValue(picked) <= NumberValue(target)
  {
    NumberValuePrefix(picked, next);
  }

  // ---------------------------------------------------------------------
  // The greedy choice is the best one

  /** `ds` is the subsequence of `s` at the strictly increasing positions
      `idx`. */
  ghost predicate SubsequenceAt(s: seq<nat>, idx: seq<nat>, ds: seq<nat>) {
    && |idx| == |ds|
    && (forall i, j :: 0 <= i < j < |idx| ==> idx[i] < idx[j])
    && (forall i :: 0 <= i < |idx| ==> idx[i] < |s| && s[idx[i]] == ds[i])
  }

  /** The positions the greedy choice turns on. */
  function SelectPositions(s: seq<nat>, left: nat, k: nat): (idx: seq<nat>)
    requires left + k <= |s|
    ensures |idx| == k
    decreases k
  {
    if k == 0 then []
    else
      var p := FirstMaxIn(s, left, |s| - (k - 1));
      [p] + SelectPositions(s, p + 1, k - 1)
  }

  /** The greedy digits are batteries of the bank from `left` on, taken in
      bank order. */
  lemma {:induction false} SelectIsSubsequence(s: seq<nat>, left: nat, k: nat)
    requires left + k <= |s|
    ensures SubsequenceAt(s, SelectPositions(s, left, k), SelectFrom(s, left, k))
    ensures forall i :: 0 <= i < k ==> left <= SelectPositions(s, left, k)[i]
    decreases k
  {
    if k > 0 {
      var p := FirstMaxIn(s, left, |s| - (k - 1));
      SelectIsSubsequence(s, p + 1, k - 1);
      var idx, ds := SelectPositions(s, left, k), SelectFrom(s, left, k);
      assert idx == [p] + SelectPositions(s, p + 1, k - 1);
      assert ds == [s[p]] + SelectFrom(s, p + 1, k - 1);
    }
  }

  /** Strictly increasing positions are at least one apart. */
  lemma {:induction false} PositionsSpread(idx: seq<nat>, j: nat)
    requires forall a, b :: 0 <= a < b < |idx| ==> idx[a] < idx[b]
    requires j < |idx|
    ensures idx[0] + j <= idx[j]
  {
    if j > 0 {
      PositionsSpread(idx, j - 1);
    }
  }

  /** A number led by a smaller digit is smaller than one of as many digits
      led by a larger digit. */
  lemma SmallerLead(x: seq<nat>, y: seq<nat>)
    requires |x| == |y| > 0
    requires x[0] < y[0]
    requires IsDigits(x[1..])
    ensures NumberValue(x) < NumberValue(y)
  {
    NumberValueCons(x);
    NumberValueCons(y);
    NumberValueBelow(x[1..]);
    LeadBound(x[0], y[0], Pow10(|x| - 1), NumberValue(x[1..]), NumberValue(y[1..]));
  }

  lemma LeadBound(a: nat, b: nat, p: nat, x: nat, y: nat)
    requires a < b && x < p
    ensures a * p + x < b * p + y
  {
    MulMonotone(a + 1, b, p);
    assert (a + 1) * p == a * p + p;
  }

  /** Equal leading digits: the rest decides. */
  lemma SameLead(x: seq<nat>, y: seq<nat>)
    requires |x| == |y| > 0
    requires x[0] == y[0]
    requires NumberValue(x[1..]) <= NumberValue(y[1..])
    ensures NumberValue(x) <= NumberValue(y)
  {
    NumberValueCons(x);
    NumberValueCons(y);
  }

  /** No choice of `k` batteries from position `left` on, in bank order,
      spells a larger number than the greedy choice. */
  lemma {:induction false} SelectIsMax(s: seq<nat>, left: nat, k: nat, idx: seq<nat>, ds: seq<nat>)
    requires IsDigits(s)
    requires left + k <= |s|
    requires |ds| == k && SubsequenceAt(s, idx, ds)
    requires forall i :: 0 <= i < k ==> left <= idx[i]
    ensures NumberValue(ds) <= NumberValue(SelectFrom(s, left, k))
    decreases k
  {
    if k > 0 {
      var p := FirstMaxIn(s, left, |s| - (k - 1));
      var sel := SelectFrom(s, left, k);
      FirstChoice(s, left, k, idx, ds, p);
      if ds[0] < s[p] {
        SmallerLead(ds, sel);
      } else {
        SelectIsMax(s, p + 1, k - 1, idx[1..], ds[1..]);
        SameLead(ds, sel);
      }
    }
  }

  /** The greedy choice's first digit is at least the first digit of any
      other choice; when they are equal, the rest of the other choice lies
      behind the greedy position. */
  lemma FirstChoice(s: seq<nat>, left: nat, k: nat, idx: seq<nat>, ds: seq<nat>, p: nat)
    requires IsDigits(s)
    requires 0 < k && left + k <= |s|
    requires |ds| == k && SubsequenceAt(s, idx, ds)
    requires forall i :: 0 <= i < k ==> left <= idx[i]
    requires p == FirstMaxIn(s, left, |s| - (k - 1))
    ensures SelectFrom(s, left, k)[0] == s[p] && SelectFrom(s, left, k)[1..] == SelectFrom(s, p + 1, k - 1)
    ensures ds[0] <= s[p] && IsDigits(ds[1..])
    ensures ds[0] == s[p] ==> SubsequenceAt(s, idx[1..], ds[1..]) && forall i :: 0 <= i < k - 1 ==> p + 1 <= idx[1..][i]
  {
    FirstMaxInIsFirstMax(s, left, |s| - (k - 1));
    var sel := SelectFrom(s, left, k);
    assert sel[0] == s[p] && sel[1..] == SelectFrom(s, p + 1, k - 1);
    PositionsSpread(idx, k - 1);
    assert idx[0] < |s| - (k - 1) && ds[0] == s[idx[0]];
    TailDigits(s, idx, ds);
    if ds[0] == s[p] {
      assert idx[0] >= p;
      TailSubsequence(s, idx, ds, p);
    }
  }

  lemma TailDigits(s: seq<nat>, idx: seq<nat>, ds: seq<nat>)
    requires IsDigits(s) && SubsequenceAt(s, idx, ds) && |ds| > 0
    ensures IsDigits(ds[1..])
  {
    forall i | 0 <= i < |ds| - 1 ensures ds[1..][i] <= 9 {
      assert ds[i + 1] == s[idx[i + 1]];
    }
  }

  /** Behind a first position at or after `p`, the rest of a subsequence
      lies after `p`. */
  lemma TailSubsequence(s: seq<nat>, idx: seq<nat>, ds: seq<nat>, p: nat)
    requires SubsequenceAt(s, idx, ds) && |ds| > 0 && idx[0] >= p
    ensures SubsequenceAt(s, idx[1..], ds[1..])
    ensures forall i :: 0 <= i < |ds| - 1 ==> p + 1 <= idx[1..][i]
  {
    forall i | 0 <= i < |ds| - 1 ensures p + 1 <= idx[1..][i] {
      assert idx[0] < idx[i + 1];
    }
  }

  /** `max_joltage` of a parsed bank is the largest number that any `k` of
      its batteries spell, in bank order, whenever it does not panic. */
  lemma JoltageIsMax(s: seq<nat>, k: nat)
    requires IsDigits(s)
    requires Joltage(s, k).Ok?
    ensures exists idx :: SubsequenceAt(s, idx, Select(s, k))
    ensures Joltage(s, k).value == NumberValue(Select(s, k))
    ensures forall idx, ds :: |ds| == k && SubsequenceAt(s, idx, ds) ==> NumberValue(ds) <= Joltage(s, k).value
  {
    SelectIsSubsequence(s, 0, k);
    forall idx, ds | |ds| == k && SubsequenceAt(s, idx, ds)
      ensures NumberValue(ds) <= Joltage(s, k).value
    {
      SelectIsMax(s, 0, k, idx, ds);
    }
  }

  /** Panics: too few batteries, or more than fits `u64`. Turning on at most
      19 batteries never overflows. */
  lemma JoltagePanics(s: seq<nat>, k: nat)
    requires IsDigits(s)
    ensures Joltage(s, k).Panic? <==> k > |s| || NumberValue(Select(s, k)) >= U64_LIMIT
    ensures k <= 19 && k <= |s| ==> Joltage(s, k).Ok?
  {
    if k <= 19 && k <= |s| {
      SelectIsSubsequence(s, 0, k);
      var ds := Select(s, k);
      assert IsDigits(ds) by {
        var idx := SelectPositions(s, 0, k);
        forall i | 0 <= i < k ensures ds[i] <= 9 {
          assert s[idx[i]] == ds[i];
        }
      }
      NumberValueBelow(ds);
      Pow10Monotone(k, 19);
      Pow10Of19();
    }
  }

  lemma Pow10Of19()
    ensures Pow10(19) == 10_000_000_000_000_000_000
  {
    assert Pow10(4) == 10_000;
    assert Pow10(8) == 100_000_000;
    assert Pow10(12) == 1_000_000_000_000;
    assert Pow10(16) == 10_000_000_000_000_000;
  }

  // ---------------------------------------------------------------------
  // Parsing and summing

  /** `char::to_digit(10)`, failing with "Could not parse digit". */
  function BatteryFromChar(c: char): (r: Result<nat>)
    ensures r.Ok? <==> IsDigit(c)
    ensures r.Ok? ==> r.value == DigitValue(c)
    ensures !r.Panic?
  {
    if IsDigit(c) then Ok(DigitValue(c)) else Err
  }

  /** `BatteryBank::from_str`: one battery per character, collected. */
  function BankFromStr(s: string): Result<BatteryBank> {
    var ratings :- Collect(seq(|s|, i requires 0 <= i < |s| => BatteryFromChar(s[i])));
    Ok(BatteryBank(ratings))
  }

  /** A line reads as a bank exactly when it is all ASCII digits, with one
      battery per digit. Reading never panics. */
  lemma BankFromStrReads(s: string)
    ensures BankFromStr(s).Ok? <==> AllDigits(s)
    ensures BankFromStr(s).Ok? ==> BankFromStr(s).value.batteries == DigitsOf(s)
    ensures BankFromStr(s).Ok? ==> IsDigits(BankFromStr(s).value.batteries)
    ensures !BankFromStr(s).Panic?
  {
    var rs := seq(|s|, i requires 0 <= i < |s| => BatteryFromChar(s[i]));
    Collected(rs);
    assert forall i :: 0 <= i < |s| ==> (rs[i].Ok? <==> IsDigit(s[i]));
    if Collect(rs).Ok? {
      assert Collect(rs).value == DigitsOf(s);
    } else {
      var k :| 0 <= k < |rs| && !rs[k].Ok? && Collect(rs) == rs[k].PropagateFailure();
    }
  }

  /** A bank written out as its digits. */
  function BankText(bank: BatteryBank): (s: string)
    requires IsDigits(bank.batteries)
    ensures |s| == |bank.batteries|
  {
    seq(|bank.batteries|, i requires 0 <= i < |bank.batteries| => DigitChar(bank.batteries[i]))
  }

  lemma BankRoundTrip(bank: BatteryBank)
    requires IsDigits(bank.batteries)
    ensures BankFromStr(BankText(bank)) == Ok(bank)
  {
    var s := BankText(bank);
    BankFromStrReads(s);
    assert DigitsOf(s) == bank.batteries;
  }

  /** One line of `joltage_sum`: read the bank, then its joltage. */
  function LineJoltage(line: string, k: nat): Result<nat> {
    var bank :- BankFromStr(line);
    Joltage(bank.batteries, k)
  }

  function LineJoltages(lines: seq<string>, k: nat): (rs: seq<Result<nat>>)
    ensures |rs| == |lines|
    ensures forall i :: 0 <= i < |lines| ==> rs[i] == LineJoltage(lines[i], k)
  {
    seq(|lines|, i requires 0 <= i < |lines| => LineJoltage(lines[i], k))
  }

  /** `joltage_sum`: the joltages of the lines' banks, summed in order. */
  function JoltageSum(input: string, k: nat): Result<nat> {
    SumOutcomes(LineJoltages(Lines(input), k))
  }

  /** The sum succeeds exactly when every line reads and has a joltage and
      the total fits `u64`, and it is then the total of the line joltages;
      it is an error only when some line holds a character other than a
      digit. */
  lemma JoltageSumOutcome(input: string, k: nat)
    ensures JoltageSum(input, k).Ok? <==>
              AllOk(LineJoltages(Lines(input), k)) && Sum(Values(LineJoltages(Lines(input), k))) < U64_LIMIT
    ensures JoltageSum(input, k).Ok? ==> JoltageSum(input, k).value == Sum(Values(LineJoltages(Lines(input), k)))
    ensures JoltageSum(input, k).Err? ==> exists i :: 0 <= i < |Lines(input)| && !AllDigits(Lines(input)[i])
  {
    var lines := Lines(input);
    var rs := LineJoltages(lines, k);
    SumOutcomesOk(rs);
    if JoltageSum(input, k).Err? {
      var i :| 0 <= i < |rs| && rs[i].Err?;
      BankFromStrReads(lines[i]);
    }
  }
}
