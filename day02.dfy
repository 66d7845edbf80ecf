/**
 * Day 2: product id ranges such as `11-22`. An invalid id is a number whose
 * decimal digits are some number written twice (`55`, `6464`, `123123`);
 * the answer is the sum of the invalid ids inside all ranges.
 */
module Day02 {
  import opened Text

  /** An inclusive range of `u64` ids. */
  datatype IdRange = IdRange(start: nat, end: nat)

  // ---------------------------------------------------------------------
  // Powers of ten and digit counts

  /** `u64::ilog10`: the exponent of the largest power of ten not above `n`
      (the number of digits minus one). */
  function Log10(n: nat): (e: nat)
    requires n >= 1
    ensures Pow10(e) <= n < Pow10(e + 1)
  {
    if n < 10 then 0 else 1 + Log10(n / 10)
  }

  lemma {:induction false} Pow10Add(a: nat, b: nat)
    ensures Pow10(a + b) == Pow10(a) * Pow10(b)
    decreases a
  {
    if a > 0 {
      Pow10Add(a - 1, b);
    }
  }

  /** The powers of ten up to the first beyond every `u64`. */
  lemma Pow10Table()
    ensures Pow10(1) == 10 && Pow10(2) == 100 && Pow10(3) == 1000 && Pow10(4) == 10000
    ensures Pow10(5) == 100000 && Pow10(6) == 1000000 && Pow10(7) == 10000000
    ensures Pow10(8) == 100000000 && Pow10(9) == 1000000000 && Pow10(10) == 10000000000
    ensures Pow10(20) == 100000000000000000000
  {
    assert Pow10(1) == 10;
    assert Pow10(2) == 100;
    assert Pow10(3) == 1000;
    assert Pow10(4) == 10000;
    assert Pow10(5) == 100000;
    assert Pow10(6) == 1000000;
    assert Pow10(7) == 10000000;
    assert Pow10(8) == 100000000;
    assert Pow10(9) == 1000000000;
    assert Pow10(10) == 10000000000;
    Pow10Add(10, 10);
  }

  /** `Log10` is the only exponent that brackets `n`. */
  lemma Log10Of(n: nat, e: nat)
    requires Pow10(e) <= n < Pow10(e + 1)
    ensures Log10(n) == e
  {
    var l := Log10(n);
    if l < e {
      Pow10Monotone(l + 1, e);
    } else if l > e {
      Pow10Monotone(e + 1, l);
    }
  }

  lemma Log10Below(n: nat, e: nat)
    requires 1 <= n < Pow10(e)
    ensures Log10(n) < e
  {
    if Log10(n) >= e {
      Pow10Monotone(e, Log10(n));
    }
  }

  /** The number of decimal digits of `n`. */
  function Digits(n: nat): nat
    requires n >= 1
  {
    Log10(n) + 1
  }

  // ---------------------------------------------------------------------
  // Numbers written twice

  /** The number whose digits are those of `half` written twice: the
      candidate `left * 10^(ilog10(left) + 1) + left`. */
  function Doubled(half: nat): (n: nat)
    requires half >= 1
    ensures n > half
  {
    half * Pow10(Log10(half) + 1) + half
  }

  /** An invalid id: some positive number written twice. */
  ghost predicate IsInvalidId(n: nat) {
    exists half :: half >= 1 && n == Doubled(half)
  }

  /** Writing `a` and then the `k` digits of `b` gives `a * 10^k + b`. */
  lemma {:induction false} DecimalConcat(a: nat, b: nat, k: nat)
    requires a >= 1 && k >= 1 && Pow10(k - 1) <= b < Pow10(k)
    ensures Decimal(a * Pow10(k) + b) == Decimal(a) + Decimal(b)
    decreases k
  {
    if k == 1 {
      assert (a * 10 + b) / 10 == a && (a * 10 + b) % 10 == b;
    } else {
      var q, r := Pow10(k - 1), Pow10(k - 2);
      assert Pow10(k) == 10 * q && q == 10 * r;
      var n := a * Pow10(k) + b;
      ConcatStep(a, b, q);
      DivTenBetween(b, r);
      DecimalConcat(a, b / 10, k - 1);
      assert Decimal(n) == Decimal(n / 10) + [DigitChar(n % 10)];
      assert Decimal(b) == Decimal(b / 10) + [DigitChar(b % 10)];
    }
  }

  /** Dropping the last digit of `a * 10q + b` drops the last digit of `b`. */
  lemma ConcatStep(a: nat, b: nat, q: nat)
    requires q >= 1
    ensures (a * (10 * q) + b) / 10 == a * q + b / 10
    ensures (a * (10 * q) + b) % 10 == b % 10
    ensures a >= 1 ==> a * (10 * q) + b >= 10
  {
    assert a * (10 * q) + b == (a * q + b / 10) * 10 + b % 10;
  }

  lemma DivTenBetween(b: nat, r: nat)
    requires 10 * r <= b < 100 * r
    ensures r <= b / 10 < 10 * r
    ensures b >= 10 || r == 0
  {
  }

  /** The digits of `Doubled(half)` are the digits of `half`, twice. */
  lemma DoubledDigits(half: nat)
    requires half >= 1
    ensures Decimal(Doubled(half)) == Decimal(half) + Decimal(half)
  {
    DecimalConcat(half, half, Log10(half) + 1);
  }

  /** A doubled number of `k`-digit halves lies in `[10^(2k-1), 10^(2k))`. */
  lemma DoubledBelow(half: nat)
    requires half >= 1
    ensures Doubled(half) < Pow10(2 * Digits(half))
    ensures Doubled(half) >= Pow10(2 * Digits(half) - 1)
  {
    var k := Digits(half);
    var p, q := Pow10(k), Pow10(k - 1);
    assert Doubled(half) == half * p + half;
    Pow10Add(k, k);
    Pow10Add(k - 1, k);
    MulMonotone(half + 1, p, p);
    assert half * p + half < (half + 1) * p;
    MulMonotone(q, half, p);
  }

  lemma Log10Monotone(n: nat, n': nat)
    requires 1 <= n <= n'
    ensures Log10(n) <= Log10(n')
  {
    if Log10(n) > Log10(n') {
      Pow10Monotone(Log10(n') + 1, Log10(n));
    }
  }

  /** Larger halves give larger doubled numbers. */
  lemma DoubledMonotone(h: nat, h': nat)
    requires 1 <= h < h'
    ensures Doubled(h) < Doubled(h')
  {
    Log10Monotone(h, h');
    var k, k' := Digits(h), Digits(h');
    if k == k' {
      var p := Pow10(k);
      assert Doubled(h) == h * p + h && Doubled(h') == h' * p + h';
      MulMonotone(h, h', p);
    } else {
      DoubledBelow(h);
      DoubledBelow(h');
      Pow10Monotone(2 * k, 2 * k' - 1);
    }
  }

  // ---------------------------------------------------------------------
  // Where the search starts

  /** The first half the search tries, as `invalid_ids` computes it: a
      single-digit start is its own first half. */
  function FirstHalfAsWritten(start: nat): nat {
    if start < 10 then start else FirstHalfOfWide(start)
  }

  /** The first half for an evidently intended single-digit case: `1`, the
      smallest half there is. */
  function FirstHalf(start: nat): (h: nat)
    ensures h >= 1
  {
    if start < 10 then 1 else FirstHalfOfWide(start)
  }

  /** The first half for a start of two or more digits: with an odd number
      of digits, the smallest half one digit longer than half of them;
      with an even number, the start's own left half. */
  function FirstHalfOfWide(start: nat): (h: nat)
    requires start >= 10
    ensures h >= 1
  {
    var e := Log10(start);
    if e % 2 == 0 then Pow10(e / 2)
    else
      Pow10Monotone((e + 1) / 2, e);
      DivAtLeastOne(start, Pow10((e + 1) / 2));
      start / Pow10((e + 1) / 2)
  }

  lemma DivAtLeastOne(a: nat, b: nat)
    requires 1 <= b <= a
    ensures a / b >= 1
  {
  }

  /** A number below `p * p` has fewer than `p` lots of `p`. */
  lemma DivBelow(a: nat, p: nat)
    requires p >= 1 && a < p * p
    ensures a / p < p
  {
    if a / p >= p {
      MulMonotone(p, a / p, p);
    }
  }

  /** A half below `a / p`, written before `p`'s digits, stays below `a`. */
  lemma BelowLeftHalf(a: nat, p: nat, h: nat)
    requires p >= 1 && h < p && h + 1 <= a / p
    ensures h * p + h < a
  {
    MulMonotone(h + 1, a / p, p);
  }

  /** No half below the first half gives a number that reaches the start. */
  lemma FirstHalfIsLowEnough(start: nat, h: nat)
    requires 1 <= h < FirstHalf(start)
    ensures Doubled(h) < start
  {
    if Log10(start) % 2 == 0 {
      LowEnoughEvenWidth(start, h);
    } else {
      LowEnoughOddWidth(start, h);
    }
  }

  lemma LowEnoughEvenWidth(start: nat, h: nat)
    requires start >= 1 && Log10(start) % 2 == 0 && 1 <= h < Pow10(Log10(start) / 2)
    ensures Doubled(h) < start
  {
    var e := Log10(start);
    DoubledBelow(h);
    Log10Below(h, e / 2);
    Pow10Monotone(2 * Digits(h), e);
  }

  lemma LowEnoughOddWidth(start: nat, h: nat)
    requires start >= 10 && Log10(start) % 2 == 1 && 1 <= h < FirstHalfOfWide(start)
    ensures Doubled(h) < start
  {
    var m := (Log10(start) + 1) / 2;
    var p := Pow10(m);
    assert h < start / p;
    Pow10Add(m, m);
    DivBelow(start, p);
    Log10Below(h, m);
    if Digits(h) < m {
      DoubledShort(start, h);
    } else {
      DoubledFull(start, h, p);
    }
  }

  /** A half with at most half the digits of `a`, doubled, stays below `a`. */
  lemma DoubledShort(a: nat, h: nat)
    requires a >= 1 && h >= 1 && 2 * Digits(h) <= Log10(a)
    ensures Doubled(h) < a
  {
    DoubledBelow(h);
    Pow10Monotone(2 * Digits(h), Log10(a));
  }

  /** A half below the left half of `a` (`a / p`, `p` one past its largest
      value), doubled, stays below `a`. */
  lemma DoubledFull(a: nat, h: nat, p: nat)
    requires h >= 1 && p == Pow10(Digits(h)) && h + 1 <= a / p
    ensures Doubled(h) < a
  {
    BelowLeftHalf(a, p, h);
  }

  // ---------------------------------------------------------------------
  // The search

  /** The ids `invalid_ids` pushes once its half has reached `left`: each
      candidate `Doubled(left)` that does not pass the end is kept when it
      reaches the start. A candidate that does not fit a `u64` panics. */
  function Scan(left: nat, r: IdRange): Result<seq<nat>>
    requires left >= 1
    decreases r.end + 1 - left
  {
    var next := Doubled(left);
    if next >= U64_LIMIT then Panic
    else if next > r.end then Ok([])
    else
      var rest :- Scan(left + 1, r);
      Ok((if next >= r.start then [next] else []) + rest)
  }

  /** `IdRange::invalid_ids`, with the evidently intended first half. */
  function InvalidIdsOf(r: IdRange): Result<seq<nat>> {
    Scan(FirstHalf(r.start), r)
  }

  /** `ids` in front of the ids of `rest`, or the failure of `rest`. */
  function Prepend(ids: seq<nat>, rest: Result<seq<nat>>): Result<seq<nat>> {
    if rest.Ok? then Ok(ids + rest.value) else rest
  }

  /** One candidate that fits and does not pass the end moves the search on. */
  lemma ScanStep(ids: seq<nat>, left: nat, r: IdRange)
    requires left >= 1 && Doubled(left) < U64_LIMIT && Doubled(left) <= r.end
    ensures Doubled(left) >= r.start ==> Prepend(ids, Scan(left, r)) == Prepend(ids + [Doubled(left)], Scan(left + 1, r))
    ensures Doubled(left) < r.start ==> Prepend(ids, Scan(left, r)) == Prepend(ids, Scan(left + 1, r))
  {
    if Scan(left + 1, r).Ok? {
      var rest := Scan(left + 1, r).value;
      if Doubled(left) >= r.start {
        assert ids + ([Doubled(left)] + rest) == (ids + [Doubled(left)]) + rest;
      } else {
        assert [] + rest == rest;
      }
    }
  }

  /** `IdRange::invalid_ids`: the loop over halves from the first half on,
      with the corrected first half for a one-digit start. */
  method InvalidIds(r: IdRange) returns (result: Result<seq<nat>>)
    ensures result == InvalidIdsOf(r)
  {
    var left := FirstHalf(r.start);
    var ids: seq<nat> := [];
    ghost var spec := InvalidIdsOf(r);
    if spec.Ok? {
      assert [] + spec.value == spec.value;
    }
    while true
      invariant left >= 1
      invariant spec == Prepend(ids, Scan(left, r))
      decreases if left <= r.end + 1 then r.end + 1 - left else 0
    {
      var next := left * Pow10(Log10(left) + 1) + left;
      assert next == Doubled(left);
      if next >= U64_LIMIT {
        return Panic;
      }
      if next > r.end {
        assert Scan(left, r) == Ok([]);
        break;
      }
      ScanStep(ids, left, r);
      if next >= r.start {
        ids := ids + [next];
      }
      left := left + 1;
    }
    assert ids + [] == ids;
    return Ok(ids);
  }

  predicate StrictlyIncreasing(xs: seq<nat>) {
    forall i, j :: 0 <= i < j < |xs| ==> xs[i] < xs[j]
  }

  /** Everything the search from `left` returns is `Doubled(h)` for some
      `h >= left`, inside the range. */
  lemma {:induction false} ScanSound(left: nat, r: IdRange)
    requires left >= 1 && Scan(left, r).Ok?
    ensures forall n :: n in Scan(left, r).value ==>
              r.start <= n <= r.end && exists h :: h >= left && n == Doubled(h)
    decreases r.end + 1 - left
  {
    if Doubled(left) <= r.end {
      ScanSound(left + 1, r);
    }
  }

  /** The search returns its ids in increasing order. */
  lemma {:induction false} ScanIncreasing(left: nat, r: IdRange)
    requires left >= 1 && Scan(left, r).Ok?
    ensures StrictlyIncreasing(Scan(left, r).value)
    decreases r.end + 1 - left
  {
    var next := Doubled(left);
    if next <= r.end {
      ScanIncreasing(left + 1, r);
      ScanSound(left + 1, r);
      var rest := Scan(left + 1, r).value;
      forall n | n in rest
        ensures next < n
      {
        var h :| h >= left + 1 && n == Doubled(h);
        DoubledMonotone(left, h);
      }
      if next >= r.start {
        var xs := [next] + rest;
        forall i, j | 0 <= i < j < |xs|
          ensures xs[i] < xs[j]
        {
          if i == 0 {
            assert xs[j] == rest[j - 1] && rest[j - 1] in rest;
          } else {
            assert xs[i] == rest[i - 1] && xs[j] == rest[j - 1];
          }
        }
      }
    }
  }

  /** The search misses no `Doubled(h)` with `h >= left` inside the range. */
  lemma {:induction false} ScanComplete(left: nat, r: IdRange, h: nat)
    requires 1 <= left <= h && Scan(left, r).Ok?
    requires r.start <= Doubled(h) <= r.end
    ensures Doubled(h) in Scan(left, r).value
    decreases r.end + 1 - left
  {
    if left < h {
      DoubledMonotone(left, h);
      ScanComplete(left + 1, r, h);
    }
  }

  /** `invalid_ids` returns, in increasing order, exactly the invalid ids
      of the range. */
  lemma InvalidIdsExactly(r: IdRange)
    requires InvalidIdsOf(r).Ok?
    ensures StrictlyIncreasing(InvalidIdsOf(r).value)
    ensures forall n :: n in InvalidIdsOf(r).value <==> r.start <= n <= r.end && IsInvalidId(n)
  {
    var first := FirstHalf(r.start);
    ScanSound(first, r);
    ScanIncreasing(first, r);
    forall n | r.start <= n <= r.end && IsInvalidId(n)
      ensures n in InvalidIdsOf(r).value
    {
      var h :| h >= 1 && n == Doubled(h);
      if h < first {
        FirstHalfIsLowEnough(r.start, h);
      }
      ScanComplete(first, r, h);
    }
  }

  // ---------------------------------------------------------------------
  // Overflow

  /** The largest half whose doubled number fits a `u64`. */
  const MAX_HALF: nat := 1844674407

  /** The largest doubled number that fits a `u64`, `18446744071844674407`. */
  lemma LargestDoubled()
    ensures Doubled(MAX_HALF) == 18446744071844674407
    ensures Doubled(MAX_HALF) < U64_LIMIT <= Doubled(MAX_HALF + 1)
  {
    Pow10Table();
    DoubledOf(MAX_HALF, 9);
    DoubledOf(MAX_HALF + 1, 9);
  }

  /** The search never fails with an error: it returns ids or panics. */
  lemma {:induction false} ScanNeverErr(left: nat, r: IdRange)
    requires left >= 1
    ensures !Scan(left, r).Err?
    decreases r.end + 1 - left
  {
    if Doubled(left) < U64_LIMIT && Doubled(left) <= r.end {
      ScanNeverErr(left + 1, r);
    }
  }

  /** From a half that fits, the search panics exactly when the end reaches
      the largest doubled `u64`: only then does it compute a candidate
      beyond it. */
  lemma {:induction false} ScanPanics(left: nat, r: IdRange)
    requires 1 <= left <= MAX_HALF
    ensures Scan(left, r).Panic? <==> r.end >= Doubled(MAX_HALF)
    decreases MAX_HALF - left
  {
    LargestDoubled();
    if left < MAX_HALF {
      DoubledMonotone(left, MAX_HALF);
      if Doubled(left) <= r.end {
        ScanPanics(left + 1, r);
      }
    }
  }

  lemma DivMonotone(a: nat, b: nat, p: nat)
    requires p >= 1 && a <= b
    ensures a / p <= b / p
  {
    if a / p > b / p {
      MulMonotone(b / p + 1, a / p, p);
    }
  }

  /** The first half of a `u64` start fits. */
  lemma FirstHalfFits(start: nat)
    requires start < U64_LIMIT
    ensures FirstHalf(start) <= MAX_HALF
  {
    if start >= 10 {
      var e := Log10(start);
      Pow10Table();
      Log10Below(start, 20);
      if e % 2 == 0 {
        Pow10Monotone(e / 2, 9);
      } else {
        var m := (e + 1) / 2;
        if m == 10 {
          DivMonotone(start, U64_LIMIT - 1, Pow10(10));
        } else {
          Pow10Add(m, m);
          DivBelow(start, Pow10(m));
          Pow10Monotone(m, 9);
        }
      }
    }
  }

  /** For a range of `u64` ids, the corrected search panics exactly when the
      end reaches `18446744071844674407`, and never fails otherwise. (As
      written, a start of 0 also panics: see `InvalidIdsAsWritten`.) */
  lemma InvalidIdsPanics(r: IdRange)
    requires r.start < U64_LIMIT && r.end < U64_LIMIT
    ensures !InvalidIdsOf(r).Err?
    ensures InvalidIdsOf(r).Panic? <==> r.end >= Doubled(MAX_HALF)
  {
    FirstHalfFits(r.start);
    ScanNeverErr(FirstHalf(r.start), r);
    ScanPanics(FirstHalf(r.start), r);
  }

  // ---------------------------------------------------------------------
  // The single-digit start as written

  /** `IdRange::invalid_ids` as written: the search starts at the start
      itself when it has one digit, so a start of 0 panics in `ilog10`. */
  function InvalidIdsAsWritten(r: IdRange): Result<seq<nat>> {
    var left := FirstHalfAsWritten(r.start);
    if left == 0 then Panic else Scan(left, r)
  }

  /** As written, a single-digit start from 2 to 9 skips `11`, which is an
      invalid id of the range. */
  lemma AsWrittenSkipsEleven(r: IdRange)
    requires 2 <= r.start <= 9 && r.end >= 11
    requires InvalidIdsAsWritten(r).Ok?
    ensures r.start <= 11 <= r.end && IsInvalidId(11)
    ensures 11 !in InvalidIdsAsWritten(r).value
    ensures InvalidIdsOf(r).Ok? ==> 11 in InvalidIdsOf(r).value
  {
    assert Doubled(1) == 11;
    ScanSound(r.start, r);
    if 11 in InvalidIdsAsWritten(r).value {
      var h :| h >= r.start && 11 == Doubled(h);
      DoubledMonotone(1, h);
    }
    if InvalidIdsOf(r).Ok? {
      InvalidIdsExactly(r);
    }
  }

  /** The smallest such range: as written `2-11` has no invalid ids; with
      the intended start it has `11`. */
  lemma AsWrittenExample(r: IdRange)
    requires r == IdRange(2, 11)
    ensures InvalidIdsAsWritten(r) == Ok([])
    ensures InvalidIdsOf(r) == Ok([11])
  {
    Pow10Table();
    DoubledOf(1, 0);
    DoubledOf(2, 0);
    ScanNothing(r, 2);
    ScanOne(r, 1);
  }

  /** The first half of a start of `e + 1` digits is `h`. */
  lemma FirstHalfOf(start: nat, e: nat, h: nat)
    requires start >= 10 && Pow10(e) <= start < Pow10(e + 1)
    requires e % 2 == 0 ==> h == Pow10(e / 2)
    requires e % 2 == 1 ==> h * Pow10((e + 1) / 2) <= start < (h + 1) * Pow10((e + 1) / 2)
    ensures FirstHalf(start) == h
  {
    Log10Of(start, e);
    if e % 2 == 1 {
      DivIs(start, Pow10((e + 1) / 2), h);
    }
  }

  lemma DivIs(a: nat, p: nat, q: nat)
    requires p >= 1 && q * p <= a < (q + 1) * p
    ensures a / p == q
  {
    if a / p < q {
      MulMonotone(a / p + 1, q, p);
    } else if a / p > q {
      MulMonotone(q + 1, a / p, p);
    }
  }

  /** The doubled number of a half of `e + 1` digits. */
  lemma DoubledOf(h: nat, e: nat)
    requires h >= 1 && Pow10(e) <= h < Pow10(e + 1)
    ensures Doubled(h) == h * Pow10(e + 1) + h
  {
    Log10Of(h, e);
  }

  /** A search whose first candidate is already past the end finds nothing. */
  lemma ScanNothing(r: IdRange, h: nat)
    requires h >= 1 && r.end < Doubled(h) < U64_LIMIT
    ensures Scan(h, r) == Ok([])
  {
  }

  /** A search with one candidate up to the end keeps it when it reaches
      the start. */
  lemma ScanOne(r: IdRange, h: nat)
    requires h >= 1 && Doubled(h) <= r.end < Doubled(h + 1) < U64_LIMIT
    ensures Scan(h, r) == Ok(if Doubled(h) >= r.start then [Doubled(h)] else [])
  {
    ScanNothing(r, h + 1);
    var kept: seq<nat> := if Doubled(h) >= r.start then [Doubled(h)] else [];
    assert kept + [] == kept;
  }

  lemma Range1To19(r: IdRange)
    requires r == IdRange(1, 19)
    ensures InvalidIdsOf(r) == Ok([11])
  {
    Pow10Table();
    DoubledOf(1, 0);
    DoubledOf(2, 0);
    ScanOne(r, 1);
  }

  lemma Range11To22(r: IdRange)
    requires r == IdRange(11, 22)
    ensures InvalidIdsOf(r) == Ok([11, 22])
  {
    Pow10Table();
    FirstHalfOf(r.start, 1, 1);
    DoubledOf(1, 0);
    DoubledOf(2, 0);
    DoubledOf(3, 0);
    ScanOne(r, 2);
    assert [11] + [22] == [11, 22];
  }

  lemma Range95To115(r: IdRange)
    requires r == IdRange(95, 115)
    ensures InvalidIdsOf(r) == Ok([99])
  {
    Pow10Table();
    FirstHalfOf(r.start, 1, 9);
    DoubledOf(9, 0);
    DoubledOf(10, 1);
    ScanOne(r, 9);
  }

  lemma Range998To1012(r: IdRange)
    requires r == IdRange(998, 1012)
    ensures InvalidIdsOf(r) == Ok([1010])
  {
    Pow10Table();
    FirstHalfOf(r.start, 2, 10);
    DoubledOf(10, 1);
    DoubledOf(11, 1);
    ScanOne(r, 10);
  }

  lemma Range1188511880To1188511890(r: IdRange)
    requires r == IdRange(1188511880, 1188511890)
    ensures InvalidIdsOf(r) == Ok([1188511885])
  {
    Pow10Table();
    FirstHalfOf(r.start, 9, 11885);
    DoubledOf(11885, 4);
    DoubledOf(11886, 4);
    ScanOne(r, 11885);
  }

  lemma Range222220To222224(r: IdRange)
    requires r == IdRange(222220, 222224)
    ensures InvalidIdsOf(r) == Ok([222222])
  {
    Pow10Table();
    FirstHalfOf(r.start, 5, 222);
    DoubledOf(222, 2);
    DoubledOf(223, 2);
    ScanOne(r, 222);
  }

  lemma Range1698522To1698528(r: IdRange)
    requires r == IdRange(1698522, 1698528)
    ensures InvalidIdsOf(r) == Ok([])
  {
    Pow10Table();
    FirstHalfOf(r.start, 6, 1000);
    DoubledOf(1000, 3);
    ScanNothing(r, 1000);
  }

  lemma Range446443To446449(r: IdRange)
    requires r == IdRange(446443, 446449)
    ensures InvalidIdsOf(r) == Ok([446446])
  {
    Pow10Table();
    FirstHalfOf(r.start, 5, 446);
    DoubledOf(446, 2);
    DoubledOf(447, 2);
    ScanOne(r, 446);
  }

  lemma Range38593856To38593862(r: IdRange)
    requires r == IdRange(38593856, 38593862)
    ensures InvalidIdsOf(r) == Ok([38593859])
  {
    Pow10Table();
    FirstHalfOf(r.start, 7, 3859);
    DoubledOf(3859, 3);
    DoubledOf(3860, 3);
    ScanOne(r, 3859);
  }

  lemma Range565653To565659(r: IdRange)
    requires r == IdRange(565653, 565659)
    ensures InvalidIdsOf(r) == Ok([])
  {
    Pow10Table();
    FirstHalfOf(r.start, 5, 565);
    DoubledOf(565, 2);
    DoubledOf(566, 2);
    ScanOne(r, 565);
  }

  lemma Range824824821To824824827(r: IdRange)
    requires r == IdRange(824824821, 824824827)
    ensures InvalidIdsOf(r) == Ok([])
  {
    Pow10Table();
    FirstHalfOf(r.start, 8, 10000);
    DoubledOf(10000, 4);
    ScanNothing(r, 10000);
  }

  lemma Range2121212118To2121212124(r: IdRange)
    requires r == IdRange(2121212118, 2121212124)
    ensures InvalidIdsOf(r) == Ok([])
  {
    Pow10Table();
    FirstHalfOf(r.start, 9, 21212);
    DoubledOf(21212, 4);
    ScanNothing(r, 21212);
  }

  // ---------------------------------------------------------------------
  // Reading ranges and summing

  /** `IdRange::from_str`: the text before and after the first `-`, each a
      `u64`. */
  function RangeFromStr(s: string): (r: Result<IdRange>)
    ensures !r.Panic?
    ensures r.Ok? <==> && SplitOnce(s, '-').Some?
                       && ParseUnsigned(SplitOnce(s, '-').value.0, U64_LIMIT).Ok?
                       && ParseUnsigned(SplitOnce(s, '-').value.1, U64_LIMIT).Ok?
    ensures r.Ok? ==> && Ok(r.value.start) == ParseUnsigned(SplitOnce(s, '-').value.0, U64_LIMIT)
                      && Ok(r.value.end) == ParseUnsigned(SplitOnce(s, '-').value.1, U64_LIMIT)
  {
    match SplitOnce(s, '-')
    case None => Err
    case Some((a, b)) =>
      var start :- ParseUnsigned(a, U64_LIMIT);
      var end :- ParseUnsigned(b, U64_LIMIT);
      Ok(IdRange(start, end))
  }

  function RangeText(r: IdRange): string {
    Decimal(r.start) + "-" + Decimal(r.end)
  }

  /** Reading a written range gives it back. */
  lemma RangeRoundTrip(r: IdRange)
    requires r.start < U64_LIMIT && r.end < U64_LIMIT
    ensures RangeFromStr(RangeText(r)) == Ok(r)
  {
    var a, b := Decimal(r.start), Decimal(r.end);
    DigitsAvoid(a, '-');
    SplitOnceAt(a, b, '-');
    assert RangeText(r) == a + ['-'] + b;
    ParseDecimal(r.start, U64_LIMIT);
    ParseDecimal(r.end, U64_LIMIT);
  }

  /** Each piece read as a range. */
  function Readings(pieces: seq<string>): (rs: seq<Result<IdRange>>)
    ensures |rs| == |pieces|
    ensures forall k :: 0 <= k < |pieces| ==> rs[k] == RangeFromStr(pieces[k])
  {
    seq(|pieces|, k requires 0 <= k < |pieces| => RangeFromStr(pieces[k]))
  }

  /** `filter_map(|s| IdRange::from_str(s).ok())`: the pieces that read as
      ranges, in order; the others are dropped. */
  function ReadableRanges(pieces: seq<string>): seq<IdRange> {
    Oks(Readings(pieces))
  }

  /** A range is kept exactly when some piece reads as it. */
  lemma ReadableRangesKeep(pieces: seq<string>)
    ensures forall r :: r in ReadableRanges(pieces) <==>
              exists k :: 0 <= k < |pieces| && RangeFromStr(pieces[k]) == Ok(r)
  {
    var rs := Readings(pieces);
    OksMembers(rs);
    forall r | Ok(r) in rs
      ensures exists k :: 0 <= k < |pieces| && RangeFromStr(pieces[k]) == Ok(r)
    {
      var k :| 0 <= k < |rs| && rs[k] == Ok(r);
    }
  }

  lemma InvalidIdsNeverErr(r: IdRange)
    ensures !InvalidIdsOf(r).Err?
  {
    ScanNeverErr(FirstHalf(r.start), r);
  }

  /** The `u64` sum of the invalid ids of all ranges, in order, each found
      by the corrected search: it panics when a range's search panics or the
      running sum overflows. */
  function IdSum(ranges: seq<IdRange>): (r: Result<nat>)
    ensures !r.Err?
    ensures r.Ok? ==> r.value < U64_LIMIT
  {
    if ranges == [] then Ok(0)
    else
      var last := ranges[|ranges| - 1];
      InvalidIdsNeverErr(last);
      var before :- IdSum(ranges[..|ranges| - 1]);
      var ids :- InvalidIdsOf(last);
      var total := before + Sum(ids);
      if total >= U64_LIMIT then Panic else Ok(total)
  }

  /** Every range's search returns its ids. */
  predicate AllSearched(ranges: seq<IdRange>) {
    forall k :: 0 <= k < |ranges| ==> InvalidIdsOf(ranges[k]).Ok?
  }

  /** The sum of every invalid id of every range, unbounded. */
  function Total(ranges: seq<IdRange>): nat
    requires AllSearched(ranges)
  {
    if ranges == [] then 0 else Total(ranges[..|ranges| - 1]) + Sum(InvalidIdsOf(ranges[|ranges| - 1]).value)
  }

  /** The sum is the total of all invalid ids when every search succeeds and
      the total fits a `u64`, and panics otherwise. */
  lemma {:induction false} IdSumOutcome(ranges: seq<IdRange>)
    ensures IdSum(ranges).Ok? <==> AllSearched(ranges) && Total(ranges) < U64_LIMIT
    ensures IdSum(ranges).Ok? ==> IdSum(ranges).value == Total(ranges)
  {
    if ranges != [] {
      var init := ranges[..|ranges| - 1];
      IdSumOutcome(init);
      if AllSearched(ranges) {
        assert AllSearched(init) by {
          forall k | 0 <= k < |init| ensures InvalidIdsOf(init[k]).Ok? {
            assert init[k] == ranges[k];
          }
        }
      }
      if IdSum(ranges).Ok? {
        forall k | 0 <= k < |ranges| ensures InvalidIdsOf(ranges[k]).Ok? {
          if k < |init| {
            assert init[k] == ranges[k];
          }
        }
      }
    }
  }

  /** `invalid_id_sum`: the comma-separated pieces that read as ranges, and
      the sum of their invalid ids, found by the corrected search. */
  function InvalidIdSum(input: string): Result<nat> {
    IdSum(ReadableRanges(Split(input, ',')))
  }

  /** Each range written out in the form it is read from. */
  function RangeTexts(ranges: seq<IdRange>): (pieces: seq<string>)
    ensures |pieces| == |ranges|
    ensures forall k :: 0 <= k < |ranges| ==> pieces[k] == RangeText(ranges[k])
  {
    seq(|ranges|, k requires 0 <= k < |ranges| => RangeText(ranges[k]))
  }

  lemma NoCommaInRangeTexts(ranges: seq<IdRange>)
    ensures forall i :: 0 <= i < |ranges| ==> ',' !in RangeTexts(ranges)[i]
  {
    forall i | 0 <= i < |ranges|
      ensures ',' !in RangeTexts(ranges)[i]
    {
      assert RangeTexts(ranges)[i] == Decimal(ranges[i].start) + "-" + Decimal(ranges[i].end);
    }
  }

  lemma ReadingsOfRangeTexts(ranges: seq<IdRange>)
    requires forall k :: 0 <= k < |ranges| ==> ranges[k].start < U64_LIMIT && ranges[k].end < U64_LIMIT
    ensures ReadableRanges(RangeTexts(ranges)) == ranges
  {
    var rs := Readings(RangeTexts(ranges));
    forall k | 0 <= k < |rs|
      ensures rs[k] == Ok(ranges[k])
    {
      RangeRoundTrip(ranges[k]);
    }
    OksAllOk(rs);
  }

  /** Ranges written out and joined by commas read back as the same ranges. */
  lemma InvalidIdSumOfText(ranges: seq<IdRange>)
    requires |ranges| >= 1
    requires forall k :: 0 <= k < |ranges| ==> ranges[k].start < U64_LIMIT && ranges[k].end < U64_LIMIT
    ensures InvalidIdSum(Join(RangeTexts(ranges), ',')) == IdSum(ranges)
  {
    NoCommaInRangeTexts(ranges);
    SplitJoin(RangeTexts(ranges), ',');
    ReadingsOfRangeTexts(ranges);
  }

  /** The unit test's ranges, their invalid ids and the running sums. */
  const EXAMPLE: seq<IdRange> := [IdRange(11, 22), IdRange(95, 115), IdRange(998, 1012), IdRange(1188511880, 1188511890), IdRange(222220, 222224), IdRange(1698522, 1698528), IdRange(446443, 446449), IdRange(38593856, 38593862), IdRange(565653, 565659), IdRange(824824821, 824824827), IdRange(2121212118, 2121212124)]
  const EXAMPLE_IDS: seq<seq<nat>> := [[11, 22], [99], [1010], [1188511885], [222222], [], [446446], [38593859], [], [], []]
  const EXAMPLE_SUMS: seq<nat> := [0, 33, 132, 1142, 1188513027, 1188735249, 1188735249, 1189181695, 1227775554, 1227775554, 1227775554, 1227775554]

  lemma ExampleIds(k: nat)
    requires k < |EXAMPLE|
    ensures InvalidIdsOf(EXAMPLE[k]) == Ok(EXAMPLE_IDS[k])
  {
    if k == 0 {
      Range11To22(EXAMPLE[k]);
    } else if k == 1 {
      Range95To115(EXAMPLE[k]);
    } else if k == 2 {
      Range998To1012(EXAMPLE[k]);
    } else if k == 3 {
      Range1188511880To1188511890(EXAMPLE[k]);
    } else if k == 4 {
      Range222220To222224(EXAMPLE[k]);
    } else if k == 5 {
      Range1698522To1698528(EXAMPLE[k]);
    } else if k == 6 {
      Range446443To446449(EXAMPLE[k]);
    } else if k == 7 {
      Range38593856To38593862(EXAMPLE[k]);
    } else if k == 8 {
      Range565653To565659(EXAMPLE[k]);
    } else if k == 9 {
      Range824824821To824824827(EXAMPLE[k]);
    } else {
      Range2121212118To2121212124(EXAMPLE[k]);
    }
  }

  lemma IdSumStep(init: seq<IdRange>, last: IdRange, before: nat, ids: seq<nat>, total: nat)
    requires IdSum(init) == Ok(before)
    requires InvalidIdsOf(last) == Ok(ids)
    requires total == before + Sum(ids) < U64_LIMIT
    ensures IdSum(init + [last]) == Ok(total)
  {
    var ranges := init + [last];
    assert ranges[..|ranges| - 1] == init;
  }

  lemma ExampleSumStep(k: nat)
    requires k < |EXAMPLE|
    ensures EXAMPLE_SUMS[k + 1] == EXAMPLE_SUMS[k] + Sum(EXAMPLE_IDS[k])
    ensures EXAMPLE_SUMS[k + 1] < U64_LIMIT
  {
    if k == 0 {
    } else if k == 1 {
    } else if k == 2 {
    } else if k == 3 {
    } else if k == 4 {
    } else if k == 5 {
    } else if k == 6 {
    } else if k == 7 {
    } else if k == 8 {
    } else if k == 9 {
    } else {
    }
  }

  lemma {:induction false} ExampleSumPrefix(k: nat)
    requires k <= |EXAMPLE|
    ensures IdSum(EXAMPLE[..k]) == Ok(EXAMPLE_SUMS[k])
  {
    if k > 0 {
      ExampleSumPrefix(k - 1);
      ExampleIds(k - 1);
      ExampleSumStep(k - 1);
      PrefixStep(EXAMPLE, k);
      IdSumStep(EXAMPLE[..k - 1], EXAMPLE[k - 1], EXAMPLE_SUMS[k - 1], EXAMPLE_IDS[k - 1], EXAMPLE_SUMS[k]);
    } else {
      assert EXAMPLE[..k] == [];
    }
  }

  /** The unit test's sum over its ranges, `1227775554`. */
  lemma InvalidIdSumExample(ranges: seq<IdRange>)
    requires ranges == EXAMPLE
    ensures IdSum(ranges) == Ok(1227775554)
  {
    ExampleSumPrefix(|ranges|);
    assert ranges[..|ranges|] == ranges;
  }
}
