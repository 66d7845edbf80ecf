/**
 * Text helpers shared by the puzzle solvers: the outcome of a fallible
 * operation, unsigned decimal parsing in the manner of Rust's `str::parse`,
 * and the string splitters the solvers rely on (`split`, `splitn(2, ..)`,
 * `split_whitespace`, `lines`).
 */
module Text {

  /** Outcome of an operation that can fail: `Err` is an error value returned
      to the caller, `Panic` is an abrupt termination of the program. */
  datatype Result<T> = Ok(value: T) | Err | Panic {
    predicate IsFailure() { !Ok? }

    function PropagateFailure<U>(): Result<U>
      requires !Ok?
    {
      if Err? then Err else Panic
    }

    function Extract(): T
      requires Ok?
    {
      value
    }
  }

  datatype Option<T> = None | Some(value: T)

  const U16_LIMIT: nat := 0x1_0000
  const U32_LIMIT: nat := 0x1_0000_0000
  const U64_LIMIT: nat := 0x1_0000_0000_0000_0000

  /** Collecting outcomes into `Result<Vec<_>, _>`: every value in order, or
      the outcome of the first failure. */
  function Collect<T>(rs: seq<Result<T>>): Result<seq<T>> {
    if rs == [] then Ok([])
    else if !rs[0].Ok? then rs[0].PropagateFailure()
    else
      var rest :- Collect(rs[1..]);
      Ok([rs[0].value] + rest)
  }

  /** Collecting succeeds exactly when every outcome does, keeping the values
      in order; otherwise it fails as the first failing outcome does. */
  lemma {:induction false} Collected<T>(rs: seq<Result<T>>)
    ensures Collect(rs).Ok? <==> forall k :: 0 <= k < |rs| ==> rs[k].Ok?
    ensures Collect(rs).Ok? ==> |Collect(rs).value| == |rs| && forall k :: 0 <= k < |rs| ==> rs[k] == Ok(Collect(rs).value[k])
    ensures !Collect(rs).Ok? ==> exists k :: && 0 <= k < |rs| && !rs[k].Ok?
                                             && (forall j :: 0 <= j < k ==> rs[j].Ok?)
                                             && Collect(rs) == rs[k].PropagateFailure()
  {
    if rs != [] && rs[0].Ok? {
      var tail := rs[1..];
      Collected(tail);
      assert forall k :: 0 <= k < |tail| ==> tail[k] == rs[k + 1];
      if !Collect(tail).Ok? {
        var k :| && 0 <= k < |tail| && !tail[k].Ok?
                  && (forall j :: 0 <= j < k ==> tail[j].Ok?)
                  && Collect(tail) == tail[k].PropagateFailure();
        assert rs[k + 1] == tail[k];
      }
    }
  }

  /** Collecting outcomes that do not panic does not panic. */
  lemma CollectNoPanic<T>(rs: seq<Result<T>>)
    requires forall k :: 0 <= k < |rs| ==> !rs[k].Panic?
    ensures !Collect(rs).Panic?
  {
    Collected(rs);
  }

  /** Rust's `filter_map(|r| r.ok())`: the values of the successes, in order. */
  function Oks<T>(rs: seq<Result<T>>): (vs: seq<T>)
    ensures |vs| <= |rs|
  {
    if rs == [] then []
    else Oks(rs[..|rs| - 1]) + (if rs[|rs| - 1].Ok? then [rs[|rs| - 1].value] else [])
  }

  /** A value is kept exactly when it is one of the successes. */
  lemma {:induction false} OksMembers<T>(rs: seq<Result<T>>)
    ensures forall v :: v in Oks(rs) <==> Ok(v) in rs
  {
    if rs != [] {
      var init := rs[..|rs| - 1];
      OksMembers(init);
      assert rs == init + [rs[|rs| - 1]];
    }
  }

  /** When every result succeeds, nothing is dropped. */
  lemma {:induction false} OksAllOk<T>(rs: seq<Result<T>>)
    requires forall k :: 0 <= k < |rs| ==> rs[k].Ok?
    ensures |Oks(rs)| == |rs|
    ensures forall k :: 0 <= k < |rs| ==> Oks(rs)[k] == rs[k].value
  {
    if rs != [] {
      OksAllOk(rs[..|rs| - 1]);
    }
  }

  // ---------------------------------------------------------------------
  // Decimal numbers

  predicate IsDigit(c: char) { '0' <= c <= '9' }

  function DigitValue(c: char): (d: nat)
    requires IsDigit(c)
    ensures d <= 9
  {
    c as nat - '0' as nat
  }

  function DigitChar(d: nat): (c: char)
    requires d <= 9
    ensures IsDigit(c) && DigitValue(c) == d
  {
    ('0' as nat + d) as char
  }

  predicate AllDigits(s: string) {
    forall i :: 0 <= i < |s| ==> IsDigit(s[i])
  }

  function Pow10(e: nat): (p: nat)
    ensures p >= 1
  {
    if e == 0 then 1 else 10 * Pow10(e - 1)
  }

  /** Powers of ten grow with the exponent. */
  lemma {:induction false} Pow10Monotone(a: nat, b: nat)
    requires a <= b
    ensures Pow10(a) <= Pow10(b)
    decreases b
  {
    if a < b {
      Pow10Monotone(a, b - 1);
    }
  }

  /** The number whose decimal digits, most significant first, are `ds`. */
  function NumberValue(ds: seq<nat>): nat {
    if ds == [] then 0 else NumberValue(ds[..|ds| - 1]) * 10 + ds[|ds| - 1]
  }

  /** Digits written after others scale those by a power of ten. */
  lemma {:induction false} NumberValueAppend(a: seq<nat>, b: seq<nat>)
    ensures NumberValue(a + b) == NumberValue(a) * Pow10(|b|) + NumberValue(b)
    decreases |b|
  {
    if b == [] {
      assert a + b == a;
    } else {
      var init, last := b[..|b| - 1], b[|b| - 1];
      var ab := a + b;
      assert ab[..|ab| - 1] == a + init;
      assert ab[|ab| - 1] == last;
      NumberValueAppend(a, init);
      assert Pow10(|b|) == 10 * Pow10(|init|);
      ShiftDigit(NumberValue(a), Pow10(|init|), NumberValue(init), last);
    }
  }

  lemma ShiftDigit(x: nat, p: nat, y: nat, d: nat)
    ensures (x * p + y) * 10 + d == x * (10 * p) + (y * 10 + d)
  {
  }

  /** A leading digit counts `10^(number of digits after it)` times. */
  lemma NumberValueCons(ds: seq<nat>)
    requires |ds| > 0
    ensures NumberValue(ds) == ds[0] * Pow10(|ds| - 1) + NumberValue(ds[1..])
  {
    var d, rest := ds[0], ds[1..];
    assert ds == [d] + rest;
    NumberValueAppend([d], rest);
    assert NumberValue([d]) == d by {
      assert [d][..0] == [];
    }
  }

  /** Digits written after others never make the number smaller. */
  lemma {:induction false} NumberValuePrefix(a: seq<nat>, b: seq<nat>)
    ensures NumberValue(a) <= NumberValue(a + b)
    decreases |b|
  {
    if b == [] {
      assert a + b == a;
    } else {
      var ab := a + b;
      assert ab[..|ab| - 1] == a + b[..|b| - 1];
      NumberValuePrefix(a, b[..|b| - 1]);
    }
  }

  /** One more digit. */
  lemma NumberValueSnoc(ds: seq<nat>, d: nat)
    ensures NumberValue(ds + [d]) == NumberValue(ds) * 10 + d
  {
    assert (ds + [d])[..|ds|] == ds;
  }

  /** `k` decimal digits spell a number below `10^k`. */
  lemma {:induction false} NumberValueBelow(ds: seq<nat>)
    requires forall i :: 0 <= i < |ds| ==> ds[i] <= 9
    ensures NumberValue(ds) < Pow10(|ds|)
  {
    if ds != [] {
      NumberValueBelow(ds[..|ds| - 1]);
    }
  }

  lemma MulMonotone(a: nat, b: nat, c: nat)
    requires a <= b
    ensures a * c <= b * c
  {
  }

  function DigitsOf(s: string): (ds: seq<nat>)
    requires AllDigits(s)
    ensures |ds| == |s|
    ensures forall i :: 0 <= i < |s| ==> ds[i] == DigitValue(s[i])
  {
    if s == [] then [] else DigitsOf(s[..|s| - 1]) + [DigitValue(s[|s| - 1])]
  }

  /** Rust's `str::parse` for an unsigned integer type whose values are below
      `limit`: an optional `+`, then at least one ASCII digit, and a value that
      fits the type. Anything else is an error. */
  function ParseUnsigned(s: string, limit: nat): (r: Result<nat>)
    ensures !r.Panic?
    ensures r.Ok? ==> r.value < limit
    ensures r.Ok? <==> var ds := UnsignedDigits(s);
                       ds != [] && AllDigits(ds) && NumberValue(DigitsOf(ds)) < limit
  {
    var ds := UnsignedDigits(s);
    if ds == [] || !AllDigits(ds) then Err
    else
      var v := NumberValue(DigitsOf(ds));
      if v < limit then Ok(v) else Err
  }

  /** The part of `s` that must be digits: `s` without one leading `+`. */
  function UnsignedDigits(s: string): string {
    if |s| > 0 && s[0] == '+' then s[1..] else s
  }

  /** The canonical decimal rendering of `n`: no sign, no leading zeros. */
  function Decimal(n: nat): (s: string)
    ensures |s| > 0 && AllDigits(s)
    ensures |s| > 1 ==> s[0] != '0'
    decreases n
  {
    if n < 10 then [DigitChar(n)] else Decimal(n / 10) + [DigitChar(n % 10)]
  }

  lemma {:induction false} DecimalValue(n: nat)
    ensures NumberValue(DigitsOf(Decimal(n))) == n
    decreases n
  {
    if n >= 10 {
      var s, t := Decimal(n), Decimal(n / 10);
      DecimalValue(n / 10);
      assert s[..|s| - 1] == t;
      var ds := DigitsOf(s);
      assert ds[..|ds| - 1] == DigitsOf(t);
      assert ds[|ds| - 1] == n % 10;
      assert NumberValue(ds) == NumberValue(DigitsOf(t)) * 10 + n % 10;
    }
  }

  /** Parsing the rendering of a value that fits the type gives it back. */
  lemma ParseDecimal(n: nat, limit: nat)
    requires n < limit
    ensures ParseUnsigned(Decimal(n), limit) == Ok(n)
  {
    DecimalValue(n);
  }

  // ---------------------------------------------------------------------
  // Splitting

  /** The characters Rust's `char::is_whitespace` accepts (Unicode White_Space). */
  predicate IsWhitespace(c: char) {
    ('\t' <= c <= '\r') || c == ' ' || c == '\U{85}' || c == '\U{A0}' || c == '\U{1680}'
    || ('\U{2000}' <= c <= '\U{200A}') || c == '\U{2028}' || c == '\U{2029}'
    || c == '\U{202F}' || c == '\U{205F}' || c == '\U{3000}'
  }

  predicate IsWord(s: string) {
    s != [] && forall i :: 0 <= i < |s| ==> !IsWhitespace(s[i])
  }

  /** Length of the maximal non-whitespace prefix of `s`. */
  function WordLength(s: string): (n: nat)
    ensures n <= |s|
    ensures forall i :: 0 <= i < n ==> !IsWhitespace(s[i])
    ensures n < |s| ==> IsWhitespace(s[n])
  {
    if s == [] || IsWhitespace(s[0]) then 0 else 1 + WordLength(s[1..])
  }

  /** Rust's `str::split_whitespace`: the maximal runs of non-whitespace. */
  function SplitWhitespace(s: string): (words: seq<string>)
    ensures forall i :: 0 <= i < |words| ==> IsWord(words[i])
    decreases |s|
  {
    if s == [] then []
    else if IsWhitespace(s[0]) then SplitWhitespace(s[1..])
    else
      var n := WordLength(s);
      [s[..n]] + SplitWhitespace(s[n..])
  }

  function JoinWords(words: seq<string>): string {
    if words == [] then [] else if |words| == 1 then words[0] else words[0] + " " + JoinWords(words[1..])
  }

  /** A character other than a space that no word holds is not in the
      words joined by spaces. */
  lemma {:induction false} JoinWordsAvoids(words: seq<string>, c: char)
    requires c != ' ' && forall i :: 0 <= i < |words| ==> c !in words[i]
    ensures c !in JoinWords(words)
  {
    if |words| > 1 {
      JoinWordsAvoids(words[1..], c);
      assert words[1] == words[1..][0];
    }
  }

  /** Words separated by single spaces split back into the same words. */
  lemma {:induction false} SplitJoinWords(words: seq<string>)
    requires forall i :: 0 <= i < |words| ==> IsWord(words[i])
    ensures SplitWhitespace(JoinWords(words)) == words
  {
    if |words| == 1 {
      WordPrefix(words[0], []);
      assert words[0] + [] == words[0];
    } else if |words| > 1 {
      var rest := JoinWords(words[1..]);
      assert JoinWords(words) == words[0] + (" " + rest);
      WordPrefix(words[0], " " + rest);
      SkipSpace(rest);
      SplitJoinWords(words[1..]);
    }
  }

  lemma SkipSpace(s: string)
    ensures SplitWhitespace(" " + s) == SplitWhitespace(s)
  {
    assert (" " + s)[1..] == s;
  }

  lemma {:induction false} WordPrefix(w: string, rest: string)
    requires IsWord(w)
    requires rest == [] || IsWhitespace(rest[0])
    ensures WordLength(w + rest) == |w|
    ensures SplitWhitespace(w + rest) == [w] + SplitWhitespace(rest)
    decreases |w|
  {
    var s := w + rest;
    if |w| > 1 {
      assert s[1..] == w[1..] + rest;
      WordPrefix(w[1..], rest);
    } else {
      assert s[1..] == rest;
    }
    assert s[..|w|] == w;
    assert s[|w|..] == rest;
  }

  /** Index of the first `sep` in `s`, or `|s|` when there is none. */
  function Find(s: string, sep: char): (i: nat)
    ensures i <= |s|
    ensures forall k :: 0 <= k < i ==> s[k] != sep
    ensures i < |s| ==> s[i] == sep
  {
    if s == [] || s[0] == sep then 0 else 1 + Find(s[1..], sep)
  }

  /** Rust's `str::split(sep)`: always at least one piece, possibly empty. */
  function Split(s: string, sep: char): (pieces: seq<string>)
    ensures |pieces| >= 1
    decreases |s|
  {
    var i := Find(s, sep);
    if i == |s| then [s] else [s[..i]] + Split(s[i + 1..], sep)
  }

  /** No piece holds the separator. */
  lemma {:induction false} SplitAvoids(s: string, sep: char)
    ensures forall i :: 0 <= i < |Split(s, sep)| ==> sep !in Split(s, sep)[i]
    decreases |s|
  {
    var i := Find(s, sep);
    if i < |s| {
      SplitAvoids(s[i + 1..], sep);
      assert Split(s, sep) == [s[..i]] + Split(s[i + 1..], sep);
    }
  }

  function Join(pieces: seq<string>, sep: char): string
    requires |pieces| >= 1
  {
    if |pieces| == 1 then pieces[0] else pieces[0] + [sep] + Join(pieces[1..], sep)
  }

  /** Splitting loses nothing: joining the pieces restores the string. */
  lemma {:induction false} JoinSplit(s: string, sep: char)
    ensures Join(Split(s, sep), sep) == s
    decreases |s|
  {
    var i := Find(s, sep);
    if i < |s| {
      SplitAt(s, sep, i);
      JoinSplit(s[i + 1..], sep);
    }
  }

  lemma SplitAt(s: string, sep: char, i: nat)
    requires i == Find(s, sep) < |s|
    ensures s == s[..i] + [sep] + s[i + 1..]
    ensures Join(Split(s, sep), sep) == s[..i] + [sep] + Join(Split(s[i + 1..], sep), sep)
  {
    assert s == s[..i] + [sep] + s[i + 1..];
    var rest := Split(s[i + 1..], sep);
    assert Split(s, sep) == [s[..i]] + rest;
    assert ([s[..i]] + rest)[1..] == rest;
  }

  /** Pieces without `sep`, joined by `sep`, split back into the same pieces. */
  lemma {:induction false} SplitJoin(pieces: seq<string>, sep: char)
    requires |pieces| >= 1
    requires forall i :: 0 <= i < |pieces| ==> sep !in pieces[i]
    ensures Split(Join(pieces, sep), sep) == pieces
  {
    if |pieces| > 1 {
      SplitAfterPrefix(pieces[0], Join(pieces[1..], sep), sep);
      SplitJoin(pieces[1..], sep);
      assert pieces == [pieces[0]] + pieces[1..];
    }
  }

  /** A prefix without `sep`, then `sep`, splits off as the first piece. */
  lemma SplitAfterPrefix(w: string, rest: string, sep: char)
    requires sep !in w
    ensures Split(w + [sep] + rest, sep) == [w] + Split(rest, sep)
  {
    var s := w + [sep] + rest;
    FindAfterPrefix(w, rest, sep);
    assert s[..|w|] == w;
    assert s[|w| + 1..] == rest;
  }

  /** Joining pieces without whitespace by a separator that is not
      whitespace gives text without whitespace. */
  lemma {:induction false} JoinNoWhitespace(pieces: seq<string>, sep: char)
    requires |pieces| >= 1 && !IsWhitespace(sep)
    requires forall i, k :: 0 <= i < |pieces| && 0 <= k < |pieces[i]| ==> !IsWhitespace(pieces[i][k])
    ensures forall k :: 0 <= k < |Join(pieces, sep)| ==> !IsWhitespace(Join(pieces, sep)[k])
  {
    if |pieces| > 1 {
      JoinNoWhitespace(pieces[1..], sep);
      var rest := Join(pieces[1..], sep);
      assert Join(pieces, sep) == pieces[0] + [sep] + rest;
      forall k | 0 <= k < |Join(pieces, sep)| ensures !IsWhitespace(Join(pieces, sep)[k]) {
        if k > |pieces[0]| {
          assert Join(pieces, sep)[k] == rest[k - |pieces[0]| - 1];
        }
      }
    }
  }

  /** Rust's `str::splitn(2, sep)` when it yields two parts: the text before
      the first `sep` and everything after it; `None` when `sep` is absent. */
  function SplitOnce(s: string, sep: char): (r: Option<(string, string)>)
    ensures r.None? <==> sep !in s
    ensures r.Some? ==> r.value.0 + [sep] + r.value.1 == s && sep !in r.value.0
  {
    var i := Find(s, sep);
    if i == |s| then None
    else
      assert s == s[..i] + [sep] + s[i + 1..];
      Some((s[..i], s[i + 1..]))
  }

  /** Rust's `str::lines`: pieces ended by `\n`, each losing one `\r` before
      that `\n`; a final `\n` does not start another line. */
  function Lines(s: string): (ls: seq<string>)
    ensures ls == [] <==> s == []
    ensures forall i, k :: 0 <= i < |ls| && 0 <= k < |ls[i]| ==> ls[i][k] != '\n'
    decreases |s|
  {
    if s == [] then []
    else
      var i := Find(s, '\n');
      if i == |s| then [s]
      else [StripCarriageReturn(s[..i])] + Lines(s[i + 1..])
  }

  function StripCarriageReturn(s: string): string {
    if |s| > 0 && s[|s| - 1] == '\r' then s[..|s| - 1] else s
  }

  function UnlinesAll(ls: seq<string>): string {
    if ls == [] then [] else ls[0] + "\n" + UnlinesAll(ls[1..])
  }

  /** Each line ended by a newline reads back as the same lines. */
  lemma {:induction false} LinesUnlines(ls: seq<string>)
    requires forall i, k :: 0 <= i < |ls| && 0 <= k < |ls[i]| ==> ls[i][k] != '\n' && ls[i][k] != '\r'
    ensures Lines(UnlinesAll(ls)) == ls
  {
    if ls != [] {
      LinesCons(ls[0], UnlinesAll(ls[1..]));
      LinesUnlines(ls[1..]);
    }
  }

  lemma LinesCons(line: string, rest: string)
    requires '\n' !in line && '\r' !in line
    ensures Lines(line + "\n" + rest) == [line] + Lines(rest)
  {
    var s := line + "\n" + rest;
    FindAfterPrefix(line, rest, '\n');
    assert s[..|line|] == line;
    assert s[|line| + 1..] == rest;
  }

  lemma {:induction false} FindAfterPrefix(w: string, rest: string, sep: char)
    requires sep !in w
    ensures Find(w + [sep] + rest, sep) == |w|
    decreases |w|
  {
    if w != [] {
      assert (w + [sep] + rest)[1..] == w[1..] + [sep] + rest;
      FindAfterPrefix(w[1..], rest, sep);
    }
  }

  /** Text that has `sep` only after a prefix `a` splits once right there. */
  lemma SplitOnceAt(a: string, b: string, sep: char)
    requires sep !in a
    ensures SplitOnce(a + [sep] + b, sep) == Some((a, b))
  {
    FindAfterPrefix(a, b, sep);
    var s := a + [sep] + b;
    assert s[..|a|] == a;
    assert s[|a| + 1..] == b;
  }

  /** A character that is not a digit does not occur among digits. */
  lemma DigitsAvoid(s: string, c: char)
    requires AllDigits(s) && !IsDigit(c)
    ensures c !in s
  {
    forall i | 0 <= i < |s|
      ensures s[i] != c
    {
      assert IsDigit(s[i]);
    }
  }

  function Sum(xs: seq<nat>): nat {
    if xs == [] then 0 else Sum(xs[..|xs| - 1]) + xs[|xs| - 1]
  }

  lemma {:induction false} SumAppend(xs: seq<nat>, ys: seq<nat>)
    ensures Sum(xs + ys) == Sum(xs) + Sum(ys)
    decreases |ys|
  {
    if ys != [] {
      assert (xs + ys)[..|xs + ys| - 1] == xs + ys[..|ys| - 1];
      SumAppend(xs, ys[..|ys| - 1]);
    } else {
      assert xs + ys == xs;
    }
  }

  /** Every outcome succeeded. */
  predicate AllOk<T>(rs: seq<Result<T>>) {
    forall k :: 0 <= k < |rs| ==> rs[k].Ok?
  }

  /** The values of outcomes that all succeeded, in order. */
  function Values<T>(rs: seq<Result<T>>): (vs: seq<T>)
    requires AllOk(rs)
    ensures |vs| == |rs|
    ensures forall k :: 0 <= k < |rs| ==> vs[k] == rs[k].value
  {
    if rs == [] then [] else Values(rs[..|rs| - 1]) + [rs[|rs| - 1].value]
  }

  /** Summing outcomes into `Result<u64, _>` in order: the first failure
      stops the sum, and a running total that leaves `u64` panics. */
  function SumOutcomes(rs: seq<Result<nat>>): Result<nat> {
    if rs == [] then Ok(0)
    else
      var before :- SumOutcomes(rs[..|rs| - 1]);
      var v :- rs[|rs| - 1];
      if before + v >= U64_LIMIT then Panic else Ok(before + v)
  }

  /** The sum succeeds exactly when every outcome does and their total fits
      `u64`; it is then that total. It is an error only when some outcome is. */
  lemma {:induction false} SumOutcomesOk(rs: seq<Result<nat>>)
    ensures SumOutcomes(rs).Ok? <==> AllOk(rs) && Sum(Values(rs)) < U64_LIMIT
    ensures SumOutcomes(rs).Ok? ==> SumOutcomes(rs).value == Sum(Values(rs))
    ensures SumOutcomes(rs).Err? ==> exists k :: 0 <= k < |rs| && rs[k].Err?
  {
    if rs != [] {
      var init, last := rs[..|rs| - 1], rs[|rs| - 1];
      SumOutcomesOk(init);
      if AllOk(rs) {
        assert AllOk(init) by {
          forall k | 0 <= k < |init| ensures init[k].Ok? {
            assert init[k] == rs[k];
          }
        }
        assert Values(rs)[..|rs| - 1] == Values(init);
        if SumOutcomes(init).Ok? {
          assert Sum(Values(rs)) == Sum(Values(init)) + last.value;
        } else {
          assert Sum(Values(init)) >= U64_LIMIT;
          assert Sum(Values(rs)) >= U64_LIMIT;
        }
      } else if AllOk(init) {
        assert !last.Ok?;
      } else {
        assert !SumOutcomes(init).Ok?;
      }
      if SumOutcomes(rs).Err? {
        if SumOutcomes(init).Err? {
          var k :| 0 <= k < |init| && init[k].Err?;
          assert rs[k] == init[k];
        } else {
          assert last.Err?;
        }
      }
    }
  }

  /** Once the sum of a first part fails, the whole sum fails the same way. */
  lemma {:induction false} SumOutcomesStuck(rs: seq<Result<nat>>, k: nat)
    requires k <= |rs| && !SumOutcomes(rs[..k]).Ok?
    ensures SumOutcomes(rs) == SumOutcomes(rs[..k])
    decreases |rs| - k
  {
    if k == |rs| {
      assert rs[..k] == rs;
    } else {
      var init := rs[..|rs| - 1];
      assert init[..k] == rs[..k];
      SumOutcomesStuck(init, k);
    }
  }

  /** A prefix one element longer. */
  lemma PrefixStep<T>(s: seq<T>, k: nat)
    requires 0 < k <= |s|
    ensures s[..k - 1] + [s[k - 1]] == s[..k]
  {
  }

  /** `values` are what `parse` reads from the first `|values|` lines, in
      order. */
  ghost predicate ReadAs<T>(parse: string -> Result<T>, lines: seq<string>, values: seq<T>) {
    |values| <= |lines| && forall j :: 0 <= j < |values| ==> parse(lines[j]) == Ok(values[j])
  }

  lemma ReadAsNext<T>(parse: string -> Result<T>, lines: seq<string>, values: seq<T>, v: T)
    requires ReadAs(parse, lines, values) && |values| < |lines|
    requires parse(lines[|values|]) == Ok(v)
    ensures ReadAs(parse, lines, values + [v])
  {
  }

  lemma ReadAsSnoc<T>(parse: string -> Result<T>, lines: seq<string>, values: seq<T>, line: string, v: T)
    requires ReadAs(parse, lines, values) && |values| == |lines|
    requires parse(line) == Ok(v)
    ensures ReadAs(parse, lines + [line], values + [v])
  {
  }

  /** What reads from a prefix of some lines reads from the lines. */
  lemma PrefixReads<T>(parse: string -> Result<T>, lines: seq<string>, prefix: seq<string>, values: seq<T>)
    requires ReadAs(parse, prefix, values) && |prefix| <= |lines| && lines[..|prefix|] == prefix
    ensures ReadAs(parse, lines, values)
  {
    forall j | 0 <= j < |values|
      ensures parse(lines[j]) == Ok(values[j])
    {
      assert lines[j] == prefix[j];
    }
  }
}
