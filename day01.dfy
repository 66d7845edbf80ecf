/**
 * Day 1: a safe's dial numbered 0 to 99, starting at 50, turned by a list of
 * rotations such as `L68` or `R48`. One password counts the rotations that
 * leave the dial at 0, the other counts every click that lands on 0.
 */
module Day01 {
  import opened Text

  /** A rotation by `distance` clicks towards lower (`L`) or higher (`R`)
      numbers; the distance is a `u32`. */
  datatype Rotation = Left(distance: nat) | Right(distance: nat)

  const START: nat := 50

  /** Values of an `i32` that are not negative lie below this. */
  const I32_LIMIT: nat := 0x8000_0000

  // ---------------------------------------------------------------------
  // Turning the dial

  /** `Rotation::apply`: the position after the rotation. */
  function Apply(r: Rotation, position: nat): (q: nat)
    requires position < 100
    ensures q < 100
  {
    match r
    case Left(d) => ((position - d % 100) + 100) % 100
    case Right(d) => (position + d) % 100
  }

  /** The signed number of clicks: a left turn counts down. */
  function Offset(r: Rotation): int {
    if r.Left? then -(r.distance as int) else r.distance
  }

  /** A rotation moves the dial by its signed distance, modulo 100. */
  lemma ApplyIsOffset(r: Rotation, position: nat)
    requires position < 100
    ensures Apply(r, position) == (position + Offset(r)) % 100
  {
    if r.Left? {
      var d := r.distance;
      ShiftByHundreds(position - d, d / 100);
      assert position - d + 100 * (d / 100) == position - d % 100;
      ShiftByHundreds(position - d % 100, 1);
    }
  }

  lemma ShiftByHundreds(x: int, k: int)
    ensures (x + 100 * k) % 100 == x % 100
  {
  }

  lemma ModAdd(x: int, y: int)
    ensures ((x % 100) + y) % 100 == (x + y) % 100
  {
    ShiftByHundreds(x % 100 + y, x / 100);
  }

  /** Only the distance modulo 100 matters. */
  lemma ApplyModulo(r: Rotation, position: nat)
    requires position < 100
    ensures Apply(r, position) == Apply(if r.Left? then Left(r.distance % 100) else Right(r.distance % 100), position)
  {
    var s := if r.Left? then Left(r.distance % 100) else Right(r.distance % 100);
    ApplyIsOffset(r, position);
    ApplyIsOffset(s, position);
    ShiftByHundreds(position + Offset(s), if r.Left? then -(r.distance / 100) else r.distance / 100);
  }

  /** Turning left by `d` undoes turning right by `d`, and the other way round. */
  lemma LeftUndoesRight(d: nat, position: nat)
    requires position < 100
    ensures Apply(Left(d), Apply(Right(d), position)) == position
    ensures Apply(Right(d), Apply(Left(d), position)) == position
  {
    ApplyIsOffset(Right(d), position);
    ApplyIsOffset(Left(d), Apply(Right(d), position));
    ModAdd(position + d, -(d as int));
    ApplyIsOffset(Left(d), position);
    ApplyIsOffset(Right(d), Apply(Left(d), position));
    ModAdd(position - d, d);
  }

  /** The unit test's rotations. */
  lemma ApplyExamples()
    ensures Apply(Right(8), 11) == 19
    ensures Apply(Left(19), 19) == 0
    ensures Apply(Left(1), 0) == 99
    ensures Apply(Right(1), 99) == 0
    ensures Apply(Right(5008), 11) == 19
    ensures Apply(Left(402), 9) == 7
  {
  }

  // ---------------------------------------------------------------------
  // The positions the dial goes through

  /** The position after the rotations `rs`, starting at 50. */
  function Dial(rs: seq<Rotation>): (p: nat)
    ensures p < 100
  {
    if rs == [] then START else Apply(rs[|rs| - 1], Dial(rs[..|rs| - 1]))
  }

  /** The position after each rotation, in order. */
  function Dials(rs: seq<Rotation>): (ps: seq<nat>)
    ensures |ps| == |rs|
  {
    if rs == [] then [] else Dials(rs[..|rs| - 1]) + [Dial(rs)]
  }

  /** The `k`-th position is where the first `k + 1` rotations leave the dial. */
  lemma {:induction false} DialsPositions(rs: seq<Rotation>)
    ensures forall k :: 0 <= k < |rs| ==> Dials(rs)[k] == Dial(rs[..k + 1])
    decreases |rs|
  {
    if rs != [] {
      var init := rs[..|rs| - 1];
      DialsPositions(init);
      forall k | 0 <= k < |rs|
        ensures Dials(rs)[k] == Dial(rs[..k + 1])
      {
        if k < |init| {
          assert init[..k + 1] == rs[..k + 1];
        } else {
          assert rs[..k + 1] == rs;
        }
      }
    }
  }

  /** Every right turn the source performs fits a `u32`: `position + distance`
      is computed in `u32`. */
  ghost predicate RightTurnsFit(rs: seq<Rotation>) {
    forall k :: 0 <= k < |rs| && rs[k].Right? ==> Dial(rs[..k]) + rs[k].distance < U32_LIMIT
  }

  /** Every left distance fits an `i32`, as `passes_password` casts it. */
  predicate LeftTurnsFit(rs: seq<Rotation>) {
    forall k :: 0 <= k < |rs| && rs[k].Left? ==> rs[k].distance < I32_LIMIT
  }

  /** `Safe::stops_password`: the number of rotations that leave the dial at 0. */
  method StopsPassword(rotations: seq<Rotation>) returns (password: nat)
    requires RightTurnsFit(rotations)
    ensures password == multiset(Dials(rotations))[0]
  {
    var position := START;
    password := 0;
    for k := 0 to |rotations|
      invariant position == Dial(rotations[..k])
      invariant password == multiset(Dials(rotations[..k]))[0]
    {
      assert rotations[..k + 1][..k] == rotations[..k];
      assert Dials(rotations[..k + 1]) == Dials(rotations[..k]) + [Dial(rotations[..k + 1])];
      position := Apply(rotations[k], position);
      if position == 0 {
        password := password + 1;
      }
    }
    assert rotations[..|rotations|] == rotations;
  }

  // ---------------------------------------------------------------------
  // Counting every click

  /** The clicks of `r`, starting at `position`, that land on 0: one click
      at a time, each a rotation by 1. */
  function ZeroClicks(r: Rotation, position: nat): nat
    requires position < 100
    decreases r.distance
  {
    if r.distance == 0 then 0
    else
      var step := if r.Left? then Left(1) else Right(1);
      var next := Apply(step, position);
      (if next == 0 then 1 else 0) + ZeroClicks(if r.Left? then Left(r.distance - 1) else Right(r.distance - 1), next)
  }

  /** Clicking one at a time ends where the whole rotation does. */
  lemma {:induction false} ClicksEndAtApply(r: Rotation, position: nat)
    requires position < 100
    ensures ClickEnd(r, position) == Apply(r, position)
    decreases r.distance
  {
    if r.distance > 0 {
      var step := if r.Left? then Left(1) else Right(1);
      var rest := if r.Left? then Left(r.distance - 1) else Right(r.distance - 1);
      var next := Apply(step, position);
      ClicksEndAtApply(rest, next);
      ApplyIsOffset(step, position);
      ApplyIsOffset(rest, next);
      ApplyIsOffset(r, position);
      ModAdd(position + Offset(step), Offset(rest));
    }
  }

  /** The position after clicking through `r` one click at a time. */
  function ClickEnd(r: Rotation, position: nat): (p: nat)
    requires position < 100
    ensures p < 100
    decreases r.distance
  {
    if r.distance == 0 then position
    else
      var step := if r.Left? then Left(1) else Right(1);
      ClickEnd(if r.Left? then Left(r.distance - 1) else Right(r.distance - 1), Apply(step, position))
  }

  /** Rust's `/` on integers: the quotient rounded toward zero. */
  function TruncDiv(x: int, y: int): int
    requires y > 0
  {
    if x >= 0 then x / y else -((-x) / y)
  }

  function Abs(x: int): nat {
    if x < 0 then -x else x
  }

  /** What one rotation adds to the password in `Safe::passes_password`. */
  function PassesOf(r: Rotation, position: nat): nat
    requires position < 100
  {
    match r
    case Left(d) =>
      if position - d <= 0 then Abs(TruncDiv(position - d, 100)) + (if position > 0 then 1 else 0) else 0
    case Right(d) => (position + d) / 100
  }

  /** The closed forms of `passes_password` count exactly the clicks that
      land on 0: the multiples of 100 in `(p, p + d]` turning right, and in
      `[p - d, p - 1]` turning left. */
  lemma PassesCountsZeroClicks(r: Rotation, position: nat)
    requires position < 100
    ensures PassesOf(r, position) == ZeroClicks(r, position)
  {
    if r.Left? {
      LeftZeroClicks(r.distance, position);
    } else {
      RightZeroClicks(r.distance, position);
    }
  }

  lemma {:induction false} RightZeroClicks(d: nat, position: nat)
    requires position < 100
    ensures ZeroClicks(Right(d), position) == (position + d) / 100
    decreases d
  {
    if d > 0 {
      var next := Apply(Right(1), position);
      assert ZeroClicks(Right(d), position) == (if next == 0 then 1 else 0) + ZeroClicks(Right(d - 1), next);
      RightZeroClicks(d - 1, next);
      RightClickStep(d, position);
    }
  }

  /** One click to the right passes 0 exactly when it lands on it. */
  lemma RightClickStep(d: nat, position: nat)
    requires position < 100 && d > 0
    ensures (position + d) / 100 == (if Apply(Right(1), position) == 0 then 1 else 0) + (Apply(Right(1), position) + (d - 1)) / 100
  {
    if position == 99 {
      assert Apply(Right(1), position) == 0;
      assert position + d == 100 + (d - 1);
    } else {
      assert Apply(Right(1), position) == position + 1;
    }
  }

  /** The clicks onto 0 of a left turn by `d` from `position`, in closed form:
      one on reaching 0 from above, then one per further 100 clicks. */
  function LeftPasses(d: nat, position: nat): nat {
    if d >= position then (d - position) / 100 + (if position > 0 then 1 else 0) else 0
  }

  lemma LeftZeroClicks(d: nat, position: nat)
    requires position < 100
    ensures ZeroClicks(Left(d), position) == PassesOf(Left(d), position)
    ensures PassesOf(Left(d), position) == if d >= position then (d - position) / 100 + (if position > 0 then 1 else 0) else 0
  {
    LeftClicksClosed(d, position);
    LeftPassesOf(d, position);
  }

  lemma {:induction false} LeftClicksClosed(d: nat, position: nat)
    requires position < 100
    ensures ZeroClicks(Left(d), position) == LeftPasses(d, position)
    decreases d
  {
    if d > 0 {
      var next := Apply(Left(1), position);
      assert ZeroClicks(Left(d), position) == (if next == 0 then 1 else 0) + ZeroClicks(Left(d - 1), next);
      LeftClicksClosed(d - 1, next);
      LeftClickStep(d, position);
    }
  }

  /** One click to the left passes 0 exactly when it lands on it. */
  lemma LeftClickStep(d: nat, position: nat)
    requires position < 100 && d > 0
    ensures LeftPasses(d, position) == (if Apply(Left(1), position) == 0 then 1 else 0) + LeftPasses(d - 1, Apply(Left(1), position))
  {
    if position == 0 {
      assert Apply(Left(1), position) == 99;
      if d >= 100 {
        assert d - 1 - 99 == d - 100;
        assert (d - 100) / 100 + 1 == d / 100;
      }
    } else {
      assert Apply(Left(1), position) == position - 1;
    }
  }

  /** `passes_password`'s left-turn formula is the closed form. */
  lemma LeftPassesOf(d: nat, position: nat)
    requires position < 100
    ensures PassesOf(Left(d), position) == LeftPasses(d, position)
  {
    if position - d <= 0 {
      assert Abs(TruncDiv(position - d, 100)) == (d - position) / 100;
    }
  }

  /** Every click over the whole list that lands on 0. */
  function AllZeroClicks(rs: seq<Rotation>): nat {
    if rs == [] then 0 else AllZeroClicks(rs[..|rs| - 1]) + ZeroClicks(rs[|rs| - 1], Dial(rs[..|rs| - 1]))
  }

  /** `Safe::passes_password`: the number of clicks that land on 0. */
  method PassesPassword(rotations: seq<Rotation>) returns (password: nat)
    requires RightTurnsFit(rotations) && LeftTurnsFit(rotations)
    ensures password == AllZeroClicks(rotations)
  {
    var position := START;
    password := 0;
    for k := 0 to |rotations|
      invariant position == Dial(rotations[..k])
      invariant password == AllZeroClicks(rotations[..k])
    {
      assert rotations[..k + 1][..k] == rotations[..k];
      assert AllZeroClicks(rotations[..k + 1]) == password + ZeroClicks(rotations[k], position);
      PassesCountsZeroClicks(rotations[k], position);
      ghost var before := password;
      match rotations[k] {
        case Left(distance) =>
          if position - distance <= 0 {
            password := password + Abs(TruncDiv(position - distance, 100));
            if position > 0 {
              password := password + 1;
            }
          }
        case Right(distance) =>
          password := password + (position + distance) / 100;
      }
      assert password == before + PassesOf(rotations[k], position);
      position := Apply(rotations[k], position);
    }
    assert rotations[..|rotations|] == rotations;
  }

  /** The unit test's rotations `L68 L30 R48 L5 R60 L55 L1 L99 R14 L82`. */
  const EXAMPLE: seq<Rotation> :=
    [Left(68), Left(30), Right(48), Left(5), Right(60), Left(55), Left(1), Left(99), Right(14), Left(82)]

  /** After `rs` the dial is at `p`, having stopped at 0 `stops` times and
      clicked onto it `clicks` times. */
  ghost predicate Counted(rs: seq<Rotation>, p: nat, stops: nat, clicks: nat) {
    Dial(rs) == p && multiset(Dials(rs))[0] == stops && AllZeroClicks(rs) == clicks
  }

  /** One more rotation. */
  lemma Turn(rs: seq<Rotation>, r: Rotation, p: nat, stops: nat, clicks: nat, p': nat, stops': nat, clicks': nat)
    requires p < 100 && Counted(rs, p, stops, clicks)
    requires p' == Apply(r, p) && stops' == stops + (if p' == 0 then 1 else 0) && clicks' == clicks + PassesOf(r, p)
    ensures Counted(rs + [r], p', stops', clicks')
  {
    assert (rs + [r])[..|rs|] == rs;
    PassesCountsZeroClicks(r, p);
  }

  /** The dial, the stops at 0 and the clicks onto 0 after each prefix of
      the unit test's rotations. */
  const EXAMPLE_DIALS: seq<nat> := [50, 82, 52, 0, 95, 55, 0, 99, 0, 14, 32]
  const EXAMPLE_STOPS: seq<nat> := [0, 0, 0, 1, 1, 1, 2, 2, 3, 3, 3]
  const EXAMPLE_CLICKS: seq<nat> := [0, 1, 1, 2, 2, 3, 4, 4, 5, 5, 6]

  lemma ExampleStep(k: nat)
    requires k < 10
    ensures EXAMPLE_DIALS[k] < 100 && EXAMPLE[k].distance < 100
    ensures EXAMPLE_DIALS[k + 1] == Apply(EXAMPLE[k], EXAMPLE_DIALS[k])
    ensures EXAMPLE_STOPS[k + 1] == EXAMPLE_STOPS[k] + if EXAMPLE_DIALS[k + 1] == 0 then 1 else 0
    ensures EXAMPLE_CLICKS[k + 1] == EXAMPLE_CLICKS[k] + PassesOf(EXAMPLE[k], EXAMPLE_DIALS[k])
  {
    if k == 0 {} else if k == 1 {} else if k == 2 {} else if k == 3 {} else if k == 4 {}
    else if k == 5 {} else if k == 6 {} else if k == 7 {} else if k == 8 {} else {}
  }

  lemma {:induction false} ExamplePrefix(k: nat)
    requires k <= 10
    ensures Counted(EXAMPLE[..k], EXAMPLE_DIALS[k], EXAMPLE_STOPS[k], EXAMPLE_CLICKS[k])
  {
    if k > 0 {
      ExamplePrefix(k - 1);
      ExampleStep(k - 1);
      PrefixStep(EXAMPLE, k);
      Turn(EXAMPLE[..k - 1], EXAMPLE[k - 1], EXAMPLE_DIALS[k - 1], EXAMPLE_STOPS[k - 1], EXAMPLE_CLICKS[k - 1],
           EXAMPLE_DIALS[k], EXAMPLE_STOPS[k], EXAMPLE_CLICKS[k]);
    }
  }

  /** The unit test's passwords: the dial stops at 0 three times and clicks
      onto it six times. */
  lemma PasswordExamples(rs: seq<Rotation>)
    requires rs == EXAMPLE
    ensures RightTurnsFit(rs) && LeftTurnsFit(rs)
    ensures multiset(Dials(rs))[0] == 3
    ensures AllZeroClicks(rs) == 6
  {
    ExamplePrefix(|rs|);
    assert rs[..|rs|] == rs;
    forall k | 0 <= k < |rs|
      ensures rs[k].distance < 100
    {
      ExampleStep(k);
    }
    SmallTurnsFit(rs);
  }

  /** Turns shorter than 100 clicks never overflow. */
  lemma SmallTurnsFit(rs: seq<Rotation>)
    requires forall k :: 0 <= k < |rs| ==> rs[k].distance < 100
    ensures RightTurnsFit(rs) && LeftTurnsFit(rs)
  {
  }

  // ---------------------------------------------------------------------
  // Reading rotations

  /** `Rotation::from_str`: a direction letter and a `u32` magnitude. The
      slice `s[1..]` panics on an empty line or when the first character is
      more than one byte long. */
  function RotationFromStr(s: string): (r: Result<Rotation>)
    ensures r.Panic? <==> s == [] || s[0] as int >= 0x80
    ensures r.Ok? <==> && s != [] && (s[0] == 'L' || s[0] == 'R')
                       && ParseUnsigned(s[1..], U32_LIMIT).Ok?
    ensures r.Ok? ==> && r.value.Left? == (s[0] == 'L')
                      && Ok(r.value.distance) == ParseUnsigned(s[1..], U32_LIMIT)
  {
    if s == [] || s[0] as int >= 0x80 then Panic
    else
      var magnitude :- ParseUnsigned(s[1..], U32_LIMIT);
      if s[0] == 'L' then Ok(Left(magnitude))
      else if s[0] == 'R' then Ok(Right(magnitude))
      else Err
  }

  function RotationText(r: Rotation): string {
    (if r.Left? then "L" else "R") + Decimal(r.distance)
  }

  /** Reading a written rotation gives it back. */
  lemma RotationRoundTrip(r: Rotation)
    requires r.distance < U32_LIMIT
    ensures RotationFromStr(RotationText(r)) == Ok(r)
  {
    var s := RotationText(r);
    assert s[1..] == Decimal(r.distance);
    ParseDecimal(r.distance, U32_LIMIT);
  }

  /** The unit test's strings. */
  lemma RotationExamples()
    ensures RotationFromStr("L68") == Ok(Left(68))
    ensures RotationFromStr("R14") == Ok(Right(14))
    ensures RotationFromStr("Not a rotation").Err?
  {
    assert Decimal(68) == "68";
    assert RotationText(Left(68)) == "L68";
    RotationRoundTrip(Left(68));
    assert Decimal(14) == "14";
    assert RotationText(Right(14)) == "R14";
    RotationRoundTrip(Right(14));
    assert "Not a rotation"[1..][0] == 'o';
  }

  /** Each line read as a rotation. */
  function Readings(lines: seq<string>): (rs: seq<Result<Rotation>>)
    ensures |rs| == |lines|
    ensures forall k :: 0 <= k < |lines| ==> rs[k] == RotationFromStr(lines[k])
  {
    seq(|lines|, k requires 0 <= k < |lines| => RotationFromStr(lines[k]))
  }

  /** `Safe::try_from`: one rotation per line; the first line that does not
      read stops with its failure. */
  function SafeFromLines(lines: seq<string>): Result<seq<Rotation>> {
    Collect(Readings(lines))
  }

  /** The safe holds one rotation per line, in order, or fails as its first
      unreadable line does. */
  lemma SafeFromLinesReads(lines: seq<string>)
    ensures SafeFromLines(lines).Ok? <==> forall k :: 0 <= k < |lines| ==> RotationFromStr(lines[k]).Ok?
    ensures SafeFromLines(lines).Ok? ==> && |SafeFromLines(lines).value| == |lines|
                                         && forall k :: 0 <= k < |lines| ==> RotationFromStr(lines[k]) == Ok(SafeFromLines(lines).value[k])
    ensures !SafeFromLines(lines).Ok? ==>
              exists k :: && 0 <= k < |lines| && !RotationFromStr(lines[k]).Ok?
                          && (forall j :: 0 <= j < k ==> RotationFromStr(lines[j]).Ok?)
                          && (SafeFromLines(lines).Err? <==> RotationFromStr(lines[k]).Err?)
  {
    var rs := Readings(lines);
    Collected(rs);
    if !Collect(rs).Ok? {
      var k :| && 0 <= k < |rs| && !rs[k].Ok?
                && (forall j :: 0 <= j < k ==> rs[j].Ok?)
                && Collect(rs) == rs[k].PropagateFailure();
      assert SafeFromLines(lines).Err? <==> rs[k].Err?;
    }
  }
}
