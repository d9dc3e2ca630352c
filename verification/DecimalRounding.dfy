/**
  * Writing a float with a fixed number of decimals (numeric.rs): the exact decimal
  * expansion is cut after the wanted digits and rounded up by a carry loop.
  */
module DecimalRounding {
  import opened Wrappers
  import opened NumberText

  function Pow10(n: nat): (r: nat)
    ensures r > 0
  {
    if n == 0 then 1 else 10 * Pow10(n - 1)
  }

  function Succ(c: char): (r: char)
    requires IsDigit(c) && c != '9'
    ensures IsDigit(r) && r as int == c as int + 1
  {
    (c as int + 1) as char
  }

  /** One more in the last place, with a new leading digit when all are nines. */
  function Incremented(s: string): (r: string)
    requires AllDigits(s)
    ensures AllDigits(r) && |s| <= |r| <= |s| + 1
  {
    if s == "" then "1"
    else
      var head, last := s[..|s| - 1], s[|s| - 1];
      assert last in s && forall c :: c in head ==> c in s;
      if last == '9' then Incremented(head) + "0" else head + [Succ(last)]
  }

  predicate RoundsUp(fraction: string, digits: nat) {
    digits < |fraction| && fraction[digits] >= '5'
  }

  /** The digits kept, rounded. */
  function Rounded(whole: string, fraction: string, digits: nat): (r: string)
    requires AllDigits(whole) && AllDigits(fraction) && digits <= |fraction|
    ensures AllDigits(r) && |r| >= |whole| + digits
  {
    var kept := whole + fraction[..digits];
    if RoundsUp(fraction, digits) then Incremented(kept) else kept
  }

  function Written(negative: bool, kept: string, digits: nat): string
    requires digits <= |kept|
  {
    var point := |kept| - digits;
    (if negative then "-" else "") + kept[..point] + (if digits > 0 then "." + kept[point..] else "")
  }

  method Increment(digits: string) returns (kept: string)
    requires AllDigits(digits)
    ensures kept == Incremented(digits)
  {
    kept := digits;
    var at := |kept|;
    assert digits[..at] == digits;
    while true
      invariant 0 <= at <= |kept| == |digits| && AllDigits(kept)
      invariant kept[..at] == digits[..at]
      invariant Incremented(digits) == Incremented(digits[..at]) + kept[at..]
      decreases at
    {
      if at == 0 {
        kept := "1" + kept;
        return;
      }
      at := at - 1;
      ghost var head := digits[..at + 1];
      assert head[..|head| - 1] == digits[..at] && head[|head| - 1] == digits[at] == kept[at];
      assert kept[at] in kept;
      if kept[at] == '9' {
        CarryStep(digits, kept, at);
        kept := kept[at := '0'];
      } else {
        assert kept[..at] + [Succ(kept[at])] + kept[at + 1..] == kept[at := Succ(kept[at])];
        kept := kept[at := Succ(kept[at])];
        return;
      }
    }
  }

  lemma CarryStep(digits: string, kept: string, at: nat)
    requires AllDigits(digits) && at < |kept| == |digits| && digits[at] == '9'
    ensures Incremented(digits[..at + 1]) + kept[at + 1..] == Incremented(digits[..at]) + kept[at := '0'][at..]
  {
    var head := digits[..at + 1];
    assert head[..|head| - 1] == digits[..at];
    assert kept[at := '0'][at..] == "0" + kept[at + 1..];
  }

  // --- the value of the digits ---------------------------------------------------

  lemma {:induction false} IncrementedAddsOne(s: string)
    requires AllDigits(s)
    ensures Value(Incremented(s)) == Value(s) + 1
  {
    if s == "" {
      assert "1"[..0] == "";
      assert Value("1") == 10 * Value("") + 1;
    } else {
      var head, last := s[..|s| - 1], s[|s| - 1];
      assert last in s && forall c :: c in head ==> c in s;
      IncrementedAddsOne(head);
      var r := Incremented(s);
      assert r[..|r| - 1] == if last == '9' then Incremented(head) else head;
    }
  }

  lemma {:induction false} ValueJoin(a: string, b: string)
    requires AllDigits(a) && AllDigits(b)
    ensures AllDigits(a + b) && Value(a + b) == Value(a) * Pow10(|b|) + Value(b)
  {
    if b == "" {
      assert a + b == a;
    } else {
      var init, last := b[..|b| - 1], b[|b| - 1];
      assert last in b && forall c :: c in init ==> c in b;
      ValueJoin(a, init);
      assert (a + b)[..|a + b| - 1] == a + init;
      JoinStep(Value(a), Pow10(|init|), Value(init), last as int - '0' as int);
    }
  }

  lemma JoinStep(x: nat, p: nat, y: nat, d: int)
    ensures 10 * (x * p + y) + d == x * (10 * p) + (10 * y + d)
  {
  }

  lemma {:induction false} ValueBelow(s: string)
    requires AllDigits(s)
    ensures Value(s) < Pow10(|s|)
  {
    if s != "" {
      var head, last := s[..|s| - 1], s[|s| - 1];
      assert last in s && forall c :: c in head ==> c in s;
      ValueBelow(head);
    }
  }

  /** A dropped tail is worth half a unit or more exactly when its first digit is five or more. */
  lemma TailRounding(tail: string)
    requires AllDigits(tail) && tail != ""
    ensures tail[0] >= '5' <==> 2 * Value(tail) >= Pow10(|tail|)
    ensures Value(tail) < Pow10(|tail|)
  {
    var first, rest := [tail[0]], tail[1..];
    assert tail == first + rest && tail[0] in tail && forall c :: c in rest ==> c in tail;
    ValueJoin(first, rest);
    ValueBelow(rest);
    assert first[..0] == "" && Value(first) == tail[0] as int - '0' as int;
    HalfUnit(Value(first), Pow10(|rest|), Value(rest));
    ValueBelow(tail);
  }

  lemma HalfUnit(d: nat, q: nat, t: nat)
    requires t < q && d < 10
    ensures d >= 5 <==> 2 * (d * q + t) >= 10 * q
  {
    if d >= 5 { assert d * q >= 5 * q; } else { assert d * q <= 4 * q; }
  }

  /** `rounded` units in the last of `digits` places are the nearest to the magnitude, a tie going up. */
  predicate Nearest(exact: nat, rounded: nat, unit: nat) {
    2 * (exact - rounded * unit) < unit && 2 * (rounded * unit - exact) <= unit
  }

  /**
    * The digits written are the nearest number of units in the last place to the
    * exact magnitude, and of two equally near the one further from zero.
    */
  lemma RoundedIsNearest(whole: string, fraction: string, digits: nat)
    requires AllDigits(whole) && AllDigits(fraction) && digits <= |fraction|
    ensures AllDigits(whole + fraction)
    ensures var unit := Pow10(|fraction| - digits);
            var exact, rounded := Value(whole + fraction), Value(Rounded(whole, fraction, digits));
            Nearest(exact, rounded, unit)
  {
    hide Value, Incremented, Pow10, AllDigits;
    var kept, tail := whole + fraction[..digits], fraction[digits..];
    CutAt(whole, fraction, digits);
    ValueJoin(kept, tail);
    var k, unit := Value(kept), Pow10(|tail|);
    if tail == "" {
      NothingDropped();
    } else {
      TailRounding(tail);
      if RoundsUp(fraction, digits) {
        IncrementedAddsOne(kept);
        Unit(k, unit);
      }
    }
  }

  lemma CutAt(whole: string, fraction: string, digits: nat)
    requires AllDigits(whole) && AllDigits(fraction) && digits <= |fraction|
    ensures AllDigits(whole + fraction[..digits]) && AllDigits(fraction[digits..])
    ensures whole + fraction == (whole + fraction[..digits]) + fraction[digits..]
  {
  }

  lemma NothingDropped()
    ensures Pow10(0) == 1 && Value("") == 0
  {
  }

  lemma Unit(k: nat, unit: nat)
    ensures (k + 1) * unit == k * unit + unit
  {
  }

  // --- the text ---------------------------------------------------------------------

  /** Sign, digits and number of decimals, as a reader of the text takes them. */
  datatype Fixed = Fixed(negative: bool, value: nat, decimals: nat)

  function ReadUnsigned(s: string): Option<(string, string)> {
    if s == "" then Some(("", ""))
    else if s[0] == '.' then (if AllDigits(s[1..]) && s[1..] != "" then Some(("", s[1..])) else None)
    else if !IsDigit(s[0]) then None
    else
      var r := ReadUnsigned(s[1..]);
      if r.Some? then Some(([s[0]] + r.value.0, r.value.1)) else None
  }

  function ReadFixed(s: string): Option<Fixed> {
    var negative := s != "" && s[0] == '-';
    var r := ReadUnsigned(if negative then s[1..] else s);
    if r.Some? && AllDigits(r.value.0 + r.value.1)
    then Some(Fixed(negative, Value(r.value.0 + r.value.1), |r.value.1|)) else None
  }

  function UnsignedText(units: string, frac: string): string {
    units + (if frac == "" then "" else "." + frac)
  }

  lemma {:induction false} UnsignedReadsBack(units: string, frac: string)
    requires AllDigits(units) && AllDigits(frac)
    ensures ReadUnsigned(UnsignedText(units, frac)) == Some((units, frac))
  {
    var tail := if frac == "" then "" else "." + frac;
    if units == "" {
      assert units + tail == tail;
      if frac != "" { assert tail[1..] == frac; }
    } else {
      assert units[0] in units && forall c :: c in units[1..] ==> c in units;
      UnsignedReadsBack(units[1..], frac);
      assert (units + tail)[1..] == units[1..] + tail;
      assert [units[0]] + units[1..] == units;
    }
  }

  lemma SignedText(negative: bool, kept: string, digits: nat)
    requires AllDigits(kept) && digits <= |kept|
    ensures var text := UnsignedText(kept[..|kept| - digits], kept[|kept| - digits..]);
            var s := Written(negative, kept, digits);
            if negative then s != "" && s[0] == '-' && s[1..] == text else s == text && (s != "" ==> s[0] != '-')
  {
    var point := |kept| - digits;
    var units, frac := kept[..point], kept[point..];
    var tail := if digits > 0 then "." + frac else "";
    if units != "" { assert units[0] == kept[0] && kept[0] in kept; }
    assert units + tail == UnsignedText(units, frac);
    assert Written(negative, kept, digits) == (if negative then "-" else "") + (units + tail);
  }

  lemma ReadsSigned(s: string, negative: bool, units: string, frac: string)
    requires AllDigits(units + frac)
    requires negative <==> s != "" && s[0] == '-'
    requires ReadUnsigned(if negative then s[1..] else s) == Some((units, frac))
    ensures ReadFixed(s) == Some(Fixed(negative, Value(units + frac), |frac|))
  {
    hide Value, ReadUnsigned, AllDigits;
  }

  lemma DigitsSplit(kept: string, point: nat)
    requires AllDigits(kept) && point <= |kept|
    ensures AllDigits(kept[..point]) && AllDigits(kept[point..]) && kept[..point] + kept[point..] == kept
  {
  }

  /** The text denotes the rounded magnitude, with exactly the digits asked for. */
  lemma WrittenReadsBack(negative: bool, kept: string, digits: nat)
    requires AllDigits(kept) && digits <= |kept|
    ensures ReadFixed(Written(negative, kept, digits)) == Some(Fixed(negative, Value(kept), digits))
  {
    hide *;
    var point := |kept| - digits;
    var units, frac := kept[..point], kept[point..];
    DigitsSplit(kept, point);
    UnsignedReadsBack(units, frac);
    SignedText(negative, kept, digits);
    ReadsSigned(Written(negative, kept, digits), negative, units, frac);
  }

  // --- the whole operation ---------------------------------------------------------

  /** `whole` and `fraction` are the digits of the exact magnitude. */
  method FloatToFixed(negative: bool, whole: string, fraction: string, digits: nat) returns (out: string)
    requires AllDigits(whole) && AllDigits(fraction) && AllDigits(whole + fraction) && digits <= |fraction|
    ensures out == Written(negative && Value(whole + fraction) != 0, Rounded(whole, fraction, digits), digits)
    ensures var exact := Value(whole + fraction);
            var read := ReadFixed(out);
            && read.Some? && read.value.negative == (negative && exact != 0) && read.value.decimals == digits
            && Nearest(exact, read.value.value, Pow10(|fraction| - digits))
  {
    hide Value, Incremented, ReadFixed, Nearest;
    var kept := whole + fraction[..digits];
    if digits < |fraction| && fraction[digits] >= '5' {
      kept := Increment(kept);
    }
    var point := |kept| - digits;
    out := "";
    if negative && Value(whole + fraction) != 0 {
      out := out + "-";
    }
    out := out + kept[..point];
    if digits > 0 {
      out := out + ".";
      out := out + kept[point..];
    }
    RoundedIsNearest(whole, fraction, digits);
    WrittenReadsBack(negative && Value(whole + fraction) != 0, Rounded(whole, fraction, digits), digits);
  }
}
