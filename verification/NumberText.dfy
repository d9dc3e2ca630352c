/** Numbers as text: what `to_string` writes and what `parse` reads back. */
module NumberText {
  import opened Wrappers

  const TWO_63: int := 0x8000_0000_0000_0000
  const TWO_32: int := 0x1_0000_0000
  const TWO_64: int := 0x1_0000_0000_0000_0000

  type U32 = x: int | 0 <= x < TWO_32
  type I64 = x: int | -TWO_63 <= x < TWO_63

  predicate IsDigit(c: char) {
    '0' <= c <= '9'
  }

  function DigitAt(d: nat): (c: char)
    requires d < 10
    ensures IsDigit(c) && (c as int) - ('0' as int) == d
  {
    ('0' as int + d) as char
  }

  predicate AllDigits(s: string) {
    forall c :: c in s ==> IsDigit(c)
  }

  function Digits(n: nat): (s: string)
    ensures s != "" && AllDigits(s)
  {
    (if n < 10 then "" else Digits(n / 10)) + [DigitAt(n % 10)]
  }

  function IntText(n: int): string {
    if n < 0 then "-" + Digits(-n) else Digits(n)
  }

  /** The value of a run of digits. */
  function Value(s: string): nat
    requires AllDigits(s)
  {
    if s == "" then 0
    else
      assert s[|s| - 1] in s;
      10 * Value(s[..|s| - 1]) + (s[|s| - 1] as int - '0' as int)
  }

  function Magnitude(s: string): Option<nat> {
    if s != "" && AllDigits(s) then Some(Value(s)) else None
  }

  /** An optional `+`, then digits whose value is below the limit. */
  function ParseUnsigned(s: string, limit: nat): (r: Option<nat>)
    ensures r.Some? ==> r.value < limit
  {
    var m := Magnitude(if s != "" && s[0] == '+' then s[1..] else s);
    if m.Some? && m.value < limit then m else None
  }

  function ParseI64(s: string): (r: Option<I64>) {
    if s != "" && s[0] == '-' then
      var m := Magnitude(s[1..]);
      if m.Some? && m.value <= TWO_63 then Some(0 - m.value) else None
    else
      var m := ParseUnsigned(s, TWO_63);
      if m.Some? then Some(m.value) else None
  }

  lemma {:induction false} DigitsRead(n: nat)
    ensures Magnitude(Digits(n)) == Some(n)
  {
    var s := Digits(n);
    if n >= 10 {
      DigitsRead(n / 10);
      assert s[..|s| - 1] == Digits(n / 10);
    } else {
      assert s == [DigitAt(n)] && s[..|s| - 1] == "";
      assert Value("") == 0 && Value(s) == (s[0] as int - '0' as int);
    }
  }

  /** Only zero starts with the digit zero, so that a number has one text. */
  lemma {:induction false} NoLeadingZero(n: nat)
    ensures n > 0 ==> Digits(n)[0] != '0'
    ensures Digits(0) == "0"
  {
    if n >= 10 { NoLeadingZero(n / 10); }
  }

  lemma UnsignedReadsBack(n: nat, limit: nat)
    requires n < limit
    ensures ParseUnsigned(Digits(n), limit) == Some(n)
  {
    DigitsRead(n);
    assert Digits(n)[0] in Digits(n);
  }

  lemma IntReadsBack(n: I64)
    ensures ParseI64(IntText(n)) == Some(n)
  {
    var i: int := n;
    if i < 0 {
      assert IntText(i)[1..] == Digits(-i);
      DigitsRead(-i);
    } else {
      UnsignedReadsBack(n, TWO_63);
      assert Digits(n)[0] in Digits(n);
    }
  }
}
