/** Decimal `from_str` for Rust's integer types, as the two parsers call it
    (`u32::from_str`, src/main.rs:39-40, and `i32::from_str`,
    src/main.rs:171-192): an optional leading `+`, then ASCII digits read left
    to right, the first offending character deciding the error. */
module IntParsing {
  import opened Results

  /** `std::num::IntErrorKind`, restricted to the kinds a non-negative decimal
      parse can produce. */
  datatype IntErrorKind = Empty | InvalidDigit | PosOverflow

  predicate IsDigit(c: char)
  {
    '0' <= c <= '9'
  }

  predicate AllDigits(s: string)
  {
    forall i :: 0 <= i < |s| ==> IsDigit(s[i])
  }

  function DigitValue(c: char): nat
    requires IsDigit(c)
  {
    c as int - '0' as int
  }

  function DigitChar(n: nat): (c: char)
    requires n < 10
    ensures IsDigit(c) && DigitValue(c) == n
  {
    ('0' as int + n) as char
  }

  /** The number a string of decimal digits denotes, most significant first. */
  function DecimalValue(d: string): nat
    requires AllDigits(d)
  {
    if d == [] then 0 else 10 * DecimalValue(d[..|d| - 1]) + DigitValue(d[|d| - 1])
  }

  /** The shortest decimal numeral of `n`. */
  function Decimal(n: nat): (d: string)
    ensures |d| >= 1 && AllDigits(d)
  {
    if n < 10 then [DigitChar(n)] else Decimal(n / 10) + [DigitChar(n % 10)]
  }

  lemma {:induction false} DecimalRoundTrip(n: nat)
    ensures DecimalValue(Decimal(n)) == n
  {
    if n >= 10 {
      DecimalRoundTrip(n / 10);
      var d := Decimal(n);
      assert d[..|d| - 1] == Decimal(n / 10);
    } else {
      assert Decimal(n)[..0] == [];
    }
  }

  /** The digit loop of `from_str_radix`: each character in turn must be a
      digit, and `10 * acc + digit` must stay at most `max`; the first
      character that fails either test decides the error. */
  function Accumulate(d: string, max: nat): (r: Result<nat, IntErrorKind>)
    ensures r != Err(Empty)
    decreases |d|
  {
    if d == [] then Ok(0)
    else match Accumulate(d[..|d| - 1], max)
      case Err(e) => Err(e)
      case Ok(acc) =>
        var c := d[|d| - 1];
        if !IsDigit(c) then Err(InvalidDigit)
        else if 10 * acc + DigitValue(c) > max then Err(PosOverflow)
        else Ok(10 * acc + DigitValue(c))
  }

  /** The digit loop succeeds exactly on digit strings whose value fits, with
      that value; on a string of digits alone it can only fail by overflow. */
  lemma {:induction false} AccumulateMeaning(d: string, max: nat)
    ensures Accumulate(d, max).Ok? <==> AllDigits(d) && DecimalValue(d) <= max
    ensures Accumulate(d, max).Ok? ==> Accumulate(d, max).value == DecimalValue(d)
    ensures AllDigits(d) && DecimalValue(d) > max ==> Accumulate(d, max) == Err(PosOverflow)
    decreases |d|
  {
    if d != [] {
      var init := d[..|d| - 1];
      AccumulateMeaning(init, max);
      assert AllDigits(d) ==> AllDigits(init);
      if AllDigits(d) {
        assert DecimalValue(init) <= DecimalValue(d);
      }
    }
  }

  /** The unsigned part after an optional leading `+`. */
  function Unsigned(s: string): string
  {
    if |s| > 0 && s[0] == '+' then s[1..] else s
  }

  /** `from_str` of an integer type whose largest value is `max`: `Empty` for
      the empty string, `InvalidDigit` for a lone sign, and otherwise the
      digit loop over the text after an optional `+`. This is `u32::from_str`
      on every string; `i32::from_str` agrees with it on every string that
      does not start with `-`, which includes every string of digits the rule
      parser hands it. */
  function IntFromStr(s: string, max: nat): (r: Result<nat, IntErrorKind>)
    ensures r == Err(Empty) <==> s == []
    ensures r.Ok? <==> s != [] && s != "+" && s != "-" && AllDigits(Unsigned(s)) && DecimalValue(Unsigned(s)) <= max
    ensures r.Ok? ==> r.value <= max && r.value == DecimalValue(Unsigned(s))
  {
    AccumulateMeaning(Unsigned(s), max);
    if s == [] then Err(Empty)
    else if s == "+" || s == "-" then Err(InvalidDigit)
    else Accumulate(Unsigned(s), max)
  }

  /** A string of one or more digits parses to its value when it fits and
      to `PosOverflow` when it does not. */
  lemma DigitsFromStr(d: string, max: nat)
    requires d != [] && AllDigits(d)
    ensures IntFromStr(d, max) == if DecimalValue(d) <= max then Ok(DecimalValue(d)) else Err(PosOverflow)
  {
    AccumulateMeaning(d, max);
    assert d != "+" && d != "-" by {
      assert IsDigit(d[0]);
    }
  }

  /** `from_str` reads back the decimal numeral of every value that fits. */
  lemma IntFromStrDecimal(n: nat, max: nat)
    requires n <= max
    ensures IntFromStr(Decimal(n), max) == Ok(n)
  {
    DecimalRoundTrip(n);
    DigitsFromStr(Decimal(n), max);
  }
}
