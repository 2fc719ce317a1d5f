/** `OnOffRule::from_str` (src/main.rs:153-198): the `--rule` option, one of
    `Threshold(N)`, `InvertedThreshold(N)` or `Border(N,M)`. The three anchored
    regular expressions are written out as the grammars they accept. */
module RuleParsing {
  import opened Numeric
  import opened Results
  import opened Strings
  import opened IntParsing
  import opened Rules

  datatype OnOffRuleParseError = ParseIntError(kind: IntErrorKind) | UnknownFormat(text: string)

  /** The capture of `^name\((\d+)\)$` on `s`, or `None` when `s` does not
      match. */
  function OneArgument(s: string, name: string): (arg: Option<string>)
    ensures arg.Some? ==> arg.value != [] && AllDigits(arg.value)
    ensures arg.Some? ==> s == name + "(" + arg.value + ")"
  {
    var open := name + "(";
    if |s| >= |open| + 2 && s[..|open|] == open && s[|s| - 1] == ')' then
      var d := s[|open|..|s| - 1];
      assert s == s[..|open|] + d + [s[|s| - 1]];
      if AllDigits(d) then Some(d) else None
    else None
  }

  /** Every text of the shape `name(digits)` matches, capturing the digits. */
  lemma OneArgumentComplete(name: string, d: string)
    requires d != [] && AllDigits(d)
    ensures OneArgument(name + "(" + d + ")", name) == Some(d)
  {
    var s := name + "(" + d + ")";
    var open := name + "(";
    assert s[..|open|] == open;
    assert s[|open|..|s| - 1] == d;
  }

  /** The two captures of `^Border\((\d+),(\d+)\)$` on `s`, or `None` when `s`
      does not match. */
  function TwoArguments(s: string): (args: Option<(string, string)>)
    ensures args.Some? ==> args.value.0 != [] && AllDigits(args.value.0)
    ensures args.Some? ==> args.value.1 != [] && AllDigits(args.value.1)
    ensures args.Some? ==> s == "Border(" + args.value.0 + "," + args.value.1 + ")"
  {
    var open := "Border(";
    if |s| >= |open| + 1 && s[..|open|] == open && s[|s| - 1] == ')' then
      var inner := s[|open|..|s| - 1];
      var i := IndexOf(inner, ',');
      if i < |inner| && i > 0 && i + 1 < |inner| && AllDigits(inner[..i]) && AllDigits(inner[i + 1..]) then
        assert inner == inner[..i] + [','] + inner[i + 1..];
        assert s == s[..|open|] + inner + [s[|s| - 1]];
        Some((inner[..i], inner[i + 1..]))
      else None
    else None
  }

  /** Every text of the shape `Border(digits,digits)` matches, capturing the
      two numbers. */
  lemma TwoArgumentsComplete(a: string, b: string)
    requires a != [] && AllDigits(a) && b != [] && AllDigits(b)
    ensures TwoArguments("Border(" + a + "," + b + ")") == Some((a, b))
  {
    var s := "Border(" + a + "," + b + ")";
    var inner := a + "," + b;
    assert s[..7] == "Border(";
    assert s[7..|s| - 1] == inner;
    assert ',' !in a by {
      forall k | 0 <= k < |a| ensures a[k] != ',' {
        assert IsDigit(a[k]);
      }
    }
    IndexOfAfterFreePrefix(a, b, ',');
    assert inner[..|a|] == a;
    assert inner[|a| + 1..] == b;
  }

  /** The three grammars share no text: at most one of them matches, so the
      order in which they are tried decides nothing. */
  lemma GrammarsDisjoint(s: string)
    ensures !(OneArgument(s, "Threshold").Some? && OneArgument(s, "InvertedThreshold").Some?)
    ensures !(OneArgument(s, "Threshold").Some? && TwoArguments(s).Some?)
    ensures !(OneArgument(s, "InvertedThreshold").Some? && TwoArguments(s).Some?)
  {
    if OneArgument(s, "Threshold").Some? {
      assert s[0] == 'T';
    }
    if OneArgument(s, "InvertedThreshold").Some? {
      assert s[0] == 'I';
    }
  }

  /** `OnOffRule::from_str(s)`: the first grammar that matches decides the
      rule, each captured number read by `i32::from_str`, the threshold of
      `Border` before its distance; text that matches none is an unknown
      format. */
  method ParseRule(s: string) returns (r: Result<OnOffRule, OnOffRuleParseError>)
    ensures OneArgument(s, "Threshold").Some? ==>
              var n := DecimalValue(OneArgument(s, "Threshold").value);
              r == if n <= I32Max then Ok(PxThreshold(n)) else Err(ParseIntError(PosOverflow))
    ensures OneArgument(s, "InvertedThreshold").Some? ==>
              var n := DecimalValue(OneArgument(s, "InvertedThreshold").value);
              r == if n <= I32Max then Ok(InvertedPxThreshold(n)) else Err(ParseIntError(PosOverflow))
    ensures TwoArguments(s).Some? ==>
              var t := DecimalValue(TwoArguments(s).value.0);
              var d := DecimalValue(TwoArguments(s).value.1);
              r == if t > I32Max || d > I32Max then Err(ParseIntError(PosOverflow)) else Ok(Border(t, d))
    ensures OneArgument(s, "Threshold").None? && OneArgument(s, "InvertedThreshold").None? && TwoArguments(s).None? ==>
              r == Err(UnknownFormat(s))
    // the grammars admit digits only, so no parsed rule carries a negative number
    ensures r.Ok? ==> NonNegative(r.value)
  {
    GrammarsDisjoint(s);
    var threshold := OneArgument(s, "Threshold");
    if threshold.Some? {
      DigitsFromStr(threshold.value, I32Max);
      var n := IntFromStr(threshold.value, I32Max);
      if n.Err? {
        return Err(ParseIntError(n.error));
      }
      return Ok(PxThreshold(n.value));
    }
    var inverted := OneArgument(s, "InvertedThreshold");
    if inverted.Some? {
      DigitsFromStr(inverted.value, I32Max);
      var n := IntFromStr(inverted.value, I32Max);
      if n.Err? {
        return Err(ParseIntError(n.error));
      }
      return Ok(InvertedPxThreshold(n.value));
    }
    var border := TwoArguments(s);
    if border.Some? {
      var (thresholdText, sizeText) := border.value;
      DigitsFromStr(thresholdText, I32Max);
      DigitsFromStr(sizeText, I32Max);
      var t := IntFromStr(thresholdText, I32Max);
      if t.Err? {
        return Err(ParseIntError(t.error));
      }
      var d := IntFromStr(sizeText, I32Max);
      if d.Err? {
        return Err(ParseIntError(d.error));
      }
      return Ok(Border(t.value, d.value));
    }
    return Err(UnknownFormat(s));
  }

  /** Whether every number of the rule is at least 0. */
  predicate NonNegative(rule: OnOffRule)
  {
    match rule
    case PxThreshold(t) => t >= 0
    case InvertedPxThreshold(t) => t >= 0
    case Border(t, d) => t >= 0 && d >= 0
  }

  /** The text a rule with non-negative numbers is written as on the command
      line. */
  function RuleText(rule: OnOffRule): string
    requires NonNegative(rule)
  {
    match rule
    case PxThreshold(t) => "Threshold(" + Decimal(t) + ")"
    case InvertedPxThreshold(t) => "InvertedThreshold(" + Decimal(t) + ")"
    case Border(t, d) => "Border(" + Decimal(t) + "," + Decimal(d) + ")"
  }

  /** Every rule whose numbers are non-negative is read back from its text:
      the parser reaches exactly the rules that the negative-free `ensures`
      of `ParseRule` allows. */
  method ParseWrittenRule(rule: OnOffRule) returns (s: string, r: Result<OnOffRule, OnOffRuleParseError>)
    requires NonNegative(rule)
    ensures s == RuleText(rule)
    ensures r == Ok(rule)
  {
    match rule {
      case PxThreshold(t) =>
        ThresholdTextMatches(t);
      case InvertedPxThreshold(t) =>
        InvertedTextMatches(t);
      case Border(t, d) =>
        BorderTextMatches(t, d);
    }
    s := RuleText(rule);
    r := ParseRule(s);
  }

  /** The text `Threshold(N)` matches the first grammar, capturing `N`. */
  lemma ThresholdTextMatches(t: nat)
    ensures var s := "Threshold(" + Decimal(t) + ")";
            OneArgument(s, "Threshold") == Some(Decimal(t)) && DecimalValue(Decimal(t)) == t
  {
    OneArgumentComplete("Threshold", Decimal(t));
    DecimalRoundTrip(t);
  }

  /** The text `InvertedThreshold(N)` matches the second grammar only,
      capturing `N`. */
  lemma InvertedTextMatches(t: nat)
    ensures var s := "InvertedThreshold(" + Decimal(t) + ")";
            OneArgument(s, "Threshold").None? &&
            OneArgument(s, "InvertedThreshold") == Some(Decimal(t)) && DecimalValue(Decimal(t)) == t
  {
    var s := "InvertedThreshold(" + Decimal(t) + ")";
    OneArgumentComplete("InvertedThreshold", Decimal(t));
    GrammarsDisjoint(s);
    DecimalRoundTrip(t);
  }

  /** The text `Border(N,M)` matches the third grammar only, capturing `N`
      and `M`. */
  lemma BorderTextMatches(t: nat, d: nat)
    ensures var s := "Border(" + Decimal(t) + "," + Decimal(d) + ")";
            OneArgument(s, "Threshold").None? && OneArgument(s, "InvertedThreshold").None? &&
            TwoArguments(s) == Some((Decimal(t), Decimal(d))) &&
            DecimalValue(Decimal(t)) == t && DecimalValue(Decimal(d)) == d
  {
    var s := "Border(" + Decimal(t) + "," + Decimal(d) + ")";
    TwoArgumentsComplete(Decimal(t), Decimal(d));
    GrammarsDisjoint(s);
    DecimalRoundTrip(t);
    DecimalRoundTrip(d);
  }

  /** The default `--rule`, `Threshold(100)`, is the threshold rule at 100. */
  method ParseDefaultRule() returns (s: string, r: Result<OnOffRule, OnOffRuleParseError>)
    ensures s == "Threshold(100)"
    ensures r == Ok(PxThreshold(100))
  {
    assert Decimal(1) == "1";
    assert Decimal(10) == "10";
    assert Decimal(100) == "100";
    assert RuleText(PxThreshold(100)) == "Threshold(100)";
    s, r := ParseWrittenRule(PxThreshold(100));
  }
}
