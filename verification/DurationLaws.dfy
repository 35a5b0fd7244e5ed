/** What the duration parser makes of well-formed texts, and of the printer's own output. */
module DurationLaws {
  import opened Bytes
  import opened Strings
  import opened Duration

  // ---- terms ----

  datatype UnitName = Ns | Us | MicroSign | Ms | S | M | H

  function Spell(u: UnitName): string {
    match u
    case Ns => "ns"
    case Us => "us"
    case MicroSign => [0xc2 as char, 0xb5 as char, 's']
    case Ms => "ms"
    case S => "s"
    case M => "m"
    case H => "h"
  }

  function Factor(u: UnitName): real {
    match u
    case Ns => 0.000001
    case Us => 0.001
    case MicroSign => 0.001
    case Ms => 1.0
    case S => 1000.0
    case M => 60000.0
    case H => 3600000.0
  }

  datatype Sign = NoSign | Plus | Minus

  /** Digits with an optional sign and fraction; `5.` and `.5` are numbers too. */
  datatype Numeral = Numeral(sign: Sign, whole: string, frac: Option<string>)

  /** A number, `gap` blanks and a unit; or an `s` by itself, which counts as one second. Then `after` blanks. */
  datatype Term = Term(number: Numeral, gap: nat, unit: UnitName, after: nat) | Lone(after: nat)

  function Fraction(n: Numeral): string {
    if n.frac.Some? then n.frac.value else ""
  }

  predicate GoodNumeral(n: Numeral) {
    IsDigits(n.whole) && IsDigits(Fraction(n)) && |n.whole| + |Fraction(n)| > 0
  }

  predicate GoodTerm(t: Term) {
    t.Term? ==> GoodNumeral(t.number)
  }

  /** The units that are recognised only in front of a blank or the end. */
  predicate NeedsEnd(t: Term) {
    t.Lone? || t.unit in {H, M, S}
  }

  /** Terms need a blank between them only where the parser does. */
  predicate GoodTerms(ts: seq<Term>) {
    && (forall t :: t in ts ==> GoodTerm(t))
    && (forall i :: 0 <= i < |ts| - 1 ==> NeedsEnd(ts[i]) ==> ts[i].after > 0)
  }

  /** Anything may follow: the last term ends with a blank where it needs one. */
  predicate Closed(ts: seq<Term>) {
    |ts| > 0 && NeedsEnd(ts[|ts| - 1]) ==> ts[|ts| - 1].after > 0
  }

  function BlankText(n: nat): (s: string)
    ensures |s| == n
  {
    if n == 0 then "" else " " + BlankText(n - 1)
  }

  function SignText(sign: Sign): string {
    match sign
    case NoSign => ""
    case Plus => "+"
    case Minus => "-"
  }

  function UnsignedText(n: Numeral): string {
    n.whole + (if n.frac.Some? then "." + n.frac.value else "")
  }

  function NumeralText(n: Numeral): string {
    SignText(n.sign) + UnsignedText(n)
  }

  function TermText(t: Term): string {
    match t
    case Term(number, gap, unit, _) => NumeralText(number) + (BlankText(gap) + Spell(unit))
    case Lone(_) => "s"
  }

  function PrintTerms(ts: seq<Term>): string {
    if |ts| == 0 then "" else TermText(ts[0]) + (BlankText(ts[0].after) + PrintTerms(ts[1..]))
  }

  /** Digits as a number, from the left. */
  function Whole(s: string, before: int): int {
    if |s| == 0 then before else Whole(s[1..], 10 * before + (s[0] as int - '0' as int))
  }

  /** Digits behind a point: the first is worth a tenth of itself, and so is what follows it. */
  function Fractional(s: string): real {
    if |s| == 0 then 0.0 else ((s[0] as int - '0' as int) as real + Fractional(s[1..])) / 10.0
  }

  function NumeralValue(n: Numeral): real {
    var v := Whole(n.whole, 0) as real + Fractional(Fraction(n));
    if n.sign == Minus then -v else v
  }

  function TermMs(t: Term): real {
    match t
    case Term(number, _, unit, _) => NumeralValue(number) * Factor(unit)
    case Lone(_) => 1000.0
  }

  function TotalMs(ts: seq<Term>): real {
    if |ts| == 0 then 0.0 else TermMs(ts[0]) + TotalMs(ts[1..])
  }

  // ---- reading digits ----

  lemma {:induction false} WholeAppend(s: string, c: char, before: int)
    requires IsDigits(s) && IsDigit(c)
    ensures Whole(s + [c], before) == 10 * Whole(s, before) + (c as int - '0' as int)
    decreases |s|
  {
    var r := s + [c];
    if |s| == 0 {
      assert r == [c] && r[1..] == "";
    } else {
      assert r[0] == s[0] && r[1..] == s[1..] + [c];
      WholeAppend(s[1..], c, 10 * before + (s[0] as int - '0' as int));
    }
  }

  lemma {:induction false} WholeIsValue(s: string)
    requires IsDigits(s)
    ensures Whole(s, 0) == DigitsValue(s)
    decreases |s|
  {
    if |s| > 0 {
      var front, c := s[..|s| - 1], s[|s| - 1];
      assert s == front + [c];
      WholeIsValue(front);
      WholeAppend(front, c, 0);
    }
  }

  lemma ValueOfLast(s: string)
    requires |s| > 0 && IsDigits(s)
    ensures DigitsValue(s) == 10 * DigitsValue(s[..|s| - 1]) + (s[|s| - 1] as int - '0' as int)
  {
  }

  /** A power of ten. */
  function Ten(n: nat): (p: int)
    ensures p > 0
  {
    if n == 0 then 1 else 10 * Ten(n - 1)
  }

  lemma {:induction false} TenIsPow10(n: nat)
    ensures Pow10(n) == Ten(n) as real
  {
    if n > 0 {
      TenIsPow10(n - 1);
    }
  }

  lemma TenTimes(n: nat)
    ensures Ten(n + 1) == 10 * Ten(n)
  {
  }

  /** The first digit is worth a power of ten. */
  lemma {:induction false} FirstDigit(s: string)
    requires |s| > 0 && IsDigits(s)
    ensures DigitsValue(s) == (s[0] as int - '0' as int) * Ten(|s| - 1) + DigitsValue(s[1..])
    decreases |s|
  {
    hide DigitsValue, Ten;
    ValueOfLast(s);
    if |s| == 1 {
      OneDigit(s);
    } else {
      var front, last := s[..|s| - 1], s[|s| - 1];
      FirstDigit(front);
      ValueOfLast(s[1..]);
      assert s[1..][..|s| - 2] == front[1..] && s[1..][|s| - 2] == last && front[0] == s[0];
      TenTimes(|s| - 2);
      ShiftDigits(s[0] as int - '0' as int, Ten(|s| - 2), DigitsValue(front[1..]));
    }
  }

  lemma OneDigit(s: string)
    requires |s| == 1 && IsDigits(s)
    ensures DigitsValue(s[..0]) == 0 && DigitsValue(s[1..]) == 0 && Ten(0) == 1
  {
  }

  lemma ShiftDigits(d: int, p: int, v: int)
    ensures 10 * (d * p + v) == d * (10 * p) + 10 * v
  {
  }

  lemma {:induction false} FractionalIsValue(s: string)
    requires IsDigits(s)
    ensures Fractional(s) == DigitsValue(s) as real / Ten(|s|) as real
    decreases |s|
  {
    TenIsPow10(|s|);
    if |s| > 0 {
      hide Fractional, DigitsValue, Ten, Pow10;
      FractionalIsValue(s[1..]);
      TenIsPow10(|s| - 1);
      TenTimes(|s| - 1);
      FirstDigit(s);
      FractionOfFirst(s);
      Tenth(s[0] as int - '0' as int, DigitsValue(s[1..]), Ten(|s| - 1), Fractional(s[1..]), Fractional(s));
    } else {
      assert Fractional("") == 0.0 && DigitsValue("") == 0;
    }
  }

  lemma FractionOfFirst(s: string)
    requires |s| > 0
    ensures Fractional(s) == ((s[0] as int - '0' as int) as real + Fractional(s[1..])) / 10.0
  {
  }

  lemma Tenth(d: int, v: int, p: int, g: real, f: real)
    requires p > 0 && g == v as real / p as real && f == (d as real + g) / 10.0
    ensures f == (d * p + v) as real / (10 * p) as real
  {
    var x, q := d as real + g, p as real;
    assert g * q == v as real;
    assert x * q == (d * p + v) as real;
    Cancel(x, q);
  }

  lemma Cancel(x: real, p: real)
    requires p > 0.0
    ensures x / 10.0 == (x * p) / (10.0 * p)
  {
    assert x / 10.0 * (10.0 * p) == x * p;
  }

  /** What the parser makes of the digits is their positional value. */
  lemma DecimalIsPositional(whole: string, frac: string)
    requires IsDigits(whole) && IsDigits(frac)
    ensures Decimal(whole, frac) == Whole(whole, 0) as real + Fractional(frac)
  {
    WholeIsValue(whole);
    FractionalIsValue(frac);
    TenIsPow10(|frac|);
    hide Whole, Fractional, DigitsValue, Ten, Pow10;
  }

  // ---- reading one term ----

  lemma {:induction false} DigitCountStops(s: string, rest: string)
    requires IsDigits(s) && !IsDigit(At(rest, 0))
    ensures DigitCount(s + rest) == |s|
    decreases |s|
  {
    if |s| == 0 {
      assert s + rest == rest;
    } else {
      assert (s + rest)[1..] == s[1..] + rest;
      DigitCountStops(s[1..], rest);
    }
  }

  lemma {:induction false} SkipBlankText(n: nat, rest: string)
    requires At(rest, 0) != ' '
    ensures SkipBlanks(BlankText(n) + rest) == rest
    decreases n
  {
    if n == 0 {
      assert BlankText(0) + rest == rest;
    } else {
      assert (BlankText(n) + rest)[1..] == BlankText(n - 1) + rest;
      SkipBlankText(n - 1, rest);
    }
  }

  lemma UnsignedWhole(whole: string, rest: string)
    requires |whole| > 0 && IsDigits(whole) && !IsDigit(At(rest, 0)) && At(rest, 0) != '.'
    ensures Unsigned(whole + rest) == Some(Number(Decimal(whole, ""), rest))
  {
    DigitCountStops(whole, rest);
    hide DigitCount, IsDigits, Decimal;
    var text := whole + rest;
    assert text[..|whole|] == whole && text[|whole|..] == rest && At(text, |whole|) == At(rest, 0);
  }

  /** The pieces around a point, as the scanner cuts them out. */
  lemma AroundPoint(whole: string, frac: string, rest: string)
    ensures var text := whole + ("." + (frac + rest));
      && text[..|whole|] == whole && At(text, |whole|) == '.' && text[|whole| + 1..] == frac + rest
      && (frac + rest)[..|frac|] == frac && text[|whole| + 1 + |frac|..] == rest
  {
  }

  lemma UnsignedFraction(whole: string, frac: string, rest: string)
    requires |whole| + |frac| > 0 && IsDigits(whole) && IsDigits(frac) && !IsDigit(At(rest, 0))
    ensures Unsigned(whole + ("." + (frac + rest))) == Some(Number(Decimal(whole, frac), rest))
  {
    AroundPoint(whole, frac, rest);
    DigitCountStops(whole, "." + (frac + rest));
    DigitCountStops(frac, rest);
    hide DigitCount, IsDigits, Decimal, At;
  }

  lemma UnsignedReads(n: Numeral, rest: string)
    requires GoodNumeral(n) && !IsDigit(At(rest, 0)) && At(rest, 0) != '.'
    ensures Unsigned(UnsignedText(n) + rest) == Some(Number(Decimal(n.whole, Fraction(n)), rest))
    ensures var c := At(UnsignedText(n) + rest, 0); IsDigit(c) || c == '.'
  {
    if n.frac.Some? {
      assert UnsignedText(n) + rest == n.whole + ("." + (n.frac.value + rest));
      UnsignedFraction(n.whole, n.frac.value, rest);
    } else {
      assert UnsignedText(n) + rest == n.whole + rest;
      UnsignedWhole(n.whole, rest);
    }
    hide Unsigned, Decimal;
  }

  predicate StartsNumber(c: char) {
    IsDigit(c) || c == '.' || c == '+' || c == '-'
  }

  /** A sign in front of an unsigned number. */
  lemma StrtodBehindSign(sign: Sign, body: string)
    requires IsDigit(At(body, 0)) || At(body, 0) == '.'
    ensures StartsNumber(At(SignText(sign) + body, 0))
    ensures Strtod(SignText(sign) + body) ==
      match Unsigned(body)
      case None => None
      case Some(n) => Some(Number(if sign == Minus then -n.value else n.value, n.rest))
  {
    hide Unsigned;
    var text := SignText(sign) + body;
    if sign == NoSign {
      assert text == body;
    } else {
      assert text[0] == SignText(sign)[0] && text[1..] == body;
    }
    assert SkipSpace(text) == text;
  }

  lemma NumeralIs(n: Numeral)
    requires GoodNumeral(n)
    ensures var v := Decimal(n.whole, Fraction(n)); NumeralValue(n) == if n.sign == Minus then -v else v
  {
    hide Decimal, Whole, Fractional, IsDigits;
    DecimalIsPositional(n.whole, Fraction(n));
  }

  lemma StrtodReadsNumber(n: Numeral, rest: string)
    requires GoodNumeral(n) && !IsDigit(At(rest, 0)) && At(rest, 0) != '.'
    ensures Strtod(NumeralText(n) + rest) == Some(Number(NumeralValue(n), rest))
    ensures StartsNumber(At(NumeralText(n) + rest, 0))
  {
    var sign, body := SignText(n.sign), UnsignedText(n);
    assert NumeralText(n) == sign + body;
    UnsignedReads(n, rest);
    StrtodBehindSign(n.sign, body + rest);
    NumeralIs(n);
    hide UnsignedText, SignText, NumeralText, Unsigned, Strtod, Decimal, GoodNumeral, Fraction, At, StartsNumber,
         NumeralValue, Whole, Fractional;
    Associative(sign, body, rest);
  }

  lemma UnitReadsSpelling(u: UnitName, rest: string)
    requires u in {H, M, S} ==> EndsUnit(At(rest, 0))
    ensures UnitAt(Spell(u) + rest) == Some(Unit(Factor(u), |Spell(u)|))
    ensures Drop(Spell(u) + rest, |Spell(u)|) == rest
    ensures var c := At(Spell(u) + rest, 0); c != ' ' && !IsDigit(c) && c != '.' && c != NUL
  {
    var t := Spell(u) + rest;
    assert t[|Spell(u)|..] == rest;
    assert forall k :: 0 <= k < |Spell(u)| ==> At(t, k) == Spell(u)[k];
    assert At(t, |Spell(u)|) == At(rest, 0);
  }

  lemma BlanksThen(n: nat, rest: string)
    requires n > 0 || EndsUnit(At(rest, 0))
    ensures EndsUnit(At(BlankText(n) + rest, 0))
  {
    if n == 0 {
      assert BlankText(n) + rest == rest;
    }
  }

  lemma SumReadsNumber(t: Term, rest: string, total: real, any: bool)
    requires t.Term? && GoodTerm(t) && (NeedsEnd(t) ==> EndsUnit(At(rest, 0)))
    ensures Sum(NumeralText(t.number) + (BlankText(t.gap) + (Spell(t.unit) + rest)), total, any) ==
      Sum(rest, total + TermMs(t), true)
  {
    hide Sum, Strtod, Decimal, UnitAt, NumeralText, NumeralValue, EndsUnit;
    assert Scaled(NumeralValue(t.number), Factor(t.unit)) == TermMs(t);
    hide Scaled;
    var unitText := Spell(t.unit) + rest;
    var tail := BlankText(t.gap) + unitText;
    var text := NumeralText(t.number) + tail;
    UnitReadsSpelling(t.unit, rest);
    assert At(tail, 0) == if t.gap == 0 then At(unitText, 0) else ' ';
    StrtodReadsNumber(t.number, tail);
    SkipBlankText(t.gap, unitText);
    SumRound(text, total, any, text);
  }

  lemma SumReadsLone(rest: string, total: real, any: bool)
    requires EndsUnit(At(rest, 0))
    ensures Sum("s" + rest, total, any) == Sum(rest, total + 1000.0, true)
  {
    hide Sum, EndsUnit;
    var text := "s" + rest;
    assert text[1..] == rest;
    SumRound(text, total, any, text);
  }

  /** The first term is read off whole, and the scan goes on behind it. */
  lemma SumReadsTerm(t: Term, rest: string, total: real, any: bool)
    requires GoodTerm(t) && (NeedsEnd(t) ==> EndsUnit(At(rest, 0)))
    ensures Sum(TermText(t) + rest, total, any) == Sum(rest, total + TermMs(t), true)
  {
    if t.Lone? {
      hide Sum, EndsUnit;
      SumReadsLone(rest, total, any);
    } else {
      hide Sum, EndsUnit, Spell, NumeralText, BlankText, GoodNumeral;
      SumReadsNumber(t, rest, total, any);
      Regroup(NumeralText(t.number), BlankText(t.gap), Spell(t.unit), rest);
    }
  }

  lemma Regroup(a: string, b: string, c: string, d: string)
    ensures a + (b + c) + d == a + (b + (c + d))
  {
  }

  lemma SumBehindBlanks(n: nat, t: string, total: real, any: bool)
    ensures Sum(BlankText(n) + t, total, any) == Sum(t, total, any)
  {
    BlanksBefore(n, t);
    hide Sum, Strtod, SumNumber, EndsUnit;
    SumRound(BlankText(n) + t, total, any, SkipBlanks(t));
    SumRound(t, total, any, SkipBlanks(t));
  }

  /** Behind good terms the scan goes on with their sum and what follows them. */
  lemma {:induction false} SumBehindTerms(ts: seq<Term>, tail: string, total: real, any: bool)
    requires GoodTerms(ts)
    requires |ts| > 0 && NeedsEnd(ts[|ts| - 1]) ==> ts[|ts| - 1].after > 0 || EndsUnit(At(tail, 0))
    ensures Sum(PrintTerms(ts) + tail, total, any) == Sum(tail, total + TotalMs(ts), any || |ts| > 0)
    decreases |ts|
  {
    hide Sum, TermMs, TermText, BlankText, EndsUnit;
    if |ts| == 0 {
      assert "" + tail == tail;
    } else {
      var t, more := ts[0], PrintTerms(ts[1..]) + tail;
      RestIsGood(ts);
      if NeedsEnd(t) {
        EndBehind(ts, tail);
      }
      assert TotalMs(ts) == TermMs(t) + TotalMs(ts[1..]);
      assert PrintTerms(ts) + tail == TermText(t) + (BlankText(t.after) + more) by {
        Regroup(TermText(t), BlankText(t.after), PrintTerms(ts[1..]), tail);
      }
      hide GoodTerms, GoodTerm, NeedsEnd, PrintTerms, TotalMs;
      SumBehindTerms(ts[1..], tail, total + TermMs(t), true);
      SumReadsTerm(t, BlankText(t.after) + more, total, any);
      SumBehindBlanks(t.after, more, total + TermMs(t), true);
    }
  }

  lemma RestIsGood(ts: seq<Term>)
    requires GoodTerms(ts) && |ts| > 0
    ensures GoodTerm(ts[0]) && GoodTerms(ts[1..])
    ensures |ts| > 1 ==> ts[1..][|ts| - 2] == ts[|ts| - 1]
  {
  }

  lemma TheEnd()
    ensures EndsUnit(At("", 0))
  {
  }

  lemma SumIsAdditive(ts: seq<Term>, total: real, any: bool)
    requires GoodTerms(ts) && (|ts| > 0 || any)
    ensures Sum(PrintTerms(ts), total, any) == Some(total + TotalMs(ts))
  {
    hide Sum, PrintTerms, TotalMs, GoodTerms, GoodTerm, EndsUnit, NeedsEnd, TermMs;
    var x := total + TotalMs(ts);
    assert EndsUnit(At("", 0)) by { TheEnd(); }
    SumBehindTerms(ts, "", total, any);
    assert PrintTerms(ts) + "" == PrintTerms(ts);
    SumRound("", x, true, "");
  }

  /** The parser is additive: it returns the exact sum of the terms, truncated to whole milliseconds. */
  lemma ParseAddsTerms(lead: nat, ts: seq<Term>, default: int)
    requires GoodTerms(ts) && |ts| > 0
    ensures ParseMs(BlankText(lead) + PrintTerms(ts), default) == Truncate(TotalMs(ts))
    ensures var r, x := ParseMs(BlankText(lead) + PrintTerms(ts), default), TotalMs(ts);
      if x >= 0.0 then 0 <= r && r as real <= x < (r + 1) as real else r <= 0 && (r - 1) as real < x <= r as real
  {
    SumBehindBlanks(lead, PrintTerms(ts), 0.0, false);
    SumIsAdditive(ts, 0.0, false);
    TruncatesTowardsZero(TotalMs(ts));
    hide Sum, Truncate;
  }

  lemma TruncatesTowardsZero(x: real)
    ensures var r := Truncate(x);
      if x >= 0.0 then 0 <= r && r as real <= x < (r + 1) as real else r <= 0 && (r - 1) as real < x <= r as real
  {
  }

  /** A number without a unit at the end: what was added up before it counts, if anything was. */
  lemma MissingUnit(ts: seq<Term>, n: Numeral, default: int)
    requires GoodTerms(ts) && Closed(ts)
    requires GoodNumeral(n)
    ensures ParseMs(PrintTerms(ts) + NumeralText(n), default) == if |ts| == 0 then default else Truncate(TotalMs(ts))
  {
    SumBehindClosed(ts, NumeralText(n));
    hide Sum, PrintTerms, TotalMs, NumeralText, Truncate, GoodTerms, GoodTerm, GoodNumeral, ParseMs, Closed, TermMs;
    NumberAlone(n, TotalMs(ts), |ts| > 0);
    ParseIs(PrintTerms(ts) + NumeralText(n), default, if |ts| > 0 then Some(TotalMs(ts)) else None);
  }

  lemma SumBehindClosed(ts: seq<Term>, tail: string)
    requires GoodTerms(ts) && Closed(ts)
    ensures Sum(PrintTerms(ts) + tail, 0.0, false) == Sum(tail, TotalMs(ts), |ts| > 0)
  {
    hide Sum, PrintTerms, TotalMs, GoodTerms, GoodTerm, TermMs, NeedsEnd, EndsUnit, At;
    SumBehindTerms(ts, tail, 0.0, false);
    assert 0.0 + TotalMs(ts) == TotalMs(ts);
  }

  lemma ParseIs(t: string, default: int, sum: Option<real>)
    requires Sum(t, 0.0, false) == sum
    ensures ParseMs(t, default) == match sum case None => default case Some(x) => Truncate(x)
  {
    hide Sum, Truncate;
  }

  lemma NumberAlone(n: Numeral, total: real, any: bool)
    requires GoodNumeral(n)
    ensures Sum(NumeralText(n), total, any) == if any then Some(total) else None
  {
    StrtodReadsNumber(n, "");
    assert NumeralText(n) + "" == NumeralText(n);
    hide Sum, Strtod, NumeralText, GoodNumeral, NumeralValue;
    SumRound(NumeralText(n), total, any, NumeralText(n));
  }

  /** Where a number should start and none does, the default is returned, whatever was added up before. */
  lemma JunkGivesDefault(ts: seq<Term>, junk: string, default: int)
    requires GoodTerms(ts) && Closed(ts)
    requires |junk| > 0 && !StartsNumber(junk[0]) && !IsSpace(junk[0]) && junk[0] != '\0'
    requires junk[0] == 's' ==> |junk| > 1 && junk[1] != ' ' && junk[1] != '\0'
    ensures ParseMs(PrintTerms(ts) + junk, default) == default
  {
    SumBehindClosed(ts, junk);
    hide Sum, PrintTerms, TotalMs, Truncate, GoodTerms, GoodTerm, ParseMs, Closed, TermMs, StartsNumber, IsSpace;
    JunkAlone(junk, TotalMs(ts), |ts| > 0);
    ParseIs(PrintTerms(ts) + junk, default, None);
  }

  lemma JunkAlone(junk: string, total: real, any: bool)
    requires |junk| > 0 && !StartsNumber(junk[0]) && !IsSpace(junk[0]) && junk[0] != '\0'
    requires junk[0] == 's' ==> |junk| > 1 && junk[1] != ' ' && junk[1] != '\0'
    ensures Sum(junk, total, any) == None
  {
    assert SkipSpace(junk) == junk && DigitCount(junk) == 0;
    assert Strtod(junk) == None;
    assert !(At(junk, 0) == 's' && EndsUnit(At(junk, 1)));
    hide Sum, Strtod, EndsUnit;
    SumRound(junk, total, any, junk);
  }

  // ---- staying inside the text ----

  /** The two characters on which the scan can leave the text. */
  const CUT_SHORT: string := [0xc2 as char, 's']

  predicate EndsWith(t: string, s: string) {
    |s| <= |t| && t[|t| - |s|..] == s
  }

  lemma EndsWithTrans(a: string, b: string, c: string)
    requires EndsWith(a, b) && EndsWith(b, c)
    ensures EndsWith(a, c)
  {
    assert a[|a| - |c|..] == a[|a| - |b|..][|b| - |c|..];
  }

  lemma DropEnds(t: string, n: nat)
    ensures EndsWith(t, Drop(t, n))
  {
    if n > |t| {
      assert t[|t|..] == "";
    }
  }

  lemma {:induction false} BlanksEnd(t: string)
    ensures EndsWith(t, SkipBlanks(t))
    decreases |t|
  {
    if At(t, 0) == ' ' {
      BlanksEnd(t[1..]);
      EndsWithTrans(t, t[1..], SkipBlanks(t[1..]));
    } else {
      assert t[0..] == t;
    }
  }

  lemma {:induction false} SpaceEnds(t: string)
    ensures EndsWith(t, SkipSpace(t))
    decreases |t|
  {
    if |t| > 0 && IsSpace(t[0]) {
      SpaceEnds(t[1..]);
      EndsWithTrans(t, t[1..], SkipSpace(t[1..]));
    } else {
      assert t[0..] == t;
    }
  }

  lemma UnsignedEnds(t: string)
    ensures Unsigned(t).Some? ==> EndsWith(t, Unsigned(t).value.rest)
  {
    hide Decimal, DigitCount;
    if Unsigned(t).Some? {
      var r := Unsigned(t).value.rest;
      assert t[|t| - |r|..] == r;
    }
  }

  lemma StrtodEnds(t: string)
    ensures Strtod(t).Some? ==> EndsWith(t, Strtod(t).value.rest)
  {
    hide Unsigned, SkipSpace, EndsWith;
    var u := SkipSpace(t);
    SpaceEnds(t);
    UnsignedEnds(u);
    if |u| > 0 {
      DropEnds(u, 1);
      UnsignedEnds(u[1..]);
    }
    if Strtod(t).Some? {
      var r := Strtod(t).value.rest;
      if |u| > 0 && EndsWith(u[1..], r) {
        EndsWithTrans(u, u[1..], r);
      }
      EndsWithTrans(t, u, r);
    }
  }

  /** Only a text that ends in these two characters can make the scan leave it. */
  lemma {:induction false} LeavesOnlyAtCut(t: string)
    requires !Inside(t)
    ensures EndsWith(t, CUT_SHORT)
    decreases |t|
  {
    var u := SkipBlanks(t);
    InsideRound(t, u);
    BlanksEnd(t);
    hide Inside, Strtod, UnitAt, EndsUnit, EndsWith;
    if At(u, 0) == 's' && EndsUnit(At(u, 1)) {
      DropEnds(u, 1);
      LeavesOnlyAtCut(Drop(u, 1));
      EndsWithTrans(t, u, Drop(u, 1));
      EndsWithTrans(t, Drop(u, 1), CUT_SHORT);
    } else {
      var rest := Strtod(u).value.rest;
      StrtodEnds(u);
      EndsWithTrans(t, u, rest);
      BlanksEnd(rest);
      EndsWithTrans(t, rest, SkipBlanks(rest));
      UnitLeavesAtCut(t, SkipBlanks(rest));
    }
  }

  lemma {:induction false} UnitLeavesAtCut(t: string, v: string)
    requires EndsWith(t, v) && |v| < |t| && !UnitInside(v)
    ensures EndsWith(t, CUT_SHORT)
    decreases |t|, 0
  {
    var n := UnitAt(v).value.consumed;
    if n <= |v| {
      hide Inside, UnitAt;
      DropEnds(v, n);
      LeavesOnlyAtCut(Drop(v, n));
      EndsWithTrans(t, v, Drop(v, n));
      EndsWithTrans(t, Drop(v, n), CUT_SHORT);
    } else {
      assert v == CUT_SHORT;
    }
  }

  lemma {:induction false} BlanksBefore(n: nat, t: string)
    ensures SkipBlanks(BlankText(n) + t) == SkipBlanks(t)
    decreases n
  {
    if n == 0 {
      assert BlankText(0) + t == t;
    } else {
      assert (BlankText(n) + t)[1..] == BlankText(n - 1) + t;
      BlanksBefore(n - 1, t);
    }
  }

  /** Blanks in front do not matter. */
  lemma InsideBehindBlanks(n: nat, t: string)
    ensures Inside(BlankText(n) + t) == Inside(t)
  {
    BlanksBefore(n, t);
    hide Inside, Strtod, UnitInside, EndsUnit;
    InsideRound(BlankText(n) + t, SkipBlanks(t));
    InsideRound(t, SkipBlanks(t));
  }

  lemma InsideReadsNumber(t: Term, rest: string)
    requires t.Term? && GoodTerm(t) && (NeedsEnd(t) ==> EndsUnit(At(rest, 0)))
    ensures Inside(NumeralText(t.number) + (BlankText(t.gap) + (Spell(t.unit) + rest))) == Inside(rest)
  {
    hide Inside, Strtod, Decimal, UnitAt, NumeralText, NumeralValue, EndsUnit;
    var unitText := Spell(t.unit) + rest;
    var tail := BlankText(t.gap) + unitText;
    var text := NumeralText(t.number) + tail;
    UnitReadsSpelling(t.unit, rest);
    assert At(tail, 0) == if t.gap == 0 then At(unitText, 0) else ' ';
    StrtodReadsNumber(t.number, tail);
    SkipBlankText(t.gap, unitText);
    InsideRound(text, text);
  }

  lemma InsideReadsTerm(t: Term, rest: string)
    requires GoodTerm(t) && (NeedsEnd(t) ==> EndsUnit(At(rest, 0)))
    ensures Inside(TermText(t) + rest) == Inside(rest)
  {
    if t.Lone? {
      hide Inside, EndsUnit;
      var text := "s" + rest;
      assert text[1..] == rest;
      InsideRound(text, text);
    } else {
      hide Inside, EndsUnit, Spell, NumeralText, BlankText, GoodNumeral;
      InsideReadsNumber(t, rest);
      Regroup(NumeralText(t.number), BlankText(t.gap), Spell(t.unit), rest);
    }
  }

  /** Behind good terms the scan goes on with what follows them. */
  lemma {:induction false} InsideBehindTerms(ts: seq<Term>, tail: string)
    requires GoodTerms(ts)
    requires |ts| > 0 && NeedsEnd(ts[|ts| - 1]) ==> ts[|ts| - 1].after > 0 || EndsUnit(At(tail, 0))
    ensures Inside(PrintTerms(ts) + tail) == Inside(tail)
    decreases |ts|
  {
    if |ts| == 0 {
      assert "" + tail == tail;
    } else {
      var t, more := ts[0], PrintTerms(ts[1..]) + tail;
      assert GoodTerm(t);
      InsideBehindTerms(ts[1..], tail);
      if NeedsEnd(t) {
        EndBehind(ts, tail);
      }
      hide Inside, GoodTerms, GoodTerm, EndsUnit, NeedsEnd, TermText, BlankText;
      InsideReadsTerm(t, BlankText(t.after) + more);
      InsideBehindBlanks(t.after, more);
      Regroup(TermText(t), BlankText(t.after), PrintTerms(ts[1..]), tail);
    }
  }

  lemma EndBehind(ts: seq<Term>, tail: string)
    requires GoodTerms(ts) && |ts| > 0 && NeedsEnd(ts[0])
    requires NeedsEnd(ts[|ts| - 1]) ==> ts[|ts| - 1].after > 0 || EndsUnit(At(tail, 0))
    ensures EndsUnit(At(BlankText(ts[0].after) + (PrintTerms(ts[1..]) + tail), 0))
  {
    if |ts| == 1 {
      assert PrintTerms(ts[1..]) + tail == tail;
    }
    BlanksThen(ts[0].after, PrintTerms(ts[1..]) + tail);
  }

  /** Good terms keep the scan inside; behind them, a number whose unit is cut short makes it leave the text. */
  lemma CutShortIff(ts: seq<Term>, n: Numeral, gap: nat, unit: string)
    requires GoodTerms(ts) && Closed(ts)
    requires GoodNumeral(n) && |unit| > 0 && unit[0] in {'n', 'u', 'm', 's', 'h', 0xc2 as char}
    ensures Inside(PrintTerms(ts))
    ensures Inside(PrintTerms(ts) + (NumeralText(n) + (BlankText(gap) + unit))) <==> UnitInside(unit)
    ensures unit == CUT_SHORT ==> !UnitInside(unit)
  {
    InsideBehindTerms(ts, "");
    assert PrintTerms(ts) + "" == PrintTerms(ts);
    NumberThenUnit(n, gap, unit);
    hide Inside, UnitInside, PrintTerms, NumeralText, GoodTerms, GoodNumeral, BlankText;
    InsideBehindTerms(ts, NumeralText(n) + (BlankText(gap) + unit));
  }

  lemma NumberThenUnit(n: Numeral, gap: nat, unit: string)
    requires GoodNumeral(n) && |unit| > 0 && unit[0] in {'n', 'u', 'm', 's', 'h', 0xc2 as char}
    ensures Inside(NumeralText(n) + (BlankText(gap) + unit)) <==> UnitInside(unit)
  {
    var tail := BlankText(gap) + unit;
    assert At(tail, 0) == if gap == 0 then unit[0] else ' ';
    StrtodReadsNumber(n, tail);
    SkipBlankText(gap, unit);
    hide Strtod, NumeralText, GoodNumeral, UnitInside, Inside;
    InsideRound(NumeralText(n) + tail, NumeralText(n) + tail);
  }

  /** The text of a 1 and the two characters. */
  lemma OneCutShort()
    ensures !Inside("1" + CUT_SHORT)
  {
    var n := Numeral(NoSign, "1", None);
    assert NumeralText(n) + (BlankText(0) + CUT_SHORT) == "1" + CUT_SHORT;
    assert PrintTerms([]) + ("1" + CUT_SHORT) == "1" + CUT_SHORT;
    hide Inside, UnitInside;
    CutShortIff([], n, 0, CUT_SHORT);
  }

  // ---- the round trip ----

  lemma {:induction false} DigitsAreDigits(n: nat)
    ensures IsDigits(Digits(n)) && DigitsValue(Digits(n)) == n
    decreases n
  {
    if n < 10 {
      assert Digits(n)[..0] == "";
    } else {
      DigitsAreDigits(n / 10);
      var s, d := Digits(n / 10), ['0' + (n % 10) as char];
      assert (s + d)[..|s|] == s;
    }
  }

  /** How many of the four components are not zero. */
  function ComponentCount(ms: nat): nat {
    (if Hours(ms) > 0 then 1 else 0) + (if Minutes(ms) > 0 then 1 else 0)
    + (if Seconds(ms) > 0 then 1 else 0) + (if Millis(ms) > 0 then 1 else 0)
  }

  function WholeTerm(n: nat, u: UnitName): Term {
    Term(Numeral(NoSign, Digits(n), None), 0, u, 0)
  }

  lemma WholeTermText(n: nat, u: UnitName)
    ensures var t := WholeTerm(n, u);
      GoodTerm(t) && NumeralText(t.number) == Digits(n) && TermMs(t) == Scaled(n as real, Factor(u))
  {
    var t := WholeTerm(n, u);
    DigitsNumeral(n);
    hide Digits, NumeralValue, NumeralText, GoodNumeral;
    TermMsIs(t, n as real);
  }

  lemma TermMsIs(t: Term, x: real)
    requires t.Term? && GoodTerm(t) && NumeralValue(t.number) == x
    ensures TermMs(t) == Scaled(x, Factor(t.unit))
  {
    hide NumeralValue, Factor;
  }

  lemma DigitsNumeral(n: nat)
    ensures var m := Numeral(NoSign, Digits(n), None);
      GoodNumeral(m) && NumeralText(m) == Digits(n) && NumeralValue(m) == n as real
  {
    DigitsAreDigits(n);
    WholeIsValue(Digits(n));
    assert Fractional("") == 0.0 && IsDigits("");
    hide Digits, Whole, Fractional, DigitsValue, IsDigits;
    var m := Numeral(NoSign, Digits(n), None);
    assert Fraction(m) == "";
    assert "" + (Digits(n) + "") == Digits(n);
  }

  lemma OneTerm(t: Term)
    requires GoodTerm(t) && t.Term? && t.gap == 0 && t.after == 0
    ensures BlankText(0) + PrintTerms([t]) == NumeralText(t.number) + Spell(t.unit)
    ensures TotalMs([t]) == TermMs(t)
  {
    hide NumeralText, Spell, TermMs, GoodTerm;
    assert [t][1..] == [];
    assert PrintTerms([]) == "" && BlankText(0) == "";
    assert TermText(t) == NumeralText(t.number) + ("" + Spell(t.unit));
  }

  lemma OneComponentParses(n: nat, u: UnitName, default: int)
    ensures ParseMs(Digits(n) + Spell(u), default) == Truncate(Scaled(n as real, Factor(u)))
  {
    var t := WholeTerm(n, u);
    WholeTermText(n, u);
    hide ParseMs, Digits, Spell, Scaled, Truncate, GoodTerm, TermMs, NumeralText;
    OneTerm(t);
    ParseAddsTerms(0, [t], default);
  }

  /** `h`, `m` and `s` need a blank or the end behind them; in front of a digit, say, they are no units. */
  lemma SeveralComponentsFail(n: nat, u: UnitName, more: string, default: int)
    requires u in {H, M, S} && |more| > 0 && more[0] != ' ' && more[0] != '\0' && !(u == M && more[0] == 's')
    ensures ParseMs(Digits(n) + Spell(u) + more, default) == default
  {
    var tail := Spell(u) + more;
    var text := Digits(n) + tail;
    NoUnitBefore(u, more);
    DigitsRead(n, tail);
    Associative(Digits(n), Spell(u), more);
    assert Spell(u)[0] != ' ';
    hide Digits, Spell, Strtod, UnitAt, Sum, IsDigit;
    SumRound(text, 0.0, false, text);
  }

  lemma NoUnitBefore(u: UnitName, more: string)
    requires u in {H, M, S} && |more| > 0 && more[0] != ' ' && more[0] != '\0' && !(u == M && more[0] == 's')
    ensures var tail := Spell(u) + more;
      UnitAt(tail) == None && SkipBlanks(tail) == tail && !IsDigit(At(tail, 0)) && At(tail, 0) != '.'
  {
    var tail := Spell(u) + more;
    assert At(tail, 0) == Spell(u)[0] && At(tail, 1) == more[0];
  }

  lemma DigitsRead(n: nat, tail: string)
    requires !IsDigit(At(tail, 0)) && At(tail, 0) != '.'
    ensures Strtod(Digits(n) + tail) == Some(Number(n as real, tail))
    ensures var text := Digits(n) + tail; SkipBlanks(text) == text && IsDigit(At(text, 0))
  {
    DigitsAreDigits(n);
    assert IsDigit(Digits(n)[0]);
    UnsignedWhole(Digits(n), tail);
    WholeDecimal(Digits(n));
    hide Unsigned, Strtod, Digits, Decimal, DigitsValue, IsDigits;
    var text := Digits(n) + tail;
    assert text[0] == Digits(n)[0] && SignText(NoSign) + text == text;
    StrtodBehindSign(NoSign, text);
  }

  lemma WholeDecimal(s: string)
    requires IsDigits(s)
    ensures Decimal(s, "") == DigitsValue(s) as real
  {
    assert DigitsValue("") == 0;
  }

  lemma OneComponentText(n: nat, unit: string)
    requires n > 0
    ensures Component(n, unit) == Digits(n) + unit && IsDigit(Component(n, unit)[0])
  {
    DigitsAreDigits(n);
    assert IsDigit(Digits(n)[0]);
  }

  lemma ComponentStart(n: nat, unit: string, rest: string)
    requires |rest| > 0 ==> IsDigit(rest[0])
    ensures |Component(n, unit) + rest| > 0 ==> IsDigit((Component(n, unit) + rest)[0])
    ensures |Component(n, unit) + rest| > 0 <==> n > 0 || |rest| > 0
  {
    if n > 0 {
      OneComponentText(n, unit);
    } else {
      assert Component(n, unit) + rest == rest;
    }
  }

  /** Behind a first component `n` come the rest, empty or starting with a digit. */
  lemma FirstComponent(n: nat, u: UnitName, rest: string, default: int)
    requires n > 0 && u in {H, M, S} && (|rest| > 0 ==> IsDigit(rest[0]))
    ensures ParseMs(Component(n, Spell(u)) + rest, default) ==
      if |rest| > 0 then default else Truncate(Scaled(n as real, Factor(u)))
  {
    OneComponentText(n, Spell(u));
    OneComponentParses(n, u, default);
    if |rest| > 0 {
      SeveralComponentsFail(n, u, rest, default);
    } else {
      assert Digits(n) + Spell(u) + rest == Digits(n) + Spell(u);
    }
  }

  lemma WholeFactor(n: nat, u: UnitName)
    requires u in {H, M, S, Ms}
    ensures Truncate(Scaled(n as real, Factor(u))) ==
      n * (match u case H => 3600000 case M => 60000 case S => 1000 case _ => 1)
  {
    var k: int := match u case H => 3600000 case M => 60000 case S => 1000 case _ => 1;
    assert Scaled(n as real, Factor(u)) == (n * k) as real;
  }

  /**
   Parsing what was printed, for every duration a double holds exactly: the duration comes back when it is 0
   or has one non-zero component, and the default comes back as soon as two components are printed.
   */
  lemma ParseOfFormat(ms: nat, default: int)
    requires ms < 0x20_0000_0000_0000
    ensures ParseMs(Format(ms), default) == if ComponentCount(ms) <= 1 then ms else default
  {
    hide ParseMs, Component, Spell, Digits, Truncate, Scaled, Factor, Format;
    var h, m, s, l := Hours(ms), Minutes(ms), Seconds(ms), Millis(ms);
    ComponentsSumUp(ms);
    hide Hours, Minutes, Seconds, Millis;
    if ms == 0 {
      OneComponentParses(0, S, default);
      WholeFactor(0, S);
      ZeroText();
    } else {
      Regrouped(ms);
      var millis := Component(l, "ms");
      ComponentStart(l, "ms", "");
      assert millis + "" == millis;
      var seconds := Component(s, "s") + millis;
      ComponentStart(s, "s", millis);
      var minutes := Component(m, "m") + seconds;
      ComponentStart(m, "m", seconds);
      SpellUnits();
      if h > 0 {
        FirstComponent(h, H, minutes, default);
        WholeFactor(h, H);
      } else if m > 0 {
        FirstComponent(m, M, seconds, default);
        WholeFactor(m, M);
      } else if s > 0 {
        FirstComponent(s, S, millis, default);
        WholeFactor(s, S);
      } else {
        OneComponentText(l, "ms");
        OneComponentParses(l, Ms, default);
        WholeFactor(l, Ms);
      }
    }
  }

  lemma SpellUnits()
    ensures Spell(H) == "h" && Spell(M) == "m" && Spell(S) == "s" && Spell(Ms) == "ms"
  {
  }

  lemma ZeroText()
    ensures Format(0) == Digits(0) + Spell(S)
  {
  }

  /** The printed text from its first non-zero component on. */
  lemma Regrouped(ms: nat)
    requires ms > 0
    ensures var h, m, s, l := Hours(ms), Minutes(ms), Seconds(ms), Millis(ms);
      var millis := Component(l, "ms");
      var seconds := Component(s, "s") + millis;
      var minutes := Component(m, "m") + seconds;
      && Format(ms) == Component(h, "h") + minutes
      && (h == 0 ==> Format(ms) == minutes)
      && (h == 0 && m == 0 ==> Format(ms) == seconds)
      && (h == 0 && m == 0 && s == 0 ==> Format(ms) == millis)
  {
    hide Hours, Minutes, Seconds, Millis, Digits;
  }

  /** The round trip holds exactly for 0 and for the durations with a single component. */
  lemma RoundTripIff(ms: int, default: int)
    requires ms < 0x20_0000_0000_0000
    ensures ParseMs(Format(ms), default) == ms <==>
      ms >= 0 && (ComponentCount(ms) <= 1 || ms == default)
  {
    hide ParseMs, ComponentCount;
    if ms >= 0 {
      ParseOfFormat(ms, default);
    } else {
      ParseOfFormat(0, default);
      assert Format(ms) == Format(0) && ComponentCount(0) == 0 by { ZeroHasNoComponent(); }
    }
  }

  lemma NinetyParts()
    ensures Hours(90000) == 0 && Minutes(90000) == 1 && Seconds(90000) == 30 && Millis(90000) == 0
  {
  }

  lemma NinetyTexts()
    ensures Component(0, "h") == "" && Component(1, "m") == "1m" && Component(30, "s") == "30s"
    ensures Component(0, "ms") == ""
  {
    assert Digits(1) == "1" && Digits(3) == "3" && Digits(30) == "30";
  }

  /** One and a half minutes print as `1m30s`, which does not parse. */
  lemma NinetySecondsAreLost(default: int)
    ensures Format(90000) == "1m30s" && ParseMs("1m30s", default) == default
  {
    NinetyParts();
    NinetyTexts();
    hide Component, Hours, Minutes, Seconds, Millis, ParseMs;
    assert "" + "1m" + "30s" + "" == "1m30s";
    ParseOfFormat(90000, default);
  }

  lemma SampleParts()
    ensures Hours(3723004) == 1 && Minutes(3723004) == 2 && Seconds(3723004) == 3 && Millis(3723004) == 4
  {
  }

  lemma SampleTexts()
    ensures Component(1, "h") == "1h" && Component(2, "m") == "2m" && Component(3, "s") == "3s"
    ensures Component(4, "ms") == "4ms"
  {
    assert Digits(1) == "1" && Digits(2) == "2" && Digits(3) == "3" && Digits(4) == "4";
  }

  /** The order of the components and their units; 0 and less print as `0s`. */
  lemma SampleFormats()
    ensures Format(3723004) == "1h2m3s4ms" && Format(0) == "0s" && Format(-5) == "0s"
  {
    SampleParts();
    SampleTexts();
    hide Component, Hours, Minutes, Seconds, Millis;
    assert "1h" + "2m" + "3s" + "4ms" == "1h2m3s4ms";
  }

  lemma ZeroHasNoComponent()
    ensures ComponentCount(0) == 0
  {
  }
}
