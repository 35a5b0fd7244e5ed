/**
 The duration texts of duration.cpp. A `const char *` is the text it points to, so that moving it forward
 drops characters; doubles are idealised as reals, and `strtod` reads decimal digits with an optional
 fraction.
 */
module Duration {
  import opened Bytes
  import opened Strings

  // ---- reading characters ----

  const NUL := '\0'

  /** The character at offset `i` of a C string. */
  function At(t: string, i: nat): char {
    if i < |t| then t[i] else NUL
  }

  function Drop(t: string, n: nat): (r: string)
    ensures |r| <= |t|
    ensures n > 0 && |t| > 0 ==> |r| < |t|
  {
    if n <= |t| then t[n..] else ""
  }

  /** The text behind its leading blanks; tabs and the like are not blanks. */
  function SkipBlanks(t: string): (r: string)
    ensures |r| <= |t| && At(r, 0) != ' '
    ensures forall k :: 0 <= k < |t| - |r| ==> t[k] == ' '
  {
    if At(t, 0) == ' ' then SkipBlanks(t[1..]) else t
  }

  predicate IsDigit(c: char) {
    '0' <= c <= '9'
  }

  predicate IsDigits(s: string) {
    forall k :: 0 <= k < |s| ==> IsDigit(s[k])
  }

  function DigitsValue(s: string): nat
    requires IsDigits(s)
  {
    if |s| == 0 then 0 else DigitsValue(s[..|s| - 1]) * 10 + (s[|s| - 1] as int - '0' as int)
  }

  /** How many leading characters are digits. */
  function DigitCount(t: string): (n: nat)
    ensures n <= |t| && IsDigits(t[..n]) && !IsDigit(At(t, n))
  {
    if |t| == 0 || !IsDigit(t[0]) then 0
    else
      var n := DigitCount(t[1..]);
      assert t[..n + 1] == [t[0]] + t[1..][..n];
      n + 1
  }

  function Pow10(n: nat): (p: real)
    ensures p > 0.0
  {
    if n == 0 then 1.0 else 10.0 * Pow10(n - 1)
  }

  /** A number and the text after it. */
  datatype Number = Number(value: real, rest: string)

  /** `whole` digits and the digits after a point, as one value. */
  function Decimal(whole: string, frac: string): real
    requires IsDigits(whole) && IsDigits(frac)
  {
    DigitsValue(whole) as real + DigitsValue(frac) as real / Pow10(|frac|)
  }

  function Unsigned(t: string): (r: Option<Number>)
    ensures r.Some? ==> |r.value.rest| < |t|
  {
    var n := DigitCount(t);
    if At(t, n) == '.' then
      var m := DigitCount(t[n + 1..]);
      if n + m == 0 then None
      else Some(Number(Decimal(t[..n], t[n + 1..][..m]), t[n + 1 + m..]))
    else if n == 0 then None
    else Some(Number(Decimal(t[..n], ""), t[n..]))
  }

  /** `strtod`: white space, a sign, digits with an optional fraction; `None` when nothing was read. */
  function Strtod(t: string): (r: Option<Number>)
    ensures r.Some? ==> |r.value.rest| < |t|
  {
    var u := SkipSpace(t);
    if At(u, 0) == '-' then
      match Unsigned(u[1..]) case None => None case Some(n) => Some(Number(-n.value, n.rest))
    else Unsigned(if At(u, 0) == '+' then u[1..] else u)
  }

  // ---- units ----

  /** A unit and how many characters it takes. */
  datatype Unit = Unit(factor: real, consumed: nat)

  predicate EndsUnit(c: char) {
    c == NUL || c == ' '
  }

  /** `parse_unit_factor`, in milliseconds; `None` when nothing is consumed. */
  function UnitAt(t: string): (r: Option<Unit>)
    ensures r.Some? ==> r.value.consumed > 0 && |t| > 0
  {
    var c0, c1 := At(t, 0), At(t, 1);
    if c0 == 'n' && c1 == 's' then Some(Unit(0.000001, 2))
    else if (c0 == 'u' || c0 as int == 0xc2)
         && (c1 == 's' || (c0 as int == 0xc2 && c1 as int == 0xb5 && At(t, 2) == 's'))
      then Some(Unit(0.001, if c0 as int == 0xc2 then 3 else 2))
    else if c0 == 'm' && c1 == 's' then Some(Unit(1.0, 2))
    else if c0 == 's' && EndsUnit(c1) then Some(Unit(1000.0, 1))
    else if c0 == 'm' && EndsUnit(c1) then Some(Unit(60000.0, 1))
    else if c0 == 'h' && EndsUnit(c1) then Some(Unit(3600000.0, 1))
    else None
  }

  // ---- parsing ----

  function Scaled(value: real, factor: real): real {
    value * factor
  }

  /** The sum of all terms of `t` on top of `total`; `None` stands for the default. */
  function Sum(t: string, total: real, any: bool): Option<real>
    decreases |t|
  {
    var u := SkipBlanks(t);
    if At(u, 0) == NUL then if any then Some(total) else None
    else if At(u, 0) == 's' && EndsUnit(At(u, 1)) then Sum(Drop(u, 1), total + 1000.0, true)
    else match Strtod(u)
      case None => None
      case Some(num) =>
        var v := SkipBlanks(num.rest);
        match UnitAt(v)
        case None => if any then Some(total) else None
        case Some(unit) => Sum(Drop(v, unit.consumed), total + Scaled(num.value, unit.factor), true)
  }

  /** `static_cast<int64_t>` of a value in range: towards zero. */
  function Truncate(x: real): int {
    if x >= 0.0 then x.Floor else -((-x).Floor)
  }

  function ParseMs(t: string, default: int): int {
    Result(Sum(t, 0.0, false), default)
  }

  /** One round of the scan, `u` being the text after the blanks. */
  lemma SumRound(t: string, total: real, any: bool, u: string)
    requires u == SkipBlanks(t)
    ensures At(u, 0) == NUL ==> Sum(t, total, any) == if any then Some(total) else None
    ensures At(u, 0) == 's' && EndsUnit(At(u, 1)) ==> Sum(t, total, any) == Sum(Drop(u, 1), total + 1000.0, true)
    ensures At(u, 0) != NUL && !(At(u, 0) == 's' && EndsUnit(At(u, 1))) ==>
      Sum(t, total, any) == SumNumber(Strtod(u), total, any)
  {
    hide Scaled, Strtod, EndsUnit, UnitAt, Drop, At;
  }

  function SumNumber(n: Option<Number>, total: real, any: bool): Option<real> {
    if n.None? then None else SumUnit(n.value.value, SkipBlanks(n.value.rest), total, any)
  }

  function SumUnit(value: real, v: string, total: real, any: bool): Option<real> {
    match UnitAt(v)
    case None => if any then Some(total) else None
    case Some(unit) => Sum(Drop(v, unit.consumed), total + Scaled(value, unit.factor), true)
  }

  /**
   The scan stays inside the text and its terminator. A unit takes three characters as soon as it starts with
   the octet C2, although `s` may be its second and last.
   */
  predicate Inside(t: string)
    decreases |t|
  {
    var u := SkipBlanks(t);
    if At(u, 0) == NUL then true
    else if At(u, 0) == 's' && EndsUnit(At(u, 1)) then Inside(Drop(u, 1))
    else match Strtod(u)
      case None => true
      case Some(num) =>
        var v := SkipBlanks(num.rest);
        match UnitAt(v)
        case None => true
        case Some(unit) => unit.consumed <= |v| && Inside(Drop(v, unit.consumed))
  }

  /** One round of the scan, as in `SumRound`. */
  lemma InsideRound(t: string, u: string)
    requires u == SkipBlanks(t)
    ensures At(u, 0) == NUL ==> Inside(t)
    ensures At(u, 0) == 's' && EndsUnit(At(u, 1)) ==> Inside(t) == Inside(Drop(u, 1))
    ensures At(u, 0) != NUL && !(At(u, 0) == 's' && EndsUnit(At(u, 1))) ==>
      Inside(t) == (Strtod(u).Some? ==> UnitInside(SkipBlanks(Strtod(u).value.rest)))
  {
    hide Strtod, EndsUnit, UnitAt, Drop, At;
  }

  predicate UnitInside(v: string) {
    UnitAt(v).Some? ==> UnitAt(v).value.consumed <= |v| && Inside(Drop(v, UnitAt(v).value.consumed))
  }

  function Result(sum: Option<real>, default: int): int {
    match sum case None => default case Some(x) => Truncate(x)
  }

  /** `parse_duration_ms`; the scan ends on every input, and `inside` says whether `p` ever left the text. */
  method ParseDurationMs(s: string, default: int) returns (ms: int, ghost inside: bool)
    ensures ms == ParseMs(s, default)
    ensures inside == Inside(s)
  {
    hide Sum, Inside, Strtod, Truncate, EndsUnit, Scaled;
    inside := true;
    if s == "" {
      SumRound(s, 0.0, false, "");
      InsideRound(s, "");
      return default, inside;
    }
    var p := s;
    var total := 0.0;
    var parsedAny := false;
    while At(p, 0) != NUL
      invariant Sum(s, 0.0, false) == Sum(p, total, parsedAny)
      invariant Inside(s) == (inside && Inside(p))
      decreases |p|
    {
      SumRound(p, total, parsedAny, SkipBlanks(p));
      InsideRound(p, SkipBlanks(p));
      p := Blanks(p);
      if At(p, 0) == NUL { break; }
      if At(p, 0) == 's' && EndsUnit(At(p, 1)) {
        total := total + 1000.0;
        parsedAny := true;
        p := Drop(p, 1);
        continue;
      }
      var num := Strtod(p);
      if num.None? { return default, inside; }
      p := Blanks(num.value.rest);
      var unit := UnitAt(p);
      if unit.None? {
        if !parsedAny { return default, inside; }
        return Truncate(total), inside;
      }
      total := total + Scaled(num.value.value, unit.value.factor);
      parsedAny := true;
      inside := inside && unit.value.consumed <= |p|;
      p := Drop(p, unit.value.consumed);
    }
    SumRound(p, total, parsedAny, SkipBlanks(p));
    InsideRound(p, SkipBlanks(p));
    if !parsedAny { return default, inside; }
    return Truncate(total), inside;
  }

  /** `while (*p == ' ') p++;` */
  method Blanks(t: string) returns (r: string)
    ensures r == SkipBlanks(t) && SkipBlanks(r) == r
  {
    r := t;
    while At(r, 0) == ' '
      invariant SkipBlanks(r) == SkipBlanks(t)
      decreases |r|
    {
      r := r[1..];
    }
  }

  // ---- printing ----

  function Digits(n: nat): (s: string)
    ensures |s| > 0
  {
    if n < 10 then ['0' + n as char] else Digits(n / 10) + ['0' + (n % 10) as char]
  }

  function Component(n: nat, unit: string): string {
    if n == 0 then "" else Digits(n) + unit
  }

  function Hours(ms: nat): nat { ms / 3600000 }
  function Minutes(ms: nat): nat { ms % 3600000 / 60000 }
  function Seconds(ms: nat): nat { ms % 3600000 % 60000 / 1000 }
  function Millis(ms: nat): nat { ms % 3600000 % 60000 % 1000 }

  /** The non-zero components, largest unit first and nothing between them. */
  function Format(ms: int): string {
    if ms <= 0 then "0s"
    else Component(Hours(ms), "h") + Component(Minutes(ms), "m") + Component(Seconds(ms), "s")
         + Component(Millis(ms), "ms")
  }

  /** `format_duration_ms`: each unit in turn is taken off `ms`. */
  method FormatDurationMs(duration: int) returns (result: string)
    ensures result == Format(duration)
  {
    if duration <= 0 { return "0s"; }
    var ms := duration;
    result := "";
    hide Digits;
    ghost var r1, r2 := duration % 3600000, duration % 3600000 % 60000;
    if ms >= 3600000 {
      result := result + (Digits(ms / 3600000) + "h");
      ms := ms % 3600000;
    }
    SmallRemainder(duration, 3600000);
    ghost var hours := Component(Hours(duration), "h");
    assert ms == r1 && result == hours;
    if ms >= 60000 {
      result := result + (Digits(ms / 60000) + "m");
      ms := ms % 60000;
    }
    SmallRemainder(r1, 60000);
    ghost var minutes := Component(Minutes(duration), "m");
    assert ms == r2 && result == hours + minutes;
    if ms >= 1000 {
      result := result + (Digits(ms / 1000) + "s");
      ms := ms % 1000;
    }
    SmallRemainder(r2, 1000);
    ghost var seconds := Component(Seconds(duration), "s");
    assert ms == Millis(duration) && result == hours + minutes + seconds;
    hide Hours, Minutes, Seconds, Millis;
    if ms > 0 {
      result := result + (Digits(ms) + "ms");
    } else {
      assert result == result + "";
    }
  }

  lemma SmallRemainder(n: nat, unit: nat)
    requires unit > 0
    ensures n < unit ==> n / unit == 0 && n % unit == n
    ensures n >= unit ==> n / unit > 0
  {
  }

  /** The components make up the duration, each below one of the next larger unit. */
  lemma ComponentsSumUp(ms: nat)
    ensures ms == 3600000 * Hours(ms) + 60000 * Minutes(ms) + 1000 * Seconds(ms) + Millis(ms)
    ensures Minutes(ms) < 60 && Seconds(ms) < 60 && Millis(ms) < 1000
  {
    var r1 := ms % 3600000;
    var r2 := r1 % 60000;
    assert r1 == 60000 * (r1 / 60000) + r2;
    assert r2 == 1000 * (r2 / 1000) + r2 % 1000;
  }
}
