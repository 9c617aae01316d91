/**
 * The period arithmetic of `tkmail.address`: `get_period`, which turns a
 * title prefix (K, G, B, O, T with optional exponents) and a year postfix
 * into the year of the board a title belongs to, and the one-slot cache
 * of `get_current_period`.
 */
module Periods {
  import opened Common

  // ---------------------------------------------------------------------
  // Python's int() on a string, for ASCII text

  /**
   * The ASCII white space int() strips: space and \t, \n, \v, \f, \r.
   * `str.isspace` also accepts \x1c to \x1f, but int() refuses them.
   */
  predicate IsSpace(c: char) {
    c == ' ' || 9 <= c as int <= 13
  }

  predicate IsDigit(c: char) {
    '0' <= c <= '9'
  }

  predicate AllDigits(s: string) {
    forall i :: 0 <= i < |s| ==> IsDigit(s[i])
  }

  function DigitValue(c: char): nat {
    if IsDigit(c) then c as int - '0' as int else 0
  }

  function LStrip(s: string): (r: string)
    ensures |r| <= |s|
  {
    if s != [] && IsSpace(s[0]) then LStrip(s[1..]) else s
  }

  function RStrip(s: string): (r: string)
    ensures |r| <= |s|
  {
    if s != [] && IsSpace(s[|s| - 1]) then RStrip(s[..|s| - 1]) else s
  }

  /**
   * Decimal digits with single underscores between them, the literal
   * syntax int() accepts after the sign.
   */
  predicate DigitGroups(s: string) {
    && s != []
    && (forall i :: 0 <= i < |s| ==> IsDigit(s[i]) || s[i] == '_')
    && (forall i :: 0 <= i < |s| && s[i] == '_' ==> 0 < i < |s| - 1 && IsDigit(s[i - 1]) && IsDigit(s[i + 1]))
  }

  /** The value of a digit string; underscores add nothing. */
  function DigitsValue(s: string): nat {
    if s == [] then 0
    else
      var last := s[|s| - 1];
      if IsDigit(last) then DigitsValue(s[..|s| - 1]) * 10 + DigitValue(last)
      else DigitsValue(s[..|s| - 1])
  }

  /** The text int() reads after the strip, with its sign taken off. */
  function Unsigned(t: string): string {
    if t != [] && (t[0] == '-' || t[0] == '+') then t[1..] else t
  }

  /** `int(s)`: `None` where Python raises ValueError. */
  function PyInt(s: string): Option<int> {
    var t := RStrip(LStrip(s));
    var body := Unsigned(t);
    if !DigitGroups(body) then None
    else if t[0] == '-' then Some(-(DigitsValue(body) as int))
    else Some(DigitsValue(body))
  }

  function DigitChar(d: nat): (c: char)
    requires d < 10
    ensures IsDigit(c) && DigitValue(c) == d
  {
    ('0' as int + d) as char
  }

  /** The decimal numeral of `n`, without leading zeros. */
  function Decimal(n: nat): (r: string)
    ensures r != [] && AllDigits(r)
  {
    if n < 10 then [DigitChar(n)] else Decimal(n / 10) + [DigitChar(n % 10)]
  }

  lemma {:induction false} DecimalValue(n: nat)
    ensures DigitsValue(Decimal(n)) == n
  {
    if n >= 10 {
      DecimalValue(n / 10);
      var r := Decimal(n);
      assert r[..|r| - 1] == Decimal(n / 10);
    } else {
      assert [DigitChar(n)][..0] == [];
    }
  }

  /** A numeral of exactly two digits, as a postfix writes a year. */
  function TwoDigits(n: nat): (r: string)
    requires n < 100
    ensures |r| == 2 && AllDigits(r)
  {
    [DigitChar(n / 10), DigitChar(n % 10)]
  }

  lemma TwoDigitsValue(n: nat)
    requires n < 100
    ensures DigitsValue(TwoDigits(n)) == n
  {
    var r := TwoDigits(n);
    assert r[..1][..0] == [];
    assert r[..1] == [DigitChar(n / 10)];
    assert DigitsValue(r[..1]) == n / 10;
    assert DigitsValue(r) == DigitsValue(r[..1]) * 10 + n % 10;
  }

  /** int() of a plain digit string is its value. */
  lemma PyIntOfDigits(s: string)
    requires s != [] && AllDigits(s)
    ensures PyInt(s) == Some(DigitsValue(s))
  {
    assert !IsSpace(s[0]) && !IsSpace(s[|s| - 1]);
    assert LStrip(s) == s;
    assert RStrip(s) == s;
    assert Unsigned(s) == s;
  }

  /** int() takes a sign and white space around a digit string. */
  lemma PyIntSigned(d: string)
    requires d != [] && AllDigits(d)
    ensures PyInt("-" + d) == Some(-(DigitsValue(d) as int))
    ensures PyInt(" +" + d + "\n") == Some(DigitsValue(d))
  {
    PyIntNegative(d);
    PyIntPadded(d);
  }

  lemma DigitsAreGroups(d: string)
    requires d != [] && AllDigits(d)
    ensures DigitGroups(d)
  {
  }

  lemma PyIntNegative(d: string)
    requires d != [] && AllDigits(d)
    ensures PyInt("-" + d) == Some(-(DigitsValue(d) as int))
  {
    var neg := "-" + d;
    assert neg[0] == '-' && !IsSpace(neg[0]);
    assert LStrip(neg) == neg;
    assert neg[|neg| - 1] == d[|d| - 1];
    assert RStrip(neg) == neg;
    assert neg[1..] == d;
    DigitsAreGroups(d);
  }

  lemma PyIntPadded(d: string)
    requires d != [] && AllDigits(d)
    ensures PyInt(" +" + d + "\n") == Some(DigitsValue(d))
  {
    var signed := "+" + d;
    var padded := " +" + d + "\n";
    assert padded[0] == ' ' && padded[1..] == signed + "\n";
    assert LStrip(padded) == LStrip(signed + "\n");
    assert (signed + "\n")[0] == '+';
    assert LStrip(signed + "\n") == signed + "\n";
    assert (signed + "\n")[..|signed| ] == signed;
    assert RStrip(signed + "\n") == RStrip(signed);
    assert signed[|signed| - 1] == d[|d| - 1];
    assert RStrip(signed) == signed;
    assert signed[1..] == d;
    DigitsAreGroups(d);
  }

  /**
   * int() reads back every numeral `str(n)` writes, also with a sign and
   * surrounded by white space.
   */
  lemma PyIntRoundTrip(n: nat)
    ensures PyInt(Decimal(n)) == Some(n)
    ensures PyInt("-" + Decimal(n)) == Some(-(n as int))
    ensures PyInt(" +" + Decimal(n) + "\n") == Some(n)
  {
    var d := Decimal(n);
    DecimalValue(n);
    assert DigitsValue(d) == n;
    ReadsBack(d);
    assert PyInt(d) == Some(n);
    assert PyInt("-" + d) == Some(-(n as int));
  }

  lemma ReadsBack(d: string)
    requires d != [] && AllDigits(d)
    ensures PyInt(d) == Some(DigitsValue(d))
    ensures PyInt("-" + d) == Some(-(DigitsValue(d) as int))
    ensures PyInt(" +" + d + "\n") == Some(DigitsValue(d))
  {
    PyIntOfDigits(d);
    PyIntSigned(d);
  }

  /** Seven texts int() refuses; PyIntRejectsBlank and PyIntRejectsMalformed state the classes they stand for. */
  lemma PyIntRejects()
    ensures PyInt("") == None && PyInt("  ") == None && PyInt("-") == None
    ensures PyInt("_1") == None && PyInt("1_") == None && PyInt("1__0") == None && PyInt("1 0") == None
  {
    assert LStrip("  ") == "" by { assert "  "[1..] == " " && " "[1..] == ""; }
    assert LStrip("-") == "-" && RStrip("-") == "-" && Unsigned("-") == "";
    assert LStrip("_1") == "_1" && RStrip("_1") == "_1" && Unsigned("_1") == "_1";
    assert !DigitGroups("_1") by { assert "_1"[0] == '_'; }
    assert LStrip("1_") == "1_" && RStrip("1_") == "1_" && Unsigned("1_") == "1_";
    assert !DigitGroups("1_") by { assert "1_"[1] == '_'; }
    assert LStrip("1__0") == "1__0" && RStrip("1__0") == "1__0" && Unsigned("1__0") == "1__0";
    assert !DigitGroups("1__0") by { assert "1__0"[1] == '_' && "1__0"[2] == '_'; }
    assert LStrip("1 0") == "1 0" && RStrip("1 0") == "1 0" && Unsigned("1 0") == "1 0";
    assert !DigitGroups("1 0") by { assert "1 0"[1] == ' '; }
  }

  predicate AllSpace(s: string) {
    forall i :: 0 <= i < |s| ==> IsSpace(s[i])
  }

  /**
   * What int() refuses after the strip and the sign: nothing at all, an
   * underscore at either end, two underscores in a row, or a character
   * that is neither a digit nor an underscore (an inner space, a second
   * sign).
   */
  predicate Malformed(body: string) {
    || body == []
    || body[0] == '_'
    || body[|body| - 1] == '_'
    || (exists i :: 0 <= i < |body| - 1 && body[i] == '_' && body[i + 1] == '_')
    || (exists i :: 0 <= i < |body| && !IsDigit(body[i]) && body[i] != '_')
  }

  lemma {:induction false} LStripSpaces(pre: string, s: string)
    requires AllSpace(pre)
    ensures LStrip(pre + s) == LStrip(s)
    decreases |pre|
  {
    if pre != [] {
      assert (pre + s)[1..] == pre[1..] + s;
      LStripSpaces(pre[1..], s);
    } else {
      assert pre + s == s;
    }
  }

  lemma {:induction false} RStripSpaces(s: string, post: string)
    requires AllSpace(post)
    ensures RStrip(s + post) == RStrip(s)
    decreases |post|
  {
    if post != [] {
      var init := post[..|post| - 1];
      assert (s + post)[..|s + post| - 1] == s + init;
      RStripSpaces(s, init);
    } else {
      assert s + post == s;
    }
  }

  /** int() strips exactly the white space around a text that neither starts nor ends with it. */
  lemma StripPadding(pre: string, core: string, post: string)
    requires AllSpace(pre) && AllSpace(post)
    requires core != [] ==> !IsSpace(core[0]) && !IsSpace(core[|core| - 1])
    ensures RStrip(LStrip(pre + core + post)) == core
  {
    assert pre + core + post == pre + (core + post);
    LStripSpaces(pre, core + post);
    if core == [] {
      assert core + post == post + [];
      LStripSpaces(post, []);
    } else {
      assert (core + post)[0] == core[0];
    }
    RStripSpaces(core, post);
  }

  /** int() refuses the empty text and text of white space only. */
  lemma PyIntRejectsBlank(s: string)
    requires AllSpace(s)
    ensures PyInt(s) == None
  {
    StripPadding(s, [], []);
    assert s + [] + [] == s;
  }

  /**
   * int() refuses any text that, inside its white space and after an
   * optional sign, is `Malformed`.
   */
  lemma PyIntRejectsMalformed(pre: string, sign: string, body: string, post: string)
    requires AllSpace(pre) && AllSpace(post)
    requires sign == "" || sign == "-" || sign == "+"
    requires body != [] ==> !IsSpace(body[|body| - 1])
    requires sign == "" ==> body != [] && !IsSpace(body[0]) && !IsSign(body[0])
    requires Malformed(body)
    ensures PyInt(pre + sign + body + post) == None
  {
    var core := sign + body;
    assert pre + sign + body + post == pre + core + post;
    StripPadding(pre, core, post);
    if sign != "" {
      assert core[1..] == body;
    } else {
      assert core == body;
    }
    assert Unsigned(core) == body;
  }

  /**
   * The separators \x1c to \x1f are not white space to int(): a
   * two-character postfix made of one of them and a digit is refused.
   */
  lemma SeparatorIsNotSpace(c: char, d: char, current: int)
    requires 28 <= c as int <= 31 && IsDigit(d)
    ensures PyInt([c, d]) == None
    ensures PostfixPeriod([c, d], current) == Err(NotAnInteger([c, d]))
  {
    var body := [c, d];
    assert "" + "" + body + "" == body;
    assert !IsDigit(body[0]) && body[0] != '_';
    PyIntRejectsMalformed("", "", body, "");
  }

  // ---------------------------------------------------------------------
  // The postfix

  /** The exception get_period raises. */
  datatype PeriodError =
    | InvalidPostfix(postfix: string)   // InvalidRecipient(postfix)
    | NotAnInteger(text: string)        // the ValueError of int(text)

  /** A two-digit year: above 56 means 19xx, otherwise 20xx. */
  function Century(year: int): int {
    if year > 56 then 1900 + year else 2000 + year
  }

  /**
   * The period a year postfix names. The test `(first + 1) % 100 ==
   * second` is the same under Python's floored and Dafny's Euclidean
   * remainder, since the divisor is positive.
   */
  function PostfixPeriod(postfix: string, current: int): Result<int, PeriodError> {
    if postfix == [] then Ok(current)
    else if |postfix| == 4 then
      match PyInt(postfix[0..2])
      case None => Err(NotAnInteger(postfix[0..2]))
      case Some(first) =>
        match PyInt(postfix[2..4])
        case None => Err(NotAnInteger(postfix[2..4]))
        case Some(second) =>
          if (first + 1) % 100 == second then Ok(Century(first))
          else if first == 19 || first == 20 then
            match PyInt(postfix)
            case None => Err(NotAnInteger(postfix))
            case Some(p) => Ok(p)
          else Err(InvalidPostfix(postfix))
    else if |postfix| == 2 then
      match PyInt(postfix)
      case None => Err(NotAnInteger(postfix))
      case Some(year) => Ok(Century(year))
    else Err(InvalidPostfix(postfix))
  }

  /** Every year from 1957 to 2056 is named by its last two digits. */
  lemma TwoDigitPostfix(year: int, current: int)
    requires 1957 <= year <= 2056
    ensures PostfixPeriod(TwoDigits(year % 100), current) == Ok(year)
  {
    TwoDigitsValue(year % 100);
    PyIntOfDigits(TwoDigits(year % 100));
  }

  /** The four characters of two two-digit numerals, and what int() makes of each half. */
  lemma FourDigits(first: nat, second: nat)
    requires first < 100 && second < 100
    ensures var p := TwoDigits(first) + TwoDigits(second);
      && |p| == 4
      && PyInt(p[0..2]) == Some(first)
      && PyInt(p[2..4]) == Some(second)
  {
    var a, b := TwoDigits(first), TwoDigits(second);
    var p := a + b;
    assert p[0..2] == a && p[2..4] == b;
    TwoDigitsValue(first);
    TwoDigitsValue(second);
    PyIntOfDigits(a);
    PyIntOfDigits(b);
  }

  /** Every year from 1957 to 2056 is named by the pair of it and the next year, as "1314" names 2013. */
  lemma ConsecutivePostfix(year: int, current: int)
    requires 1957 <= year <= 2056
    ensures PostfixPeriod(TwoDigits(year % 100) + TwoDigits((year + 1) % 100), current) == Ok(year)
  {
    var first, second := year % 100, (year + 1) % 100;
    assert year < 2000 ==> first == year - 1900 && first > 56;
    assert year >= 2000 ==> first == year - 2000 && first <= 56;
    assert (first + 1) % 100 == second;
    FourDigits(first, second);
  }

  function Pow10(n: nat): nat {
    if n == 0 then 1 else 10 * Pow10(n - 1)
  }

  lemma {:induction false} DigitsValueAppend(a: string, b: string)
    requires AllDigits(b)
    ensures DigitsValue(a + b) == DigitsValue(a) * Pow10(|b|) + DigitsValue(b)
    decreases |b|
  {
    if b == [] {
      assert a + b == a;
    } else {
      var init, last := b[..|b| - 1], b[|b| - 1];
      DigitsValueAppend(a, init);
      assert (a + b)[..|a + b| - 1] == a + init;
      assert (a + b)[|a + b| - 1] == last && IsDigit(last);
      assert DigitsValue(a + b) == DigitsValue(a + init) * 10 + DigitValue(last);
      assert DigitsValue(b) == DigitsValue(init) * 10 + DigitValue(last);
      ShiftDecimal(DigitsValue(a), Pow10(|init|), DigitsValue(init));
    }
  }

  lemma ShiftDecimal(x: int, p: int, y: int)
    ensures (x * p + y) * 10 == x * (10 * p) + y * 10
  {
  }

  /**
   * A four-digit year from 1900 to 2099 written out names itself, except
   * "1920" and "2021", which the consecutive-pair rule takes first and
   * reads as 2019 and 2020.
   */
  lemma LiteralPostfix(year: int, current: int)
    requires 1900 <= year <= 2099
    ensures PostfixPeriod(TwoDigits(year / 100) + TwoDigits(year % 100), current)
         == Ok(if year == 1920 then 2019 else if year == 2021 then 2020 else year)
  {
    var first := if year < 2000 then 19 else 20;
    var second := year - 100 * first;
    assert year / 100 == first && year % 100 == second;
    if (first + 1) % 100 != second {
      LiteralYear(first, second, current);
    } else {
      FourDigits(first, second);
    }
  }

  lemma LiteralYear(first: nat, second: nat, current: int)
    requires first == 19 || first == 20
    requires second < 100 && (first + 1) % 100 != second
    ensures PostfixPeriod(TwoDigits(first) + TwoDigits(second), current) == Ok(100 * first + second)
  {
    FourDigits(first, second);
    LiteralDigits(first, second);
  }

  lemma LiteralDigits(first: nat, second: nat)
    requires first < 100 && second < 100
    ensures PyInt(TwoDigits(first) + TwoDigits(second)) == Some(100 * first + second)
  {
    var a, b := TwoDigits(first), TwoDigits(second);
    TwoDigitsValue(first);
    TwoDigitsValue(second);
    DigitsValueAppend(a, b);
    assert Pow10(|b|) == 100;
    assert AllDigits(a + b);
    PyIntOfDigits(a + b);
  }

  /** A postfix of any length but 0, 2 and 4 is refused. */
  lemma PostfixLength(postfix: string, current: int)
    requires |postfix| != 0 && |postfix| != 2 && |postfix| != 4
    ensures PostfixPeriod(postfix, current) == Err(InvalidPostfix(postfix))
  {
  }

  /**
   * A four-digit postfix that is neither a pair of consecutive years nor
   * begins with 19 or 20 is refused, as "1815" is.
   */
  lemma FourDigitsRefused(first: nat, second: nat, current: int)
    requires first < 100 && second < 100
    requires (first + 1) % 100 != second && first != 19 && first != 20
    ensures var p := TwoDigits(first) + TwoDigits(second);
      PostfixPeriod(p, current) == Err(InvalidPostfix(p))
  {
    FourDigits(first, second);
  }

  // ---------------------------------------------------------------------
  // The prefix

  /** The title letters of a prefix. */
  predicate IsTitle(c: char) {
    c == 'K' || c == 'G' || c == 'B' || c == 'O' || c == 'T'
  }

  /** `prefix_value`: K is a year before, G, B, O and T are one to three years after. */
  function Weight(c: char): int {
    match c
    case 'K' => -1
    case 'G' => 1
    case 'B' => 2
    case 'O' => 3
    case 'T' => 1
    case _ => 0
  }

  /** A match of `([KGBOT])([0-9]*)`: the letter and its digits. */
  datatype Term = Term(title: char, digits: string)

  /** The longest run of digits at the start of `s`. */
  function DigitRun(s: string): (r: string)
    ensures |r| <= |s| && r == s[..|r|]
    ensures AllDigits(r)
    ensures |r| < |s| ==> !IsDigit(s[|r|])
  {
    if s != [] && IsDigit(s[0]) then [s[0]] + DigitRun(s[1..]) else []
  }

  /** `re.findall(r"([KGBOT])([0-9]*)", prefix)`: scanning left to right, skipping other characters. */
  function Terms(s: string): (r: seq<Term>)
    ensures forall i :: 0 <= i < |r| ==> IsTitle(r[i].title)
    decreases |s|
  {
    if s == [] then []
    else if IsTitle(s[0]) then
      var run := DigitRun(s[1..]);
      [Term(s[0], run)] + Terms(s[1 + |run|..])
    else Terms(s[1..])
  }

  /** `int(exponent or 1)` */
  function Exponent(t: Term): nat {
    if t.digits == [] then 1 else DigitsValue(t.digits)
  }

  /** The grade the loop of get_period accumulates over `ts`. */
  function Grade(ts: seq<Term>): int {
    if ts == [] then 0
    else
      var last := ts[|ts| - 1];
      Grade(ts[..|ts| - 1]) + Weight(last.title) * Exponent(last)
  }

  /** What get_period returns: the postfix's period minus the prefix's grade. */
  function PeriodOf(prefix: string, postfix: string, current: int): Result<int, PeriodError> {
    match PostfixPeriod(postfix, current)
    case Err(e) => Err(e)
    case Ok(period) => Ok(period - Grade(Terms(prefix)))
  }

  /** get_period */
  method GetPeriod(prefix: string, postfix: string, current: int) returns (r: Result<int, PeriodError>)
    ensures r == PeriodOf(prefix, postfix, current)
  {
    var period := PostfixPeriod(postfix, current);
    if period.Err? {
      return Err(period.error);
    }
    var terms := Terms(prefix);
    var grad := 0;
    for i := 0 to |terms|
      invariant grad == Grade(terms[..i])
    {
      assert terms[..i + 1][..i] == terms[..i];
      var t := terms[i];
      var exponent := if t.digits == [] then 1 else DigitsValue(t.digits);
      grad := grad + Weight(t.title) * exponent;
    }
    assert terms[..|terms|] == terms;
    return Ok(period.value - grad);
  }

  /**
   * One step of a prefix: a title letter and the exponent written after
   * it, `None` when the letter stands alone.
   */
  datatype Step = Step(title: char, exponent: Option<nat>)

  /** The digits a step writes after its letter. */
  function ExponentText(e: Option<nat>): string {
    match e
    case None => ""
    case Some(n) => Decimal(n)
  }

  /** The number of times a step counts its letter's weight: 1 when no exponent is written. */
  function Times(e: Option<nat>): nat {
    match e
    case None => 1
    case Some(n) => n
  }

  /** A prefix written step by step, as "K3G" or "GGB2" are. */
  function Spelled(steps: seq<Step>): string {
    if steps == [] then ""
    else [steps[0].title] + ExponentText(steps[0].exponent) + Spelled(steps[1..])
  }

  /** The grade the steps stand for. */
  function StepsGrade(steps: seq<Step>): int {
    if steps == [] then 0 else Weight(steps[0].title) * Times(steps[0].exponent) + StepsGrade(steps[1..])
  }

  lemma {:induction false} GradeCons(t: Term, ts: seq<Term>)
    ensures Grade([t] + ts) == Weight(t.title) * Exponent(t) + Grade(ts)
    decreases |ts|
  {
    if ts == [] {
      assert [t] + ts == [t];
      assert [t][..0] == [];
    } else {
      var init := ts[..|ts| - 1];
      GradeCons(t, init);
      assert ([t] + ts)[..|[t] + ts| - 1] == [t] + init;
    }
  }

  lemma {:induction false} DigitRunOfDigits(d: string, rest: string)
    requires AllDigits(d)
    requires rest == [] || !IsDigit(rest[0])
    ensures DigitRun(d + rest) == d
    decreases |d|
  {
    if d == [] {
      assert d + rest == rest;
    } else {
      assert IsDigit(d[0]);
      assert (d + rest)[1..] == d[1..] + rest;
      DigitRunOfDigits(d[1..], rest);
      assert [d[0]] + d[1..] == d;
    }
  }

  /**
   * get_period reads a prefix back step by step: the grade it subtracts
   * is the sum of each title's weight times its exponent, and a title
   * written without one counts once.
   */
  lemma {:induction false} SpelledGrade(steps: seq<Step>)
    requires forall i :: 0 <= i < |steps| ==> IsTitle(steps[i].title)
    ensures Grade(Terms(Spelled(steps))) == StepsGrade(steps)
    ensures |Terms(Spelled(steps))| == |steps|
    decreases |steps|
  {
    if steps != [] {
      var s, rest := steps[0], steps[1..];
      SpelledGrade(rest);
      var d := ExponentText(s.exponent);
      assert Spelled(steps) == [s.title] + d + Spelled(rest);
      assert Spelled(rest) == [] || IsTitle(Spelled(rest)[0]) by {
        if rest != [] {
          assert rest[0] == steps[1];
        }
      }
      SpelledTerms(s.title, d, Spelled(rest));
      if s.exponent.Some? {
        DecimalValue(s.exponent.value);
      }
      assert Exponent(Term(s.title, d)) == Times(s.exponent);
      GradeCons(Term(s.title, d), Terms(Spelled(rest)));
    }
  }

  /** A title, the digits after it and a rest that starts with a title are read back as that term and the rest's terms. */
  lemma SpelledTerms(title: char, d: string, tail: string)
    requires IsTitle(title) && AllDigits(d)
    requires tail == [] || IsTitle(tail[0])
    ensures Terms([title] + d + tail) == [Term(title, d)] + Terms(tail)
  {
    var p := [title] + d + tail;
    assert p[1..] == d + tail;
    DigitRunOfDigits(d, tail);
    assert p[1 + |d|..] == tail;
  }

  /**
   * get_period on the prefix and postfix splits of `translate_recipient`'s
   * documented aliases K3FORM and GFORM14, in 2010: both give 2013. This
   * is get_period's arithmetic only; parse_alias_title reads titles with
   * `tk.parse`, which is not part of this model.
   */
  lemma DocumentedPeriods()
    ensures PeriodOf("K3", "", 2010) == Ok(2013)
    ensures PeriodOf("G", "14", 2010) == Ok(2013)
  {
    KThreeUp(2010);
    GFourteen(2010);
  }

  /** K3 with no postfix is three boards after the current one. */
  lemma KThreeUp(current: int)
    ensures PeriodOf("K3", "", current) == Ok(current + 3)
  {
    SpelledGrade([Step('K', Some(3))]);
    assert Spelled([Step('K', Some(3))]) == "K3" by {
      assert Decimal(3) == "3";
    }
  }

  /** G with postfix 14 is the board of 2013. */
  lemma GFourteen(current: int)
    ensures PeriodOf("G", "14", current) == Ok(2013)
  {
    assert DigitRun("") == "";
    assert Terms("G") == [Term('G', "")];
    assert Grade([Term('G', "")]) == 1 by {
      assert [Term('G', "")][..0] == [];
    }
    PyIntOfDigits("14");
    assert "14"[..1] == "1";
    assert "1"[..0] == "";
    assert DigitsValue("14") == 14;
  }

  // ---------------------------------------------------------------------
  // get_current_period

  /**
   * What one call of get_current_period meets. `Queried(answer)`: a `db`
   * was passed in, or the default `tkmail.database.Database()` connected,
   * and `db.get_current_period()` gave `answer` (`None` when it raised).
   * `ConnectFailed`: no `db` was passed and building the default one
   * raised; that happens before the `try`, so the exception escapes.
   */
  datatype Read = Queried(answer: Option<int>) | ConnectFailed

  /** The exception get_current_period lets escape when it cannot connect. */
  datatype ConnectError = ConnectError

  /** The `cached_value` attribute of get_current_period. */
  class PeriodCache {
    var cached: Option<int>

    constructor ()
      ensures cached == None
    {
      cached := None;
    }

    /**
     * get_current_period: a failed connection raises and leaves the cache
     * alone; otherwise a failed query keeps the previous value, and the
     * cached value is returned.
     */
    method GetCurrentPeriod(read: Read) returns (r: Result<Option<int>, ConnectError>)
      modifies this
      ensures read.ConnectFailed? ==> r == Err(ConnectError) && cached == old(cached)
      ensures read.Queried? ==> cached == Cached(old(cached), [read.answer]) && r == Ok(cached)
    {
      if read.ConnectFailed? {
        return Err(ConnectError);
      }
      if read.answer.Some? {
        cached := read.answer;
      }
      r := Ok(cached);
    }
  }

  /** The cached value after a sequence of database answers. */
  function Cached(cached: Option<int>, answers: seq<Option<int>>): Option<int> {
    if answers == [] then cached
    else
      var before := Cached(cached, answers[..|answers| - 1]);
      if answers[|answers| - 1].Some? then answers[|answers| - 1] else before
  }

  /**
   * The cache returns the latest answer the database gave, or what it
   * held before when every query failed; it is empty only when it started
   * empty and no query succeeded.
   */
  lemma {:induction false} CachedSpec(cached: Option<int>, answers: seq<Option<int>>)
    ensures (forall i :: 0 <= i < |answers| ==> answers[i].None?) ==> Cached(cached, answers) == cached
    ensures forall i :: 0 <= i < |answers| && answers[i].Some? && (forall j :: i < j < |answers| ==> answers[j].None?) ==>
      Cached(cached, answers) == answers[i]
    ensures Cached(cached, answers).None? <==> cached.None? && forall i :: 0 <= i < |answers| ==> answers[i].None?
    decreases |answers|
  {
    if answers != [] {
      var init := answers[..|answers| - 1];
      CachedSpec(cached, init);
      assert forall i :: 0 <= i < |init| ==> init[i] == answers[i];
    }
  }
}
