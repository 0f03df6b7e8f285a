/**
 The text of a PostgreSQL int8range as the driver sends and receives it: `Value` prints
 "[lo,hi)", `Scan` trims the brackets, splits on the comma and parses both bounds.
 */
module Ranges {
  const UINT64_LIMIT: nat := 0x1_0000_0000_0000_0000

  datatype ScanError = BadFormat | BadStart | BadEnd

  datatype ScanResult = Scanned(lo: nat, hi: nat) | Refused(error: ScanError)

  datatype Parsed = Number(n: nat) | NotANumber

  // ---------- Decimal numbers ----------

  predicate IsDigit(c: char) {
    '0' <= c <= '9'
  }

  predicate AllDigits(s: string) {
    forall i :: 0 <= i < |s| ==> IsDigit(s[i])
  }

  function Decimal(n: nat): (s: string)
    ensures |s| > 0 && AllDigits(s)
  {
    var digit := ['0' + (n % 10) as char];
    if n < 10 then digit else Decimal(n / 10) + digit
  }

  function DigitsValue(s: string): nat
    requires AllDigits(s)
  {
    if s == [] then 0
    else DigitsValue(s[..|s| - 1]) * 10 + (s[|s| - 1] - '0') as nat
  }

  /** An unsigned decimal of at most 64 bits: digits only, at least one of them. */
  function ParseUint(s: string): Parsed {
    if s == [] || !AllDigits(s) || DigitsValue(s) >= UINT64_LIMIT then NotANumber
    else Number(DigitsValue(s))
  }

  lemma {:induction false} DecimalValue(n: nat)
    ensures DigitsValue(Decimal(n)) == n
  {
    var s := Decimal(n);
    if n >= 10 {
      DecimalValue(n / 10);
      assert s[..|s| - 1] == Decimal(n / 10);
    }
  }

  lemma DecimalInjective(m: nat, n: nat)
    requires Decimal(m) == Decimal(n)
    ensures m == n
  {
    DecimalValue(m);
    DecimalValue(n);
  }

  // ---------- Trimming and splitting ----------

  predicate IsBracket(c: char) {
    c == '[' || c == ')'
  }

  function TrimLeft(s: string): string {
    if s != [] && IsBracket(s[0]) then TrimLeft(s[1..]) else s
  }

  function TrimRight(s: string): string {
    if s != [] && IsBracket(s[|s| - 1]) then TrimRight(s[..|s| - 1]) else s
  }

  function Trim(s: string): string {
    TrimRight(TrimLeft(s))
  }

  function Split(s: string, sep: char): (parts: seq<string>)
    ensures |parts| > 0
  {
    if s == [] then [[]]
    else
      var rest := Split(s[1..], sep);
      if s[0] == sep then [[]] + rest else [[s[0]] + rest[0]] + rest[1..]
  }

  lemma {:induction false} SplitNone(s: string, sep: char)
    requires sep !in s
    ensures Split(s, sep) == [s]
  {
    if s != [] {
      SplitNone(s[1..], sep);
      assert [s[0]] + s[1..] == s;
    }
  }

  lemma {:induction false} SplitOnce(a: string, b: string, sep: char)
    requires sep !in a && sep !in b
    ensures Split(a + [sep] + b, sep) == [a, b]
  {
    var s := a + [sep] + b;
    if a == [] {
      assert s[1..] == b;
      SplitNone(b, sep);
    } else {
      assert s[1..] == a[1..] + [sep] + b;
      SplitOnce(a[1..], b, sep);
      assert [a[0]] + a[1..] == a;
    }
  }

  lemma {:induction false} SplitJoins(s: string, sep: char)
    requires |Split(s, sep)| == 2
    ensures s == Split(s, sep)[0] + [sep] + Split(s, sep)[1]
    ensures sep !in Split(s, sep)[0] && sep !in Split(s, sep)[1]
  {
    if s[0] == sep {
      SplitSingle(s[1..], sep);
    } else {
      SplitJoins(s[1..], sep);
    }
  }

  lemma {:induction false} SplitSingle(s: string, sep: char)
    requires |Split(s, sep)| == 1
    ensures Split(s, sep) == [s] && sep !in s
  {
    if s != [] {
      SplitSingle(s[1..], sep);
      assert [s[0]] + s[1..] == s;
    }
  }

  // ---------- Value and Scan ----------

  function Value(lo: nat, hi: nat): string {
    "[" + Decimal(lo) + "," + Decimal(hi) + ")"
  }

  function ScanText(text: string): ScanResult {
    var parts := Split(Trim(text), ',');
    if |parts| != 2 then Refused(BadFormat)
    else
      match ParseUint(parts[0])
      case NotANumber => Refused(BadStart)
      case Number(lo) =>
        match ParseUint(parts[1])
        case NotANumber => Refused(BadEnd)
        case Number(hi) => Scanned(lo, hi)
  }

  /** Assigns both elements of the receiver, or on any error neither. */
  method Scan(r: array<nat>, text: string) returns (result: ScanResult)
    requires r.Length == 2
    modifies r
    ensures result == ScanText(text)
    ensures result.Scanned? ==> r[..] == [result.lo, result.hi]
    ensures result.Refused? ==> r[..] == old(r[..])
  {
    var rangeStr := Trim(text);
    var parts := Split(rangeStr, ',');
    if |parts| != 2 {
      return Refused(BadFormat);
    }
    var start := ParseUint(parts[0]);
    if start.NotANumber? {
      return Refused(BadStart);
    }
    var end := ParseUint(parts[1]);
    if end.NotANumber? {
      return Refused(BadEnd);
    }
    r[0] := start.n;
    r[1] := end.n;
    return Scanned(start.n, end.n);
  }

  // ---------- What trimming leaves ----------

  predicate AllBrackets(s: string) {
    forall i :: 0 <= i < |s| ==> s[i] == '[' || s[i] == ')'
  }

  lemma {:induction false} TrimLeftOf(pre: string, core: string)
    requires AllBrackets(pre) && core != [] && !IsBracket(core[0])
    ensures TrimLeft(pre + core) == core
  {
    if pre == [] {
      assert pre + core == core;
    } else {
      assert (pre + core)[1..] == pre[1..] + core;
      TrimLeftOf(pre[1..], core);
    }
  }

  lemma {:induction false} TrimRightOf(core: string, post: string)
    requires AllBrackets(post) && core != [] && !IsBracket(core[|core| - 1])
    ensures TrimRight(core + post) == core
  {
    if post == [] {
      assert core + post == core;
    } else {
      assert (core + post)[..|core + post| - 1] == core + post[..|post| - 1];
      TrimRightOf(core, post[..|post| - 1]);
    }
  }

  /** Brackets around a text that neither starts nor ends with one are all that goes. */
  lemma TrimOf(pre: string, core: string, post: string)
    requires AllBrackets(pre) && AllBrackets(post)
    requires core != [] && !IsBracket(core[0]) && !IsBracket(core[|core| - 1])
    ensures Trim(pre + core + post) == core
  {
    assert pre + core + post == pre + (core + post);
    TrimLeftOf(pre, core + post);
    TrimRightOf(core, post);
  }

  lemma {:induction false} TrimLeftTakes(s: string) returns (pre: string)
    ensures AllBrackets(pre) && s == pre + TrimLeft(s)
  {
    if s != [] && IsBracket(s[0]) {
      var more := TrimLeftTakes(s[1..]);
      pre := [s[0]] + more;
    } else {
      pre := [];
    }
  }

  lemma {:induction false} TrimRightTakes(s: string) returns (post: string)
    ensures AllBrackets(post) && s == TrimRight(s) + post
  {
    if s != [] && IsBracket(s[|s| - 1]) {
      var more := TrimRightTakes(s[..|s| - 1]);
      post := more + [s[|s| - 1]];
    } else {
      post := [];
    }
  }

  /** Two bounds around a comma: what a trimmed text has to be. */
  lemma BoundsTrimmed(pre: string, x: string, y: string, post: string)
    requires AllBrackets(pre) && AllBrackets(post) && x != [] && y != [] && AllDigits(x) && AllDigits(y)
    ensures Trim(pre + (x + "," + y) + post) == x + "," + y
    ensures Split(x + "," + y, ',') == [x, y]
  {
    var core := x + "," + y;
    assert core[0] == x[0] && core[|core| - 1] == y[|y| - 1];
    TrimOf(pre, core, post);
    SplitOnce(x, y, ',');
  }

  // ---------- The text of a range ----------

  /** `x` is `n` in decimal: digits, and no leading zero unless it is "0". */
  predicate IsNumeral(x: string, n: nat) {
    && x != [] && AllDigits(x) && DigitsValue(x) == n
    && (x[0] == '0' ==> |x| == 1)
  }

  /** A half-open range literal. */
  ghost predicate IsLiteral(text: string, lo: nat, hi: nat) {
    exists x, y :: text == "[" + x + "," + y + ")" && IsNumeral(x, lo) && IsNumeral(y, hi)
  }

  lemma {:induction false} DecimalNumeral(n: nat)
    ensures IsNumeral(Decimal(n), n)
    ensures n > 0 ==> Decimal(n)[0] != '0'
  {
    DecimalValue(n);
    if n >= 10 {
      DecimalNumeral(n / 10);
    }
  }

  lemma {:induction false} NumeralPositive(x: string)
    requires x != [] && AllDigits(x) && x[0] != '0'
    ensures DigitsValue(x) > 0
  {
    if |x| > 1 {
      NumeralPositive(x[..|x| - 1]);
    } else {
      assert x[..0] == [];
    }
  }

  lemma {:induction false} NumeralUnique(x: string, n: nat)
    requires IsNumeral(x, n)
    ensures x == Decimal(n)
  {
    var front, last := x[..|x| - 1], x[|x| - 1];
    assert x == front + [last];
    assert DigitsValue(x) == DigitsValue(front) * 10 + (last - '0') as nat;
    if |x| > 1 {
      NumeralPositive(front);
      NumeralUnique(front, n / 10);
    } else {
      assert front == [];
    }
  }

  /** The text of a range is its half-open literal, and nothing else is. */
  lemma ValueExact(text: string, lo: nat, hi: nat)
    ensures text == Value(lo, hi) <==> IsLiteral(text, lo, hi)
  {
    DecimalNumeral(lo);
    DecimalNumeral(hi);
    if text == Value(lo, hi) {
      assert text == "[" + Decimal(lo) + "," + Decimal(hi) + ")";
    }
    if x, y :| text == "[" + x + "," + y + ")" && IsNumeral(x, lo) && IsNumeral(y, hi) {
      NumeralUnique(x, lo);
      NumeralUnique(y, hi);
    }
  }

  lemma ParseDigits(x: string)
    requires x != [] && AllDigits(x)
    ensures ParseUint(x) ==
              if DigitsValue(x) >= 0x1_0000_0000_0000_0000 then NotANumber else Number(DigitsValue(x))
  {
  }

  /** Every half-open literal is scanned to its bounds, leading zeroes or not, if they have 64 bits. */
  lemma ScanLiteral(x: string, y: string)
    requires x != [] && y != [] && AllDigits(x) && AllDigits(y)
    ensures ScanText("[" + x + "," + y + ")") ==
              if DigitsValue(x) >= 0x1_0000_0000_0000_0000 then Refused(BadStart)
              else if DigitsValue(y) >= 0x1_0000_0000_0000_0000 then Refused(BadEnd)
              else Scanned(DigitsValue(x), DigitsValue(y))
  {
    hide Trim, Split, DigitsValue, ParseUint, AllDigits;
    assert "[" + x + "," + y + ")" == "[" + (x + "," + y) + ")";
    assert AllBrackets("[") && AllBrackets(")");
    hide AllBrackets;
    BoundsTrimmed("[", x, y, ")");
    ParseDigits(x);
    ParseDigits(y);
  }

  /** Printing and parsing undo each other exactly on the 64-bit pairs. */
  lemma RoundTrip(lo: nat, hi: nat)
    ensures ScanText(Value(lo, hi)) == Scanned(lo, hi) <==>
            lo < 0x1_0000_0000_0000_0000 && hi < 0x1_0000_0000_0000_0000
  {
    ScanLiteral(Decimal(lo), Decimal(hi));
    DecimalValue(lo);
    DecimalValue(hi);
  }

  /** Distinct ranges have distinct texts. */
  lemma ValueInjective(lo: nat, hi: nat, lo': nat, hi': nat)
    requires Value(lo, hi) == Value(lo', hi')
    ensures lo == lo' && hi == hi'
  {
    hide Trim, Split, Decimal;
    BoundsTrimmed("[", Decimal(lo), Decimal(hi), ")");
    BoundsTrimmed("[", Decimal(lo'), Decimal(hi'), ")");
    assert Value(lo, hi) == "[" + (Decimal(lo) + "," + Decimal(hi)) + ")";
    assert Value(lo', hi') == "[" + (Decimal(lo') + "," + Decimal(hi')) + ")";
    assert Decimal(lo) == [Decimal(lo), Decimal(hi)][0] == [Decimal(lo'), Decimal(hi')][0];
    assert Decimal(hi) == [Decimal(lo), Decimal(hi)][1] == [Decimal(lo'), Decimal(hi')][1];
    DecimalInjective(lo, lo');
    DecimalInjective(hi, hi');
  }

  /** Two bounds of 64 bits around the only comma, between any number of brackets. */
  predicate IsRangeText(text: string, pre: string, x: string, y: string, post: string) {
    && text == pre + (x + "," + y) + post
    && AllBrackets(pre) && AllBrackets(post)
    && x != [] && y != [] && AllDigits(x) && AllDigits(y)
    && DigitsValue(x) < 0x1_0000_0000_0000_0000 && DigitsValue(y) < 0x1_0000_0000_0000_0000
  }

  /** What Scan accepts, and with which values; in particular not the text "empty". */
  lemma ScanAccepts(text: string, lo: nat, hi: nat)
    ensures ScanText(text) == Scanned(lo, hi) <==>
            exists pre, x, y, post :: IsRangeText(text, pre, x, y, post)
                                      && DigitsValue(x) == lo && DigitsValue(y) == hi
    ensures ScanText("empty") == Refused(BadFormat)
  {
    SplitNone("empty", ',');
    assert ScanText("empty") == Refused(BadFormat);
    hide Split, TrimLeft, TrimRight, DigitsValue;
    var parts := Split(Trim(text), ',');
    if ScanText(text) == Scanned(lo, hi) {
      SplitJoins(Trim(text), ',');
      var pre := TrimLeftTakes(text);
      var post := TrimRightTakes(TrimLeft(text));
      assert text == pre + (parts[0] + "," + parts[1]) + post;
      assert IsRangeText(text, pre, parts[0], parts[1], post);
    }
    if pre, x, y, post :| IsRangeText(text, pre, x, y, post) && DigitsValue(x) == lo && DigitsValue(y) == hi {
      BoundsTrimmed(pre, x, y, post);
    }
  }
}
