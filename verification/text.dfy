/** The string primitives the cleaning step relies on, with ECMAScript's meaning:
    `String.prototype.trim`, `split(',')[0]`, `replace(/[^0-9]/g, '')` and the global
    `parseInt` without a radix. Characters are Unicode scalar values. */
module Text {
  import opened Options

  /** ECMAScript's WhiteSpace and LineTerminator characters: the set that `trim` removes and
      that `parseInt` skips before a number. */
  predicate IsSpace(c: char) {
    || c == '\t' || c == '\n' || c == '\U{000B}' || c == '\U{000C}' || c == '\r'
    || c == ' ' || c == '\U{00A0}' || c == '\U{1680}'
    || ('\U{2000}' <= c <= '\U{200A}')
    || c == '\U{2028}' || c == '\U{2029}' || c == '\U{202F}' || c == '\U{205F}'
    || c == '\U{3000}' || c == '\U{FEFF}'
  }

  predicate IsDigit(c: char) {
    '0' <= c <= '9'
  }

  predicate AllDigits(s: string) {
    forall i :: 0 <= i < |s| ==> IsDigit(s[i])
  }

  predicate AllSpace(s: string) {
    forall i :: 0 <= i < |s| ==> IsSpace(s[i])
  }

  /** How many white-space characters `s` begins with. */
  function LeadingSpaces(s: string): (k: nat)
    ensures k <= |s|
    ensures forall i :: 0 <= i < k ==> IsSpace(s[i])
    ensures k == |s| || !IsSpace(s[k])
  {
    if s != [] && IsSpace(s[0]) then
      var t := s[1..];
      assert forall i :: 0 <= i < |t| ==> t[i] == s[i + 1];
      LeadingSpaces(t) + 1
    else 0
  }

  /** How many white-space characters `s` ends with. */
  function TrailingSpaces(s: string): (k: nat)
    ensures k <= |s|
    ensures forall i :: |s| - k <= i < |s| ==> IsSpace(s[i])
    ensures k == |s| || !IsSpace(s[|s| - 1 - k])
  {
    if s != [] && IsSpace(s[|s| - 1]) then
      var t := s[..|s| - 1];
      assert forall i :: 0 <= i < |t| ==> t[i] == s[i];
      TrailingSpaces(t) + 1
    else 0
  }

  /** A run of white space that stops at the end or before a non-space is the whole run. */
  lemma LeadingSpacesUnique(s: string, k: nat)
    requires k <= |s|
    requires forall i :: 0 <= i < k ==> IsSpace(s[i])
    requires k == |s| || !IsSpace(s[k])
    ensures LeadingSpaces(s) == k
  {
  }

  /** `s` with its leading white space removed. */
  function TrimStart(s: string): (r: string)
    ensures |r| <= |s| && r == s[|s| - |r|..]
    ensures forall i :: 0 <= i < |s| - |r| ==> IsSpace(s[i])
    ensures r == [] || !IsSpace(r[0])
  {
    s[LeadingSpaces(s)..]
  }

  /** `s` with its trailing white space removed. */
  function TrimEnd(s: string): (r: string)
    ensures |r| <= |s| && r == s[..|r|]
    ensures forall i :: |r| <= i < |s| ==> IsSpace(s[i])
    ensures r == [] || !IsSpace(r[|r| - 1])
  {
    s[..|s| - TrailingSpaces(s)]
  }

  /** `String.prototype.trim`: white space cut off at both ends. */
  function Trim(s: string): (r: string)
    ensures |r| <= |s|
  {
    TrimEnd(TrimStart(s))
  }

  /** The trimmed string is a middle slice of `s`, and only white space is cut off. */
  lemma TrimSlice(s: string)
    ensures exists i, j ::
      && 0 <= i <= j <= |s|
      && Trim(s) == s[i..j]
      && (forall p :: 0 <= p < i ==> IsSpace(s[p]))
      && (forall p :: j <= p < |s| ==> IsSpace(s[p]))
  {
    var i, j := TrimCut(s);
  }

  /** Where `Trim` cuts `s`: after its leading white space and before its trailing one. */
  lemma TrimCut(s: string) returns (i: nat, j: nat)
    ensures i <= j <= |s| && Trim(s) == s[i..j]
    ensures forall p :: 0 <= p < i ==> IsSpace(s[p])
    ensures forall p :: j <= p < |s| ==> IsSpace(s[p])
  {
    i := LeadingSpaces(s);
    var k := TrailingSpaces(s[i..]);
    j := |s| - k;
    SuffixPrefix(s, i, j);
    SuffixSpaces(s, i, k);
  }

  lemma SuffixPrefix(s: string, i: nat, j: nat)
    requires i <= j <= |s|
    ensures s[i..][..j - i] == s[i..j]
  {
  }

  lemma SuffixSpaces(s: string, i: nat, k: nat)
    requires i <= |s| && k <= |s| - i
    requires forall q :: |s| - i - k <= q < |s| - i ==> IsSpace(s[i..][q])
    ensures forall p :: |s| - k <= p < |s| ==> IsSpace(s[p])
  {
    forall p | |s| - k <= p < |s|
      ensures IsSpace(s[p])
    {
      assert s[p] == s[i..][p - i];
    }
  }

  /** The trimmed string neither begins nor ends with white space. */
  lemma TrimEnds(s: string)
    ensures Trim(s) == [] || (!IsSpace(Trim(s)[0]) && !IsSpace(Trim(s)[|Trim(s)| - 1]))
  {
    var t := TrimStart(s);
    var r := TrimEnd(t);
    if r != [] {
      assert r[0] == t[0];
    }
  }

  /** Nothing is left exactly when `s` is all white space. */
  lemma TrimEmpty(s: string)
    ensures Trim(s) == [] <==> AllSpace(s)
  {
    var t := TrimStart(s);
    assert t == [] || !IsSpace(t[0]);
    assert Trim(s) == [] <==> t == [];
  }

  /** Trimming twice changes nothing. */
  lemma TrimIdempotent(s: string)
    ensures Trim(Trim(s)) == Trim(s)
  {
    TrimEnds(s);
    TrimOfTrimmed(Trim(s));
  }

  /** Trimming keeps only characters of `s`. */
  lemma TrimWithin(s: string, c: char)
    ensures c in Trim(s) ==> c in s
  {
    TrimStartWithin(s, c);
    TrimEndWithin(TrimStart(s), c);
  }

  lemma TrimStartWithin(s: string, c: char)
    ensures c in TrimStart(s) ==> c in s
  {
    var r := TrimStart(s);
    if c in r {
      var p :| 0 <= p < |r| && r[p] == c;
      assert s[|s| - |r| + p] == c;
    }
  }

  lemma TrimEndWithin(s: string, c: char)
    ensures c in TrimEnd(s) ==> c in s
  {
    var r := TrimEnd(s);
    if c in r {
      var p :| 0 <= p < |r| && r[p] == c;
      assert s[p] == c;
    }
  }

  /** A string already free of white space at its ends is its own trim. */
  lemma TrimOfTrimmed(s: string)
    requires s == [] || (!IsSpace(s[0]) && !IsSpace(s[|s| - 1]))
    ensures Trim(s) == s
  {
    if s != [] {
      assert TrimStart(s) == s;
    }
  }

  /** `s.split(sep)[0]`: the part of `s` before the first `sep`, or all of `s` when `sep`
      does not occur. */
  function BeforeFirst(s: string, sep: char): (r: string)
    ensures |r| <= |s| && r == s[..|r|]
    ensures sep !in r
    ensures |r| == |s| || s[|r|] == sep
  {
    if s == [] || s[0] == sep then [] else [s[0]] + BeforeFirst(s[1..], sep)
  }

  /** What precedes the first separator is cut off whole, whatever follows it. */
  lemma {:induction false} BeforeFirstOf(a: string, sep: char, b: string)
    requires sep !in a
    ensures BeforeFirst(a + [sep] + b, sep) == a
  {
    if a != [] {
      assert (a + [sep] + b)[1..] == a[1..] + [sep] + b;
      BeforeFirstOf(a[1..], sep, b);
      assert a == [a[0]] + a[1..];
    }
  }

  /** `s.replace(/[^0-9]/g, '')`: the decimal digits of `s`, in order. */
  function DigitsOnly(s: string): (r: string)
    ensures |r| <= |s|
    ensures AllDigits(r)
  {
    if s == [] then []
    else if IsDigit(s[0]) then [s[0]] + DigitsOnly(s[1..])
    else DigitsOnly(s[1..])
  }

  /** A string of digits only is left as it is. */
  lemma {:induction false} DigitsOnlyOfDigits(s: string)
    requires AllDigits(s)
    ensures DigitsOnly(s) == s
  {
    if s != [] {
      DigitsOnlyOfDigits(s[1..]);
    }
  }

  /** Nothing is left exactly when `s` holds no digit. */
  lemma {:induction false} DigitsOnlyEmpty(s: string)
    ensures DigitsOnly(s) == [] <==> forall i :: 0 <= i < |s| ==> !IsDigit(s[i])
  {
    if s != [] {
      DigitsOnlyEmpty(s[1..]);
      if !IsDigit(s[0]) {
        assert (forall i :: 0 <= i < |s| ==> !IsDigit(s[i]))
          <==> (forall i :: 0 <= i < |s[1..]| ==> !IsDigit(s[1..][i]));
      }
    }
  }

  /** Removing the non-digits of a concatenation removes them from each part. */
  lemma {:induction false} DigitsOnlyAppend(a: string, b: string)
    ensures DigitsOnly(a + b) == DigitsOnly(a) + DigitsOnly(b)
  {
    if a != [] {
      assert (a + b)[0] == a[0];
      assert (a + b)[1..] == a[1..] + b;
      DigitsOnlyAppend(a[1..], b);
    } else {
      assert a + b == b;
    }
  }

  /** Trimming first does not change which digits a string holds. */
  lemma DigitsOnlyTrim(s: string)
    ensures DigitsOnly(Trim(s)) == DigitsOnly(s)
  {
    DigitsOnlyTrimStart(s);
    DigitsOnlyTrimEnd(TrimStart(s));
  }

  lemma DigitsOnlyTrimStart(s: string)
    ensures DigitsOnly(TrimStart(s)) == DigitsOnly(s)
  {
    var k := LeadingSpaces(s);
    assert s == s[..k] + s[k..];
    DigitsOnlyAppend(s[..k], s[k..]);
    DigitsOnlySpaces(s[..k]);
  }

  lemma DigitsOnlyTrimEnd(s: string)
    ensures DigitsOnly(TrimEnd(s)) == DigitsOnly(s)
  {
    var k := |s| - TrailingSpaces(s);
    assert s == s[..k] + s[k..];
    DigitsOnlyAppend(s[..k], s[k..]);
    DigitsOnlySpaces(s[k..]);
    assert s[..k] + [] == s[..k];
  }

  /** White space holds no digit. */
  lemma DigitsOnlySpaces(s: string)
    requires AllSpace(s)
    ensures DigitsOnly(s) == []
  {
    DigitsOnlyEmpty(s);
  }

  /** The value of a digit character in radix 36 (`0`-`9`, then `a`-`z` or `A`-`Z`);
      36 for a character that is no digit in any radix `parseInt` accepts. */
  function DigitValue(c: char): (v: nat)
    ensures v <= 36
    ensures v < 10 <==> IsDigit(c)
  {
    if '0' <= c <= '9' then (c as int - '0' as int)
    else if 'a' <= c <= 'z' then (c as int - 'a' as int) + 10
    else if 'A' <= c <= 'Z' then (c as int - 'A' as int) + 10
    else 36
  }

  /** The longest prefix of `s` made of digits of the given radix. */
  function DigitRun(s: string, radix: nat): (z: string)
    ensures |z| <= |s| && z == s[..|z|]
    ensures forall i :: 0 <= i < |z| ==> DigitValue(z[i]) < radix
    ensures |z| == |s| || DigitValue(s[|z|]) >= radix
  {
    if s != [] && DigitValue(s[0]) < radix then [s[0]] + DigitRun(s[1..], radix) else []
  }

  /** The number the digits `z` denote in the given radix, most significant digit first. */
  function ValueOf(z: string, radix: nat): nat {
    if z == [] then 0 else ValueOf(z[..|z| - 1], radix) * radix + DigitValue(z[|z| - 1])
  }

  /** Appending one digit shifts the value by one place. */
  lemma ValueOfSnoc(z: string, c: char, radix: nat)
    ensures ValueOf(z + [c], radix) == ValueOf(z, radix) * radix + DigitValue(c)
  {
    assert (z + [c])[..|z|] == z;
  }

  /** What `parseInt` reads after the sign: a `0x`/`0X` prefix switches to radix 16, and the
      longest run of digits of the radix is the magnitude. `None` when that run is empty. */
  function ParseMagnitude(u: string): Option<nat> {
    if |u| >= 2 && u[0] == '0' && (u[1] == 'x' || u[1] == 'X') then
      var z := DigitRun(u[2..], 16);
      if z == [] then None else Some(ValueOf(z, 16))
    else
      var z := DigitRun(u, 10);
      if z == [] then None else Some(ValueOf(z, 10))
  }

  /** What `parseInt` reads once leading white space is gone: an optional sign, then the
      magnitude. */
  function ParseSigned(t: string): Option<int> {
    if t != [] && t[0] == '-' then
      match ParseMagnitude(t[1..])
      case None => None
      case Some(m) => Some(-(m as int))
    else if t != [] && t[0] == '+' then
      match ParseMagnitude(t[1..])
      case None => None
      case Some(m) => Some(m as int)
    else
      match ParseMagnitude(t)
      case None => None
      case Some(m) => Some(m as int)
  }

  /** The global `parseInt(s)` with no radix argument. `None` is NaN: no digit follows the
      optional white space, sign and `0x`/`0X` prefix. */
  function ParseInt(s: string): Option<int> {
    ParseSigned(TrimStart(s))
  }

  /** `parseInt(s) || 0`: NaN (and -0) become 0. */
  function IntOrZero(s: string): int {
    ParseInt(s).GetOr(0)
  }

  /** Without a single decimal digit `parseInt` yields NaN, so the coerced value is 0. */
  lemma ParseIntWithoutDigits(s: string)
    requires forall i :: 0 <= i < |s| ==> !IsDigit(s[i])
    ensures ParseInt(s) == None
    ensures IntOrZero(s) == 0
  {
    var t := TrimStart(s);
    assert t == [] || !IsDigit(t[0]) by {
      assert t == s[|s| - |t|..];
    }
    var u := if t != [] && (t[0] == '-' || t[0] == '+') then t[1..] else t;
    assert ParseMagnitude(u) == None by {
      assert u == [] || !IsDigit(u[0]) by {
        assert t == s[|s| - |t|..];
      }
      assert DigitRun(u, 10) == [];
    }
  }

  /** A non-empty string of decimal digits parses to the number it denotes. */
  lemma ParseIntDecimal(s: string)
    requires s != [] && AllDigits(s)
    ensures ParseInt(s) == Some(ValueOf(s, 10))
  {
    var v := ValueOf(s, 10);
    assert TrimStart(s) == s by {
      assert IsDigit(s[0]);
    }
    assert ParseMagnitude(s) == Some(v) by {
      assert |s| >= 2 ==> IsDigit(s[1]);
      DigitRunAll(s, 10);
    }
    assert IsDigit(s[0]);
    ParseSignedUnsigned(s, v);
  }

  /** Without a sign, `parseInt` reads the magnitude as it is. */
  lemma ParseSignedUnsigned(t: string, m: nat)
    requires t != [] && t[0] != '-' && t[0] != '+'
    requires ParseMagnitude(t) == Some(m)
    ensures ParseSigned(t) == Some(m)
  {
  }

  lemma {:induction false} DigitRunAll(s: string, radix: nat)
    requires forall i :: 0 <= i < |s| ==> DigitValue(s[i]) < radix
    ensures DigitRun(s, radix) == s
  {
    if s != [] {
      DigitRunAll(s[1..], radix);
    }
  }

  /** The decimal digit for `d`. */
  function DigitChar(d: nat): (c: char)
    requires d < 10
    ensures IsDigit(c) && DigitValue(c) == d
  {
    ('0' as int + d) as char
  }

  /** The shortest decimal spelling of `n`, as `Number.prototype.toString` writes it. */
  function Decimal(n: nat): (s: string)
    ensures s != [] && AllDigits(s)
    ensures s[0] == '0' ==> n == 0
  {
    if n < 10 then [DigitChar(n)] else Decimal(n / 10) + [DigitChar(n % 10)]
  }

  /** Reading back the decimal spelling of `n` gives `n`. */
  lemma {:induction false} DecimalRoundTrip(n: nat)
    ensures ValueOf(Decimal(n), 10) == n
    ensures ParseInt(Decimal(n)) == Some(n)
  {
    if n >= 10 {
      DecimalRoundTrip(n / 10);
      ValueOfSnoc(Decimal(n / 10), DigitChar(n % 10), 10);
    } else {
      assert Decimal(n)[..0] == [];
    }
    ParseIntDecimal(Decimal(n));
  }

  /** `parseInt` reads the leading number and ignores what follows its digits, as in
      `"120.5"` or `"98 bpm"`; a leading `-` negates it and leading white space is skipped. */
  lemma ParseIntPrefix(ws: string, minus: bool, n: nat, rest: string)
    requires AllSpace(ws)
    requires rest == [] || (!IsDigit(rest[0]) && (n > 0 || (rest[0] != 'x' && rest[0] != 'X')))
    ensures ParseInt(ws + (if minus then "-" else "") + Decimal(n) + rest)
         == Some(if minus then -(n as int) else n as int)
  {
    var v := Decimal(n) + rest;
    var signed := if minus then ['-'] + v else v;
    MagnitudeOfDecimal(n, rest);
    assert v[0] == Decimal(n)[0];
    SignedMagnitude(minus, v, n);
    ParseIntAfterSpaces(ws, signed);
    SignedSpelling(ws, minus, Decimal(n), rest);
  }

  /** An optional minus sign followed by a magnitude reads as the signed number. */
  lemma SignedMagnitude(minus: bool, v: string, n: nat)
    requires v != [] && IsDigit(v[0])
    requires ParseMagnitude(v) == Some(n)
    ensures var signed := if minus then ['-'] + v else v;
      && !IsSpace(signed[0])
      && ParseInt(signed) == Some(if minus then -(n as int) else n as int)
  {
    var signed := if minus then ['-'] + v else v;
    if minus {
      assert signed[0] == '-' && signed[1..] == v;
      TrimStartNoSpace(signed);
      ParseSignedNegative(signed, n);
    } else {
      DigitNotSpace(v[0]);
      TrimStartNoSpace(v);
      ParseSignedUnsigned(v, n);
    }
  }

  lemma DigitNotSpace(c: char)
    requires IsDigit(c)
    ensures !IsSpace(c) && c != '-' && c != '+'
  {
  }

  /** A string that does not begin with white space is its own `TrimStart`. */
  lemma TrimStartNoSpace(s: string)
    requires s == [] || !IsSpace(s[0])
    ensures TrimStart(s) == s
  {
  }

  /** After a minus sign, `parseInt` reads the magnitude and negates it. */
  lemma ParseSignedNegative(t: string, m: nat)
    requires t != [] && t[0] == '-'
    requires ParseMagnitude(t[1..]) == Some(m)
    ensures ParseSigned(t) == Some(-(m as int))
  {
  }

  lemma SignedSpelling(ws: string, minus: bool, d: string, rest: string)
    ensures ws + (if minus then "-" else "") + d + rest
         == ws + (if minus then ['-'] + (d + rest) else d + rest)
  {
    if minus {
      assert "-" == ['-'];
      AppendAssoc(ws + ['-'], d, rest);
      AppendAssoc(ws, ['-'], d + rest);
    } else {
      assert ws + "" == ws;
      AppendAssoc(ws, d, rest);
    }
  }

  lemma AppendAssoc<T>(a: seq<T>, b: seq<T>, c: seq<T>)
    ensures (a + b) + c == a + (b + c)
  {
  }

  /** Leading white space does not change what `parseInt` reads. */
  lemma ParseIntAfterSpaces(ws: string, u: string)
    requires AllSpace(ws)
    requires u == [] || !IsSpace(u[0])
    ensures ParseInt(ws + u) == ParseInt(u)
  {
    TrimStartSpaces(ws, u);
    TrimStartSpaces([], u);
    assert [] + u == u;
  }

  lemma MagnitudeOfDecimal(n: nat, rest: string)
    requires rest == [] || (!IsDigit(rest[0]) && (n > 0 || (rest[0] != 'x' && rest[0] != 'X')))
    ensures ParseMagnitude(Decimal(n) + rest) == Some(n)
  {
    var d := Decimal(n);
    var u := d + rest;
    assert !(|u| >= 2 && u[0] == '0' && (u[1] == 'x' || u[1] == 'X')) by {
      assert u[0] == d[0];
      if |u| >= 2 && u[0] == '0' {
        assert n == 0 && |d| == 1;
        assert u[1] == rest[0];
      }
    }
    assert DigitRun(u, 10) == d by {
      DigitRunAll(d, 10);
      DigitRunAppend(d, rest, 10);
    }
    DecimalRoundTrip(n);
  }

  lemma TrimStartSpaces(ws: string, s: string)
    requires AllSpace(ws)
    requires s == [] || !IsSpace(s[0])
    ensures TrimStart(ws + s) == s
  {
    var w := ws + s;
    assert forall i :: 0 <= i < |ws| ==> w[i] == ws[i];
    assert |w| == |ws| || w[|ws|] == s[0];
    LeadingSpacesUnique(w, |ws|);
    assert w[|ws|..] == s;
  }

  lemma {:induction false} DigitRunAppend(z: string, rest: string, radix: nat)
    requires forall i :: 0 <= i < |z| ==> DigitValue(z[i]) < radix
    requires rest == [] || DigitValue(rest[0]) >= radix
    ensures DigitRun(z + rest, radix) == z
  {
    if z != [] {
      assert (z + rest)[1..] == z[1..] + rest;
      DigitRunAppend(z[1..], rest, radix);
    } else {
      assert z + rest == rest;
    }
  }

  /** The three-digit, zero-padded spelling of `d` used between thousands separators. */
  function Pad3(d: nat): (s: string)
    requires d < 1000
    ensures |s| == 3 && AllDigits(s)
  {
    [DigitChar(d / 100), DigitChar(d / 10 % 10), DigitChar(d % 10)]
  }

  /** `n` written with a comma between each group of three digits, as in `"1,234,567"`:
      the format of the stream counts the cleaning step tolerates. */
  function Grouped(n: nat): (s: string)
    ensures s != []
  {
    if n < 1000 then Decimal(n) else Grouped(n / 1000) + [','] + Pad3(n % 1000)
  }

  /** Stripping the separators from a grouped count and reading the digits gives the count. */
  lemma {:induction false} GroupedRoundTrip(n: nat)
    ensures DigitsOnly(Grouped(n)) != []
    ensures ValueOf(DigitsOnly(Grouped(n)), 10) == n
  {
    if n < 1000 {
      DecimalRoundTrip(n);
      DigitsOnlyOfDigits(Decimal(n));
    } else {
      var g := Grouped(n / 1000);
      var p := Pad3(n % 1000);
      GroupedRoundTrip(n / 1000);
      GroupedDigits(g, p);
      var d := DigitsOnly(g);
      ValueOfPad3(d, n % 1000);
    }
  }

  lemma GroupedDigits(g: string, p: string)
    requires AllDigits(p)
    ensures DigitsOnly(g + [','] + p) == DigitsOnly(g) + p
  {
    calc {
      DigitsOnly(g + [','] + p);
    == { DigitsOnlyAppend(g + [','], p); DigitsOnlyOfDigits(p); }
      DigitsOnly(g + [',']) + p;
    == { DigitsOnlyAppend(g, [',']); }
      DigitsOnly(g) + DigitsOnly([',']) + p;
    == { assert DigitsOnly([',']) == DigitsOnly([]); }
      DigitsOnly(g) + [] + p;
    == { assert DigitsOnly(g) + [] == DigitsOnly(g); }
      DigitsOnly(g) + p;
    }
  }

  lemma ValueOfPad3(d: string, m: nat)
    requires m < 1000
    ensures ValueOf(d + Pad3(m), 10) == ValueOf(d, 10) * 1000 + m
  {
    var p := Pad3(m);
    assert d + p == ((d + [p[0]]) + [p[1]]) + [p[2]];
    ValueOfSnoc(d, p[0], 10);
    ValueOfSnoc(d + [p[0]], p[1], 10);
    ValueOfSnoc((d + [p[0]]) + [p[1]], p[2], 10);
    ThreeDigits(ValueOf(d, 10), m);
  }

  lemma ThreeDigits(v: int, m: nat)
    requires m < 1000
    ensures ((v * 10 + m / 100) * 10 + m / 10 % 10) * 10 + m % 10 == v * 1000 + m
  {
    var q, r := m / 100, m % 100;
    assert m == 100 * q + r && r < 100;
    assert m / 10 == 10 * q + r / 10;
    assert m / 10 % 10 == r / 10;
    assert m % 10 == r % 10;
  }
}
