/**
 * The string primitives of JavaScript that the backend relies on:
 * `trim`, `toLowerCase`, `startsWith`, `split`, `parseInt` and the
 * decimal rendering of an integer (a template literal `${n}`).
 */
module JsText {
  import opened Wrappers

  // ---------------------------------------------------------------------
  // trim
  // ---------------------------------------------------------------------

  /** The white space and line terminators that `String.prototype.trim` removes. */
  predicate IsWhitespace(c: char)
  {
    || c == ' ' || c == '\t' || c == '\n' || c == '\r' || c == '\U{000B}' || c == '\U{000C}'
    || c == '\U{00A0}' || c == '\U{1680}' || ('\U{2000}' <= c <= '\U{200A}')
    || c == '\U{2028}' || c == '\U{2029}' || c == '\U{202F}' || c == '\U{205F}'
    || c == '\U{3000}' || c == '\U{FEFF}'
  }

  /** Neither end of `s` is white space. */
  predicate IsTrimmed(s: string)
  {
    s == [] || (!IsWhitespace(s[0]) && !IsWhitespace(s[|s| - 1]))
  }

  /** `s` with its leading white space removed: a suffix of `s` preceded only by white space. */
  function TrimStart(s: string): (r: string)
    ensures |r| <= |s| && r == s[|s| - |r|..]
    ensures r == [] || !IsWhitespace(r[0])
    ensures forall i :: 0 <= i < |s| - |r| ==> IsWhitespace(s[i])
  {
    if |s| > 0 && IsWhitespace(s[0]) then TrimStart(s[1..]) else s
  }

  /** `s` with its trailing white space removed: a prefix of `s` followed only by white space. */
  function TrimEnd(s: string): (r: string)
    ensures |r| <= |s| && r == s[..|r|]
    ensures r == [] || !IsWhitespace(r[|r| - 1])
    ensures forall i :: |r| <= i < |s| ==> IsWhitespace(s[i])
  {
    if |s| > 0 && IsWhitespace(s[|s| - 1]) then TrimEnd(s[..|s| - 1]) else s
  }

  /** `String.prototype.trim`. */
  function Trim(s: string): (r: string)
    ensures IsTrimmed(r)
    ensures |r| <= |s|
    ensures exists a, b :: 0 <= a <= b <= |s| && r == s[a..b]
                           && (forall i :: 0 <= i < a || b <= i < |s| ==> IsWhitespace(s[i]))
  {
    var t := TrimStart(s);
    var r := TrimEnd(t);
    assert r != [] ==> r[0] == t[0];
    TrimIsSlice(s, t, r);
    r
  }

  /** Dropping white space from the front and then from the back keeps a slice of `s` and drops only white space around it. */
  lemma TrimIsSlice(s: string, t: string, r: string)
    requires |t| <= |s| && t == s[|s| - |t|..] && forall i :: 0 <= i < |s| - |t| ==> IsWhitespace(s[i])
    requires |r| <= |t| && r == t[..|r|] && forall i :: |r| <= i < |t| ==> IsWhitespace(t[i])
    ensures exists a, b :: 0 <= a <= b <= |s| && r == s[a..b]
                           && (forall i :: 0 <= i < a || b <= i < |s| ==> IsWhitespace(s[i]))
  {
    var a := |s| - |t|;
    var b := a + |r|;
    assert r == s[a..b];
    forall i | 0 <= i < a || b <= i < |s| ensures IsWhitespace(s[i]) {
      if b <= i {
        assert s[i] == t[i - a];
      }
    }
  }

  lemma {:induction false} TrimStartOfTrimmed(s: string)
    requires s == [] || !IsWhitespace(s[0])
    ensures TrimStart(s) == s
  {
  }

  lemma {:induction false} TrimEndOfTrimmed(s: string)
    requires s == [] || !IsWhitespace(s[|s| - 1])
    ensures TrimEnd(s) == s
  {
  }

  /** Trimming a string that has no white space at either end changes nothing. */
  lemma {:induction false} TrimOfTrimmed(s: string)
    requires IsTrimmed(s)
    ensures Trim(s) == s
  {
    TrimStartOfTrimmed(s);
    TrimEndOfTrimmed(s);
  }

  /** `trim` is idempotent. */
  lemma {:induction false} TrimIdempotent(s: string)
    ensures Trim(Trim(s)) == Trim(s)
  {
    TrimOfTrimmed(Trim(s));
  }

  /** `trim` yields the empty string exactly when the input is all white space. */
  lemma {:induction false} TrimEmpty(s: string)
    ensures Trim(s) == [] <==> forall i :: 0 <= i < |s| ==> IsWhitespace(s[i])
  {
    var t := TrimStart(s);
    if t != [] {
      assert t[0] == s[|s| - |t|];
    }
  }

  // ---------------------------------------------------------------------
  // toLowerCase
  // ---------------------------------------------------------------------

  predicate IsUpperAscii(c: char)
  {
    'A' <= c <= 'Z'
  }

  function LowerChar(c: char): (r: char)
    ensures !IsUpperAscii(r)
    ensures IsWhitespace(r) <==> IsWhitespace(c)
  {
    if IsUpperAscii(c) then (c as int + 32) as char else c
  }

  /** `String.prototype.toLowerCase` on the ASCII letters. */
  function ToLower(s: string): (r: string)
    ensures |r| == |s|
    ensures forall i :: 0 <= i < |r| ==> !IsUpperAscii(r[i])
    ensures forall i :: 0 <= i < |s| ==> r[i] == LowerChar(s[i])
  {
    seq(|s|, i requires 0 <= i < |s| => LowerChar(s[i]))
  }

  /** Lower-casing is idempotent. */
  lemma ToLowerIdempotent(s: string)
    ensures ToLower(ToLower(s)) == ToLower(s)
  {
    assert forall i :: 0 <= i < |s| ==> ToLower(ToLower(s))[i] == ToLower(s)[i];
  }

  lemma ToLowerSlice(s: string, i: nat, j: nat)
    requires i <= j <= |s|
    ensures ToLower(s[i..j]) == ToLower(s)[i..j]
  {
  }

  lemma {:induction false} TrimStartToLower(s: string)
    ensures TrimStart(ToLower(s)) == ToLower(TrimStart(s))
    decreases |s|
  {
    var l := ToLower(s);
    if |s| > 0 {
      assert l[0] == LowerChar(s[0]);
      if IsWhitespace(s[0]) {
        ToLowerSlice(s, 1, |s|);
        assert s[1..|s|] == s[1..] && l[1..|s|] == l[1..];
        TrimStartStep(s);
        TrimStartStep(l);
        TrimStartToLower(s[1..]);
      } else {
        TrimStartOfTrimmed(s);
        TrimStartOfTrimmed(l);
      }
    }
  }

  lemma TrimStartStep(s: string)
    requires |s| > 0 && IsWhitespace(s[0])
    ensures TrimStart(s) == TrimStart(s[1..])
  {
  }

  lemma {:induction false} TrimEndToLower(s: string)
    ensures TrimEnd(ToLower(s)) == ToLower(TrimEnd(s))
    decreases |s|
  {
    var l := ToLower(s);
    if |s| > 0 {
      assert l[|s| - 1] == LowerChar(s[|s| - 1]);
      if IsWhitespace(s[|s| - 1]) {
        ToLowerSlice(s, 0, |s| - 1);
        assert TrimEnd(l) == TrimEnd(l[..|s| - 1]);
        TrimEndToLower(s[..|s| - 1]);
      } else {
        assert TrimEnd(l) == l;
      }
    }
  }

  /**
   * Trimming and lower-casing commute, so the order in which a schema applies
   * its `trim` and `lowercase` setters does not matter.
   */
  lemma {:induction false} TrimToLowerCommute(s: string)
    ensures Trim(ToLower(s)) == ToLower(Trim(s))
  {
    TrimStartToLower(s);
    TrimEndToLower(TrimStart(s));
  }

  // ---------------------------------------------------------------------
  // startsWith and split
  // ---------------------------------------------------------------------

  /** JavaScript truthiness of an optional string field: `undefined` and `""` are falsy. */
  function Truthy(v: Option<string>): (truthy: bool)
    ensures v.None? ==> !truthy
    ensures v == Some("") ==> !truthy
    ensures v.Some? && v.value != "" ==> truthy
  {
    v.Some? && v.value != ""
  }

  /** `String.prototype.startsWith`. */
  function StartsWith(s: string, prefix: string): (b: bool)
    ensures b <==> exists rest :: s == prefix + rest
  {
    if |prefix| <= |s| && s[..|prefix|] == prefix then
      assert s == prefix + s[|prefix|..];
      true
    else
      assert forall rest :: s == prefix + rest ==> s[..|prefix|] == prefix;
      false
  }

  /** `String.prototype.split` with a one-character separator: the fields between separators. */
  function Split(s: string, sep: char): (parts: seq<string>)
    ensures |parts| >= 1
    ensures forall i :: 0 <= i < |parts| ==> sep !in parts[i]
  {
    if |s| == 0 then [""]
    else
      var rest := Split(s[1..], sep);
      if s[0] == sep then [""] + rest
      else [[s[0]] + rest[0]] + rest[1..]
  }

  /** `Array.prototype.join` with a one-character separator. */
  function Join(parts: seq<string>, sep: char): (r: string)
    requires |parts| >= 1
    ensures |parts[0]| <= |r| && r[..|parts[0]|] == parts[0]
  {
    if |parts| == 1 then parts[0] else parts[0] + [sep] + Join(parts[1..], sep)
  }

  /** A string without the separator is a single field. */
  lemma {:induction false} SplitNoSeparator(s: string, sep: char)
    requires sep !in s
    ensures Split(s, sep) == [s]
    decreases |s|
  {
    if |s| > 0 {
      SplitNoSeparator(s[1..], sep);
      assert s[0] != sep && [s[0]] + s[1..] == s;
    }
  }

  /** The first field of `a + [sep] + b` is `a` when `a` has no separator. */
  lemma {:induction false} SplitFirstField(a: string, sep: char, b: string)
    requires sep !in a
    ensures Split(a + [sep] + b, sep) == [a] + Split(b, sep)
    decreases |a|
  {
    var s := a + [sep] + b;
    if |a| == 0 {
      assert s[1..] == b;
    } else {
      assert s[1..] == a[1..] + [sep] + b;
      SplitFirstField(a[1..], sep, b);
      assert [a[0]] + a[1..] == a;
    }
  }

  /** Joining the fields of a split gives back the string. */
  lemma {:induction false} JoinSplit(s: string, sep: char)
    ensures Join(Split(s, sep), sep) == s
    decreases |s|
  {
    if |s| > 0 {
      JoinSplit(s[1..], sep);
      var rest := Split(s[1..], sep);
      if s[0] != sep {
        var parts := Split(s, sep);
        assert parts[1..] == rest[1..];
        if |rest| > 1 {
          assert rest == [rest[0]] + rest[1..];
        }
      }
    }
  }

  /** Splitting a join of separator-free fields gives back the fields. */
  lemma {:induction false} SplitJoin(parts: seq<string>, sep: char)
    requires |parts| >= 1
    requires forall i :: 0 <= i < |parts| ==> sep !in parts[i]
    ensures Split(Join(parts, sep), sep) == parts
    decreases |parts|
  {
    if |parts| == 1 {
      SplitNoSeparator(parts[0], sep);
    } else {
      SplitJoin(parts[1..], sep);
      SplitFirstField(parts[0], sep, Join(parts[1..], sep));
    }
  }

  // ---------------------------------------------------------------------
  // decimal rendering
  // ---------------------------------------------------------------------

  predicate IsDigit(c: char)
  {
    '0' <= c <= '9'
  }

  function DigitChar(d: nat): (c: char)
    requires d < 10
    ensures IsDigit(c) && c as int - '0' as int == d
  {
    ('0' as int + d) as char
  }

  /** The decimal digits of `n`, without leading zeros. */
  function NatToDecimal(n: nat): (s: string)
    ensures |s| >= 1
    ensures forall i :: 0 <= i < |s| ==> IsDigit(s[i])
  {
    if n < 10 then [DigitChar(n)] else NatToDecimal(n / 10) + [DigitChar(n % 10)]
  }

  /** The most significant decimal digit of `n`. */
  function LeadingDigit(n: nat): (d: nat)
    ensures d < 10
    ensures n > 0 ==> d > 0
  {
    if n < 10 then n else LeadingDigit(n / 10)
  }

  /** The first character of the decimal rendering is the leading digit. */
  lemma {:induction false} NatToDecimalFirst(n: nat)
    ensures NatToDecimal(n)[0] == DigitChar(LeadingDigit(n))
  {
    if n >= 10 {
      NatToDecimalFirst(n / 10);
    }
  }

  /** The rendering of `n` by a template literal `${n}`. */
  function IntToString(i: int): (s: string)
    ensures |s| >= 1
    ensures s[0] == '-' <==> i < 0
  {
    if i < 0 then "-" + NatToDecimal(-i) else NatToDecimal(i)
  }

  // ---------------------------------------------------------------------
  // parseInt
  // ---------------------------------------------------------------------

  /** The value of `c` as a digit in base `radix` (10 or 16), if it is one. */
  function DigitValue(c: char, radix: nat): (d: Option<nat>)
    ensures d.Some? ==> d.value < radix || (radix < 16 && d.value < 16)
  {
    if '0' <= c <= '9' && (c as int - '0' as int) < radix then Some(c as int - '0' as int)
    else if radix == 16 && 'a' <= c <= 'f' then Some(c as int - 'a' as int + 10)
    else if radix == 16 && 'A' <= c <= 'F' then Some(c as int - 'A' as int + 10)
    else None
  }

  /** The length of the longest prefix of `s` made of digits of base `radix`. */
  function DigitPrefixLength(s: string, radix: nat): (n: nat)
    ensures n <= |s|
    ensures forall i :: 0 <= i < n ==> DigitValue(s[i], radix).Some?
    ensures n < |s| ==> DigitValue(s[n], radix).None?
  {
    if |s| > 0 && DigitValue(s[0], radix).Some? then 1 + DigitPrefixLength(s[1..], radix) else 0
  }

  /** The number written by the digits `s` in base `radix`. */
  function DigitsValue(s: string, radix: nat): (n: nat)
    requires forall i :: 0 <= i < |s| ==> DigitValue(s[i], radix).Some?
  {
    if s == [] then 0
    else DigitsValue(s[..|s| - 1], radix) * radix + DigitValue(s[|s| - 1], radix).value
  }

  /** Reading back the decimal rendering of `n` gives `n`. */
  lemma {:induction false} DecimalRoundTrip(n: nat)
    ensures forall i :: 0 <= i < |NatToDecimal(n)| ==> DigitValue(NatToDecimal(n)[i], 10).Some?
    ensures DigitsValue(NatToDecimal(n), 10) == n
  {
    var s := NatToDecimal(n);
    if n >= 10 {
      DecimalRoundTrip(n / 10);
      assert s[..|s| - 1] == NatToDecimal(n / 10);
    }
  }

  /**
   * `parseInt(s)` (no radix): skip leading white space, read an optional sign,
   * switch to base 16 after a `0x` or `0X`, then read the longest run of digits.
   * `None` stands for NaN, the result when there is no digit to read.
   */
  function ParseInt(s: string): (r: Option<int>)
    ensures (forall i :: 0 <= i < |s| ==> IsWhitespace(s[i])) ==> r.None?
  {
    var t := TrimStart(s);
    assert (forall i :: 0 <= i < |s| ==> IsWhitespace(s[i])) ==> t == [] by {
      if t != [] { assert t[0] == s[|s| - |t|]; }
    }
    ParseTrimmed(t)
  }

  /** `parseInt` after the leading white space: an optional sign, then the magnitude. */
  function ParseTrimmed(t: string): (r: Option<int>)
    ensures t == [] ==> r.None?
  {
    if |t| > 0 && t[0] == '-' then
      var m := ParseUnsigned(t[1..]);
      if m.Some? then Some(-m.value) else None
    else if |t| > 0 && t[0] == '+' then ParseUnsigned(t[1..])
    else ParseUnsigned(t)
  }

  /** The magnitude: base 16 after `0x` or `0X`, base 10 otherwise, over the longest digit run. */
  function ParseUnsigned(u: string): (r: Option<int>)
    ensures r.Some? ==> r.value >= 0
    ensures u == [] ==> r.None?
  {
    var hex := HexPrefixed(u);
    var radix := if hex then 16 else 10;
    var body := if hex then u[2..] else u;
    var n := DigitPrefixLength(body, radix);
    if n == 0 then None else Some(DigitsValue(body[..n], radix))
  }

  /** `u` starts with `0x` or `0X`. */
  predicate HexPrefixed(u: string)
  {
    |u| >= 2 && u[0] == '0' && (u[1] == 'x' || u[1] == 'X')
  }

  /** The digit run of a rendered natural number is the whole rendering. */
  lemma DecimalDigitRun(n: nat)
    ensures DigitPrefixLength(NatToDecimal(n), 10) == |NatToDecimal(n)|
  {
    var d := NatToDecimal(n);
    DecimalRoundTrip(n);
  }

  /** A rendered natural number never starts with `0x` or `0X`. */
  lemma DecimalNotHex(n: nat)
    ensures !HexPrefixed(NatToDecimal(n))
  {
    var d := NatToDecimal(n);
    if |d| >= 2 {
      assert IsDigit(d[1]);
    }
  }

  /** The magnitude read from the rendering of a natural number is that number. */
  lemma ParseUnsignedDecimal(m: nat)
    ensures ParseUnsigned(NatToDecimal(m)) == Some(m)
  {
    var d := NatToDecimal(m);
    DecimalRoundTrip(m);
    DecimalDigitRun(m);
    DecimalNotHex(m);
    assert d[..|d|] == d;
  }

  /** `parseInt` reads back the rendering of any integer. */
  lemma {:induction false} ParseIntOfIntToString(i: int)
    ensures ParseInt(IntToString(i)) == Some(i)
  {
    var m: nat := if i < 0 then -i else i;
    ParseIntOfNatToDecimal(m);
    if i < 0 {
      var s := IntToString(i);
      assert s[0] == '-' && s[1..] == NatToDecimal(m);
      ParseIntMinus(s);
    }
  }

  /** `parseInt` reads back the rendering of a natural number, which is unsigned text. */
  lemma ParseIntOfNatToDecimal(m: nat)
    ensures Unsigned(NatToDecimal(m))
    ensures ParseInt(NatToDecimal(m)) == Some(m)
  {
    var d := NatToDecimal(m);
    ParseUnsignedDecimal(m);
    assert IsDigit(d[0]);
    ParseIntUnsigned(d);
  }

  /** Leading white space does not change what `parseInt` reads. */
  lemma ParseIntSkipsWhitespace(s: string)
    ensures ParseInt(s) == ParseInt(TrimStart(s))
  {
    TrimStartOfTrimmed(TrimStart(s));
    ParseIntTrims(s);
    ParseIntTrims(TrimStart(s));
  }

  /** `parseInt` is reading a number after the leading white space. */
  lemma ParseIntTrims(s: string)
    ensures ParseInt(s) == ParseTrimmed(TrimStart(s))
  {
  }

  /** Without leading white space, `parseInt` reads the sign and the number at once. */
  lemma ParseIntOfTrimmed(t: string)
    requires t == [] || !IsWhitespace(t[0])
    ensures ParseInt(t) == ParseTrimmed(t)
  {
    TrimStartOfTrimmed(t);
    ParseIntTrims(t);
  }

  /** Text that starts with neither white space nor a sign. */
  predicate Unsigned(t: string)
  {
    t == [] || (!IsWhitespace(t[0]) && t[0] != '-' && t[0] != '+')
  }

  /** Text with neither leading white space nor a sign is read as a magnitude. */
  lemma ParseIntUnsigned(t: string)
    requires Unsigned(t)
    ensures ParseInt(t) == ParseUnsigned(t)
  {
    TrimStartOfTrimmed(t);
    ParseIntTrims(t);
  }

  /** After the leading white space, a `-` negates what follows. */
  lemma ParseTrimmedMinus(t: string)
    requires |t| > 0 && t[0] == '-'
    ensures ParseTrimmed(t) == if ParseUnsigned(t[1..]).Some? then Some(-ParseUnsigned(t[1..]).value) else None
  {
  }

  /** After the leading white space, a `+` is skipped. */
  lemma ParseTrimmedPlus(t: string)
    requires |t| > 0 && t[0] == '+'
    ensures ParseTrimmed(t) == ParseUnsigned(t[1..])
  {
  }

  /** A leading `-` negates the number read after it, and NaN stays NaN. */
  lemma ParseIntMinus(m: string)
    requires |m| > 0 && m[0] == '-' && Unsigned(m[1..])
    ensures ParseInt(m[1..]).Some? ==> ParseInt(m) == Some(-ParseInt(m[1..]).value)
    ensures ParseInt(m[1..]).None? ==> ParseInt(m).None?
  {
    var u := m[1..];
    var a := ParseUnsigned(u);
    ParseIntUnsigned(u);
    ParseIntOfTrimmed(m);
    ParseTrimmedMinus(m);
    assert ParseInt(m) == if a.Some? then Some(-a.value) else None;
  }

  /** A leading `+` is skipped. */
  lemma ParseIntPlus(p: string)
    requires |p| > 0 && p[0] == '+' && Unsigned(p[1..])
    ensures ParseInt(p) == ParseInt(p[1..])
  {
    ParseIntOfTrimmed(p);
    ParseTrimmedPlus(p);
    ParseIntUnsigned(p[1..]);
  }

  /** The longest digit run of `d + rest` is `d` when `rest` does not go on with a digit. */
  lemma {:induction false} DigitRunLength(d: string, rest: string, radix: nat)
    requires forall i :: 0 <= i < |d| ==> DigitValue(d[i], radix).Some?
    requires rest == [] || DigitValue(rest[0], radix).None?
    ensures DigitPrefixLength(d + rest, radix) == |d|
  {
    if d != [] {
      assert (d + rest)[0] == d[0];
      assert (d + rest)[1..] == d[1..] + rest;
      DigitRunLength(d[1..], rest, radix);
    }
  }

  /** A run of decimal digits `d`, not followed by another digit, is read as its decimal value. */
  lemma ParseIntDecimal(d: string, rest: string)
    requires |d| > 0 && forall i :: 0 <= i < |d| ==> DigitValue(d[i], 10).Some?
    requires rest == [] || DigitValue(rest[0], 10).None?
    requires !HexPrefixed(d + rest)
    ensures ParseInt(d + rest) == Some(DigitsValue(d, 10))
  {
    var u := d + rest;
    assert u[0] == d[0];
    ParseIntUnsigned(u);
    ParseUnsignedDecimalRun(u, d, rest);
  }

  /** The magnitude of decimal text whose digit run is `d`. */
  lemma ParseUnsignedDecimalRun(u: string, d: string, rest: string)
    requires !HexPrefixed(u) && u == d + rest
    requires |d| > 0 && forall i :: 0 <= i < |d| ==> DigitValue(d[i], 10).Some?
    requires rest == [] || DigitValue(rest[0], 10).None?
    ensures ParseUnsigned(u) == Some(DigitsValue(d, 10))
  {
    DigitRunLength(d, rest, 10);
    assert u[..|d|] == d;
  }

  /** The magnitude of hex text whose digit run is `h`. */
  lemma ParseUnsignedHex(u: string, h: string, rest: string)
    requires HexPrefixed(u) && u[2..] == h + rest
    requires |h| > 0 && forall i :: 0 <= i < |h| ==> DigitValue(h[i], 16).Some?
    requires rest == [] || DigitValue(rest[0], 16).None?
    ensures ParseUnsigned(u) == Some(DigitsValue(h, 16))
  {
    DigitRunLength(h, rest, 16);
    assert (h + rest)[..|h|] == h;
  }

  /** After `0x` or `0X`, a run of hex digits `h`, not followed by another, is read as its base-16 value. */
  lemma ParseIntHex(p: string, h: string, rest: string)
    requires |p| == 2 && HexPrefixed(p)
    requires |h| > 0 && forall i :: 0 <= i < |h| ==> DigitValue(h[i], 16).Some?
    requires rest == [] || DigitValue(rest[0], 16).None?
    ensures ParseInt(p + h + rest) == Some(DigitsValue(h, 16))
  {
    var x := h + rest;
    var u := p + x;
    assert p + h + rest == u;
    assert u[0] == '0' && u[1] == p[1] && u[2..] == x;
    ParseIntUnsigned(u);
    ParseUnsignedHex(u, h, rest);
  }

  /** Unsigned text reads as NaN exactly when no digit of its base comes first. */
  lemma ParseIntNaN(u: string)
    requires Unsigned(u)
    ensures ParseInt(u).None? <==>
      if HexPrefixed(u) then |u| == 2 || DigitValue(u[2], 16).None? else u == [] || !IsDigit(u[0])
  {
    ParseIntUnsigned(u);
  }
}
