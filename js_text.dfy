/** Models of the few JavaScript string and number primitives that the site's
    scripts rely on: String.prototype.split with a one-character separator,
    parseInt with its default radix, the text of a number in a template
    literal, ASCII toLowerCase, and Math.max / Math.min / subtraction on
    numbers that may be NaN. A JavaScript number that may be NaN is an
    Option<int>, with None standing for NaN. */
module JsText {

  datatype Option<+T> = None | Some(value: T)

  // ---------------------------------------------------------------------------
  // s.split(sep) for a one-character separator
  // ---------------------------------------------------------------------------

  /** The pieces of s between occurrences of sep, in order; an empty string and
      a string without sep both give a single piece. */
  function Split(s: string, sep: char): (parts: seq<string>)
    ensures |parts| >= 1
    decreases |s|
  {
    if s == [] then [""]
    else
      var rest := Split(s[1..], sep);
      if s[0] == sep then [""] + rest
      else [[s[0]] + rest[0]] + rest[1..]
  }

  /** parts.join(sep): the reference that Split inverts. */
  function Join(parts: seq<string>, sep: char): string
    requires |parts| >= 1
  {
    if |parts| == 1 then parts[0] else parts[0] + [sep] + Join(parts[1..], sep)
  }

  /** Joining the pieces back with the separator restores the string. */
  lemma {:induction false} JoinSplit(s: string, sep: char)
    ensures Join(Split(s, sep), sep) == s
    decreases |s|
  {
    if s != [] {
      var rest := Split(s[1..], sep);
      JoinSplit(s[1..], sep);
      if s[0] == sep {
        assert Split(s, sep)[1..] == rest;
      } else if |rest| == 1 {
        assert Split(s, sep) == [[s[0]] + rest[0]];
      } else {
        assert Split(s, sep)[1..] == rest[1..];
        assert Join(rest, sep) == rest[0] + [sep] + Join(rest[1..], sep);
      }
    }
  }

  /** No piece contains the separator. */
  lemma {:induction false} SplitPiecesFree(s: string, sep: char)
    ensures forall i :: 0 <= i < |Split(s, sep)| ==> sep !in Split(s, sep)[i]
    decreases |s|
  {
    if s != [] {
      SplitPiecesFree(s[1..], sep);
    }
  }

  /** Text before the first separator becomes the head of the first piece;
      the other pieces are those of the remainder. */
  lemma {:induction false} SplitPrefix(a: string, b: string, sep: char)
    requires sep !in a
    ensures Split(a + b, sep)[0] == a + Split(b, sep)[0]
    ensures Split(a + b, sep)[1..] == Split(b, sep)[1..]
    decreases |a|
  {
    if a != [] {
      assert (a + b)[0] == a[0] && a[0] != sep;
      assert (a + b)[1..] == a[1..] + b;
      SplitPrefix(a[1..], b, sep);
      var rest := Split(a[1..] + b, sep);
      var whole := Split(a + b, sep);
      assert whole == [[a[0]] + rest[0]] + rest[1..];
      assert whole[0] == [a[0]] + rest[0];
      assert whole[1..] == rest[1..];
      assert rest[0] == a[1..] + Split(b, sep)[0];
      assert [a[0]] + (a[1..] + Split(b, sep)[0]) == a + Split(b, sep)[0];
    } else {
      assert a + b == b;
    }
  }

  /** A string without the separator splits into itself alone. */
  lemma SplitWithout(s: string, sep: char)
    requires sep !in s
    ensures Split(s, sep) == [s]
  {
    SplitPrefix(s, [], sep);
    assert s + [] == s;
  }

  /** Splitting at the first separator: the head, then the pieces of the tail. */
  lemma SplitAt(a: string, b: string, sep: char)
    requires sep !in a
    ensures Split(a + [sep] + b, sep) == [a] + Split(b, sep)
  {
    SplitPrefix(a, [sep] + b, sep);
    assert a + [sep] + b == a + ([sep] + b);
    assert ([sep] + b)[1..] == b;
    assert Split([sep] + b, sep) == [""] + Split(b, sep);
    var whole := Split(a + [sep] + b, sep);
    assert whole[0] == a + "" == a;
    assert whole[1..] == Split(b, sep);
    assert whole == [whole[0]] + whole[1..];
  }

  /** There is a second piece exactly when the separator occurs. */
  lemma {:induction false} SplitHasSecond(s: string, sep: char)
    ensures |Split(s, sep)| >= 2 <==> sep in s
    decreases |s|
  {
    if s != [] {
      SplitHasSecond(s[1..], sep);
      assert sep in s <==> s[0] == sep || sep in s[1..];
    }
  }

  // ---------------------------------------------------------------------------
  // parseInt(s) with no radix argument
  // ---------------------------------------------------------------------------

  /** The ASCII white space that parseInt skips before the number. */
  predicate IsSpace(c: char)
  {
    c == ' ' || c == '\t' || c == '\n' || c == '\r' || c as int == 11 || c as int == 12
  }

  /** s without its leading white space. */
  function TrimStart(s: string): (r: string)
    ensures |r| <= |s| && r == s[|s| - |r|..]
    ensures r != [] ==> !IsSpace(r[0])
  {
    if s != [] && IsSpace(s[0]) then TrimStart(s[1..]) else s
  }

  /** The value of c as a digit in the given radix (10 or 16), or -1. */
  function DigitValue(c: char, radix: nat): (d: int)
    ensures -1 <= d < radix || (d == -1 && radix <= 10)
  {
    if '0' <= c <= '9' && (c as int - '0' as int) < radix then c as int - '0' as int
    else if radix == 16 && 'a' <= c <= 'f' then c as int - 'a' as int + 10
    else if radix == 16 && 'A' <= c <= 'F' then c as int - 'A' as int + 10
    else -1
  }

  predicate IsDigit(c: char, radix: nat)
  {
    DigitValue(c, radix) >= 0
  }

  /** The length of the longest prefix of s made of digits. */
  function DigitRun(s: string, radix: nat): (k: nat)
    ensures k <= |s|
    ensures k < |s| ==> !IsDigit(s[k], radix)
  {
    if s != [] && IsDigit(s[0], radix) then 1 + DigitRun(s[1..], radix) else 0
  }

  /** Every character of the run is a digit. */
  lemma {:induction false} DigitRunDigits(s: string, radix: nat)
    ensures forall i :: 0 <= i < DigitRun(s, radix) ==> IsDigit(s[i], radix)
  {
    if s != [] && IsDigit(s[0], radix) {
      DigitRunDigits(s[1..], radix);
      assert forall i :: 1 <= i < DigitRun(s, radix) ==> s[i] == s[1..][i - 1];
    }
  }

  /** The value of a string of digits, most significant first. */
  function DigitsValue(ds: string, radix: nat): nat
    requires forall i :: 0 <= i < |ds| ==> IsDigit(ds[i], radix)
  {
    if ds == [] then 0
    else
      var prefix := ds[..|ds| - 1];
      assert forall i :: 0 <= i < |prefix| ==> prefix[i] == ds[i];
      var high: nat := DigitsValue(prefix, radix);
      assert IsDigit(ds[|ds| - 1], radix);
      var last: nat := DigitValue(ds[|ds| - 1], radix);
      var shifted: nat := high * radix;
      shifted + last
  }

  /** The magnitude parseInt reads after the sign: a "0x" or "0X" prefix
      selects radix 16, then as many digits as there are; no digit is NaN. */
  function ParseMagnitude(u: string): Option<nat>
  {
    var hex := |u| >= 2 && u[0] == '0' && (u[1] == 'x' || u[1] == 'X');
    var radix := if hex then 16 else 10;
    var d := if hex then u[2..] else u;
    var k := DigitRun(d, radix);
    DigitRunDigits(d, radix);
    if k == 0 then None else Some(DigitsValue(d[..k], radix))
  }

  /** parseInt(s): skip white space, take an optional sign, then the
      magnitude; no digit at all is NaN (None). */
  function ParseInt(s: string): Option<int>
  {
    ParseSigned(TrimStart(s))
  }

  /** An optional sign, then the magnitude. */
  function ParseSigned(t: string): Option<int>
  {
    var negative := t != [] && t[0] == '-';
    var rest := if t != [] && (t[0] == '-' || t[0] == '+') then t[1..] else t;
    match ParseMagnitude(rest)
    case None => None
    case Some(m) => Some(if negative then -(m as int) else m as int)
  }

  // ---------------------------------------------------------------------------
  // `${n}` for an integral number n, and NaN
  // ---------------------------------------------------------------------------

  function DecimalChar(d: nat): (c: char)
    requires d < 10
    ensures IsDigit(c, 10) && DigitValue(c, 10) == d
  {
    ('0' as int + d) as char
  }

  /** The decimal digits of n, without leading zeros. */
  function NatToString(n: nat): (r: string)
    ensures |r| >= 1
  {
    if n < 10 then [DecimalChar(n)]
    else NatToString(n / 10) + [DecimalChar(n % 10)]
  }

  /** The decimal text of n is made of digits whose value is n. */
  lemma {:induction false} NatToStringDigits(n: nat)
    ensures forall i :: 0 <= i < |NatToString(n)| ==> IsDigit(NatToString(n)[i], 10)
    ensures DigitsValue(NatToString(n), 10) == n
  {
    var r := NatToString(n);
    if n >= 10 {
      NatToStringDigits(n / 10);
      assert r[..|r| - 1] == NatToString(n / 10);
      assert forall i :: 0 <= i < |r| - 1 ==> r[i] == NatToString(n / 10)[i];
    }
  }

  function IntToString(n: int): string
  {
    if n < 0 then "-" + NatToString(-n) else NatToString(n)
  }

  /** How a template literal renders a number that may be NaN. */
  function NumberText(v: Option<int>): string
  {
    match v
    case None => "NaN"
    case Some(n) => IntToString(n)
  }

  lemma {:induction false} AllDigitsRun(ds: string, radix: nat)
    requires forall i :: 0 <= i < |ds| ==> IsDigit(ds[i], radix)
    ensures DigitRun(ds, radix) == |ds|
  {
    if ds != [] {
      AllDigitsRun(ds[1..], radix);
    }
  }

  /** The magnitude of a plain run of decimal digits is their value. */
  lemma MagnitudeOfDigits(ds: string)
    requires |ds| >= 1
    requires forall i :: 0 <= i < |ds| ==> IsDigit(ds[i], 10)
    ensures ParseMagnitude(ds) == Some(DigitsValue(ds, 10))
  {
    if |ds| >= 2 {
      assert IsDigit(ds[1], 10);
      assert ds[1] != 'x' && ds[1] != 'X';
    }
    AllDigitsRun(ds, 10);
    assert ds[..|ds|] == ds;
  }

  /** Text that starts with neither white space nor a sign is read as a
      magnitude alone. */
  lemma Unsigned(t: string, m: nat)
    requires t != [] && !IsSpace(t[0]) && t[0] != '-' && t[0] != '+'
    requires ParseMagnitude(t) == Some(m)
    ensures ParseInt(t) == Some(m as int)
  {
    assert TrimStart(t) == t;
  }

  /** parseInt of a plain run of decimal digits is their value. */
  lemma ParseDigits(ds: string)
    requires |ds| >= 1
    requires forall i :: 0 <= i < |ds| ==> IsDigit(ds[i], 10)
    ensures ParseInt(ds) == Some(DigitsValue(ds, 10))
  {
    assert IsDigit(ds[0], 10);
    assert !IsSpace(ds[0]) && ds[0] != '-' && ds[0] != '+';
    MagnitudeOfDigits(ds);
    Unsigned(ds, DigitsValue(ds, 10));
  }

  /** parseInt of the empty string is NaN. */
  lemma ParseEmpty()
    ensures ParseInt("") == None
  {
    assert TrimStart("") == "";
    assert DigitRun("", 10) == 0;
    assert ParseMagnitude("") == None;
  }

  /** A minus sign in front of a magnitude negates it. */
  lemma ParseNegated(u: string, m: nat)
    requires ParseMagnitude(u) == Some(m)
    ensures ParseInt("-" + u) == Some(-(m as int))
  {
    var t := "-" + u;
    assert t[0] == '-' && !IsSpace(t[0]);
    assert TrimStart(t) == t;
    assert t[1..] == u;
  }


  /** parseInt reads back exactly the number that a template literal printed. */
  lemma ParseIntToString(n: int)
    ensures ParseInt(IntToString(n)) == Some(n)
  {
    if n < 0 {
      ReadNegative(n);
    } else {
      ReadMagnitude(n);
    }
  }

  /** The digits printed for a non-negative number read back as it. */
  lemma ReadMagnitude(n: nat)
    ensures ParseInt(IntToString(n)) == Some(n as int)
  {
    NatToStringDigits(n);
    ParseDigits(NatToString(n));
  }

  /** A minus sign and the digits of -n read back as n. */
  lemma ReadNegative(n: int)
    requires n < 0
    ensures ParseInt(IntToString(n)) == Some(n)
  {
    NatToStringDigits(-n);
    MagnitudeOfDigits(NatToString(-n));
    ParseNegated(NatToString(-n), -n);
  }


  // ---------------------------------------------------------------------------
  // Arithmetic on numbers that may be NaN
  // ---------------------------------------------------------------------------

  function Sub(a: Option<int>, b: Option<int>): Option<int>
  {
    if a.Some? && b.Some? then Some(a.value - b.value) else None
  }

  /** Math.max(a, b): NaN when either is NaN. */
  function MathMax(a: Option<int>, b: Option<int>): (r: Option<int>)
    ensures r.Some? <==> a.Some? && b.Some?
    ensures r.Some? ==> r.value >= a.value && r.value >= b.value
    ensures r.Some? ==> r.value == a.value || r.value == b.value
  {
    if a.Some? && b.Some? then Some(if a.value >= b.value then a.value else b.value) else None
  }

  /** Math.min(a, b): NaN when either is NaN. */
  function MathMin(a: Option<int>, b: Option<int>): (r: Option<int>)
    ensures r.Some? <==> a.Some? && b.Some?
    ensures r.Some? ==> r.value <= a.value && r.value <= b.value
    ensures r.Some? ==> r.value == a.value || r.value == b.value
  {
    if a.Some? && b.Some? then Some(if a.value <= b.value then a.value else b.value) else None
  }

  // ---------------------------------------------------------------------------
  // s.toLowerCase() on ASCII text
  // ---------------------------------------------------------------------------

  predicate IsUpper(c: char)
  {
    'A' <= c <= 'Z'
  }

  function LowerChar(c: char): char
  {
    if IsUpper(c) then (c as int + 32) as char else c
  }

  function Lower(s: string): (r: string)
    ensures |r| == |s|
  {
    if s == [] then [] else [LowerChar(s[0])] + Lower(s[1..])
  }

  /** Lower-casing leaves no upper-case letter, changes nothing else than
      upper-case letters, and is idempotent. */
  lemma {:induction false} LowerSpec(s: string)
    ensures forall i :: 0 <= i < |s| ==> !IsUpper(Lower(s)[i])
    ensures forall i :: 0 <= i < |s| && !IsUpper(s[i]) ==> Lower(s)[i] == s[i]
    ensures Lower(Lower(s)) == Lower(s)
  {
    if s != [] {
      LowerSpec(s[1..]);
      assert Lower(s)[1..] == Lower(s[1..]);
    }
  }
}
