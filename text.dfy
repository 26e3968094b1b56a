/** The string operations of Python that both generators rely on: `hex()`,
    `str()` and `'%d'` of integers, `int()` of a string, `str.strip()`,
    `str.lower()`/`str.casefold()` and `str.find()`. */
module Text {
  import opened Common

  // ---------------------------------------------------------------------------
  // Digits in base 10 and base 16

  predicate ValidBase(base: nat) { base == 10 || base == 16 }

  /** The lower-case digit character of `d` ("0".."9", "a".."f"). */
  function DigitChar(d: nat): char
    requires d < 16
  {
    if d < 10 then ('0' as int + d) as char else ('a' as int + d - 10) as char
  }

  /** The value of a lower-case digit character, if it is a digit of `base`. */
  function DigitValue(c: char, base: nat): (r: Option<nat>)
    requires ValidBase(base)
    ensures r.Some? ==> r.value < base && DigitChar(r.value) == c
  {
    if '0' <= c <= '9' then Some((c - '0') as nat)
    else if base == 16 && 'a' <= c <= 'f' then Some((c - 'a') as nat + 10)
    else None
  }

  /** The digits of `n` with no leading zeros ("0" for zero), as Python writes them. */
  function NatDigits(n: nat, base: nat): (s: string)
    requires ValidBase(base)
    ensures |s| >= 1
    decreases n
  {
    if n < base then [DigitChar(n)] else NatDigits(n / base, base) + [DigitChar(n % base)]
  }

  /** Reads a non-empty string of digits of `base`, most significant first. */
  function ParseDigits(s: string, base: nat): (r: Option<nat>)
    requires ValidBase(base)
    ensures r.Some? ==> |s| >= 1
  {
    if |s| == 0 then None
    else
      var d := DigitValue(s[|s| - 1], base);
      if d.None? then None
      else if |s| == 1 then Some(d.value)
      else
        var hi := ParseDigits(s[..|s| - 1], base);
        if hi.None? then None else Some(hi.value * base + d.value)
  }

  lemma DigitCharValue(d: nat, base: nat)
    requires ValidBase(base) && d < base
    ensures DigitValue(DigitChar(d), base) == Some(d)
  {
  }

  lemma {:induction false} DigitsRoundTrip(n: nat, base: nat)
    requires ValidBase(base)
    ensures ParseDigits(NatDigits(n, base), base) == Some(n)
  {
    var s := NatDigits(n, base);
    if n < base {
      assert s == [DigitChar(n)];
      DigitCharValue(n, base);
    } else {
      var q, d := n / base, n % base;
      assert n == q * base + d;
      DigitsRoundTrip(q, base);
      var hi := NatDigits(q, base);
      assert s == hi + [DigitChar(d)];
      assert s[..|s| - 1] == hi;
      DigitCharValue(d, base);
      assert ParseDigits(s, base) == Some(q * base + d);
    }
  }

  /** Python never writes a leading zero, except for zero itself. */
  lemma {:induction false} NoLeadingZero(n: nat, base: nat)
    requires ValidBase(base) && n > 0
    ensures NatDigits(n, base)[0] != '0'
  {
    if n >= base {
      NoLeadingZero(n / base, base);
    }
  }

  /** Python's `hex()`: "0x" and lower-case digits, "-0x" for a negative number. */
  function Hex(n: int): (s: string)
    ensures n >= 0 ==> |s| >= 3 && s[..2] == "0x"
    ensures n < 0 ==> |s| >= 4 && s[..3] == "-0x"
  {
    if n < 0 then "-0x" + NatDigits(-n, 16) else "0x" + NatDigits(n, 16)
  }

  /** Python's `str()` and `'%d'` of an integer. */
  function Decimal(n: int): string
  {
    if n < 0 then "-" + NatDigits(-n, 10) else NatDigits(n, 10)
  }

  /** Reads back what `hex()` writes. */
  function ParseHex(s: string): Option<int>
  {
    if |s| >= 3 && s[..3] == "-0x" then
      match ParseDigits(s[3..], 16)
      case Some(v) => Some(-(v as int))
      case None => None
    else if |s| >= 2 && s[..2] == "0x" then
      match ParseDigits(s[2..], 16)
      case Some(v) => Some(v)
      case None => None
    else None
  }

  lemma HexRoundTrip(n: int)
    ensures ParseHex(Hex(n)) == Some(n)
  {
    var s := Hex(n);
    if n < 0 {
      DigitsRoundTrip(-n, 16);
      assert s[..3] == "-0x" && s[3..] == NatDigits(-n, 16);
    } else {
      DigitsRoundTrip(n, 16);
      assert s[..2] == "0x" && s[2..] == NatDigits(n, 16);
      assert s[0] == '0' && s[..3][0] == s[0];
    }
  }

  lemma HexOfZero()
    ensures Hex(0) == "0x0"
  {
  }

  // ---------------------------------------------------------------------------
  // Whitespace, str.strip()

  /** The ASCII characters for which Python's `str.isspace()` holds. */
  predicate IsSpace(c: char) {
    c as int == 32 || 9 <= c as int <= 13 || 28 <= c as int <= 31
  }

  function StripLeft(s: string): (r: string)
    ensures |r| <= |s| && r == s[|s| - |r|..]
    ensures |r| > 0 ==> !IsSpace(r[0])
    ensures forall k :: 0 <= k < |s| - |r| ==> IsSpace(s[k])
  {
    if |s| > 0 && IsSpace(s[0]) then StripLeft(s[1..]) else s
  }

  function StripRight(s: string): (r: string)
    ensures |r| <= |s| && r == s[..|r|]
    ensures |r| > 0 ==> !IsSpace(r[|r| - 1])
    ensures forall k :: |r| <= k < |s| ==> IsSpace(s[k])
  {
    if |s| > 0 && IsSpace(s[|s| - 1]) then StripRight(s[..|s| - 1]) else s
  }

  /** Python's `str.strip()` with no argument. */
  function Strip(s: string): (r: string)
    ensures |r| > 0 ==> !IsSpace(r[0]) && !IsSpace(r[|r| - 1])
  {
    StripRight(StripLeft(s))
  }

  /** Stripping a string that has no white space at either end leaves it alone. */
  lemma StripUnchanged(s: string)
    requires |s| > 0 ==> !IsSpace(s[0]) && !IsSpace(s[|s| - 1])
    ensures Strip(s) == s
  {
  }

  lemma StripIdempotent(s: string)
    ensures Strip(Strip(s)) == Strip(s)
  {
    StripUnchanged(Strip(s));
  }

  /** `r` occurs in `s` at position `i`, and only white space surrounds it. */
  predicate SpaceAround(s: string, r: string, i: int) {
    && 0 <= i && i + |r| <= |s| && s[i..i + |r|] == r
    && (forall k :: 0 <= k < i ==> IsSpace(s[k]))
    && (forall k :: i + |r| <= k < |s| ==> IsSpace(s[k]))
  }

  /** What strip removes is white space, and what it keeps is a contiguous part of the input. */
  lemma StripKeepsInfix(s: string)
    ensures SpaceAround(s, Strip(s), |s| - |StripLeft(s)|)
  {
    SpaceAroundParts(s, StripLeft(s), Strip(s));
  }

  /** A string `l` that ends `s` after white space, and a string `r` that
      starts `l` before white space, sit in `s` with white space around them. */
  lemma SpaceAroundParts(s: string, l: string, r: string)
    requires |l| <= |s| && l == s[|s| - |l|..] && forall k :: 0 <= k < |s| - |l| ==> IsSpace(s[k])
    requires |r| <= |l| && r == l[..|r|] && forall k :: |r| <= k < |l| ==> IsSpace(l[k])
    ensures SpaceAround(s, r, |s| - |l|)
  {
    InfixOfSuffix(s, l, r);
    forall k | |s| - |l| + |r| <= k < |s|
      ensures IsSpace(s[k])
    {
      assert s[k] == l[k - (|s| - |l|)];
    }
  }

  /** A prefix of a suffix is an infix. */
  lemma InfixOfSuffix(s: string, l: string, r: string)
    requires |l| <= |s| && l == s[|s| - |l|..]
    requires |r| <= |l| && r == l[..|r|]
    ensures s[|s| - |l|..|s| - |l| + |r|] == r
  {
    assert s[|s| - |l|..|s| - |l| + |r|] == s[|s| - |l|..][..|r|];
  }

  // ---------------------------------------------------------------------------
  // Case folding

  /** ASCII lower-casing, the model of both `str.lower()` and `str.casefold()`. */
  function LowerChar(c: char): (r: char)
    ensures !('A' <= r <= 'Z')
    ensures ('A' <= c <= 'Z') == (r != c)
  {
    if 'A' <= c <= 'Z' then (c as int + 32) as char else c
  }

  function Lower(s: string): (r: string)
    ensures |r| == |s|
    ensures forall k :: 0 <= k < |r| ==> !('A' <= r[k] <= 'Z')
  {
    if |s| == 0 then [] else [LowerChar(s[0])] + Lower(s[1..])
  }

  lemma {:induction false} LowerAt(s: string, k: nat)
    requires k < |s|
    ensures Lower(s)[k] == LowerChar(s[k])
  {
    if k > 0 {
      LowerAt(s[1..], k - 1);
    }
  }

  lemma {:induction false} LowerIdempotent(s: string)
    ensures Lower(Lower(s)) == Lower(s)
  {
    if |s| > 0 {
      LowerIdempotent(s[1..]);
      assert Lower(s)[1..] == Lower(s[1..]);
    }
  }

  /** `case_compare`: equality after case folding. */
  predicate CaseEqual(left: string, right: string) {
    Lower(left) == Lower(right)
  }

  /** Two strings are equal up to case exactly when they agree letter by letter after lower-casing. */
  lemma CaseEqualPointwise(left: string, right: string)
    ensures CaseEqual(left, right) <==>
      |left| == |right| && forall k :: 0 <= k < |left| ==> LowerChar(left[k]) == LowerChar(right[k])
  {
    if |left| == |right| {
      forall k | 0 <= k < |left|
        ensures Lower(left)[k] == LowerChar(left[k]) && Lower(right)[k] == LowerChar(right[k])
      {
        LowerAt(left, k);
        LowerAt(right, k);
      }
      if forall k :: 0 <= k < |left| ==> LowerChar(left[k]) == LowerChar(right[k]) {
        assert Lower(left) == Lower(right);
      }
    }
  }

  // ---------------------------------------------------------------------------
  // Substring search, str.find()

  predicate OccursAt(s: string, pat: string, k: int) {
    0 <= k && k + |pat| <= |s| && s[k..k + |pat|] == pat
  }

  function FindFrom(s: string, pat: string, i: nat): (r: int)
    requires i <= |s| + 1
    ensures r == -1 || (i <= r && OccursAt(s, pat, r))
    ensures r == -1 ==> forall k :: i <= k ==> !OccursAt(s, pat, k)
    ensures r != -1 ==> forall k :: i <= k < r ==> !OccursAt(s, pat, k)
    decreases |s| + 1 - i
  {
    if i + |pat| > |s| then -1
    else if s[i..i + |pat|] == pat then i
    else FindFrom(s, pat, i + 1)
  }

  /** Python's `str.find()`: the first index where `pat` occurs, or -1. */
  function Find(s: string, pat: string): (r: int)
    ensures r == -1 <==> forall k :: !OccursAt(s, pat, k)
    ensures r != -1 ==> OccursAt(s, pat, r) && forall k :: 0 <= k < r ==> !OccursAt(s, pat, k)
  {
    FindFrom(s, pat, 0)
  }

  lemma OccursInSuffix(s: string, t: string, pat: string, k: int)
    requires OccursAt(s, pat, k)
    ensures OccursAt(s + t, pat, k)
  {
    assert (s + t)[k..k + |pat|] == s[k..k + |pat|];
  }

  // ---------------------------------------------------------------------------
  // Scalar values of the HJSON input: strings and (integral) numbers

  datatype Scalar = Str(text: string) | Int(num: int)

  /** Python's `str()` of a scalar. */
  function ToStr(v: Scalar): string {
    match v
    case Str(t) => t
    case Int(n) => Decimal(n)
  }

  /** Python's `int()` of a scalar: a number is kept, a string is read as an
      optionally signed decimal numeral between optional white space. */
  function ToInt(v: Scalar): (r: Option<int>)
    ensures v.Int? ==> r == Some(v.num)
  {
    match v
    case Int(n) => Some(n)
    case Str(t) =>
      var u := Strip(t);
      if |u| > 0 && (u[0] == '-' || u[0] == '+') then
        match ParseDigits(u[1..], 10)
        case Some(d) => Some(if u[0] == '-' then -(d as int) else d)
        case None => None
      else
        match ParseDigits(u, 10)
        case Some(d) => Some(d)
        case None => None
  }

  /** `int(str(n))` gives `n` back. */
  lemma IntOfDecimal(n: int)
    ensures ToInt(Str(Decimal(n))) == Some(n)
  {
    var m: nat := if n < 0 then -n else n;
    var d := NatDigits(m, 10);
    NatDigitsAreDigits(m, 10, 0);
    NatDigitsAreDigits(m, 10, |d| - 1);
    DigitsRoundTrip(m, 10);
    var s := Decimal(n);
    if n < 0 {
      assert s == "-" + d;
      StripUnchanged(s);
      assert s[1..] == d;
    } else {
      assert s == d;
      StripUnchanged(s);
    }
  }

  lemma NatDigitsAreDigits(n: nat, base: nat, k: nat)
    requires ValidBase(base) && k < |NatDigits(n, base)|
    ensures DigitValue(NatDigits(n, base)[k], base).Some?
  {
    DigitsRoundTrip(n, base);
    ParseDigitsAllDigits(NatDigits(n, base), base, k);
  }

  /** Every character of a string that `ParseDigits` accepts is a digit. */
  lemma {:induction false} ParseDigitsAllDigits(s: string, base: nat, k: nat)
    requires ValidBase(base) && ParseDigits(s, base).Some? && k < |s|
    ensures DigitValue(s[k], base).Some?
  {
    if k < |s| - 1 {
      ParseDigitsAllDigits(s[..|s| - 1], base, k);
    }
  }

  // ---------------------------------------------------------------------------
  // str.split() with a one-character separator

  /** The position of the first `c` in `s`. */
  function CharIndex(s: string, c: char): (i: nat)
    requires c in s
    ensures i < |s| && s[i] == c && c !in s[..i]
  {
    if s[0] == c then 0
    else
      assert c in s[1..] by { assert s == [s[0]] + s[1..]; }
      var j := CharIndex(s[1..], c);
      assert s[..j + 1] == [s[0]] + s[1..][..j];
      j + 1
  }

  /** `s.split(sep)`: the pieces between the separators, always at least one,
      none containing the separator. */
  function Split(s: string, sep: char): (r: seq<string>)
    ensures |r| >= 1
    ensures forall k :: 0 <= k < |r| ==> sep !in r[k]
    decreases |s|
  {
    if sep !in s then [s]
    else
      var i := CharIndex(s, sep);
      [s[..i]] + Split(s[i + 1..], sep)
  }

  /** The parts joined together, with the separator between each two. */
  function Join(parts: seq<string>, sep: char): string
    requires |parts| >= 1
  {
    if |parts| == 1 then parts[0] else parts[0] + [sep] + Join(parts[1..], sep)
  }

  function CountChar(s: string, c: char): nat {
    if |s| == 0 then 0 else (if s[0] == c then 1 else 0) + CountChar(s[1..], c)
  }

  lemma {:induction false} CountCharAppend(a: string, b: string, c: char)
    ensures CountChar(a + b, c) == CountChar(a, c) + CountChar(b, c)
  {
    if |a| > 0 {
      assert (a + b)[1..] == a[1..] + b;
      CountCharAppend(a[1..], b, c);
    } else {
      assert a + b == b;
    }
  }

  /** A character that occurs is counted. */
  lemma CountCharPresent(s: string, c: char)
    requires c in s
    ensures CountChar(s, c) >= 1
  {
    var i := CharIndex(s, c);
    CountCharAppend(s[..i], s[i..], c);
    assert s == s[..i] + s[i..];
    assert CountChar(s[i..], c) >= 1 by { assert s[i..][0] == c; }
  }

  lemma {:induction false} CountCharAbsent(s: string, c: char)
    requires c !in s
    ensures CountChar(s, c) == 0
  {
    if |s| > 0 {
      assert c !in s[1..] by { assert forall x :: x in s[1..] ==> x in s; }
      CountCharAbsent(s[1..], c);
    }
  }

  /** Joining the pieces at the separator gives the string back. */
  lemma {:induction false} SplitJoin(s: string, sep: char)
    ensures Join(Split(s, sep), sep) == s
    decreases |s|
  {
    if sep in s {
      var i := CharIndex(s, sep);
      var rest := s[i + 1..];
      SplitJoin(rest, sep);
      var r := Split(s, sep);
      assert r == [s[..i]] + Split(rest, sep);
      assert r[1..] == Split(rest, sep);
      assert Join(r, sep) == s[..i] + [sep] + Join(Split(rest, sep), sep);
      assert s == s[..i] + [sep] + rest;
    }
  }

  /** There is one piece more than there are separators. */
  lemma {:induction false} SplitCount(s: string, sep: char)
    ensures |Split(s, sep)| == CountChar(s, sep) + 1
    decreases |s|
  {
    if sep !in s {
      CountCharAbsent(s, sep);
    } else {
      var i := CharIndex(s, sep);
      var rest := s[i + 1..];
      SplitCount(rest, sep);
      assert s == s[..i] + [sep] + rest;
      CountCharAbsent(s[..i], sep);
      CountCharAppend(s[..i] + [sep], rest, sep);
      CountCharAppend(s[..i], [sep], sep);
      assert CountChar([sep], sep) == 1 by { assert [sep][1..] == []; }
    }
  }
}
