/**
 * String operations the source takes from JavaScript itself: rendering a
 * number inside a template string, `String.prototype.trim`, and counting
 * occurrences of a character (used to reason about query strings).
 */
module Text {

  predicate IsDigit(c: char) { '0' <= c <= '9' }

  predicate AllDigits(s: string) { forall k :: 0 <= k < |s| ==> IsDigit(s[k]) }

  /** The decimal digit character for `d`. */
  function DigitChar(d: nat): (c: char)
    requires d < 10
    ensures IsDigit(c) && (c as int) - ('0' as int) == d
  {
    ('0' as int + d) as char
  }

  /** How a non-negative integer appears inside a template string (`${n}`). */
  function NatToString(n: nat): (s: string)
    ensures |s| >= 1 && AllDigits(s)
    ensures s[0] == '0' ==> n == 0 && s == "0"
    decreases n
  {
    if n < 10 then [DigitChar(n)] else NatToString(n / 10) + [DigitChar(n % 10)]
  }

  /** How an integer appears inside a template string or through `toString()`. */
  function IntToString(i: int): (s: string)
    ensures |s| >= 1
    ensures forall k :: 0 <= k < |s| ==> IsDigit(s[k]) || s[k] == '-'
    ensures i >= 0 ==> s == NatToString(i)
    ensures i < 0 ==> s[0] == '-' && s[1..] == NatToString(-i)
  {
    if i < 0 then "-" + NatToString(-i) else NatToString(i)
  }

  /** The value of a string of decimal digits: the reading-back partner of NatToString. */
  function DigitsValue(s: string): nat
    requires AllDigits(s)
  {
    if s == [] then 0 else DigitsValue(s[..|s| - 1]) * 10 + ((s[|s| - 1] as int) - ('0' as int))
  }

  /** Reading a rendered number back gives the number. */
  lemma {:induction false} NatToStringRoundTrip(n: nat)
    ensures DigitsValue(NatToString(n)) == n
    decreases n
  {
    if n >= 10 {
      NatToStringRoundTrip(n / 10);
      var s := NatToString(n);
      assert s[..|s| - 1] == NatToString(n / 10);
    }
  }

  /** Distinct numbers render to distinct strings. */
  lemma NatToStringInjective(a: nat, b: nat)
    requires NatToString(a) == NatToString(b)
    ensures a == b
  {
    NatToStringRoundTrip(a);
    NatToStringRoundTrip(b);
  }

  /** A rendered integer holds no character other than digits and '-'. */
  lemma NotInIntToString(c: char, i: int)
    requires !IsDigit(c) && c != '-'
    ensures c !in IntToString(i)
  {
  }

  /** Distinct integers render to distinct strings. */
  lemma IntToStringInjective(a: int, b: int)
    requires IntToString(a) == IntToString(b)
    ensures a == b
  {
    if a >= 0 && b >= 0 {
      NatToStringInjective(a, b);
    } else if a < 0 && b < 0 {
      NatToStringInjective(-a, -b);
    }
  }

  /** The position of the last `c` in `s`, or -1. */
  function LastIndex(s: string, c: char): (i: int)
    ensures -1 <= i < |s|
  {
    if s == [] then -1 else if s[|s| - 1] == c then |s| - 1 else LastIndex(s[..|s| - 1], c)
  }

  /** The position of the first `c` in `s`, or -1. */
  function FirstIndex(s: string, c: char): (i: int)
    ensures -1 <= i < |s|
  {
    if s == [] then -1 else if s[0] == c then 0 else
      var j := FirstIndex(s[1..], c); if j < 0 then -1 else j + 1
  }

  lemma {:induction false} LastIndexAt(a: string, c: char, t: string)
    requires c !in t
    ensures LastIndex(a + [c] + t, c) == |a|
    decreases |t|
  {
    var s := a + [c] + t;
    if t != [] {
      assert s[..|s| - 1] == a + [c] + t[..|t| - 1];
      assert s[|s| - 1] == t[|t| - 1];
      LastIndexAt(a, c, t[..|t| - 1]);
    }
  }

  lemma {:induction false} FirstIndexAt(a: string, c: char, t: string)
    requires c !in a
    ensures FirstIndex(a + [c] + t, c) == |a|
    decreases |a|
  {
    var s := a + [c] + t;
    if a != [] {
      assert s[1..] == a[1..] + [c] + t;
      assert s[0] == a[0];
      FirstIndexAt(a[1..], c, t);
    }
  }

  /**
   * A string cut at the LAST occurrence of `c` is cut at one place only:
   * if neither tail contains `c`, both halves agree.
   */
  lemma SplitAtLast(a1: string, t1: string, a2: string, t2: string, c: char)
    requires a1 + [c] + t1 == a2 + [c] + t2
    requires c !in t1 && c !in t2
    ensures a1 == a2 && t1 == t2
  {
    var s := a1 + [c] + t1;
    LastIndexAt(a1, c, t1);
    LastIndexAt(a2, c, t2);
    assert a1 == s[..|a1|] == a2;
    assert t1 == s[|a1| + 1..] == t2;
  }

  /** The same at the FIRST occurrence of `c`: neither head contains it. */
  lemma SplitAtFirst(a1: string, t1: string, a2: string, t2: string, c: char)
    requires a1 + [c] + t1 == a2 + [c] + t2
    requires c !in a1 && c !in a2
    ensures a1 == a2 && t1 == t2
  {
    var s := a1 + [c] + t1;
    FirstIndexAt(a1, c, t1);
    FirstIndexAt(a2, c, t2);
    assert a1 == s[..|a1|] == a2;
    assert t1 == s[|a1| + 1..] == t2;
  }

  /** A key followed by a rendered number holds no separator the key lacks. */
  lemma KeyAndNumberAvoid(sep: char, key: string, n: int)
    requires !IsDigit(sep) && sep != '-' && sep !in key
    ensures sep !in key + IntToString(n)
  {
    NotInIntToString(sep, n);
  }

  lemma Regroup(h: string, sep: char, key: string, d: string)
    ensures h + [sep] + key + d == h + [sep] + (key + d)
  {
  }

  /**
   * `head + sep + key + number` determines its head and its number when
   * `sep` cannot occur in `key` or in a rendered number.
   */
  lemma HeadAndNumberInjective(h1: string, n1: int, h2: string, n2: int, sep: char, key: string)
    requires !IsDigit(sep) && sep != '-' && sep !in key
    requires h1 + [sep] + key + IntToString(n1) == h2 + [sep] + key + IntToString(n2)
    ensures h1 == h2 && n1 == n2
  {
    var d1, d2 := IntToString(n1), IntToString(n2);
    KeyAndNumberAvoid(sep, key, n1);
    KeyAndNumberAvoid(sep, key, n2);
    Regroup(h1, sep, key, d1);
    Regroup(h2, sep, key, d2);
    SplitAtLast(h1, key + d1, h2, key + d2, sep);
    assert d1 == (key + d1)[|key|..] && d2 == (key + d2)[|key|..];
    IntToStringInjective(n1, n2);
  }

  /** The number of occurrences of `c` in `s`. */
  function Count(c: char, s: string): (n: nat)
    ensures n <= |s|
    ensures n == 0 <==> c !in s
  {
    if s == [] then 0 else (if s[0] == c then 1 else 0) + Count(c, s[1..])
  }

  lemma {:induction false} CountConcat(c: char, a: string, b: string)
    ensures Count(c, a + b) == Count(c, a) + Count(c, b)
    decreases |a|
  {
    if a != [] {
      assert (a + b)[0] == a[0] && (a + b)[1..] == a[1..] + b;
      CountConcat(c, a[1..], b);
    } else {
      assert a + b == b;
    }
  }

  /**
   * The code points `String.prototype.trim` removes: the ECMAScript
   * WhiteSpace set (TAB, VT, FF, ZWNBSP and the Unicode space separators)
   * and the LineTerminator set (LF, CR, LS, PS).
   */
  predicate IsJsWhitespace(c: char)
  {
    || c == '\t' || c == '\n' || c == '\U{000B}' || c == '\U{000C}' || c == '\r'
    || c == ' ' || c == '\U{00A0}' || c == '\U{1680}'
    || ('\U{2000}' <= c <= '\U{200A}')
    || c == '\U{2028}' || c == '\U{2029}' || c == '\U{202F}' || c == '\U{205F}'
    || c == '\U{3000}' || c == '\U{FEFF}'
  }

  predicate AllWhitespace(s: string) { forall k :: 0 <= k < |s| ==> IsJsWhitespace(s[k]) }

  /** `r` is `s` after its leading whitespace: a suffix, with only whitespace cut and none left in front. */
  predicate LeadingStripped(s: string, r: string)
  {
    && |r| <= |s| && r == s[|s| - |r|..]
    && (forall k :: 0 <= k < |s| - |r| ==> IsJsWhitespace(s[k]))
    && (r != [] ==> !IsJsWhitespace(r[0]))
  }

  /** `r` is `s` before its trailing whitespace: a prefix, with only whitespace cut and none left behind. */
  predicate TrailingStripped(s: string, r: string)
  {
    && |r| <= |s| && r == s[..|r|]
    && (forall k :: |r| <= k < |s| ==> IsJsWhitespace(s[k]))
    && (r != [] ==> !IsJsWhitespace(r[|r| - 1]))
  }

  /** `s` with its leading whitespace removed. */
  function TrimStart(s: string): (r: string)
    ensures LeadingStripped(s, r)
  {
    if s != [] && IsJsWhitespace(s[0]) then TrimStart(s[1..]) else s
  }

  /** `s` with its trailing whitespace removed. */
  function TrimEnd(s: string): (r: string)
    ensures TrailingStripped(s, r)
  {
    if s != [] && IsJsWhitespace(s[|s| - 1]) then TrimEnd(s[..|s| - 1]) else s
  }

  /** `r` sits in `s` at offset `i` and everything around it is whitespace. */
  predicate TrimmedAt(s: string, r: string, i: int)
  {
    && 0 <= i && i + |r| <= |s| && s[i..i + |r|] == r
    && (forall k :: 0 <= k < i ==> IsJsWhitespace(s[k]))
    && (forall k :: i + |r| <= k < |s| ==> IsJsWhitespace(s[k]))
  }

  /** Neither end of `r` is whitespace. */
  predicate NoOuterWhitespace(r: string)
  {
    r != [] ==> !IsJsWhitespace(r[0]) && !IsJsWhitespace(r[|r| - 1])
  }

  /** `String.prototype.trim`. */
  function Trim(s: string): (r: string)
    ensures exists i :: TrimmedAt(s, r, i)
    ensures NoOuterWhitespace(r)
    ensures r == [] <==> AllWhitespace(s)
  {
    var t := TrimStart(s);
    var r := TrimEnd(t);
    TrimFacts(s, t, r);
    r
  }

  lemma TrimFacts(s: string, t: string, r: string)
    requires t == TrimStart(s) && r == TrimEnd(t)
    ensures TrimmedAt(s, r, |s| - |t|)
    ensures NoOuterWhitespace(r)
    ensures r == [] <==> AllWhitespace(s)
  {
    TrimWindow(s, t, r);
  }

  /** Cutting the leading, then the trailing whitespace leaves the trimmed window. */
  lemma TrimWindow(s: string, t: string, r: string)
    requires LeadingStripped(s, t) && TrailingStripped(t, r)
    ensures TrimmedAt(s, r, |s| - |t|)
    ensures NoOuterWhitespace(r)
    ensures r == [] <==> AllWhitespace(s)
  {
    var a := |s| - |t|;
    assert t == s[a..];
    assert s[a..a + |r|] == r;
    forall k | a + |r| <= k < |s|
      ensures IsJsWhitespace(s[k])
    {
      assert s[k] == t[k - a];
    }
    if r != [] {
      assert r[0] == t[0] == s[a];
    }
  }

  /** Trim is the only string with those properties: the contract above pins it down. */
  lemma TrimUnique(s: string, r: string, i: int)
    requires TrimmedAt(s, r, i) && NoOuterWhitespace(r)
    ensures r == Trim(s)
  {
    var t := Trim(s);
    var j :| TrimmedAt(s, t, j);
    if r == [] {
      assert AllWhitespace(s);
    } else {
      assert s[i] == r[0] && s[i + |r| - 1] == r[|r| - 1];
      assert !AllWhitespace(s);
      assert t != [];
      assert s[j] == t[0] && s[j + |t| - 1] == t[|t| - 1];
      assert i == j;
      assert i + |r| == j + |t|;
    }
  }

  /** Trimming twice is trimming once. */
  lemma TrimIdempotent(s: string)
    ensures Trim(Trim(s)) == Trim(s)
  {
    var t := Trim(s);
    assert TrimmedAt(t, t, 0);
    TrimUnique(t, t, 0);
  }
}
