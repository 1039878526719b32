/**
 * String helpers the source gets from Python's runtime: `str()` of an integer,
 * `os.path.join`, and "the text after the last separator" (os.path.basename,
 * `str.split(sep)[-1]`).
 */
module Text {

  predicate IsDigit(c: char) {
    '0' <= c <= '9'
  }

  predicate AllDigits(s: string) {
    forall i :: 0 <= i < |s| ==> IsDigit(s[i])
  }

  function DigitChar(d: int): (c: char)
    requires 0 <= d < 10
    ensures IsDigit(c)
  {
    (48 + d) as char
  }

  function DigitValue(c: char): (d: nat)
    requires IsDigit(c)
    ensures d < 10
  {
    c as int - 48
  }

  /** Decimal digits of a natural number, most significant first, no leading zeros. */
  function NatToString(n: nat): (s: string)
    ensures |s| >= 1 && AllDigits(s)
    ensures |s| == 1 <==> n < 10
    decreases n
  {
    if n < 10 then [DigitChar(n)] else NatToString(n / 10) + [DigitChar(n % 10)]
  }

  /** Python's `str(i)` (and `f"{i}"`) of an integer. */
  function IntToString(i: int): (s: string)
    ensures |s| >= 1
    ensures i < 0 <==> s[0] == '-'
    ensures i >= 0 ==> AllDigits(s)
    ensures '/' !in s
  {
    if i < 0 then "-" + NatToString(-i) else NatToString(i)
  }

  /** Reads a decimal numeral back; the partner of NatToString. */
  function ParseNat(s: string): nat
    requires |s| >= 1 && AllDigits(s)
    decreases |s|
  {
    if |s| == 1 then DigitValue(s[0])
    else ParseNat(s[..|s| - 1]) * 10 + DigitValue(s[|s| - 1])
  }

  lemma {:induction false} ParseNatToString(n: nat)
    ensures ParseNat(NatToString(n)) == n
    decreases n
  {
    if n >= 10 {
      var s := NatToString(n);
      assert s[..|s| - 1] == NatToString(n / 10);
      ParseNatToString(n / 10);
    }
  }

  /** Different integers print differently. */
  lemma IntToStringInjective(i: int, j: int)
    requires IntToString(i) == IntToString(j)
    ensures i == j
  {
    if i < 0 {
      NegativeTail(i);
      NegativeTail(j);
      NatToStringInjective(-i, -j);
    } else {
      NatToStringInjective(i, j);
    }
  }

  /** Different natural numbers print differently. */
  lemma NatToStringInjective(a: nat, b: nat)
    requires NatToString(a) == NatToString(b)
    ensures a == b
  {
    ParseNatToString(a);
    ParseNatToString(b);
  }

  /** After the minus sign, a negative number prints as its absolute value. */
  lemma NegativeTail(i: int)
    requires i < 0
    ensures IntToString(i)[1..] == NatToString(-i)
  {
    assert ("-" + NatToString(-i))[1..] == NatToString(-i);
  }

  /** `os.path.join(a, b)` for two components. */
  function Join(a: string, b: string): (r: string)
    ensures |b| > 0 && b[0] == '/' ==> r == b
    ensures (|b| == 0 || b[0] != '/') && a != [] && a[|a| - 1] != '/' ==> r == a + "/" + b
    ensures (|b| == 0 || b[0] != '/') && (a == [] || a[|a| - 1] == '/') ==> r == a + b
  {
    if |b| > 0 && b[0] == '/' then b
    else if a == [] || a[|a| - 1] == '/' then a + b
    else a + "/" + b
  }

  /**
   * The longest suffix of `s` that does not contain `sep`: `s.split(sep)[-1]`, and
   * os.path.basename when `sep` is '/'.
   */
  function AfterLast(s: string, sep: char): (r: string)
    ensures |r| <= |s| && r == s[|s| - |r|..]
    ensures sep !in r
    ensures |r| < |s| ==> s[|s| - |r| - 1] == sep
    decreases |s|
  {
    if s == [] then []
    else if s[|s| - 1] == sep then []
    else
      var init := s[..|s| - 1];
      var r := AfterLast(init, sep);
      assert init[|init| - |r|..] + [s[|s| - 1]] == s[|s| - |r| - 1..];
      assert |r| < |init| ==> init[|init| - |r| - 1] == s[|s| - |r| - 2];
      r + [s[|s| - 1]]
  }

  /** A string split at a separator that its head cannot contain is split in one way only. */
  lemma SplitAtSeparator(a: string, b: string, c: string, d: string, sep: char)
    requires sep !in a && sep !in c
    requires a + [sep] + b == c + [sep] + d
    ensures a == c && b == d
  {
    var s := a + [sep] + b;
    assert s[|a|] == sep && s[|c|] == sep;
    assert forall i :: 0 <= i < |a| ==> s[i] == a[i] != sep;
    assert forall i :: 0 <= i < |c| ==> s[i] == c[i] != sep;
    assert |a| == |c|;
    assert a == s[..|a|] == c;
    assert b == s[|a| + 1..] == d;
  }

  /** AfterLast stops short of the whole string exactly when the separator occurs. */
  lemma {:induction false} AfterLastShorter(s: string, sep: char)
    requires sep in s
    ensures |AfterLast(s, sep)| < |s|
    decreases |s|
  {
    if s[|s| - 1] != sep {
      var k :| 0 <= k < |s| && s[k] == sep;
      assert s[..|s| - 1][k] == sep;
      AfterLastShorter(s[..|s| - 1], sep);
    }
  }

  /** Joining onto a directory that does not end in a slash inserts exactly one slash. */
  lemma JoinSlash(a: string, b: string)
    requires a != [] && a[|a| - 1] != '/' && '/' !in b
    ensures Join(a, b) == a + "/" + b
    ensures b != [] ==> var r := Join(a, b); r[|r| - 1] != '/'
  {
    if b != [] {
      assert b[0] in b && b[|b| - 1] in b;
    }
  }

  /** A string split at its last separator is split in one way only. */
  lemma SplitAtLastSeparator(a: string, b: string, c: string, d: string, sep: char)
    requires sep !in b && sep !in d
    requires a + [sep] + b == c + [sep] + d
    ensures a == c && b == d
  {
    var s := a + [sep] + b;
    assert s[|a|] == sep && s[|c|] == sep;
    assert forall i :: |a| < i < |s| ==> s[i] == b[i - |a| - 1] != sep;
    assert forall i :: |c| < i < |s| ==> s[i] == d[i - |c| - 1] != sep;
    assert |a| == |c|;
    assert a == s[..|a|] == c;
    assert b == s[|a| + 1..] == d;
  }

  /** Joining a slash-free name onto a directory can be undone: both parts are recovered. */
  lemma JoinInjective(a1: string, b1: string, a2: string, b2: string)
    requires a1 != [] && a1[|a1| - 1] != '/' && '/' !in b1
    requires a2 != [] && a2[|a2| - 1] != '/' && '/' !in b2
    requires Join(a1, b1) == Join(a2, b2)
    ensures a1 == a2 && b1 == b2
  {
    JoinSlash(a1, b1);
    JoinSlash(a2, b2);
    SplitAtLastSeparator(a1, b1, a2, b2, '/');
  }
}
