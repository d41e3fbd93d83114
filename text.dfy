/**
 * The Python string operations the scripts rely on, stated over `seq<char>`:
 * substring test (`sub in s`), `str` ordering, `rstrip`, `strip`, `isspace`
 * and the decimal rendering of an `int` in an f-string.
 */
module Text {

  /** `sub` occurs in `s` starting at index `i`. */
  predicate OccursAt(s: string, sub: string, i: int)
  {
    0 <= i && i + |sub| <= |s| && s[i..i + |sub|] == sub
  }

  /** Python's `sub in s`; the empty string occurs in every string. */
  predicate Contains(s: string, sub: string)
  {
    exists i | 0 <= i <= |s| - |sub| :: OccursAt(s, sub, i)
  }

  /** A substring of a prefix is a substring of the whole string. */
  lemma ContainsInExtension(p: string, s: string, sub: string)
    requires p <= s && Contains(p, sub)
    ensures Contains(s, sub)
  {
    var i :| 0 <= i <= |p| - |sub| && OccursAt(p, sub, i);
    assert s[i..i + |sub|] == p[i..i + |sub|];
    assert OccursAt(s, sub, i);
  }

  /** Python's `a <= b` on `str`: lexicographic order by code point. */
  predicate LexLe(a: string, b: string)
    decreases |a|
  {
    |a| == 0 || (|b| > 0 && (a[0] < b[0] || (a[0] == b[0] && LexLe(a[1..], b[1..]))))
  }

  lemma {:induction false} LexLeReflexive(a: string)
    ensures LexLe(a, a)
  {
    if |a| > 0 { LexLeReflexive(a[1..]); }
  }

  lemma {:induction false} LexLeTotal(a: string, b: string)
    ensures LexLe(a, b) || LexLe(b, a)
  {
    if |a| > 0 && |b| > 0 && a[0] == b[0] { LexLeTotal(a[1..], b[1..]); }
  }

  lemma {:induction false} LexLeTransitive(a: string, b: string, c: string)
    requires LexLe(a, b) && LexLe(b, c)
    ensures LexLe(a, c)
  {
    if |a| > 0 && |b| > 0 && |c| > 0 && a[0] == b[0] && b[0] == c[0] {
      LexLeTransitive(a[1..], b[1..], c[1..]);
    }
  }

  lemma {:induction false} LexLeAntisymmetric(a: string, b: string)
    requires LexLe(a, b) && LexLe(b, a)
    ensures a == b
  {
    if |a| > 0 {
      LexLeAntisymmetric(a[1..], b[1..]);
      assert a == [a[0]] + a[1..] && b == [b[0]] + b[1..];
    }
  }

  /**
   * Python's `s.rstrip(c)` for one character `c`: the longest prefix of `s`
   * that does not end in `c` and after which `s` holds only `c`.
   */
  function RStrip(s: string, c: char): (r: string)
    ensures r <= s
    ensures |r| == 0 || r[|r| - 1] != c
    ensures forall i | |r| <= i < |s| :: s[i] == c
  {
    if |s| > 0 && s[|s| - 1] == c then RStrip(s[..|s| - 1], c) else s
  }

  /** Python's `str.isspace()` for a single character (Unicode whitespace). */
  predicate IsSpace(ch: char)
  {
    || ('\t' <= ch <= '\r')
    || ('\U{1C}' <= ch <= '\U{1F}')
    || ch == ' '
    || ch == '\U{85}'
    || ch == '\U{A0}'
    || ch == '\U{1680}'
    || ('\U{2000}' <= ch <= '\U{200A}')
    || ch == '\U{2028}'
    || ch == '\U{2029}'
    || ch == '\U{202F}'
    || ch == '\U{205F}'
    || ch == '\U{3000}'
  }

  /** Drops leading whitespace: what is dropped is whitespace, what is left does not start with it. */
  function TrimStart(s: string): (r: string)
    ensures |r| <= |s| && r == s[|s| - |r|..]
    ensures forall i {:trigger IsSpace(s[i])} | 0 <= i < |s| - |r| :: IsSpace(s[i])
    ensures |r| == 0 || !IsSpace(r[0])
  {
    if |s| > 0 && IsSpace(s[0]) then TrimStart(s[1..]) else s
  }

  /** Drops trailing whitespace: what is dropped is whitespace, what is left does not end with it. */
  function TrimEnd(s: string): (r: string)
    ensures r <= s
    ensures forall i {:trigger IsSpace(s[i])} | |r| <= i < |s| :: IsSpace(s[i])
    ensures |r| == 0 || !IsSpace(r[|r| - 1])
  {
    if |s| > 0 && IsSpace(s[|s| - 1]) then TrimEnd(s[..|s| - 1]) else s
  }

  /**
   * Python's `s.strip()`: the result is a slice of `s` with only whitespace
   * before and after it, and it neither starts nor ends with whitespace (so
   * it is empty exactly when `s` is all whitespace).
   */
  function Strip(s: string): (r: string)
    ensures |r| <= |s|
    ensures |r| == 0 || (!IsSpace(r[0]) && !IsSpace(r[|r| - 1]))
    ensures var k := |s| - |TrimStart(s)|;
      && 0 <= k <= |s| - |r|
      && (forall i | 0 <= i < |r| :: r[i] == s[k + i])
      && (forall i {:trigger IsSpace(s[i])} | 0 <= i < k :: IsSpace(s[i]))
      && (forall i {:trigger IsSpace(s[i])} | k + |r| <= i < |s| :: IsSpace(s[i]))
  {
    TrimBoth(s);
    TrimEnd(TrimStart(s))
  }

  /** Everything `Strip` promises, about trimming the start and then the end. */
  lemma TrimBoth(s: string)
    ensures var r := TrimEnd(TrimStart(s)); var k := |s| - |TrimStart(s)|;
      && |r| <= |s|
      && (|r| == 0 || (!IsSpace(r[0]) && !IsSpace(r[|r| - 1])))
      && 0 <= k <= |s| - |r|
      && (forall i | 0 <= i < |r| :: r[i] == s[k + i])
      && (forall i {:trigger IsSpace(s[i])} | 0 <= i < k :: IsSpace(s[i]))
      && (forall i {:trigger IsSpace(s[i])} | k + |r| <= i < |s| :: IsSpace(s[i]))
  {
    TrimBothSlice(s);
    TrimBothTail(s);
    TrimBothEnds(s);
  }

  /** Trimming both ends leaves the slice of `s` at the offset where the leading whitespace ends. */
  lemma TrimBothSlice(s: string)
    ensures var t := TrimStart(s); var r := TrimEnd(t); var k := |s| - |t|;
      0 <= k <= |s| - |r| && forall i | 0 <= i < |r| :: r[i] == s[k + i]
  {
    var t := TrimStart(s);
    var k := |s| - |t|;
    assert t == s[k..];
  }

  /** What trimming both ends removes after the slice is whitespace. */
  lemma TrimBothTail(s: string)
    ensures var t := TrimStart(s); var r := TrimEnd(t); var k := |s| - |t|;
      forall i {:trigger IsSpace(s[i])} | k + |r| <= i < |s| :: IsSpace(s[i])
  {
    var t := TrimStart(s);
    var r := TrimEnd(t);
    var k := |s| - |t|;
    forall i | k + |r| <= i < |s|
      ensures IsSpace(s[i])
    {
      assert s[i] == t[i - k];
    }
  }

  /** Trimming both ends leaves a string that neither starts nor ends with whitespace. */
  lemma TrimBothEnds(s: string)
    ensures var r := TrimEnd(TrimStart(s)); |r| == 0 || (!IsSpace(r[0]) && !IsSpace(r[|r| - 1]))
  {
    var t := TrimStart(s);
    var r := TrimEnd(t);
    if |r| > 0 {
      assert r[0] == t[0];
    }
  }

  /** A string that starts and ends with non-whitespace is left unchanged by `strip`. */
  lemma StripUnchanged(s: string)
    requires |s| == 0 || (!IsSpace(s[0]) && !IsSpace(s[|s| - 1]))
    ensures Strip(s) == s
  {
  }

  /** The character of a decimal digit. */
  function DigitChar(d: int): (ch: char)
    requires 0 <= d < 10
    ensures '0' <= ch <= '9' && ch as int - '0' as int == d
  {
    ('0' as int + d) as char
  }

  /** The numeric value of a digit string, read left to right. */
  function DecimalValue(s: string): int
  {
    if s == [] then 0 else DecimalValue(s[..|s| - 1]) * 10 + (s[|s| - 1] as int - '0' as int)
  }

  /** Python's `f"{n}"` for a non-negative `int`: digits only, no leading zero. */
  function Decimal(n: nat): (s: string)
    ensures |s| >= 1 && (|s| > 1 ==> s[0] != '0')
    ensures forall i | 0 <= i < |s| :: '0' <= s[i] <= '9'
  {
    if n < 10 then [DigitChar(n)] else Decimal(n / 10) + [DigitChar(n % 10)]
  }

  /** Reading back the rendered digits gives the number: rendering is injective. */
  lemma {:induction false} DecimalRoundTrip(n: nat)
    ensures DecimalValue(Decimal(n)) == n
  {
    if n >= 10 {
      DecimalRoundTrip(n / 10);
      var s := Decimal(n);
      assert s[..|s| - 1] == Decimal(n / 10);
    }
  }

  lemma DecimalInjective(m: nat, n: nat)
    requires Decimal(m) == Decimal(n)
    ensures m == n
  {
    DecimalRoundTrip(m);
    DecimalRoundTrip(n);
  }
}
