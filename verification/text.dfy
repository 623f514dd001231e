/**
 The two string operations the page relies on: Python's `str.strip()`
 with no argument, and the code-point lexicographic order that `sorted`
 and `groupby` use on Python strings.
 */
module Text {
  import opened Sequences

  /** The characters for which Python's `str.isspace()` holds. */
  predicate IsSpace(c: char) {
    || c == ' ' || c == '\t' || c == '\n' || c == '\r'
    || c == '\U{000B}' || c == '\U{000C}'
    || ('\U{001C}' <= c <= '\U{001F}')
    || c == '\U{0085}' || c == '\U{00A0}' || c == '\U{1680}'
    || ('\U{2000}' <= c <= '\U{200A}')
    || c == '\U{2028}' || c == '\U{2029}' || c == '\U{202F}'
    || c == '\U{205F}' || c == '\U{3000}'
  }

  predicate AllSpace(s: string) {
    forall k :: 0 <= k < |s| ==> IsSpace(s[k])
  }

  lemma AllSpaceCons(c: char, s: string)
    requires IsSpace(c) && AllSpace(s)
    ensures AllSpace([c] + s)
  {
    forall k | 0 <= k < |[c] + s|
      ensures IsSpace(([c] + s)[k])
    {
      if k > 0 {
        assert ([c] + s)[k] == s[k - 1];
      }
    }
  }

  /** What trimming the tail `s[1..]` leaves is also what trimming `s`
      leaves when `s[0]` is whitespace. */
  lemma TrimLeftStep(s: string, r: string)
    requires |s| > 0 && IsSpace(s[0])
    requires |r| <= |s| - 1 && r == s[1..][|s| - 1 - |r|..]
    requires AllSpace(s[1..][..|s| - 1 - |r|])
    ensures r == s[|s| - |r|..]
    ensures AllSpace(s[..|s| - |r|])
  {
    assert s[..|s| - |r|] == [s[0]] + s[1..][..|s| - 1 - |r|];
    assert s[1..][|s| - 1 - |r|..] == s[|s| - |r|..];
    AllSpaceCons(s[0], s[1..][..|s| - 1 - |r|]);
  }

  /** Drops leading whitespace: the result is a suffix of `s`, and what was
      dropped is whitespace only. */
  function TrimLeft(s: string): (r: string)
    ensures |r| <= |s| && r == s[|s| - |r|..]
    ensures AllSpace(s[..|s| - |r|])
    ensures |r| > 0 ==> !IsSpace(r[0])
  {
    if |s| > 0 && IsSpace(s[0]) then
      var r := TrimLeft(s[1..]);
      TrimLeftStep(s, r);
      r
    else s
  }

  /** Drops trailing whitespace: the result is a prefix of `s`, and what was
      dropped is whitespace only. */
  function TrimRight(s: string): (r: string)
    ensures |r| <= |s| && r == s[..|r|]
    ensures AllSpace(s[|r|..])
    ensures |r| > 0 ==> !IsSpace(r[|r| - 1])
  {
    if |s| > 0 && IsSpace(s[|s| - 1]) then
      var r := TrimRight(s[..|s| - 1]);
      assert s[|r|..] == s[..|s| - 1][|r|..] + [s[|s| - 1]];
      r
    else s
  }

  /** `r` is what is left of `s` once whitespace is removed from both ends:
      the infix `s[i..i + |r|]`, with whitespace only on either side of it and
      no whitespace at its own ends. */
  predicate StrippedAt(s: string, i: nat, r: string) {
    && i + |r| <= |s|
    && r == s[i..i + |r|]
    && AllSpace(s[..i]) && AllSpace(s[i + |r|..])
    && (|r| > 0 ==> !IsSpace(r[0]) && !IsSpace(r[|r| - 1]))
  }

  /** Trimming the left end and then the right end of `s` leaves `r`
      stripped at the point the left trim stopped. */
  lemma TrimmedBothEnds(s: string, l: string, r: string)
    requires |l| <= |s| && l == s[|s| - |l|..] && AllSpace(s[..|s| - |l|])
    requires |l| > 0 ==> !IsSpace(l[0])
    requires |r| <= |l| && r == l[..|r|] && AllSpace(l[|r|..])
    requires |r| > 0 ==> !IsSpace(r[|r| - 1])
    ensures StrippedAt(s, |s| - |l|, r)
  {
    var i := |s| - |l|;
    assert r == s[i..i + |r|];
    assert s[i + |r|..] == l[|r|..];
    if |r| > 0 {
      assert r[0] == l[0];
    }
  }

  /** Python's `str.strip()` with no argument. */
  function Strip(s: string): (r: string)
    ensures StrippedAt(s, |s| - |TrimLeft(s)|, r)
  {
    var l := TrimLeft(s);
    var r := TrimRight(l);
    assert r == l[..|r|];
    TrimmedBothEnds(s, l, r);
    r
  }

  /** Stripping a string that neither starts nor ends with whitespace
      leaves it unchanged; in particular `Strip` is idempotent. */
  lemma {:induction false} StripTrimmed(s: string)
    requires |s| > 0 ==> !IsSpace(s[0]) && !IsSpace(s[|s| - 1])
    ensures Strip(s) == s
  {
    assert TrimLeft(s) == s;
    if |s| > 0 {
      assert TrimRight(s) == s;
    }
  }

  lemma StripIdempotent(s: string)
    ensures Strip(Strip(s)) == Strip(s)
  {
    StripTrimmed(Strip(s));
  }

  /** Python's `<` on strings: lexicographic by code point, a proper prefix
      sorting first. */
  predicate StrLt(a: string, b: string) {
    if |a| == 0 then |b| > 0
    else |b| > 0 && (a[0] < b[0] || (a[0] == b[0] && StrLt(a[1..], b[1..])))
  }

  lemma {:induction false} StrLtIrreflexive(a: string)
    ensures !StrLt(a, a)
  {
    if |a| > 0 {
      StrLtIrreflexive(a[1..]);
    }
  }

  lemma {:induction false} StrLtTransitive(a: string, b: string, c: string)
    requires StrLt(a, b) && StrLt(b, c)
    ensures StrLt(a, c)
  {
    if |a| > 0 && a[0] == b[0] && b[0] == c[0] {
      StrLtTransitive(a[1..], b[1..], c[1..]);
    }
  }

  lemma {:induction false} StrLtTotal(a: string, b: string)
    requires a != b
    ensures StrLt(a, b) || StrLt(b, a)
  {
    if |a| > 0 && |b| > 0 && a[0] == b[0] {
      assert a == [a[0]] + a[1..] && b == [b[0]] + b[1..];
      StrLtTotal(a[1..], b[1..]);
    }
  }

  /** String comparison is a strict total order, so `sorted` over strings
      and `SortedDistinct(_, StrLt)` agree. */
  lemma StrLtIsStrictTotalOrder()
    ensures StrictTotalOrder(StrLt)
  {
    forall a: string
      ensures !StrLt(a, a)
    {
      StrLtIrreflexive(a);
    }
    forall a: string, b: string, c: string | StrLt(a, b) && StrLt(b, c)
      ensures StrLt(a, c)
    {
      StrLtTransitive(a, b, c);
    }
    forall a: string, b: string | a != b
      ensures StrLt(a, b) || StrLt(b, a)
    {
      StrLtTotal(a, b);
    }
  }
}
