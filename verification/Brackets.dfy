/** The bracket scanners of the API contract check: block, ts_match and ts_split. */
module Brackets {
  import opened Options

  // ---------------------------------------------------------------------------
  // Braces: block and ts_match
  // ---------------------------------------------------------------------------

  function Brace(c: char): int { if c == '{' then 1 else if c == '}' then -1 else 0 }

  /** How many braces are open at the end of s. */
  ghost function Open(s: string): int { if s == "" then 0 else Open(s[..|s| - 1]) + Brace(s[|s| - 1]) }

  /** p is the shortest non-empty prefix of t in which every brace is closed, or all of t. */
  ghost predicate ShortestBalanced(p: string, t: string) {
    p <= t && (forall k :: 0 < k < |p| ==> Open(t[..k]) != 0) &&
    ((p != "" && Open(p) == 0) || (p == t && (t == "" || Open(t) != 0)))
  }

  ghost predicate FirstBrace(text: string, start: nat, i: nat) {
    start <= i < |text| && text[i] == '{' && forall k :: start <= k < i ==> text[k] != '{'
  }

  lemma OpenStep(t: string, k: nat)
    requires k < |t|
    ensures Open(t[..k + 1]) == Open(t[..k]) + Brace(t[k])
  {
    assert t[..k + 1][..k] == t[..k];
  }

  /** text.index('{', start); None is Python's ValueError. */
  method IndexBrace(text: string, start: nat) returns (i: Option<nat>)
    ensures i.Some? ==> FirstBrace(text, start, i.value)
    ensures i.None? ==> forall k :: start <= k < |text| ==> text[k] != '{'
  {
    var k := start;
    while k < |text|
      invariant start <= k
      invariant forall m :: start <= m < k && m < |text| ==> text[m] != '{'
    {
      if text[k] == '{' {
        return Some(k);
      }
      k := k + 1;
    }
    i := None;
  }

  method Block(text: string, start: nat) returns (r: Option<string>)
    ensures r.None? <==> forall k :: start <= k < |text| ==> text[k] != '{'
    ensures forall i: nat :: r.Some? && FirstBrace(text, start, i) ==> ShortestBalanced(r.value, text[i..])
  {
    var found := IndexBrace(text, start);
    if found.None? {
      return None;
    }
    var i := found.value;
    ghost var t := text[i..];
    var (depth, j) := (0, i);
    while j < |text|
      invariant i <= j <= |text| && depth == Open(t[..j - i]) && (j > i ==> depth > 0)
      invariant forall k :: 0 < k <= j - i ==> Open(t[..k]) != 0
    {
      OpenStep(t, j - i);
      if text[j] == '{' {
        depth := depth + 1;
      } else if text[j] == '}' {
        depth := depth - 1;
        if depth == 0 {
          assert text[i..j + 1] == t[..j - i + 1];
          return Some(text[i..j + 1]);
        }
      }
      j := j + 1;
    }
    assert t[..j - i] == t;
    r := Some(text[i..]);
  }

  /** One past the first closing brace behind which none is open, or the end of s. */
  ghost predicate Matched(s: string, n: nat) {
    n <= |s| && (forall k :: 0 < k < n && s[k - 1] == '}' ==> Open(s[..k]) != 0) &&
    (n < |s| ==> 0 < n && s[n - 1] == '}' && Open(s[..n]) == 0)
  }

  method TsMatch(s: string) returns (n: nat)
    ensures Matched(s, n)
  {
    var d := 0;
    for i := 0 to |s|
      invariant d == Open(s[..i])
      invariant forall k :: 0 < k <= i && s[k - 1] == '}' ==> Open(s[..k]) != 0
    {
      OpenStep(s, i);
      if s[i] == '{' {
        d := d + 1;
      } else if s[i] == '}' {
        d := d - 1;
        if d == 0 {
          return i + 1;
        }
      }
    }
    n := |s|;
  }

  lemma {:induction false} OpenConcat(a: string, b: string)
    ensures Open(a + b) == Open(a) + Open(b)
    decreases |b|
  {
    if b == "" {
      assert a + b == a;
    } else {
      assert (a + b)[..|a + b| - 1] == a + b[..|b| - 1];
      OpenConcat(a, b[..|b| - 1]);
    }
  }

  /** How many closing braces a has. */
  ghost function Closed(a: string): nat {
    if a == "" then 0 else Closed(a[..|a| - 1]) + if a[|a| - 1] == '}' then 1 else 0
  }

  lemma {:induction false} OpenCloses(a: string)
    requires '{' !in a
    ensures Open(a) == 0 - Closed(a) && (Closed(a) == 0 <==> '}' !in a)
    decreases |a|
  {
    if a != "" {
      OpenCloses(a[..|a| - 1]);
      assert a == a[..|a| - 1] + [a[|a| - 1]];
    }
  }

  /** Up to the shortest balanced prefix more braces are open than closed. */
  lemma {:induction false} OpenInside(p: string, t: string, k: nat)
    requires ShortestBalanced(p, t) && t != "" && t[0] == '{' && 0 < k <= |p| && (k < |p| || Open(p) != 0)
    ensures Open(t[..k]) > 0
    decreases k
  {
    OpenStep(t, k - 1);
    if k == 1 {
      assert t[..0] == "";
    } else {
      OpenInside(p, t, k - 1);
    }
    assert k == |p| ==> t[..k] == p;
  }

  /** No closing brace of the block but its last character leaves m braces open. */
  ghost predicate NeverBackTo(p: string, m: nat) {
    forall k :: 0 < k < |p| && p[k - 1] == '}' ==> Open(p[..k]) != m
  }

  lemma OpenBehind(s: string, i: nat)
    requires i <= |s|
    ensures forall k :: 0 <= k <= |s| - i ==> Open(s[..i + k]) == Open(s[..i]) + Open(s[i..][..k])
  {
    forall k | 0 <= k <= |s| - i
      ensures Open(s[..i + k]) == Open(s[..i]) + Open(s[i..][..k])
    {
      assert s[..i + k] == s[..i] + s[i..][..k];
      OpenConcat(s[..i], s[i..][..k]);
    }
  }

  /** ts_match ends where block does if and only if nothing is closed in front of the first brace, or
      the block ends the text and never comes back to as many open braces as are closed in front. */
  lemma MatchEndsBlock(s: string, i: nat, p: string, n: nat)
    requires FirstBrace(s, 0, i) && ShortestBalanced(p, s[i..]) && Matched(s, n)
    ensures n == i + |p| <==>
            Closed(s[..i]) == 0 || (i + |p| == |s| && NeverBackTo(p, Closed(s[..i])))
  {
    var (a, t) := (s[..i], s[i..]);
    assert '{' !in a;
    OpenCloses(a);
    OpenBehind(s, i);
    if Closed(a) == 0 {
      forall k | 0 < k < i + |p|
        ensures s[k - 1] == '}' ==> Open(s[..k]) != 0
      {
        if k > i {
          OpenInside(p, t, k - i);
          assert s[..i + (k - i)] == s[..k];
        } else {
          assert s[k - 1] in a;
        }
      }
      BlockEnd(s, i, p, n);
    } else if i + |p| == |s| {
      assert p == t;
      MatchPastClosed(s, i, n);
    } else {
      assert t[..|p|] == p && Open(p) == 0;
      assert Open(s[..i + |p|]) != 0;
    }
  }

  lemma MatchPastClosed(s: string, i: nat, n: nat)
    requires FirstBrace(s, 0, i) && Matched(s, n) && Closed(s[..i]) > 0
    ensures n == |s| <==> NeverBackTo(s[i..], Closed(s[..i]))
  {
    var (a, t) := (s[..i], s[i..]);
    OpenBehind(s, i);
    OpenCloses(a);
    forall k | 0 < k <= i && s[k - 1] == '}'
      ensures Open(s[..k]) != 0
    {
      OpenCloses(s[..k]);
      assert s[..k][k - 1] in s[..k];
    }
    if n < |s| {
      assert n > i && s[..i + (n - i)] == s[..n];
      assert t[n - i - 1] == s[n - 1] == '}' && Open(t[..n - i]) == Closed(a);
    } else {
      forall k | 0 < k < |t| && t[k - 1] == '}'
        ensures Open(t[..k]) != Closed(a)
      {
        assert s[i + k - 1] == '}';
      }
    }
  }

  /** A closed block never comes back to m open braces exactly if it never nests deeper than that. */
  lemma {:induction false} NestsNoDeeper(p: string, m: nat)
    requires m > 0 && Open(p) == 0
    ensures NeverBackTo(p, m) <==> forall k :: 0 <= k <= |p| ==> Open(p[..k]) <= m
  {
    if forall k :: 0 <= k <= |p| ==> Open(p[..k]) <= m {
      forall k | 0 < k < |p| && p[k - 1] == '}'
        ensures Open(p[..k]) != m
      {
        OpenStep(p, k - 1);
      }
    }
    if NeverBackTo(p, m) {
      forall k | 0 <= k <= |p|
        ensures Open(p[..k]) <= m
      {
        if Open(p[..k]) > m {
          var j := ComesBack(p, k, m);
        }
      }
    }
  }

  /** From deeper than m, the way to the end of a closed block leads back to m. */
  lemma {:induction false} ComesBack(p: string, k: nat, m: nat) returns (j: nat)
    requires k <= |p| && m > 0 && Open(p) == 0 && Open(p[..k]) > m
    ensures 0 < j < |p| && p[j - 1] == '}' && Open(p[..j]) == m
    decreases |p| - k
  {
    assert p[..|p|] == p;
    OpenStep(p, k);
    if Open(p[..k + 1]) > m {
      j := ComesBack(p, k + 1, m);
    } else {
      j := k + 1;
    }
  }

  /** One brace closed in front: ts_match still finds the end of "{}", but not that of "{{}}". */
  lemma ClosedInFront(n: nat, n': nat)
    requires Matched("}{}", n) && Matched("}{{}}", n')
    ensures n == 3 && n' == 4
  {
    var (s, s') := ("}{}", "}{{}}");
    assert s[..0] == "" && s'[..0] == "" && s[..3] == s && s'[..5] == s';
    OpenStep(s, 0);
    OpenStep(s, 1);
    OpenStep(s, 2);
    OpenStep(s', 0);
    OpenStep(s', 1);
    OpenStep(s', 2);
    OpenStep(s', 3);
  }

  lemma BlockEnd(s: string, i: nat, p: string, n: nat)
    requires FirstBrace(s, 0, i) && ShortestBalanced(p, s[i..]) && Matched(s, n) && '}' !in s[..i]
    requires forall k :: 0 < k < i + |p| ==> s[k - 1] == '}' ==> Open(s[..k]) != 0
    requires forall k :: 0 <= k <= |s[i..]| ==> Open(s[..i + k]) == Open(s[..i]) + Open(s[i..][..k])
    ensures n == i + |p|
  {
    var t := s[i..];
    OpenCloses(s[..i]);
    assert t[0] == '{' && p != "";
    assert t[..|p|] == p;
    assert n >= i + |p|;
    assert Open(t[..1]) == 1 by {
      OpenStep(t, 0);
      assert t[..0] == "";
    }
    if Open(p) == 0 {
      assert Open(s[..i + |p|]) == 0;
      OpenStep(t, |p| - 1);
      OpenInside(p, t, |p| - 1);
      assert s[i + |p| - 1] == t[|p| - 1] == '}';
    }
  }
}
