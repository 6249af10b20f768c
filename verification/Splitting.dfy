/** Splitting a TypeScript type at its top level: ts_split and ts_top. */
module Splitting {
  import opened Brackets
  import opened Options
  import opened Sequences
  import opened Text

  predicate Opening(c: char) { c == '{' || c == '<' || c == '(' || c == '[' }
  predicate Closing(c: char) { c == '}' || c == '>' || c == ')' || c == ']' }

  function Nest(c: char): int { if Opening(c) then 1 else if Closing(c) then -1 else 0 }

  /** From depth d, s closes nothing that is not open and leaves nothing open. */
  predicate Balanced(s: string, d: int) {
    d >= 0 && if s == "" then d == 0 else Balanced(s[1..], d + Nest(s[0]))
  }

  /** From depth d, s has no sep outside all brackets. */
  predicate TopFree(s: string, d: int, sep: char) {
    s == "" || ((s[0] != sep || d + Nest(s[0]) != 0) && TopFree(s[1..], d + Nest(s[0]), sep))
  }

  /** What is between the separators at depth 0, read from depth d. */
  function Pieces(s: string, d: int, sep: char): (parts: seq<string>)
    ensures |parts| > 0
  {
    if s == "" then [""]
    else
      var e := d + Nest(s[0]);
      if s[0] == sep && e == 0 then [""] + Pieces(s[1..], e, sep)
      else Extended(s[0], Pieces(s[1..], e, sep))
  }

  function Prefixed(front: string, parts: seq<string>): seq<string>
    requires |parts| > 0
  {
    [front + parts[0]] + parts[1..]
  }

  /** What the loop of ts_split will return when rest is left to read. */
  function Outcome(parts: seq<string>, cur: string, rest: string, d: int, sep: char): seq<string> {
    parts + Prefixed(cur, Pieces(rest, d, sep))
  }

  lemma PrefixedCut(cur: string, more: seq<string>)
    requires |more| > 0
    ensures Prefixed(cur, [""] + more) == [cur] + Prefixed("", more)
  {
    assert cur + "" == cur && "" + more[0] == more[0];
    assert ([""] + more)[1..] == more == [more[0]] + more[1..];
  }

  lemma PrefixedMore(cur: string, c: char, more: seq<string>)
    requires |more| > 0
    ensures Prefixed(cur, Extended(c, more)) == Prefixed(cur + [c], more)
  {
    Assoc(cur, [c], more[0]);
    assert Extended(c, more)[1..] == more[1..];
  }

  lemma OutcomeStep(parts: seq<string>, cur: string, rest: string, d: int, sep: char)
    requires rest != ""
    ensures var (c, e) := (rest[0], d + Nest(rest[0]));
            Outcome(parts, cur, rest, d, sep) ==
              if c == sep && e == 0 then Outcome(parts + [cur], "", rest[1..], e, sep)
              else Outcome(parts, cur + [c], rest[1..], e, sep)
  {
    var (c, e) := (rest[0], d + Nest(rest[0]));
    var more := Pieces(rest[1..], e, sep);
    if c == sep && e == 0 {
      PrefixedCut(cur, more);
      Assoc(parts, [cur], Prefixed("", more));
    } else {
      PrefixedMore(cur, c, more);
    }
  }

  method TsSplit(s: string, sep: char) returns (parts: seq<string>)
    ensures parts == Pieces(s, 0, sep)
  {
    var (d, cur) := (0, "");
    parts := [];
    assert s[0..] == s && "" + Pieces(s, 0, sep)[0] == Pieces(s, 0, sep)[0];
    for i := 0 to |s|
      invariant Outcome(parts, cur, s[i..], d, sep) == Pieces(s, 0, sep)
    {
      var c := s[i];
      OutcomeStep(parts, cur, s[i..], d, sep);
      assert s[i..][0] == c && s[i..][1..] == s[i + 1..];
      if Opening(c) {
        d := d + 1;
      }
      if Closing(c) {
        d := d - 1;
      }
      if c == sep && d == 0 {
        parts := parts + [cur];
        cur := "";
      } else {
        cur := cur + [c];
      }
    }
    assert cur + "" == cur && s[|s|..] == "";
    parts := parts + [cur];
  }

  lemma {:induction false} JoinBehind(first: string, rest: seq<string>, sep: string)
    requires |rest| > 0
    ensures Join([first] + rest, sep) == first + sep + Join(rest, sep)
  {
    assert ([first] + rest)[1..] == rest;
  }

  lemma {:induction false} JoinExtended(c: char, parts: seq<string>, sep: string)
    requires |parts| > 0
    ensures Join(Extended(c, parts), sep) == [c] + Join(parts, sep)
  {
    if |parts| > 1 {
      assert parts == [parts[0]] + parts[1..];
      JoinBehind(parts[0], parts[1..], sep);
      JoinBehind([c] + parts[0], parts[1..], sep);
      Assoc([c], parts[0], sep);
      Assoc([c], parts[0] + sep, Join(parts[1..], sep));
    }
  }

  /** Nothing is lost: any text comes back from its parts. */
  lemma {:induction false} JoinPieces(s: string, d: int, sep: char)
    ensures Join(Pieces(s, d, sep), [sep]) == s
    decreases |s|
  {
    if s != "" {
      var e := d + Nest(s[0]);
      var rest := Pieces(s[1..], e, sep);
      JoinPieces(s[1..], e, sep);
      assert s == [s[0]] + s[1..];
      if s[0] == sep && e == 0 {
        JoinBehind("", rest, [sep]);
        assert "" + [sep] == [sep];
      } else {
        JoinExtended(s[0], rest, [sep]);
      }
    }
  }

  ghost predicate WellSplit(parts: seq<string>, d: int, sep: char)
    requires |parts| > 0
  {
    Balanced(parts[0], d) && TopFree(parts[0], d, sep) &&
    forall k :: 1 <= k < |parts| ==> Balanced(parts[k], 0) && TopFree(parts[k], 0, sep)
  }

  lemma {:induction false} PiecesSplitWell(s: string, d: int, sep: char)
    requires Balanced(s, d) && !Closing(sep)
    ensures WellSplit(Pieces(s, d, sep), d, sep)
    decreases |s|
  {
    if s != "" {
      var e := d + Nest(s[0]);
      var rest := Pieces(s[1..], e, sep);
      PiecesSplitWell(s[1..], e, sep);
      var parts := Pieces(s, d, sep);
      if s[0] == sep && e == 0 {
        assert forall k :: 1 <= k < |parts| ==> parts[k] == rest[k - 1];
      } else {
        assert parts[0][0] == s[0] && parts[0][1..] == rest[0];
      }
    }
  }

  /** sep splits every balanced text into balanced parts. */
  ghost predicate SplitsWell(sep: char) {
    forall s :: Balanced(s, 0) ==> forall k :: 0 <= k < |Pieces(s, 0, sep)| ==> Balanced(Pieces(s, 0, sep)[k], 0)
  }

  lemma {:induction false} ClosingSplitsBadly(sep: char)
    requires Closing(sep)
    ensures Balanced(['{', sep], 0) && |Pieces(['{', sep], 0, sep)| > 0
    ensures !Balanced(Pieces(['{', sep], 0, sep)[0], 0)
  {
    var (s, first) := (['{', sep], ['{']);
    assert s[1..] == [sep] && [sep][1..] == "" && first[1..] == "";
    assert Balanced([sep], 1);
    assert Pieces([sep], 1, sep) == ["", ""];
    assert Pieces(s, 0, sep)[0] == ['{'] + "" == first;
    assert !Balanced("", 1) && !Balanced(first, 0);
  }

  lemma SplitsWellExactly(sep: char)
    ensures SplitsWell(sep) <==> sep !in "}>)]"
  {
    if Closing(sep) {
      ClosingSplitsBadly(sep);
    } else {
      forall s | Balanced(s, 0)
        ensures forall k :: 0 <= k < |Pieces(s, 0, sep)| ==> Balanced(Pieces(s, 0, sep)[k], 0)
      {
        PiecesSplitWell(s, 0, sep);
      }
    }
  }

  lemma {:induction false} PiecesStep(p: string, d: int, rest: string, sep: char)
    requires Balanced(p, d) && TopFree(p, d, sep) && Nest(sep) == 0
    ensures Pieces(p + [sep] + rest, d, sep) == [p] + Pieces(rest, 0, sep)
    ensures Pieces(p, d, sep) == [p]
    decreases |p|
  {
    var s := p + [sep] + rest;
    if p == "" {
      assert s[1..] == rest;
    } else {
      PiecesStep(p[1..], d + Nest(p[0]), rest, sep);
      assert s[1..] == p[1..] + [sep] + rest;
      assert [p[0]] + p[1..] == p;
    }
  }

  /** Balanced parts without a top-level separator are found again, so they are the only way
      to write a text as such parts. */
  lemma {:induction false} SplitJoined(parts: seq<string>, sep: char)
    requires |parts| > 0 && WellSplit(parts, 0, sep) && Nest(sep) == 0
    ensures Pieces(Join(parts, [sep]), 0, sep) == parts
    decreases |parts|
  {
    if |parts| == 1 {
      PiecesStep(parts[0], 0, "", sep);
    } else {
      SplitJoined(parts[1..], sep);
      PiecesStep(parts[0], 0, Join(parts[1..], [sep]), sep);
    }
  }

  // ---------------------------------------------------------------------------
  // Where ts_split cuts
  // ---------------------------------------------------------------------------

  /** How many more brackets s opens than it closes. */
  ghost function Level(s: string): int {
    if s == "" then 0
    else (if s[0] in "{<([" then 1 else if s[0] in "}>)]" then -1 else 0) + Level(s[1..])
  }

  /** The character at i is sep, and d brackets and those of s up to and with it are closed. */
  ghost predicate CutAt(s: string, d: int, i: nat, sep: char)
    requires i < |s|
  {
    s[i] == sep && d + Level(s[..i + 1]) == 0
  }

  lemma {:induction false} LevelNests(c: char)
    ensures Nest(c) == Level([c])
  {}

  lemma {:induction false} CutBehind(s: string, d: int, i: nat, sep: char)
    requires s != "" && i < |s| - 1
    ensures CutAt(s, d, i + 1, sep) <==> CutAt(s[1..], d + Nest(s[0]), i, sep)
  {
    assert s[..i + 2][1..] == s[1..][..i + 1];
    LevelNests(s[0]);
  }

  lemma {:induction false} CutFirst(s: string, d: int, sep: char)
    requires s != ""
    ensures CutAt(s, d, 0, sep) <==> s[0] == sep && d + Nest(s[0]) == 0
  {
    assert s[..1] == [s[0]];
    LevelNests(s[0]);
  }

  ghost predicate NoCutBefore(s: string, d: int, n: nat, sep: char)
    requires n <= |s|
  {
    forall i: nat :: i < n ==> !CutAt(s, d, i, sep)
  }

  lemma NoCutBehind(s: string, d: int, n: nat, sep: char)
    requires 0 < n <= |s| && NoCutBefore(s, d, n, sep)
    ensures d + Nest(s[0]) != 0 || s[0] != sep
    ensures NoCutBefore(s[1..], d + Nest(s[0]), n - 1, sep)
  {
    CutFirst(s, d, sep);
    assert !CutAt(s, d, 0, sep);
    var (t, e) := (s[1..], d + Nest(s[0]));
    forall i: nat | i < n - 1
      ensures !CutAt(t, e, i, sep)
    {
      CutBehind(s, d, i, sep);
      assert !CutAt(s, d, i + 1, sep);
    }
  }

  /** Any text, balanced or not, is cut at its first separator outside all brackets, and what
      is behind it is split by itself. */
  lemma {:induction false} FirstCut(s: string, d: int, i: nat, sep: char)
    requires i < |s| && CutAt(s, d, i, sep) && NoCutBefore(s, d, i, sep)
    ensures Pieces(s, d, sep) == [s[..i]] + Pieces(s[i + 1..], 0, sep)
    decreases i
  {
    if i == 0 {
      CutFirst(s, d, sep);
    } else {
      CutBehind(s, d, i - 1, sep);
      NoCutBehind(s, d, i, sep);
      FirstCut(s[1..], d + Nest(s[0]), i - 1, sep);
      assert s[1..][i..] == s[i + 1..];
      assert [s[0]] + s[1..][..i - 1] == s[..i];
    }
  }

  /** A text without a separator outside all brackets is its only part. */
  lemma {:induction false} NoCut(s: string, d: int, sep: char)
    requires NoCutBefore(s, d, |s|, sep)
    ensures Pieces(s, d, sep) == [s]
    decreases |s|
  {
    if s != "" {
      NoCutBehind(s, d, |s|, sep);
      NoCut(s[1..], d + Nest(s[0]), sep);
      assert [s[0]] + s[1..] == s;
    }
  }

  // ---------------------------------------------------------------------------
  // ts_top
  // ---------------------------------------------------------------------------

  /** The characters of s outside all brackets, read from depth d. */
  function TopChars(s: string, d: int): string {
    if s == "" then ""
    else
      var e := if Opening(s[0]) then d + 1 else d;
      (if e == 0 then [s[0]] else "") + TopChars(s[1..], d + Nest(s[0]))
  }

  lemma TopStep(out: string, s: string, d: int)
    requires s != ""
    ensures out + TopChars(s, d) ==
              (if d + (if Opening(s[0]) then 1 else 0) == 0 then out + [s[0]] else out) + TopChars(s[1..], d + Nest(s[0]))
  {
    var rest := TopChars(s[1..], d + Nest(s[0]));
    if d + (if Opening(s[0]) then 1 else 0) == 0 {
      assert TopChars(s, d) == [s[0]] + rest;
      assert out + ([s[0]] + rest) == out + [s[0]] + rest;
    } else {
      assert TopChars(s, d) == rest;
    }
  }

  method TopLevel(s: string) returns (out: string)
    ensures out == TopChars(s, 0)
  {
    var d := 0;
    out := "";
    assert s[0..] == s;
    for k := 0 to |s|
      invariant out + TopChars(s[k..], d) == TopChars(s, 0)
    {
      var c := s[k];
      TopStep(out, s[k..], d);
      assert s[k..][0] == c && s[k..][1..] == s[k + 1..];
      if Opening(c) {
        d := d + 1;
      }
      if d == 0 {
        out := out + [c];
      }
      if Closing(c) {
        d := d - 1;
      }
    }
  }

  /** Before the character at i, an opening bracket itself counted, d brackets and those of s are closed. */
  ghost predicate TopAt(s: string, d: int, i: nat)
    requires i < |s|
  {
    d + Level(s[..i]) + (if s[i] in "{<([" then 1 else 0) == 0
  }

  lemma {:induction false} TopSingle(c: char, d: int)
    ensures TopChars([c], d) == if TopAt([c], d, 0) then [c] else ""
  {
    assert [c][..0] == "" && [c][1..] == "";
  }

  lemma {:induction false} TopCons(c: char, rest: string, d: int)
    ensures TopChars([c] + rest, d) == TopChars([c], d) + TopChars(rest, d + Level([c]))
    ensures Level([c] + rest) == Level([c]) + Level(rest)
  {
    assert ([c] + rest)[1..] == rest && [c][1..] == "";
    LevelNests(c);
    assert TopChars([c], d) + "" == TopChars([c], d);
  }

  lemma {:induction false} TopAtBehind(first: char, rest: string, d: int, i: nat)
    requires i < |rest|
    ensures TopAt([first] + rest, d, i + 1) <==> TopAt(rest, d + Level([first]), i)
  {
    var s := [first] + rest;
    assert s[..i + 1] == [first] + rest[..i];
    TopCons(first, rest[..i], d);
  }

  lemma {:induction false} TopSnoc(front: string, c: char, d: int)
    ensures TopChars(front + [c], d) == TopChars(front, d) + if TopAt(front + [c], d, |front|) then [c] else ""
    decreases |front|
  {
    if front == "" {
      assert front + [c] == [c];
      TopSingle(c, d);
    } else {
      var (first, rest) := (front[0], front[1..]);
      var e := d + Level([first]);
      TopSnoc(rest, c, e);
      TopAtBehind(first, rest + [c], d, |rest|);
      Assoc([first], rest, [c]);
      assert front == [first] + rest;
      TopCons(first, rest, d);
      TopCons(first, rest + [c], d);
      Assoc(TopChars([first], d), TopChars(rest, e), if TopAt(rest + [c], e, |rest|) then [c] else "");
    }
  }

  /** ts_top keeps the characters at the places idx: those outside all brackets. */
  lemma {:induction false} TopPlaces(s: string, d: int) returns (idx: seq<nat>)
    ensures Places(idx, |s|) && |TopChars(s, d)| == |idx|
    ensures forall k :: 0 <= k < |idx| ==> TopChars(s, d)[k] == s[idx[k]]
    ensures forall i: nat :: i < |s| ==> (i in idx <==> TopAt(s, d, i))
    decreases |s|
  {
    idx := [];
    if s != "" {
      var n := |s| - 1;
      var front := s[..n];
      idx := TopPlaces(front, d);
      assert s == front + [s[n]];
      TopSnoc(front, s[n], d);
      PlacesMore(idx, n);
      forall i: nat | i < n
        ensures TopAt(s, d, i) <==> TopAt(front, d, i)
      {
        assert front[..i] == s[..i];
      }
      if TopAt(s, d, n) {
        idx := idx + [n];
      }
    }
  }

  /** ts_top; None is the ValueError of a type without a brace. */
  method TsTop(s: string) returns (r: Option<string>)
    ensures r.None? <==> '{' !in s
    ensures forall i: nat, n: nat :: FirstBrace(s, 0, i) && Matched(s, n) && n > 0 ==>
              r == Some(TopChars(if i + 1 < n <= |s| then s[i + 1..n - 1] else "", 0))
  {
    var found := IndexBrace(s, 0);
    if found.None? {
      return None;
    }
    var n := TsMatch(s);
    forall m: nat | Matched(s, m)
      ensures m == n
    {
      MatchedOnce(s, n, m);
    }
    var inner := if found.value + 1 < n then s[found.value + 1..n - 1] else "";
    var out := TopLevel(inner);
    r := Some(out);
  }

  lemma MatchedOnce(s: string, n: nat, m: nat)
    requires Matched(s, n) && Matched(s, m)
    ensures m == n
  {}

  /** The top-level characters of each part; the first is read from depth d. */
  function TopsOf(parts: seq<string>, d: int): seq<string>
    requires |parts| > 0
    decreases |parts|
  {
    [TopChars(parts[0], d)] + if |parts| == 1 then [] else TopsOf(parts[1..], 0)
  }

  lemma {:induction false} TopsExtended(c: char, parts: seq<string>, d: int)
    requires |parts| > 0 && d >= 0 && (Closing(c) ==> d > 0)
    ensures TopsOf(Extended(c, parts), d) ==
              (if d == 0 && !Opening(c) then Extended(c, TopsOf(parts, 0)) else TopsOf(parts, d + Nest(c)))
  {
    assert Extended(c, parts)[1..] == parts[1..];
    assert ([c] + parts[0])[1..] == parts[0];
    assert d > 0 || Opening(c) ==> TopChars([c] + parts[0], d) == TopChars(parts[0], d + Nest(c));
  }

  /** ts_top and ts_split agree on what is top level: splitting the top-level characters
      anywhere gives the top-level characters of the parts. */
  lemma {:induction false} TopOfPieces(s: string, d: int, sep: char)
    requires Balanced(s, d) && Nest(sep) == 0
    ensures Split(TopChars(s, d), [sep]) == TopsOf(Pieces(s, d, sep), d)
    decreases |s|
  {
    if s != "" {
      var c := s[0];
      var e := d + Nest(c);
      var rest := Pieces(s[1..], e, sep);
      var top := TopChars(s[1..], e);
      TopOfPieces(s[1..], e, sep);
      if d == 0 && !Opening(c) {
        assert !Closing(c);
        assert TopChars(s, d) == [c] + top;
        assert ([c] + top)[1..] == top;
      } else {
        assert TopChars(s, d) == top;
      }
      if c == sep && e == 0 {
        assert ([""] + rest)[1..] == rest;
      } else {
        TopsExtended(c, rest, d);
      }
    }
  }
}
