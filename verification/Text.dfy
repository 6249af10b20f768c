/** The string operations the parsers use, as JavaScript defines them. */
module Text {

  /** split(sep): the pieces between the occurrences of sep, found from the left. */
  function Split(s: string, sep: string): (parts: seq<string>)
    requires |sep| > 0
    ensures |parts| > 0
    decreases |s|
  {
    if |s| < |sep| then [s]
    else if sep <= s then [""] + Split(s[|sep|..], sep)
    else Extended(s[0], Split(s[1..], sep))
  }

  /** The parts with one more character in front of the first. */
  function Extended(c: char, parts: seq<string>): seq<string>
    requires |parts| > 0
  {
    [[c] + parts[0]] + parts[1..]
  }

  function Join(parts: seq<string>, sep: string): string {
    if parts == [] then ""
    else if |parts| == 1 then parts[0]
    else parts[0] + sep + Join(parts[1..], sep)
  }

  function Last(parts: seq<string>): string
    requires |parts| > 0
  {
    parts[|parts| - 1]
  }

  function Init(parts: seq<string>): seq<string>
    requires |parts| > 0
  {
    parts[..|parts| - 1]
  }

  lemma {:induction false} JoinSplit(s: string, sep: string)
    requires |sep| > 0
    ensures Join(Split(s, sep), sep) == s
    decreases |s|
  {
    if |s| >= |sep| {
      if sep <= s {
        JoinSplit(s[|sep|..], sep);
        assert Split(s, sep)[1..] == Split(s[|sep|..], sep);
        assert s == sep + s[|sep|..];
      } else {
        JoinSplit(s[1..], sep);
        var rest := Split(s[1..], sep);
        assert Split(s, sep)[1..] == rest[1..];
        assert s == [s[0]] + s[1..];
      }
    }
  }

  lemma {:induction false} JoinSnoc(parts: seq<string>, last: string, sep: string)
    requires |parts| > 0
    ensures Join(parts + [last], sep) == Join(parts, sep) + sep + last
    decreases |parts|
  {
    var all := parts + [last];
    assert all[1..] == parts[1..] + [last];
    if |parts| == 1 {
      assert Join(all[1..], sep) == last;
    } else {
      JoinSnoc(parts[1..], last, sep);
      assert parts[0] + sep + (Join(parts[1..], sep) + sep + last) == parts[0] + sep + Join(parts[1..], sep) + sep + last;
    }
  }

  /** Splitting what is at hand and going on with its last piece splits the whole. */
  ghost predicate Resumes(a: string, b: string, sep: string)
    requires |sep| > 0
  {
    Split(a + b, sep) == Init(Split(a, sep)) + Split(Last(Split(a, sep)) + b, sep)
  }

  lemma {:induction false} ResumesAtEnd(a: string, b: string, sep: string)
    requires |sep| > 0 && Split(a, sep) == [a]
    ensures Resumes(a, b, sep)
  {
    assert Init([a]) + Split(a + b, sep) == Split(a + b, sep);
  }

  lemma ResumesAtSep(a: string, b: string, sep: string)
    requires |sep| > 0 && sep <= a && Resumes(a[|sep|..], b, sep)
    ensures Resumes(a, b, sep)
  {
    assert sep <= a + b && (a + b)[|sep|..] == a[|sep|..] + b;
    var rest := Split(a[|sep|..], sep);
    assert Split(a, sep) == [""] + rest && Last([""] + rest) == Last(rest);
    assert Init([""] + rest) == [""] + Init(rest);
  }

  lemma {:induction false} ResumesInside(a: string, b: string, sep: string)
    requires |a| >= |sep| > 0 && !(sep <= a) && Resumes(a[1..], b, sep) && |Split(a[1..], sep)| > 1
    ensures Resumes(a, b, sep)
  {
    assert (a + b)[1..] == a[1..] + b;
    assert !(sep <= a + b) by { assert (a + b)[..|sep|] == a[..|sep|]; }
    var rest := Split(a[1..], sep);
    assert Split(a, sep) == Extended(a[0], rest);
    ExtendedResumes(a[0], rest, Split(Last(rest) + b, sep));
  }

  lemma {:induction false} SplitResumes(a: string, b: string, sep: string)
    requires |sep| > 0
    ensures Resumes(a, b, sep)
    decreases |a|
  {
    if |a| < |sep| {
      ResumesAtEnd(a, b, sep);
    } else if sep <= a {
      SplitResumes(a[|sep|..], b, sep);
      ResumesAtSep(a, b, sep);
    } else {
      SplitResumes(a[1..], b, sep);
      if |Split(a[1..], sep)| == 1 {
        SingleSplit(a[1..], sep);
        assert Extended(a[0], [a[1..]]) == [a] by { assert [a[0]] + a[1..] == a; }
        ResumesAtEnd(a, b, sep);
      } else {
        ResumesInside(a, b, sep);
      }
    }
  }

  lemma {:induction false} SingleSplit(s: string, sep: string)
    requires |sep| > 0 && |Split(s, sep)| == 1
    ensures Split(s, sep) == [s]
  {
    JoinSplit(s, sep);
  }

  lemma ExtendedResumes(c: char, parts: seq<string>, more: seq<string>)
    requires |parts| > 1
    ensures Last(Extended(c, parts)) == Last(parts)
    ensures Init(Extended(c, parts)) + more == Extended(c, Init(parts) + more)
  {}

  /** No occurrence of sep starts inside piece, even when sep follows it. */
  ghost predicate Clean(piece: string, sep: string) {
    forall i :: 0 <= i < |piece| ==> !(sep <= (piece + sep)[i..])
  }

  lemma {:induction false} SplitPiece(piece: string, rest: string, sep: string)
    requires |sep| > 0 && Clean(piece, sep)
    ensures Split(piece + sep + rest, sep) == [piece] + Split(rest, sep)
    decreases |piece|
  {
    var s := piece + sep + rest;
    if piece == "" {
      assert s == sep + rest && s[|sep|..] == rest;
    } else {
      assert !(sep <= s) by {
        assert (piece + sep)[0..] == piece + sep;
        assert s[..|sep|] == (piece + sep)[..|sep|];
      }
      CleanTail(piece, sep);
      SplitPiece(piece[1..], rest, sep);
      assert s[1..] == piece[1..] + sep + rest;
      assert piece == [piece[0]] + piece[1..];
    }
  }

  lemma CleanTail(piece: string, sep: string)
    requires |piece| > 0 && Clean(piece, sep)
    ensures Clean(piece[1..], sep)
  {
    forall i | 0 <= i < |piece| - 1
      ensures !(sep <= (piece[1..] + sep)[i..])
    {
      assert (piece[1..] + sep)[i..] == (piece + sep)[i + 1..];
    }
  }

  lemma {:induction false} SplitWhole(piece: string, sep: string)
    requires |sep| > 0 && Clean(piece, sep)
    ensures Split(piece, sep) == [piece]
    decreases |piece|
  {
    if |piece| >= |sep| {
      assert !(sep <= piece) by {
        assert (piece + sep)[0..] == piece + sep;
        assert piece[..|sep|] == (piece + sep)[..|sep|];
      }
      CleanTail(piece, sep);
      SplitWhole(piece[1..], sep);
      assert [piece[0]] + piece[1..] == piece;
    }
  }

  /** The first piece, and what the separator behind it leaves to split. */
  lemma {:induction false} FirstPiece(s: string, sep: string) returns (rest: string)
    requires |sep| > 0 && |Split(s, sep)| > 1
    ensures s == Split(s, sep)[0] + sep + rest && |rest| < |s|
    ensures Clean(Split(s, sep)[0], sep) && Split(rest, sep) == Split(s, sep)[1..]
    decreases |s|
  {
    if sep <= s {
      rest := s[|sep|..];
      assert s == "" + sep + rest;
    } else {
      rest := FirstPiece(s[1..], sep);
      var q := Split(s[1..], sep)[0];
      assert s == [s[0]] + s[1..] == [s[0]] + q + sep + rest;
      CleanCons(s[0], q, sep, rest);
    }
  }

  lemma CleanCons(c: char, piece: string, sep: string, rest: string)
    requires |sep| > 0 && Clean(piece, sep) && !(sep <= [c] + piece + sep + rest)
    ensures Clean([c] + piece, sep)
  {
    forall i | 0 <= i < |piece| + 1
      ensures !(sep <= ([c] + piece + sep)[i..])
    {
      if i > 0 {
        assert ([c] + piece + sep)[i..] == (piece + sep)[i - 1..];
      } else {
        assert ([c] + piece + sep)[0..] == [c] + piece + sep;
        assert ([c] + piece + sep + rest)[..|sep|] == ([c] + piece + sep)[..|sep|];
      }
    }
  }

  lemma {:induction false} SplitChars(s: string, sep: string, i: nat, c: char)
    requires |sep| > 0 && i < |Split(s, sep)| && c in Split(s, sep)[i]
    ensures c in s
    decreases |s|
  {
    if |s| >= |sep| {
      if sep <= s {
        if i > 0 {
          SplitChars(s[|sep|..], sep, i - 1, c);
        }
      } else {
        var rest := Split(s[1..], sep);
        if i > 0 || c in rest[0] {
          SplitChars(s[1..], sep, i, c);
        }
      }
    }
  }

  /** Splitting at one character takes joined pieces apart again, if they are free of it. */
  lemma {:induction false} SplitJoin(parts: seq<string>, c: char)
    requires |parts| > 0 && forall i :: 0 <= i < |parts| ==> c !in parts[i]
    ensures Split(Join(parts, [c]), [c]) == parts
    decreases |parts|
  {
    CharClean(parts[0], c);
    if |parts| == 1 {
      SplitWhole(parts[0], [c]);
    } else {
      SplitJoin(parts[1..], c);
      SplitPiece(parts[0], Join(parts[1..], [c]), [c]);
    }
  }

  lemma CharClean(piece: string, c: char)
    requires c !in piece
    ensures Clean(piece, [c])
  {
    forall i | 0 <= i < |piece|
      ensures !([c] <= (piece + [c])[i..])
    {
      assert (piece + [c])[i..][0] == piece[i];
    }
  }

  lemma {:induction false} SplitFree(s: string, c: char)
    ensures forall i :: 0 <= i < |Split(s, [c])| ==> c !in Split(s, [c])[i]
    decreases |s|
  {
    if s != "" {
      SplitFree(s[1..], c);
      if s[0] != c {
        var rest := Split(s[1..], [c]);
        assert rest[0] == Split(s[1..], [c])[0];
      }
    }
  }

  // ---------------------------------------------------------------------------
  // trim
  // ---------------------------------------------------------------------------

  /** JavaScript white space and line terminators. */
  predicate IsSpace(c: char) {
    c in " \t\n\r" || c in ['\U{000B}', '\U{000C}', '\U{00A0}', '\U{1680}', '\U{2028}', '\U{2029}', '\U{202F}', '\U{205F}', '\U{3000}', '\U{FEFF}'] ||
    '\U{2000}' <= c <= '\U{200A}'
  }

  /** ECMAScript's WhiteSpace and LineTerminator. */
  lemma SpaceExactly(c: char)
    ensures IsSpace(c) <==>
              '\U{0009}' <= c <= '\U{000D}' || c == '\U{0020}' || c == '\U{00A0}' || c == '\U{1680}' ||
              '\U{2000}' <= c <= '\U{200A}' || c == '\U{2028}' || c == '\U{2029}' || c == '\U{202F}' ||
              c == '\U{205F}' || c == '\U{3000}' || c == '\U{FEFF}'
  {}

  function TrimStart(s: string): string {
    if s != "" && IsSpace(s[0]) then TrimStart(s[1..]) else s
  }

  function TrimEnd(s: string): string {
    if s != "" && IsSpace(s[|s| - 1]) then TrimEnd(s[..|s| - 1]) else s
  }

  function Trim(s: string): string { TrimEnd(TrimStart(s)) }

  /** Neither end is white space. */
  predicate Trimmed(s: string) { s == "" || (!IsSpace(s[0]) && !IsSpace(s[|s| - 1])) }

  lemma TrimKeeps(s: string)
    requires Trimmed(s)
    ensures Trim(s) == s
  {}

  lemma {:induction false} TrimEndPrefix(s: string)
    ensures TrimEnd(s) <= s && (TrimEnd(s) == "" || !IsSpace(TrimEnd(s)[|TrimEnd(s)| - 1]))
    decreases |s|
  {
    if s != "" && IsSpace(s[|s| - 1]) {
      TrimEndPrefix(s[..|s| - 1]);
    }
  }

  lemma {:induction false} TrimStartSuffix(s: string)
    ensures |TrimStart(s)| <= |s| && TrimStart(s) == s[|s| - |TrimStart(s)|..]
    ensures TrimStart(s) == "" || !IsSpace(TrimStart(s)[0])
    decreases |s|
  {
    if s != "" && IsSpace(s[0]) {
      TrimStartSuffix(s[1..]);
    }
  }

  lemma {:induction false} TrimEndBlank(s: string)
    requires TrimEnd(s) == ""
    ensures forall c :: c in s ==> IsSpace(c)
    decreases |s|
  {
    if s != "" {
      TrimEndBlank(s[..|s| - 1]);
      assert s == s[..|s| - 1] + [s[|s| - 1]];
    }
  }

  lemma {:induction false} TrimBlank(s: string)
    requires Trim(s) == ""
    ensures forall c :: c in s ==> IsSpace(c)
    decreases |s|
  {
    if s != "" && IsSpace(s[0]) {
      TrimBlank(s[1..]);
      assert s == [s[0]] + s[1..];
    } else {
      TrimEndBlank(s);
    }
  }

  lemma TrimTrims(s: string)
    ensures Trimmed(Trim(s)) && forall c :: c in Trim(s) ==> c in s
  {
    TrimStartSuffix(s);
    TrimEndPrefix(TrimStart(s));
  }

  /** Trimming takes white space off both ends and nothing else. */
  lemma {:induction false} TrimExactly(s: string) returns (a: string, b: string)
    ensures s == a + Trim(s) + b && (forall c :: c in a ==> IsSpace(c)) && (forall c :: c in b ==> IsSpace(c))
  {
    a := SpaceInFront(s);
    b := SpaceBehind(TrimStart(s));
    assert s == a + (Trim(s) + b);
  }

  lemma {:induction false} SpaceInFront(s: string) returns (a: string)
    ensures s == a + TrimStart(s) && forall c :: c in a ==> IsSpace(c)
    decreases |s|
  {
    a := "";
    if s != "" && IsSpace(s[0]) {
      a := SpaceInFront(s[1..]);
      a := [s[0]] + a;
      assert s == [s[0]] + s[1..];
    }
  }

  lemma {:induction false} SpaceBehind(s: string) returns (b: string)
    ensures s == TrimEnd(s) + b && forall c :: c in b ==> IsSpace(c)
    decreases |s|
  {
    b := "";
    if s != "" && IsSpace(s[|s| - 1]) {
      b := SpaceBehind(s[..|s| - 1]);
      b := b + [s[|s| - 1]];
      assert s == s[..|s| - 1] + [s[|s| - 1]];
    }
  }

  predicate StartsWith(s: string, prefix: string) { prefix <= s }
}
