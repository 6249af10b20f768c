/** object_keys: the top-level keys of a TypeScript object literal. */
module ObjectKeys {
  import opened Options

  // ---------------------------------------------------------------------------
  // Characters and the two regular expressions
  // ---------------------------------------------------------------------------

  predicate Quote(c: char) { c == '\'' || c == '"' || c == '`' }
  predicate Opening(c: char) { c == '{' || c == '[' || c == '(' }
  predicate Closing(c: char) { c == '}' || c == ']' || c == ')' }

  predicate Letter(c: char) { 'a' <= c <= 'z' || 'A' <= c <= 'Z' || c == '_' }
  /** The characters beyond ASCII that Python's \w takes, which depend on its Unicode tables. */
  type Letters = char -> bool

  /** \w, and the class [\w-]. */
  predicate Word(u: Letters, c: char) {
    Letter(c) || '0' <= c <= '9' || (c > '\U{007F}' && !Space(c) && u(c))
  }

  predicate WordOrDash(u: Letters, c: char) { Word(u, c) || c == '-' }

  function InWord(u: Letters): char -> bool { (c: char) => Word(u, c) }
  function InWordOrDash(u: Letters): char -> bool { (c: char) => WordOrDash(u, c) }

  /** Python's str.isspace, and \s of its regular expressions. */
  predicate Space(c: char) {
    '\U{0009}' <= c <= '\U{000D}' || '\U{001C}' <= c <= '\U{0020}' || c == '\U{0085}' || c == '\U{00A0}' ||
    c == '\U{1680}' || '\U{2000}' <= c <= '\U{200A}' || c == '\U{2028}' || c == '\U{2029}' || c == '\U{202F}' ||
    c == '\U{205F}' || c == '\U{3000}'
  }

  /** How many characters at the front of s satisfy p. */
  function RunLength(s: string, p: char -> bool): (n: nat)
    ensures n <= |s|
  {
    if s != "" && p(s[0]) then 1 + RunLength(s[1..], p) else 0
  }

  predicate Dots(s: string) { |s| >= 3 && s[0] == '.' && s[1] == '.' && s[2] == '.' }

  /** The match of [A-Za-z_]\w* at the front of s, or nothing. */
  function Identifier(u: Letters, s: string): string {
    if s != "" && Letter(s[0]) then s[..RunLength(s, InWord(u))] else ""
  }

  /** The bare key at the front of s, if s does not begin a spread. */
  function BareKey(u: Letters, s: string): string { if Dots(s) then "" else Identifier(u, s) }

  /** The name in a match of (['"])([\w-]+)\1\s*: at the front of s. */
  function QuotedKey(u: Letters, s: string): Option<string>
    requires s != ""
  {
    var n := RunLength(s[1..], InWordOrDash(u));
    var end := n + 2;
    if s[0] != '`' && n > 0 && end <= |s| && s[n + 1] == s[0] && ColonAfterSpace(s[end..]) then Some(s[1..n + 1])
    else None
  }

  predicate ColonAfterSpace(s: string) {
    var n := RunLength(s, Space);
    n < |s| && s[n] == ':'
  }

  // ---------------------------------------------------------------------------
  // The scanner
  // ---------------------------------------------------------------------------

  /** What follows the string whose text begins s and which q closes. */
  function AfterString(s: string, q: char): (t: string)
    ensures |t| <= |s|
    decreases |s|
  {
    if s == "" then ""
    else if s[0] == q then s[1..]
    else if s[0] == '\\' then AfterString(if |s| < 2 then "" else s[2..], q)
    else AfterString(s[1..], q)
  }

  /** The keys found in s by a scanner at the given depth; atKey: the next token may be a key. */
  function Keys(u: Letters, s: string, depth: int, atKey: bool): seq<string>
    decreases |s|
  {
    if s == "" then []
    else
      var (c, rest) := (s[0], s[1..]);
      if Quote(c) && depth >= 1 then
        var key := if depth == 1 && atKey then QuotedKey(u, s) else None;
        if key.Some? then [key.value] + Keys(u, AfterString(rest, c), depth, false)
        else Keys(u, AfterString(rest, c), depth, atKey)
      else if Opening(c) then Keys(u, rest, depth + 1, depth + 1 == 1 || atKey)
      else if Closing(c) then if depth == 1 then [] else Keys(u, rest, depth - 1, atKey)
      else if depth != 1 then Keys(u, rest, depth, atKey)
      else if c == ',' then Keys(u, rest, depth, true)
      else if !atKey || Space(c) then Keys(u, rest, depth, atKey)
      else if BareKey(u, s) == "" then Keys(u, rest, depth, false)
      else [BareKey(u, s)] + Keys(u, s[|BareKey(u, s)|..], depth, false)
  }

  /** What is left of s from index j, which may be past the end. */
  function Drop(s: string, j: nat): string { if j <= |s| then s[j..] else "" }

  lemma {:induction false} AfterStringStep(s: string, j: nat, q: char)
    requires j < |s|
    ensures AfterString(Drop(s, j), q) ==
              if s[j] == q then Drop(s, j + 1) else AfterString(Drop(s, if s[j] == '\\' then j + 2 else j + 1), q)
  {}

  method SkipString(src: string, start: nat, q: char) returns (j: nat)
    ensures j >= start && Drop(src, j + 1) == AfterString(Drop(src, start), q)
  {
    j := start;
    while j < |src| && src[j] != q
      invariant j >= start && AfterString(Drop(src, j), q) == AfterString(Drop(src, start), q)
      decreases |src| - j
    {
      AfterStringStep(src, j, q);
      j := if src[j] == '\\' then j + 2 else j + 1;
    }
    if j < |src| {
      AfterStringStep(src, j, q);
    }
  }

  /** What a scanner that has found keys will have found when it has read s. */
  function Outcome(u: Letters, keys: seq<string>, s: string, depth: int, atKey: bool): seq<string> {
    keys + Keys(u, s, depth, atKey)
  }

  lemma AtQuote(u: Letters, all: seq<string>, keys: seq<string>, s: string, j: nat, depth: int, atKey: bool)
    requires j < |s| && Quote(s[j]) && depth >= 1 && Outcome(u, keys, Drop(s, j), depth, atKey) == all
    ensures var key := if depth == 1 && atKey then QuotedKey(u, s[j..]) else None;
            var rest := AfterString(Drop(s, j + 1), s[j]);
            if key.Some? then Outcome(u, keys + [key.value], rest, depth, false) == all
            else Outcome(u, keys, rest, depth, atKey) == all
  {}

  lemma AtName(u: Letters, all: seq<string>, keys: seq<string>, s: string, j: nat)
    requires j < |s| && BareKey(u, s[j..]) != "" && Outcome(u, keys, Drop(s, j), 1, true) == all
    ensures var name := BareKey(u, s[j..]); Outcome(u, keys + [name], Drop(s, j + |name|), 1, false) == all
  {}

  lemma AtBracket(u: Letters, all: seq<string>, keys: seq<string>, s: string, j: nat, depth: int, atKey: bool)
    requires j < |s| && (Opening(s[j]) || (Closing(s[j]) && depth != 1))
    requires Outcome(u, keys, Drop(s, j), depth, atKey) == all
    ensures Opening(s[j]) ==> Outcome(u, keys, Drop(s, j + 1), depth + 1, depth == 0 || atKey) == all
    ensures Closing(s[j]) ==> Outcome(u, keys, Drop(s, j + 1), depth - 1, atKey) == all
  {}

  /** No key begins here. */
  predicate Plain(u: Letters, s: string, j: nat, depth: int, atKey: bool)
    requires j < |s|
  {
    !Opening(s[j]) && !Closing(s[j]) && (Quote(s[j]) ==> depth < 1) &&
    (depth != 1 || s[j] == ',' || !atKey || Space(s[j]) || BareKey(u, s[j..]) == "")
  }

  lemma AtPlain(u: Letters, all: seq<string>, keys: seq<string>, s: string, j: nat, depth: int, atKey: bool)
    requires j < |s| && Plain(u, s, j, depth, atKey) && Outcome(u, keys, Drop(s, j), depth, atKey) == all
    ensures depth == 1 && s[j] == ',' ==> Outcome(u, keys, Drop(s, j + 1), 1, true) == all
    ensures depth == 1 && s[j] != ',' ==> Outcome(u, keys, Drop(s, j + 1), 1, atKey && Space(s[j])) == all
    ensures depth != 1 ==> Outcome(u, keys, Drop(s, j + 1), depth, atKey) == all
  {}

  /** A character of the object itself, between its braces and outside all others. */
  method ReadTop(u: Letters, ghost all: seq<string>, found: seq<string>, src: string, i: nat, inKey: bool)
    returns (keys: seq<string>, j: nat, atKey: bool)
    requires i < |src| && !Quote(src[i]) && !Opening(src[i]) && !Closing(src[i])
    requires Outcome(u, found, Drop(src, i), 1, inKey) == all
    ensures j >= i && Outcome(u, keys, Drop(src, j + 1), 1, atKey) == all
  {
    keys, j, atKey := found, i, inKey;
    if src[j] == ',' {
      AtPlain(u, all, keys, src, j, 1, atKey);
      atKey := true;
    } else if atKey && !Space(src[j]) {
      var name := BareKey(u, src[j..]);
      if name != "" {
        AtName(u, all, keys, src, j);
        keys := keys + [name];
        j := j + |name| - 1;
      } else {
        AtPlain(u, all, keys, src, j, 1, atKey);
      }
      atKey := false;
    } else {
      AtPlain(u, all, keys, src, j, 1, atKey);
    }
  }

  /** A string inside the object, which may be a key. */
  method ReadString(u: Letters, ghost all: seq<string>, found: seq<string>, src: string, i: nat, depth: int, inKey: bool)
    returns (keys: seq<string>, j: nat, atKey: bool)
    requires i < |src| && Quote(src[i]) && depth >= 1
    requires Outcome(u, found, Drop(src, i), depth, inKey) == all
    ensures j >= i && Outcome(u, keys, Drop(src, j + 1), depth, atKey) == all
  {
    AtQuote(u, all, found, src, i, depth, inKey);
    keys, atKey := found, inKey;
    if depth == 1 && atKey {
      var key := QuotedKey(u, src[i..]);
      if key.Some? {
        keys := keys + [key.value];
        atKey := false;
      }
    }
    j := SkipString(src, i + 1, src[i]);
  }

  /** A bracket, of which the first opens the object and the last closes it. */
  method ReadBracket(u: Letters, ghost all: seq<string>, ghost keys: seq<string>, src: string, j: nat, outer: int, inKey: bool)
    returns (depth: int, atKey: bool, closed: bool)
    requires j < |src| && (Opening(src[j]) || Closing(src[j]))
    requires Outcome(u, keys, Drop(src, j), outer, inKey) == all
    ensures if closed then keys == all else Outcome(u, keys, Drop(src, j + 1), depth, atKey) == all
  {
    depth, atKey, closed := outer, inKey, false;
    if Opening(src[j]) {
      AtBracket(u, all, keys, src, j, outer, inKey);
      depth := depth + 1;
      if depth == 1 {
        atKey := true;
      }
    } else {
      depth := depth - 1;
      closed := depth == 0;
      if !closed {
        AtBracket(u, all, keys, src, j, outer, inKey);
      }
    }
  }

  /** One turn of the loop: a character, a string, a bracket or a bare key. */
  method ReadToken(u: Letters, ghost all: seq<string>, found: seq<string>, src: string, i: nat, outer: int, inKey: bool)
    returns (keys: seq<string>, j: nat, depth: int, atKey: bool, closed: bool)
    requires i < |src| && Outcome(u, found, Drop(src, i), outer, inKey) == all
    ensures j >= i && if closed then keys == all else Outcome(u, keys, Drop(src, j + 1), depth, atKey) == all
  {
    var c := src[i];
    keys, j, depth, atKey, closed := found, i, outer, inKey, false;
    if Quote(c) && depth >= 1 {
      keys, j, atKey := ReadString(u, all, keys, src, j, depth, atKey);
    } else if Opening(c) || Closing(c) {
      depth, atKey, closed := ReadBracket(u, all, keys, src, j, depth, atKey);
    } else if depth == 1 {
      keys, j, atKey := ReadTop(u, all, keys, src, j, atKey);
    } else {
      AtPlain(u, all, keys, src, j, depth, atKey);
    }
  }

  method ObjectKeys(u: Letters, src: string, i: nat) returns (keys: seq<string>)
    ensures keys == Keys(u, Drop(src, i), 0, true)
  {
    var (depth, j, atKey) := (0, i, true);
    keys := [];
    ghost var all := Keys(u, Drop(src, i), 0, true);
    while j < |src|
      invariant Outcome(u, keys, Drop(src, j), depth, atKey) == all
      decreases |src| - j
    {
      var closed;
      keys, j, depth, atKey, closed := ReadToken(u, all, keys, src, j, depth, atKey);
      if closed {
        break;
      }
      j := j + 1;
    }
  }
}
