/** Object literals printed from a grammar, and what object_keys finds in them. */
module ObjectLiterals {
  import opened ObjectKeys
  import opened Options

  // ---------------------------------------------------------------------------
  // The grammar; every printer is given the text that follows
  // ---------------------------------------------------------------------------

  /** The text of a string: plain characters and escaped ones. */
  datatype Body = Close | Char(c: char, more: Body) | Escape(c: char, more: Body)

  predicate BodyFits(b: Body, q: char) {
    match b
    case Close => true
    case Char(c, more) => c != q && c != '\\' && BodyFits(more, q)
    case Escape(c, more) => BodyFits(more, q)
  }

  function PrintBody(b: Body, t: string): string {
    match b
    case Close => t
    case Char(c, more) => [c] + PrintBody(more, t)
    case Escape(c, more) => ['\\'] + ([c] + PrintBody(more, t))
  }

  /** A run of other characters, strings and bracketed groups. */
  datatype Tokens =
    | End
    | Other(c: char, next: Tokens)
    | Text(q: char, body: Body, next: Tokens)
    | Group(open: char, inner: Tokens, close: char, next: Tokens)

  predicate TokensFit(ts: Tokens) {
    match ts
    case End => true
    case Other(c, next) => c !in "'\"`{[()]}" && TokensFit(next)
    case Text(q, body, next) => q in "'\"`" && BodyFits(body, q) && TokensFit(next)
    case Group(open, inner, close, next) => open in "{[(" && TokensFit(inner) && close in "}])" && TokensFit(next)
  }

  /** No comma outside the groups. */
  predicate OneValue(ts: Tokens) {
    match ts
    case End => true
    case Other(c, next) => c != ',' && OneValue(next)
    case Text(_, _, next) => OneValue(next)
    case Group(_, _, _, next) => OneValue(next)
  }

  function Print(ts: Tokens, t: string): string {
    match ts
    case End => t
    case Other(c, next) => [c] + Print(next, t)
    case Text(q, body, next) => [q] + PrintBody(body, [q] + Print(next, t))
    case Group(open, inner, close, next) => [open] + Print(inner, [close] + Print(next, t))
  }

  /** The white space of ASCII and of Unicode, character by character. */
  lemma SpaceExactly(c: char)
    ensures Space(c) <==>
              c in "\t\n\U{000B}\U{000C}\r\U{001C}\U{001D}\U{001E}\U{001F} \U{0085}\U{00A0}" ||
              c in "\U{1680}\U{2000}\U{2001}\U{2002}\U{2003}\U{2004}\U{2005}\U{2006}\U{2007}\U{2008}" ||
              c in "\U{2009}\U{200A}\U{2028}\U{2029}\U{202F}\U{205F}\U{3000}"
  {}

  predicate Blank(s: string) { forall i :: 0 <= i < |s| ==> Space(s[i]) }

  /** What a name may begin with so that object_keys reads it. */
  predicate Initial(c: char) { 'a' <= c <= 'z' || 'A' <= c <= 'Z' || c == '_' }

  /** JavaScript names: letters, digits, _ and $. */
  predicate NameChar(u: Letters, c: char) {
    Initial(c) || '0' <= c <= '9' || c == '$' || (c > '\U{007F}' && !Space(c) && u(c))
  }

  datatype Key =
    | Name(name: string)
    | Quoted(q: char, body: Body, gap: string)
    | Method(q: char, body: Body, gap: string, parameters: Tokens, code: Tokens)
    | Computed(inner: Tokens, gap: string)
    | Spread

  /** lead is the white space in front, rest all that follows the key. */
  datatype Entry = Entry(lead: string, key: Key, rest: Tokens)

  predicate KeyFits(u: Letters, k: Key) {
    match k
    case Name(name) => name != "" && forall i :: 0 <= i < |name| ==> NameChar(u, name[i])
    case Quoted(q, body, gap) => q in "'\"`" && BodyFits(body, q) && Blank(gap)
    case Method(q, body, gap, parameters, code) =>
      q in "'\"`" && BodyFits(body, q) && Blank(gap) && TokensFit(parameters) && TokensFit(code)
    case Computed(inner, gap) => TokensFit(inner) && Blank(gap)
    case Spread => true
  }

  predicate EntryFits(u: Letters, e: Entry) {
    Blank(e.lead) && KeyFits(u, e.key) && TokensFit(e.rest) && OneValue(e.rest) &&
    (e.key.Name? && e.rest.Other? ==> !NameChar(u, e.rest.c)) && (e.key.Method? ==> e.rest == End)
  }

  function PrintKey(k: Key, t: string): string {
    match k
    case Name(name) => name + t
    case Quoted(q, body, gap) => [q] + PrintBody(body, [q] + (gap + ([':'] + t)))
    case Method(q, body, gap, parameters, code) =>
      [q] + PrintBody(body, [q] + (gap + Print(Group('(', parameters, ')', Group('{', code, '}', End)), t)))
    case Computed(inner, gap) => ['['] + Print(inner, [']'] + (gap + ([':'] + t)))
    case Spread => ['.'] + (['.'] + (['.'] + t))
  }

  function PrintEntry(e: Entry, t: string): string { e.lead + PrintKey(e.key, Print(e.rest, t)) }

  /** The entries, with a comma after each but the last, and after the last one as well if asked for. */
  function PrintEntries(es: seq<Entry>, comma: bool, t: string): string {
    if es == [] then t
    else PrintEntry(es[0], (if |es| > 1 || comma then [','] else "") + PrintEntries(es[1..], comma, t))
  }

  function PrintObject(es: seq<Entry>, comma: bool, space: string, t: string): string {
    ['{'] + PrintEntries(es, comma, space + (['}'] + t))
  }

  // ---------------------------------------------------------------------------
  // The names
  // ---------------------------------------------------------------------------

  function NameOf(k: Key): seq<string> {
    match k
    case Name(name) => [name]
    case Quoted(_, body, _) => [PrintBody(body, "")]
    case Method(_, body, _, _, _) => [PrintBody(body, "")]
    case _ => []
  }

  /** The names the object is written with; computed keys and spreads have none. */
  function Names(es: seq<Entry>): seq<string> {
    if es == [] then [] else NameOf(es[0].key) + Names(es[1..])
  }

  predicate DashedWord(u: Letters, b: Body) {
    b == Close || (b.Char? && (b.c == '-' || (NameChar(u, b.c) && b.c != '$')) && DashedWord(u, b.more))
  }

  /** The names object_keys can read: identifiers without $, and words with dashes between quotes
      that are no backticks, in front of a colon. */
  predicate Readable(u: Letters, k: Key) {
    match k
    case Name(name) => name != "" && Initial(name[0]) && '$' !in name
    case Quoted(q, body, _) => q != '`' && body != Close && DashedWord(u, body)
    case Method(_, _, _, _, _) => false
    case _ => true
  }

  function UpTo(s: string, c: char): string { if s == "" || s[0] == c then "" else [s[0]] + UpTo(s[1..], c) }

  /** What is read of a key: of a bare name no more than what is in front of the first $. */
  function ReadOf(u: Letters, k: Key): seq<string> {
    match k
    case Name(name) => if name != "" && Initial(name[0]) then [UpTo(name, '$')] else []
    case Quoted(_, body, _) => if Readable(u, k) then [PrintBody(body, "")] else []
    case _ => []
  }

  function AllRead(u: Letters, es: seq<Entry>): seq<string> {
    if es == [] then [] else ReadOf(u, es[0].key) + AllRead(u, es[1..])
  }

  // ---------------------------------------------------------------------------
  // What the scanner passes over
  // ---------------------------------------------------------------------------

  lemma {:induction false} SkipBody(b: Body, q: char, t: string)
    requires Quote(q) && BodyFits(b, q)
    ensures AfterString(PrintBody(b, [q] + t), q) == t
  {
    match b
    case Close =>
    case Char(c, more) =>
      SkipBody(more, q, t);
    case Escape(c, more) =>
      SkipBody(more, q, t);
      var s := PrintBody(b, [q] + t);
      assert s[1..] == [c] + PrintBody(more, [q] + t);
      assert s[2..] == PrintBody(more, [q] + t);
  }

  lemma {:induction false} PassOther(u: Letters, c: char, t: string, depth: int, atKey: bool)
    requires !Quote(c) && !Opening(c) && !Closing(c) && (depth >= 2 || (depth == 1 && !atKey && c != ','))
    ensures Keys(u, [c] + t, depth, atKey) == Keys(u, t, depth, atKey)
  {
    assert ([c] + t)[1..] == t;
  }

  lemma {:induction false} PassText(u: Letters, q: char, body: Body, t: string, depth: int, atKey: bool)
    requires Quote(q) && BodyFits(body, q) && (depth >= 2 || (depth == 1 && !atKey))
    ensures Keys(u, [q] + PrintBody(body, [q] + t), depth, atKey) == Keys(u, t, depth, atKey)
  {
    SkipBody(body, q, t);
    assert ([q] + PrintBody(body, [q] + t))[1..] == PrintBody(body, [q] + t);
  }

  lemma PassGroup(u: Letters, open: char, inside: string, close: char, t: string, depth: int, atKey: bool)
    requires Opening(open) && Closing(close) && depth >= 1
    requires Keys(u, inside, depth + 1, atKey) == Keys(u, [close] + t, depth + 1, atKey)
    ensures Keys(u, [open] + inside, depth, atKey) == Keys(u, t, depth, atKey)
  {
    assert ([open] + inside)[1..] == inside && ([close] + t)[1..] == t;
  }

  /** Nothing in a value is a key, and nothing in a bracket either. */
  lemma {:induction false} SkipTokens(u: Letters, ts: Tokens, t: string, depth: int, atKey: bool)
    requires TokensFit(ts) && (depth >= 2 || (depth == 1 && !atKey && OneValue(ts)))
    ensures Keys(u, Print(ts, t), depth, atKey) == Keys(u, t, depth, atKey)
  {
    match ts
    case End =>
    case Other(c, next) =>
      SkipTokens(u, next, t, depth, atKey);
      PassOther(u, c, Print(next, t), depth, atKey);
    case Text(q, body, next) =>
      SkipTokens(u, next, t, depth, atKey);
      PassText(u, q, body, Print(next, t), depth, atKey);
    case Group(open, inner, close, next) =>
      SkipTokens(u, next, t, depth, atKey);
      SkipTokens(u, inner, [close] + Print(next, t), depth + 1, atKey);
      PassGroup(u, open, Print(inner, [close] + Print(next, t)), close, Print(next, t), depth, atKey);
  }

  lemma {:induction false} SkipBlank(u: Letters, s: string, t: string, atKey: bool)
    requires Blank(s)
    ensures Keys(u, s + t, 1, atKey) == Keys(u, t, 1, atKey)
    decreases |s|
  {
    if s == "" {
      assert s + t == t;
    } else {
      SkipBlank(u, s[1..], t, atKey);
      assert (s + t)[1..] == s[1..] + t && Space(s[0]);
    }
  }

  lemma {:induction false} SkipName(u: Letters, s: string, t: string)
    requires forall i :: 0 <= i < |s| ==> NameChar(u, s[i])
    ensures Keys(u, s + t, 1, false) == Keys(u, t, 1, false)
    decreases |s|
  {
    if s == "" {
      assert s + t == t;
    } else {
      SkipName(u, s[1..], t);
      assert (s + t)[1..] == s[1..] + t && NameChar(u, s[0]);
    }
  }

  lemma {:induction false} SkipColon(u: Letters, gap: string, t: string, atKey: bool)
    requires Blank(gap)
    ensures Keys(u, gap + ([':'] + t), 1, atKey) == Keys(u, t, 1, false)
  {
    SkipBlank(u, gap, [':'] + t, atKey);
    assert ([':'] + t)[1..] == t;
  }

  // ---------------------------------------------------------------------------
  // Keys
  // ---------------------------------------------------------------------------

  lemma {:induction false} RunOf(s: string, t: string, p: char -> bool)
    requires (exists i :: 0 <= i < |s| && !p(s[i])) || t == "" || !p(t[0])
    ensures RunLength(s + t, p) == RunLength(s, p)
    ensures (forall i :: 0 <= i < |s| ==> p(s[i])) <==> RunLength(s, p) == |s|
    decreases |s|
  {
    if s == "" {
      assert s + t == t;
    } else {
      assert (s + t)[1..] == s[1..] + t;
      if p(s[0]) {
        if i :| 0 <= i < |s| && !p(s[i]) {
          assert s[1..][i - 1] == s[i];
        }
        RunOf(s[1..], t, p);
        assert forall i :: 1 <= i < |s| ==> s[i] == s[1..][i - 1];
      }
    }
  }

  lemma WordOrDollar(u: Letters, c: char)
    ensures NameChar(u, c) <==> Word(u, c) || c == '$'
    ensures Word(u, '$') == false
  {}

  lemma {:induction false} UpToDollar(u: Letters, name: string)
    requires forall i :: 0 <= i < |name| ==> NameChar(u, name[i])
    ensures name[..RunLength(name, InWord(u))] == UpTo(name, '$')
    ensures UpTo(name, '$') == name <==> '$' !in name
    decreases |name|
  {
    if name != "" {
      WordOrDollar(u, name[0]);
      UpToDollar(u, name[1..]);
      assert name == [name[0]] + name[1..];
      var n := RunLength(name[1..], InWord(u));
      assert name[..n + 1] == [name[0]] + name[1..][..n];
    }
  }

  lemma {:induction false} IdentifierOf(u: Letters, name: string, t: string)
    requires KeyFits(u, Name(name)) && (t == "" || !NameChar(u, t[0]))
    ensures BareKey(u, name + t) == if Initial(name[0]) then UpTo(name, '$') else ""
    ensures |UpTo(name, '$')| <= |name| && (Initial(name[0]) ==> UpTo(name, '$') != "")
  {
    RunOf(name, t, InWord(u));
    UpToDollar(u, name);
    var n := RunLength(name, InWord(u));
    assert (name + t)[0] == name[0] && NameChar(u, name[0]);
    assert (name + t)[..n] == name[..n];
  }

  lemma {:induction false} AtName(u: Letters, name: string, t: string)
    requires KeyFits(u, Name(name)) && (t == "" || !NameChar(u, t[0]))
    ensures Keys(u, name + t, 1, true) == ReadOf(u, Name(name)) + Keys(u, t, 1, false)
  {
    IdentifierOf(u, name, t);
    assert NameChar(u, (name + t)[0]) by {
      assert (name + t)[0] == name[0];
    }
    KeysAtNameChar(u, name + t);
    BehindName(u, name, if Initial(name[0]) then |UpTo(name, '$')| else 1, t);
  }

  lemma {:induction false} BehindName(u: Letters, name: string, n: nat, t: string)
    requires n <= |name| && forall i :: 0 <= i < |name| ==> NameChar(u, name[i])
    ensures Keys(u, (name + t)[n..], 1, false) == Keys(u, t, 1, false)
  {
    assert (name + t)[n..] == name[n..] + t;
    forall i | 0 <= i < |name| - n
      ensures NameChar(u, name[n..][i])
    {
      assert NameChar(u, name[n + i]);
    }
    SkipName(u, name[n..], t);
  }

  lemma {:induction false} KeysAtNameChar(u: Letters, s: string)
    requires s != "" && NameChar(u, s[0])
    ensures Keys(u, s, 1, true) ==
              if BareKey(u, s) == "" then Keys(u, s[1..], 1, false) else [BareKey(u, s)] + Keys(u, s[|BareKey(u, s)|..], 1, false)
  {}

  lemma {:induction false} BodyThen(b: Body, t: string)
    ensures PrintBody(b, t) == PrintBody(b, "") + t
  {
    match b
    case Close =>
      assert "" + t == t;
    case Char(c, more) =>
      BodyThen(more, t);
      assert [c] + (PrintBody(more, "") + t) == [c] + PrintBody(more, "") + t;
    case Escape(c, more) =>
      BodyThen(more, t);
      assert ['\\'] + ([c] + (PrintBody(more, "") + t)) == ['\\'] + ([c] + PrintBody(more, "")) + t;
  }

  lemma {:induction false} RunCons(c: char, s: string, p: char -> bool)
    ensures RunLength([c] + s, p) == if p(c) then 1 + RunLength(s, p) else 0
  {}

  /** A run of word characters and dashes ends at the quote if that is all there is. */
  lemma {:induction false} BodyRun(u: Letters, b: Body, q: char, t: string)
    requires Quote(q) && BodyFits(b, q)
    ensures var n := RunLength(PrintBody(b, [q] + t), InWordOrDash(u));
            n < |PrintBody(b, [q] + t)| &&
            if DashedWord(u, b) then n == |PrintBody(b, "")| else PrintBody(b, [q] + t)[n] != q
  {
    match b
    case Close =>
    case Char(c, more) =>
      BodyRun(u, more, q, t);
      RunCons(c, PrintBody(more, [q] + t), InWordOrDash(u));
    case Escape(c, more) =>
      RunCons('\\', [c] + PrintBody(more, [q] + t), InWordOrDash(u));
  }

  /** A quoted word is a key exactly if it is not empty, stands between no backticks and a colon follows. */
  lemma {:induction false} QuotedWord(u: Letters, q: char, body: Body, behind: string)
    requires Quote(q) && BodyFits(body, q)
    ensures QuotedKey(u, [q] + PrintBody(body, [q] + behind)) ==
              if q != '`' && body != Close && DashedWord(u, body) && ColonAfterSpace(behind) then Some(PrintBody(body, ""))
              else None
  {
    BodyRun(u, body, q, behind);
    BodyThen(body, [q] + behind);
    assert ([q] + PrintBody(body, [q] + behind))[1..] == PrintBody(body, [q] + behind);
    if DashedWord(u, body) {
      KeyIn(u, q, PrintBody(body, ""), behind);
      assert PrintBody(body, "") == "" <==> body == Close;
    }
  }

  lemma ColonBehind(gap: string, c: char, t: string)
    requires Blank(gap) && !Space(c)
    ensures ColonAfterSpace(gap + ([c] + t)) <==> c == ':'
  {
    RunOf(gap, [c] + t, Space);
  }

  lemma QuotedKeyIs(u: Letters, k: Key, t: string)
    requires k.Quoted? && KeyFits(u, k)
    ensures QuotedKey(u, PrintKey(k, t)) == if Readable(u, k) then Some(PrintBody(k.body, "")) else None
  {
    ColonBehind(k.gap, ':', t);
    QuotedWord(u, k.q, k.body, k.gap + ([':'] + t));
  }

  lemma {:induction false} KeyIn(u: Letters, q: char, text: string, behind: string)
    requires RunLength(text + ([q] + behind), InWordOrDash(u)) == |text|
    ensures QuotedKey(u, [q] + (text + ([q] + behind))) ==
              if q == '`' || text == "" || !ColonAfterSpace(behind) then None else Some(text)
  {
    var s := [q] + (text + ([q] + behind));
    assert s[1..] == text + ([q] + behind);
    assert s[|text| + 2..] == behind && s[1..|text| + 1] == text;
  }

  lemma {:induction false} AtGroup(u: Letters, g: Tokens, t: string)
    requires g.Group? && TokensFit(g) && g.next == End
    ensures Keys(u, Print(g, t), 1, true) == Keys(u, t, 1, true)
  {
    SkipTokens(u, g.inner, [g.close] + t, 2, true);
    PassGroup(u, g.open, Print(g.inner, [g.close] + t), g.close, t, 1, true);
  }

  /** A name between quotes that no colon follows is not read. */
  lemma {:induction false} AtMethod(u: Letters, k: Key, t: string)
    requires k.Method? && KeyFits(u, k)
    ensures Keys(u, PrintKey(k, t), 1, true) == Keys(u, t, 1, true)
  {
    var code := Group('{', k.code, '}', End);
    var parameters := Group('(', k.parameters, ')', code);
    var behind := k.gap + Print(parameters, t);
    ColonBehind(k.gap, '(', Print(k.parameters, [')'] + Print(code, t)));
    QuotedWord(u, k.q, k.body, behind);
    SkipBody(k.body, k.q, behind);
    assert PrintKey(k, t)[1..] == PrintBody(k.body, [k.q] + behind);
    SkipBlank(u, k.gap, Print(parameters, t), true);
    AtGroup(u, Group('(', k.parameters, ')', End), Print(code, t));
    AtGroup(u, code, t);
  }

  lemma {:induction false} AtSpread(u: Letters, t: string)
    ensures Keys(u, PrintKey(Spread, t), 1, true) == Keys(u, t, 1, false)
  {
    var (one, two) := (['.'] + t, ['.'] + (['.'] + t));
    assert one[1..] == t && two[1..] == one && PrintKey(Spread, t)[1..] == two;
    assert Keys(u, two, 1, false) == Keys(u, one, 1, false);
  }

  lemma {:induction false} AtKey(u: Letters, k: Key, t: string)
    requires KeyFits(u, k) && (k.Name? ==> t == "" || !NameChar(u, t[0]))
    ensures Keys(u, PrintKey(k, t), 1, true) == ReadOf(u, k) + Keys(u, t, 1, k.Method?)
  {
    var s := PrintKey(k, t);
    match k
    case Name(name) =>
      AtName(u, name, t);
    case Quoted(q, body, gap) =>
      QuotedKeyIs(u, k, t);
      SkipBody(body, q, gap + ([':'] + t));
      assert s[1..] == PrintBody(body, [q] + (gap + ([':'] + t)));
      SkipColon(u, gap, t, !Readable(u, k));
    case Method(q, body, gap, parameters, code) =>
      AtMethod(u, k, t);
    case Computed(inner, gap) =>
      var behind := [']'] + (gap + ([':'] + t));
      assert s[1..] == Print(inner, behind);
      SkipTokens(u, inner, behind, 2, true);
      assert behind[1..] == gap + ([':'] + t);
      SkipColon(u, gap, t, true);
    case Spread =>
      AtSpread(u, t);
  }

  lemma {:induction false} AtEntry(u: Letters, e: Entry, t: string)
    requires EntryFits(u, e) && (t == "" || !NameChar(u, t[0])) && Keys(u, t, 1, true) == Keys(u, t, 1, false)
    ensures Keys(u, PrintEntry(e, t), 1, true) == ReadOf(u, e.key) + Keys(u, t, 1, false)
  {
    SkipBlank(u, e.lead, PrintKey(e.key, Print(e.rest, t)), true);
    AtKey(u, e.key, Print(e.rest, t));
    if !e.key.Method? {
      SkipTokens(u, e.rest, t, 1, false);
    }
  }

  // ---------------------------------------------------------------------------
  // Objects
  // ---------------------------------------------------------------------------

  lemma {:induction false} AtComma(u: Letters, t: string)
    ensures Keys(u, [','] + t, 1, false) == Keys(u, [','] + t, 1, true) == Keys(u, t, 1, true)
  {}

  lemma {:induction false} AtEntries(u: Letters, es: seq<Entry>, comma: bool, t: string)
    requires (forall i :: 0 <= i < |es| ==> EntryFits(u, es[i])) && (t == "" || !NameChar(u, t[0]))
    requires Keys(u, t, 1, true) == Keys(u, t, 1, false) == []
    ensures Keys(u, PrintEntries(es, comma, t), 1, true) == AllRead(u, es)
    decreases |es|
  {
    if es != [] {
      var more := PrintEntries(es[1..], comma, t);
      AtEntries(u, es[1..], comma, t);
      if |es| > 1 || comma {
        AtComma(u, more);
        AtEntry(u, es[0], [','] + more);
      } else {
        assert "" + more == t;
        AtEntry(u, es[0], t);
      }
    }
  }

  lemma AtEnd(u: Letters, space: string, t: string)
    requires Blank(space)
    ensures var end := space + (['}'] + t); Keys(u, end, 1, true) == Keys(u, end, 1, false) == [] && !NameChar(u, end[0])
  {
    SkipBlank(u, space, ['}'] + t, true);
    SkipBlank(u, space, ['}'] + t, false);
    if space == "" {
      assert space + (['}'] + t) == ['}'] + t;
    } else {
      assert Space(space[0]);
    }
  }

  /** No bracket; quotes mean nothing here. */
  predicate Outside(front: string) { forall i :: 0 <= i < |front| ==> front[i] !in "{[()]}" }

  lemma {:induction false} SkipFront(u: Letters, front: string, t: string)
    requires Outside(front)
    ensures Keys(u, front + t, 0, true) == Keys(u, t, 0, true)
    decreases |front|
  {
    if front == "" {
      assert front + t == t;
    } else {
      SkipFront(u, front[1..], t);
      assert (front + t)[1..] == front[1..] + t && front[0] !in "{[()]}";
    }
  }

  /** Exactly what object_keys finds in a printed object, whatever is in front of its first bracket
      and whatever follows the object. */
  lemma {:induction false} ReadsObject(u: Letters, front: string, es: seq<Entry>, comma: bool, space: string, t: string)
    requires Outside(front) && (forall i :: 0 <= i < |es| ==> EntryFits(u, es[i])) && Blank(space)
    ensures Keys(u, front + PrintObject(es, comma, space, t), 0, true) == AllRead(u, es)
  {
    SkipFront(u, front, PrintObject(es, comma, space, t));
    var end := space + (['}'] + t);
    AtEnd(u, space, t);
    AtEntries(u, es, comma, end);
    assert PrintObject(es, comma, space, t)[1..] == PrintEntries(es, comma, end);
  }

  lemma ReadOfReadable(u: Letters, k: Key)
    requires KeyFits(u, k)
    ensures |ReadOf(u, k)| <= |NameOf(k)| <= 1 && (ReadOf(u, k) == NameOf(k) <==> Readable(u, k))
  {
    if k.Name? {
      UpToDollar(u, k.name);
    }
  }

  lemma {:induction false} AllReadable(u: Letters, es: seq<Entry>)
    requires forall i :: 0 <= i < |es| ==> EntryFits(u, es[i])
    ensures |AllRead(u, es)| <= |Names(es)|
    ensures AllRead(u, es) == Names(es) <==> forall i :: 0 <= i < |es| ==> Readable(u, es[i].key)
    decreases |es|
  {
    if es != [] {
      AllReadable(u, es[1..]);
      ReadOfReadable(u, es[0].key);
      assert forall i :: 1 <= i < |es| ==> es[i] == es[1..][i - 1];
      var (r, n, rs, ns) := (ReadOf(u, es[0].key), NameOf(es[0].key), AllRead(u, es[1..]), Names(es[1..]));
      if r + rs == n + ns {
        assert |r| == |n|;
        assert (r + rs)[..|r|] == r && (n + ns)[..|n|] == n && (r + rs)[|r|..] == rs && (n + ns)[|n|..] == ns;
      }
    }
  }

  /** object_keys returns the names of an object, all of them in order and no other,
      if and only if every one of them is readable. */
  lemma {:induction false} FindsTheNames(u: Letters, front: string, es: seq<Entry>, comma: bool, space: string, t: string)
    requires Outside(front) && (forall i :: 0 <= i < |es| ==> EntryFits(u, es[i])) && Blank(space)
    ensures Keys(u, front + PrintObject(es, comma, space, t), 0, true) == Names(es) <==>
            forall i :: 0 <= i < |es| ==> Readable(u, es[i].key)
  {
    ReadsObject(u, front, es, comma, space, t);
    AllReadable(u, es);
  }
}
