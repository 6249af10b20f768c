/** Access control lists as text: what getfacl prints and setfacl reads. */
module Acl {
  import opened Options
  import opened Sequences
  import opened Text

  datatype Kind = User | Group | Other | Mask

  datatype Entry = Entry(kind: Kind, name: string, read: bool, write: bool, exec: bool)

  function KindName(k: Kind): string {
    match k
    case User => "user"
    case Group => "group"
    case Other => "other"
    case Mask => "mask"
  }

  function KindOf(s: string): Option<Kind> {
    if s == "user" then Some(User)
    else if s == "group" then Some(Group)
    else if s == "other" then Some(Other)
    else if s == "mask" then Some(Mask)
    else None
  }

  predicate CharAt(s: string, i: nat, c: char) { i < |s| && s[i] == c }

  /** The entry of one line; None for a line parseAcl passes over. */
  function ParseLine(l: string): Option<Entry> {
    var line := Trim(l);
    if line == "" || StartsWith(line, "#") || ':' !in line then None
    else
      var parts := Split(line, ":");
      var name := if |parts| > 1 then parts[1] else "";
      var perms := if |parts| > 2 then parts[2] else "---";
      match KindOf(parts[0])
      case None => None
      case Some(kind) => Some(Entry(kind, name, CharAt(perms, 0, 'r'), CharAt(perms, 1, 'w'), CharAt(perms, 2, 'x')))
  }

  /** The entries of the lines that parse, in order. */
  function Collect(lines: seq<string>, parse: string -> Option<Entry>): seq<Entry> {
    if lines == [] then []
    else
      var rest := Collect(lines[1..], parse);
      if parse(lines[0]).Some? then [parse(lines[0]).value] + rest else rest
  }

  function ParseLines(lines: seq<string>): seq<Entry> { Collect(lines, ParseLine) }

  function ParseAcl(text: string): seq<Entry> { ParseLines(Split(text, "\n")) }

  function Permissions(e: Entry): string {
    [if e.read then 'r' else '-', if e.write then 'w' else '-', if e.exec then 'x' else '-']
  }

  function PrintEntry(e: Entry): string { KindName(e.kind) + ":" + e.name + ":" + Permissions(e) }

  function PrintLines(es: seq<Entry>): seq<string> {
    if es == [] then [] else [PrintEntry(es[0])] + PrintLines(es[1..])
  }

  function EntriesToAclString(es: seq<Entry>): string { Join(PrintLines(es), "\n") }

  // ---------------------------------------------------------------------------
  // Round trips
  // ---------------------------------------------------------------------------

  predicate Printable(e: Entry) { ':' !in e.name && '\n' !in e.name }

  lemma KindNames(k: Kind)
    ensures KindOf(KindName(k)) == Some(k) && KindName(k) != ""
    ensures forall c :: c in KindName(k) ==> 'a' <= c <= 'z'
  {}

  lemma SplitEntry(e: Entry)
    requires ':' !in e.name
    ensures Split(PrintEntry(e), ":") == [KindName(e.kind), e.name, Permissions(e)]
  {
    var parts := [KindName(e.kind), e.name, Permissions(e)];
    KindNames(e.kind);
    assert parts[1..] == [e.name, Permissions(e)] && parts[1..][1..] == [Permissions(e)];
    assert Join(parts[1..], ":") == e.name + ":" + Permissions(e);
    assert Join(parts, ":") == PrintEntry(e);
    SplitJoin(parts, ':');
  }

  lemma ParsePrinted(e: Entry)
    requires ':' !in e.name
    ensures ParseLine(PrintEntry(e)) == Some(e)
  {
    var line := PrintEntry(e);
    KindNames(e.kind);
    assert line[0] == KindName(e.kind)[0] && line[0] in KindName(e.kind);
    assert line[|line| - 1] == Permissions(e)[2];
    TrimKeeps(line);
    assert line[|KindName(e.kind)|] == ':';
    SplitEntry(e);
  }

  lemma {:induction false} ParsePrintedLines(es: seq<Entry>)
    requires forall i :: 0 <= i < |es| ==> Printable(es[i])
    ensures ParseLines(PrintLines(es)) == es
    ensures forall i :: 0 <= i < |PrintLines(es)| ==> '\n' !in PrintLines(es)[i]
    decreases |es|
  {
    if es != [] {
      ParsePrintedLines(es[1..]);
      ParsePrinted(es[0]);
      KindNames(es[0].kind);
      assert es == [es[0]] + es[1..];
    }
  }

  /** A trimmed line is an entry exactly if it begins with one of the four types and a colon. */
  lemma {:induction false} ReadsType(l: string)
    ensures var (t, e) := (Trim(l), ParseLine(l));
            (e.Some? <==> "user:" <= t || "group:" <= t || "other:" <= t || "mask:" <= t) &&
            (e.Some? ==> (e.value.kind == User <==> "user:" <= t) && (e.value.kind == Group <==> "group:" <= t) &&
                         (e.value.kind == Other <==> "other:" <= t) && (e.value.kind == Mask <==> "mask:" <= t))
  {
    var t := Trim(l);
    assert "user:" == "user" + ":" && "group:" == "group" + ":" && "other:" == "other" + ":" && "mask:" == "mask" + ":";
    BeginsWith(t, "user");
    BeginsWith(t, "group");
    BeginsWith(t, "other");
    BeginsWith(t, "mask");
    TypeHasColon(t, "user");
    TypeHasColon(t, "group");
    TypeHasColon(t, "other");
    TypeHasColon(t, "mask");
    TypesDiffer();
  }

  lemma TypesDiffer()
    ensures "user"[0] == 'u' && "group"[0] == 'g' && "other"[0] == 'o' && "mask"[0] == 'm'
  {}

  lemma TypeHasColon(t: string, kind: string)
    ensures kind + ":" <= t ==> ':' in t
  {
    if kind + ":" <= t {
      assert t[|kind|] == (kind + ":")[|kind|] == ':';
    }
  }

  lemma {:induction false} BeginsWith(t: string, kind: string)
    requires ':' !in kind
    ensures ':' in t ==> (Split(t, ":")[0] == kind <==> kind + ":" <= t)
  {
    if kind + ":" <= t {
      CharClean(kind, ':');
      SplitPiece(kind, t[|kind| + 1..], ":");
      assert t == kind + ":" + t[|kind| + 1..];
    } else if ':' in t && Split(t, ":")[0] == kind {
      if |Split(t, ":")| == 1 {
        SingleSplit(t, ":");
        assert false;
      } else {
        var rest := FirstPiece(t, ":");
      }
    }
  }

  lemma {:induction false} FieldInFront(field: string, rest: string)
    requires ':' !in field
    ensures Split(field + (":" + rest), ":") == [field] + Split(rest, ":")
  {
    Assoc(field, ":", rest);
    CharClean(field, ':');
    SplitPiece(field, rest, ":");
  }

  lemma {:induction false} LastField(field: string, more: string)
    requires ':' !in field && (more == "" || more[0] == ':')
    ensures Split(field + more, ":")[0] == field
  {
    CharClean(field, ':');
    SplitWhole(field, ":");
    if more == "" {
      assert field + more == field;
    } else {
      FieldInFront(field, more[1..]);
      assert more == ":" + more[1..];
    }
  }

  lemma {:induction false} TypeInFront(t: string, kind: Kind, rest: string)
    requires t == KindName(kind) + (":" + rest)
    ensures t != "" && !StartsWith(t, "#") && ':' in t && Split(t, ":") == [KindName(kind)] + Split(rest, ":")
  {
    KindNames(kind);
    assert t[|KindName(kind)|] == ':' && t[0] == KindName(kind)[0] && t[0] in KindName(kind);
    FieldInFront(KindName(kind), rest);
  }

  /** The name is what stands up to the next colon, the permissions what stands up to the one after it. */
  lemma {:induction false} ReadsFields(l: string, kind: Kind, name: string, perms: string, more: string)
    requires Trim(l) == KindName(kind) + (":" + (name + (":" + (perms + more)))) && ':' !in name && ':' !in perms
    requires more == "" || more[0] == ':'
    ensures ParseLine(l) == Some(Entry(kind, name, |perms| > 0 && perms[0] == 'r', |perms| > 1 && perms[1] == 'w',
                                       |perms| > 2 && perms[2] == 'x'))
  {
    var behind := name + (":" + (perms + more));
    KindNames(kind);
    TypeInFront(Trim(l), kind, behind);
    FieldInFront(name, perms + more);
    LastField(perms, more);
  }

  /** Without permissions nothing is allowed. */
  lemma {:induction false} ReadsNameOnly(l: string, kind: Kind, name: string)
    requires Trim(l) == KindName(kind) + (":" + name) && ':' !in name
    ensures ParseLine(l) == Some(Entry(kind, name, false, false, false))
  {
    KindNames(kind);
    TypeInFront(Trim(l), kind, name);
    CharClean(name, ':');
    SplitWhole(name, ":");
  }

  /** A printed entry ends in its three permissions, each the letter or a dash. */
  lemma PrintsPermissions(e: Entry)
    ensures var line := EntriesToAclString([e]);
            |line| > 4 && line[..|line| - 4] == KindName(e.kind) + ":" + e.name && line[|line| - 4] == ':' &&
            (line[|line| - 3] == if e.read then 'r' else '-') && (line[|line| - 2] == if e.write then 'w' else '-') &&
            (line[|line| - 1] == if e.exec then 'x' else '-')
  {
    var (front, perms) := (KindName(e.kind) + ":" + e.name, Permissions(e));
    KindNames(e.kind);
    var line := EntriesToAclString([e]);
    assert PrintLines([e]) == [PrintEntry(e)];
    assert line == front + (":" + perms);
    assert (":" + perms)[1..] == perms && (":" + perms)[0] == ':';
  }

  lemma LineFree(l: string)
    ensures var e := ParseLine(l); e.Some? ==> ':' !in e.value.name && forall c :: c in e.value.name ==> c in l
  {
    var line := Trim(l);
    TrimTrims(l);
    SplitFree(line, ':');
    forall i: nat, c | i < |Split(line, ":")| && c in Split(line, ":")[i]
      ensures c in line
    {
      SplitChars(line, ":", i, c);
    }
  }

  lemma {:induction false} LinesFree(lines: seq<string>)
    requires forall i :: 0 <= i < |lines| ==> '\n' !in lines[i]
    ensures forall e :: e in ParseLines(lines) ==> Printable(e)
    decreases |lines|
  {
    if lines != [] {
      LinesFree(lines[1..]);
      LineFree(lines[0]);
    }
  }

  /** Whatever is read has names that can be printed. */
  lemma ParsesPrintable(text: string)
    ensures forall e :: e in ParseAcl(text) ==> Printable(e)
  {
    SplitFree(text, '\n');
    LinesFree(Split(text, "\n"));
  }

  /** Printing and reading back is the identity if and only if no name contains a colon or a newline. */
  lemma PrintThenParse(es: seq<Entry>)
    ensures ParseAcl(EntriesToAclString(es)) == es <==> forall e :: e in es ==> Printable(e)
  {
    ParsesPrintable(EntriesToAclString(es));
    if forall e :: e in es ==> Printable(e) {
      forall i | 0 <= i < |es|
        ensures Printable(es[i])
      {}
      ParsePrintedLines(es);
      if es == [] {
        assert Split("", "\n") == [""] && ParseLine("") == None;
      } else {
        SplitJoin(PrintLines(es), '\n');
      }
    }
  }

  /** Any text means the same once it has been read and printed. */
  lemma ParseIsStable(text: string)
    ensures ParseAcl(EntriesToAclString(ParseAcl(text))) == ParseAcl(text)
  {
    ParsesPrintable(text);
    PrintThenParse(ParseAcl(text));
  }

  // ---------------------------------------------------------------------------
  // Lines
  // ---------------------------------------------------------------------------

  lemma {:induction false} CollectConcat(a: seq<string>, b: seq<string>, parse: string -> Option<Entry>)
    ensures Collect(a + b, parse) == Collect(a, parse) + Collect(b, parse)
    decreases |a|
  {
    if a == [] {
      assert a + b == b;
    } else {
      CollectConcat(a[1..], b, parse);
      assert (a + b)[1..] == a[1..] + b && (a + b)[0] == a[0];
      var (e, x, y) := (parse(a[0]), Collect(a[1..], parse), Collect(b, parse));
      if e.Some? {
        assert [e.value] + (x + y) == ([e.value] + x) + y;
      }
    }
  }

  lemma {:induction false} LinesJoined(a: string, b: string)
    ensures Split(a + "\n" + b, "\n") == Split(a, "\n") + Split(b, "\n")
  {
    SplitResumes(a, "\n" + b, "\n");
    var lines := Split(a, "\n");
    SplitFree(a, '\n');
    CharClean(Last(lines), '\n');
    SplitPiece(Last(lines), b, "\n");
    Assoc(a, "\n", b);
    Assoc(Last(lines), "\n", b);
    Assoc(Init(lines), [Last(lines)], Split(b, "\n"));
    assert Init(lines) + [Last(lines)] == lines;
  }

  /** Every line is read on its own: texts joined by a newline give their entries one after the other. */
  lemma ParseJoined(a: string, b: string)
    ensures ParseAcl(a + "\n" + b) == ParseAcl(a) + ParseAcl(b)
  {
    LinesJoined(a, b);
    CollectConcat(Split(a, "\n"), Split(b, "\n"), ParseLine);
  }
}
