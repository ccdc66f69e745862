/** Memory rows as markdown files with frontmatter: what the exporter prints and what the importer reads back. */
module Frontmatter {
  import opened Decimal
  import opened FuzzyEdit
  import opened Text
  import opened Wrappers

  datatype Memory = Memory(key: string, project: string, useCount: nat, content: string)

  datatype Field = Field(name: string, value: string)
  datatype Front = Front(fields: seq<Field>, body: string)

  // ------------------------------------------------------------------ printing

  function LineOf(name: string, value: string): string { name + ": " + value }

  function Head(ns: string, m: Memory): string
  {
    LineOf("key", m.key) + "\n" +
    (LineOf("project", m.project) + "\n" + (LineOf("namespace", ns) + "\n" + LineOf("use_count", Print(m.useCount))))
  }

  function ExportText(ns: string, m: Memory): string
  {
    "---\n" + (Head(ns, m) + "\n---" + ("\n\n" + m.content + "\n"))
  }

  // ------------------------------------------------------------------ parsing

  /** `split_once(':')`, both halves trimmed. */
  function FieldOf(line: string): Option<Field>
  {
    match Find(line, ":")
    case None => None
    case Some(i) => Some(Field(Trim(line[..i]), Trim(line[i + 1..])))
  }

  function Fields(lines: seq<string>): seq<Field>
  {
    if lines == [] then []
    else (match FieldOf(lines[0]) case None => [] case Some(f) => [f]) + Fields(lines[1..])
  }

  /** `trim_start_matches`: the pattern is taken off as often as it is there. */
  function StripAll(s: string, p: string): string
    requires p != ""
    decreases |s|
  {
    if p <= s then StripAll(s[|p|..], p) else s
  }

  const FENCE := "\n---"

  function ParseFrontmatter(txt: string): Option<Front>
  {
    if !("---\n" <= txt) then None
    else
      var rest := txt[4..];
      match Find(rest, FENCE)
      case None => None
      case Some(end) => Some(Front(Fields(Lines(rest[..end])), TrimStart(StripAll(rest[end..], FENCE))))
  }

  /** The first field of that name, or the empty string. */
  function Get(fields: seq<Field>, name: string): string
  {
    if fields == [] then "" else if fields[0].name == name then fields[0].value else Get(fields[1..], name)
  }

  function ImportText(txt: string): Option<Memory>
  {
    match ParseFrontmatter(txt)
    case None => None
    case Some(front) =>
      var key, project := Get(front.fields, "key"), Get(front.fields, "project");
      var count := ParseU32(Get(front.fields, "use_count"));
      if key == "" then None
      else
        Some(Memory(key, if project == "" then "default" else project, if count.Some? then count.value else 1,
                    front.body))
  }

  // ------------------------------------------------------------------ the fence is the first one

  /** Every newline is followed by something that is not a dash. */
  ghost predicate NoFence(s: string)
  {
    forall i :: 0 <= i < |s| && s[i] == '\n' ==> i + 1 < |s| && s[i + 1] != '-'
  }

  lemma NoFenceJoin(a: string, b: string)
    requires NoFence(a) && NoFence(b) && b != "" && b[0] != '-'
    ensures NoFence(a + "\n" + b)
  {
    var s := a + "\n" + b;
    forall i | 0 <= i < |s| && s[i] == '\n' ensures i + 1 < |s| && s[i + 1] != '-' {
      if i < |a| { assert a[i] == '\n'; } else if i > |a| { assert b[i - |a| - 1] == '\n'; }
    }
  }

  lemma FenceFound(head: string, body: string)
    requires NoFence(head)
    ensures Find(head + FENCE + body, FENCE) == Some(|head|)
  {
    var t := head + FENCE[..|FENCE| - 1];
    forall i ensures !OccursAt(t, FENCE, i) {
      if 0 <= i && i + 4 <= |t| {
        assert t[i..i + 4][0] == t[i] && t[i..i + 4][1] == t[i + 1];
        assert t[i] == head[i] && (head[i] == '\n' ==> t[i + 1] == head[i + 1]);
      }
    }
    FindAfter(head, FENCE, body);
  }

  lemma ParsesAt(head: string, body: string)
    requires NoFence(head)
    ensures ParseFrontmatter("---\n" + (head + FENCE + body)) ==
              Some(Front(Fields(Lines(head)), TrimStart(StripAll(FENCE + body, FENCE))))
  {
    var rest := head + FENCE + body;
    assert ("---\n" + rest)[4..] == rest;
    FenceFound(head, body);
    assert rest[..|head|] == head && rest[|head|..] == FENCE + body;
  }

  // ------------------------------------------------------------------ the head, line by line

  /** Values that come back as they are. */
  ghost predicate CleanValue(v: string) { v != "" && Trimmed(v) && '\n' !in v }

  predicate FieldName(name: string)
  {
    Trimmed(name) && ':' !in name && '\n' !in name && name != "" && name[0] != '-'
  }

  lemma FieldNames()
    ensures FieldName("key") && FieldName("project") && FieldName("namespace") && FieldName("use_count")
  {
  }

  lemma LineReadsBack(name: string, value: string)
    requires CleanValue(value) && FieldName(name)
    ensures HeadLine(LineOf(name, value)) && FieldOf(LineOf(name, value)) == Some(Field(name, value))
  {
    var l := LineOf(name, value);
    assert l == name + ":" + (" " + value) && l[|l| - 1] == value[|value| - 1];
    if i :| OccursAt(name, ":", i) { OccurrenceCovers(name, ":", i, i); }
    assert name + ":"[..0] == name;
    FindAfter(name, ":", " " + value);
    assert l[..|name|] == name && l[|name| + 1..] == " " + value;
    TrimOfTrimmed(name);
    TrimOfTrimmed(value);
    TrimBlankAround(" ", value, "");
    assert " " + value + "" == " " + value;
  }

  lemma PrintIsClean(n: nat)
    ensures CleanValue(Print(n))
  {
    PrintThenValue(n);
    var p := Print(n);
    assert IsDigit(p[0]) && IsDigit(p[|p| - 1]);
  }

  ghost predicate Clean(m: Memory)
  {
    CleanValue(m.key) && CleanValue(m.project) && m.useCount < Decimal.U32_LIMIT
  }

  /** A line that can stand in a head. */
  ghost predicate HeadLine(l: string) { PlainLine(l) && NoFence(l) && l != "" && l[0] != '-' }

  lemma FourJoin(a: string, b: string, c: string, d: string)
    ensures Join([a, b, c, d], "\n") == a + "\n" + (b + "\n" + (c + "\n" + d))
  {
    assert [a, b, c, d][1..] == [b, c, d] && [b, c, d][1..] == [c, d] && [c, d][1..] == [d];
    assert Join([d], "\n") == d;
    assert Join([c, d], "\n") == c + "\n" + d;
    assert Join([b, c, d], "\n") == b + "\n" + (c + "\n" + d);
  }

  lemma FourLines(a: string, b: string, c: string, d: string)
    requires HeadLine(a) && HeadLine(b) && HeadLine(c) && HeadLine(d)
    ensures var head := a + "\n" + (b + "\n" + (c + "\n" + d));
            NoFence(head) && Lines(head) == [a, b, c, d]
  {
    FourJoin(a, b, c, d);
    LinesOfPlain([a, b, c, d]);
    NoFenceJoin(c, d);
    NoFenceJoin(b, c + "\n" + d);
    NoFenceJoin(a, b + "\n" + (c + "\n" + d));
  }

  lemma FourFields(ls: seq<string>, a: Field, b: Field, c: Field, d: Field)
    requires |ls| == 4 && FieldOf(ls[0]) == Some(a) && FieldOf(ls[1]) == Some(b)
    requires FieldOf(ls[2]) == Some(c) && FieldOf(ls[3]) == Some(d)
    ensures Fields(ls) == [a, b, c, d]
  {
    assert ls[1..][1..] == ls[2..] && ls[2..][1..] == ls[3..] && ls[3..][1..] == [];
    FieldFirst(ls[3..], d, []);
    FieldFirst(ls[2..], c, [d]);
    FieldFirst(ls[1..], b, [c, d]);
    FieldFirst(ls, a, [b, c, d]);
  }

  lemma FieldFirst(ls: seq<string>, f: Field, rest: seq<Field>)
    requires ls != [] && FieldOf(ls[0]) == Some(f) && Fields(ls[1..]) == rest
    ensures Fields(ls) == [f] + rest
  {
  }

  lemma FourGets(a: Field, b: Field, c: Field, d: Field)
    requires a.name == "key" && b.name == "project" && c.name == "namespace" && d.name == "use_count"
    ensures var fs := [a, b, c, d];
            Get(fs, "key") == a.value && Get(fs, "project") == b.value && Get(fs, "use_count") == d.value
  {
    assert [a, b, c, d][1..] == [b, c, d] && [b, c, d][1..] == [c, d] && [c, d][1..] == [d];
    assert Get([d], "use_count") == d.value;
    assert Get([c, d], "use_count") == d.value;
    assert Get([b, c, d], "use_count") == d.value;
    assert Get([b, c, d], "project") == b.value;
  }

  lemma FourReadBack(key: string, project: string, ns: string, n: string)
    requires CleanValue(key) && CleanValue(project) && CleanValue(ns) && CleanValue(n)
    ensures var a, b := LineOf("key", key), LineOf("project", project);
            var c, d := LineOf("namespace", ns), LineOf("use_count", n);
            && HeadLine(a) && HeadLine(b) && HeadLine(c) && HeadLine(d)
            && Fields([a, b, c, d]) ==
                 [Field("key", key), Field("project", project), Field("namespace", ns), Field("use_count", n)]
  {
    FieldNames();
    LineReadsBack("key", key);
    LineReadsBack("project", project);
    LineReadsBack("namespace", ns);
    LineReadsBack("use_count", n);
    var ls := [LineOf("key", key), LineOf("project", project), LineOf("namespace", ns), LineOf("use_count", n)];
    FourFields(ls, Field("key", key), Field("project", project), Field("namespace", ns), Field("use_count", n));
  }

  lemma HeadReadsBack(ns: string, m: Memory)
    requires Clean(m) && CleanValue(ns)
    ensures NoFence(Head(ns, m))
    ensures var fs := Fields(Lines(Head(ns, m)));
            Get(fs, "key") == m.key && Get(fs, "project") == m.project && Get(fs, "use_count") == Print(m.useCount)
  {
    var n := Print(m.useCount);
    PrintIsClean(m.useCount);
    FourReadBack(m.key, m.project, ns, n);
    FourLines(LineOf("key", m.key), LineOf("project", m.project), LineOf("namespace", ns), LineOf("use_count", n));
    FourGets(Field("key", m.key), Field("project", m.project), Field("namespace", ns), Field("use_count", n));
  }

  // ------------------------------------------------------------------ the round trip

  /** What becomes of the content: leading whitespace goes, a newline comes. */
  function Back(m: Memory): Memory { m.(content := TrimStart(m.content + "\n")) }

  lemma BodyReadsBack(content: string)
    ensures TrimStart(StripAll(FENCE + ("\n\n" + content + "\n"), FENCE)) == TrimStart(content + "\n")
  {
    var body := "\n\n" + content + "\n";
    assert (FENCE + body)[|FENCE|..] == body;
    assert body[1] == '\n';
    assert !(FENCE <= body);
    TrimStartConcat("\n\n", content + "\n");
    assert body == "\n\n" + (content + "\n");
  }

  lemma RoundTrip(ns: string, m: Memory)
    requires Clean(m) && CleanValue(ns)
    ensures ImportText(ExportText(ns, m)) == Some(Back(m))
  {
    HeadReadsBack(ns, m);
    ParsesAt(Head(ns, m), "\n\n" + m.content + "\n");
    BodyReadsBack(m.content);
    ParsePrint(m.useCount);
  }

  /** Values the parser can give are single lines, and trimmed. */
  ghost predicate SingleLine(v: string) { Trimmed(v) && '\n' !in v }

  lemma FieldIsSingle(line: string)
    requires '\n' !in line
    ensures FieldOf(line).Some? ==> SingleLine(FieldOf(line).value.value)
  {
    match Find(line, ":") {
      case None =>
      case Some(i) =>
        var rest := line[i + 1..];
        var j, k := TrimShape(rest);
        forall x | 0 <= x < k - j ensures rest[j..k][x] != '\n' {
          assert rest[j..k][x] == line[i + 1 + j + x];
        }
    }
  }

  lemma {:induction false} FieldsAreSingle(lines: seq<string>, name: string)
    requires forall l :: l in lines ==> '\n' !in l
    ensures SingleLine(Get(Fields(lines), name))
    decreases |lines|
  {
    if lines != [] {
      FieldsAreSingle(lines[1..], name);
      match FieldOf(lines[0]) {
        case None =>
          assert Fields(lines) == Fields(lines[1..]);
        case Some(f) =>
          assert Fields(lines)[1..] == Fields(lines[1..]);
          FieldIsSingle(lines[0]);
      }
    }
  }

  /** A row comes back with its key, project and use count exactly when key and project are non-empty, trimmed
      single lines; the content then comes back up to surrounding whitespace. */
  lemma RoundTripIff(ns: string, m: Memory)
    requires CleanValue(ns) && m.useCount < Decimal.U32_LIMIT
    ensures var back := ImportText(ExportText(ns, m));
            && (back.Some? && back.value == m.(content := back.value.content)
                <==> CleanValue(m.key) && CleanValue(m.project))
            && (CleanValue(m.key) && CleanValue(m.project) ==>
                  back.Some? && Trim(back.value.content) == Trim(m.content))
  {
    if CleanValue(m.key) && CleanValue(m.project) {
      RoundTrip(ns, m);
      TrimOfBack(m.content);
    } else {
      ImportIsClean(ExportText(ns, m));
    }
  }

  lemma ImportIsClean(txt: string)
    ensures ImportText(txt).Some? ==> CleanValue(ImportText(txt).value.key) && CleanValue(ImportText(txt).value.project)
  {
    if "---\n" <= txt && Find(txt[4..], FENCE).Some? {
      var head := txt[4..][..Find(txt[4..], FENCE).value];
      LinesAreSingle(head);
      FieldsAreSingle(Lines(head), "key");
      FieldsAreSingle(Lines(head), "project");
    }
  }

  lemma TrimOfBack(content: string)
    ensures Trim(TrimStart(content + "\n")) == Trim(content)
  {
    TrimStartTwice(content + "\n");
    TrimBlankAround("", content, "\n");
    assert "" + content + "\n" == content + "\n";
  }

  lemma TrimStartTwice(s: string)
    ensures TrimStart(TrimStart(s)) == TrimStart(s)
  {
    var i := TrimStartShape(s);
  }

  // ------------------------------------------------------------------ any number of rounds

  function Once(ns: string): Memory -> Option<Memory> { (m: Memory) => ImportText(ExportText(ns, m)) }

  function Rounds(once: Memory -> Option<Memory>, m: Memory, n: nat): Option<Memory>
    decreases n
  {
    if n == 0 then Some(m)
    else
      match once(m)
      case None => None
      case Some(back) => Rounds(once, back, n - 1)
  }

  /** The same row but for the content, which differs at most in surrounding whitespace. */
  ghost predicate SameUpToTrim(m: Memory, back: Memory)
  {
    back == m.(content := back.content) && Trim(back.content) == Trim(m.content)
  }

  lemma {:induction false} RoundsKeep(once: Memory -> Option<Memory>, m: Memory, n: nat)
    requires forall m :: Clean(m) ==> once(m).Some? && SameUpToTrim(m, once(m).value)
    requires Clean(m)
    ensures Rounds(once, m, n).Some? && SameUpToTrim(m, Rounds(once, m, n).value)
    decreases n
  {
    if n > 0 { RoundsKeep(once, once(m).value, n - 1); }
  }

  /** Export and import, over and over. */
  lemma RoundTrips(ns: string, m: Memory, n: nat)
    requires Clean(m) && CleanValue(ns)
    ensures Rounds(Once(ns), m, n).Some? && SameUpToTrim(m, Rounds(Once(ns), m, n).value)
  {
    forall m | Clean(m) ensures Once(ns)(m).Some? && SameUpToTrim(m, Once(ns)(m).value) {
      RoundTrip(ns, m);
      TrimOfBack(m.content);
    }
    RoundsKeep(Once(ns), m, n);
  }
}
