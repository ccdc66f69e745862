/** The memory rows of one namespace as a directory of files, one per row, named after a slug of the row's key. */
module KnowledgeSync {
  import opened Frontmatter
  import opened Text
  import opened Wrappers

  const MAX_SLUG := 80

  function SafeChars(s: string, alnum: char -> bool): string
  {
    if s == "" then ""
    else [if alnum(s[0]) || s[0] == '-' || s[0] == '_' then s[0] else '-'] + SafeChars(s[1..], alnum)
  }

  function TrimDashStart(s: string): string { if s != "" && s[0] == '-' then TrimDashStart(s[1..]) else s }

  function TrimDashEnd(s: string): string { if s != "" && s[|s| - 1] == '-' then TrimDashEnd(s[..|s| - 1]) else s }

  /** `alnum` is Unicode's alphanumeric test. */
  function Slug(s: string, alnum: char -> bool): string
  {
    var t := TrimDashEnd(TrimDashStart(SafeChars(s, alnum)));
    if |t| > MAX_SLUG then t[..MAX_SLUG] else t
  }

  function FileName(alnum: char -> bool): string -> string { (key: string) => Slug(key, alnum) + ".md" }

  function Printer(ns: string): Memory -> string { (m: Memory) => ExportText(ns, m) }

  function Parser(): string -> Option<Memory> { (txt: string) => ImportText(txt) }

  /** The directory after writing the rows in order over what was there; rows without a key are passed over. */
  function Written(files: map<string, string>, rows: seq<Memory>, name: string -> string,
                   show: Memory -> string): map<string, string>
    decreases |rows|
  {
    if rows == [] then files
    else
      var before, row := Written(files, rows[..|rows| - 1], name, show), rows[|rows| - 1];
      if row.key == "" then before else before[name(row.key) := show(row)]
  }

  /** What the files of a directory hold. */
  function Found(files: map<string, string>, parse: string -> Option<Memory>): set<Memory>
  {
    set f | f in files && parse(files[f]).Some? :: parse(files[f]).value
  }

  function EntryAt(files: map<string, string>, f: string, parse: string -> Option<Memory>): Option<Memory>
  {
    if f in files then parse(files[f]) else None
  }

  /** The entries of the listed files; files that do not parse are passed over. */
  function Entries(files: map<string, string>, order: seq<string>, parse: string -> Option<Memory>): seq<Memory>
    decreases |order|
  {
    if order == [] then []
    else
      var last := |order| - 1;
      Entries(files, order[..last], parse) +
      (match EntryAt(files, order[last], parse) case None => [] case Some(m) => [m])
  }

  /** What tells rows of one namespace apart. */
  datatype Ident = Ident(key: string, project: string)

  function IdentOf(m: Memory): Ident { Ident(m.key, m.project) }

  /** The table after storing the entries in order: a later one replaces an earlier one of the same key and
      project. */
  function Upserted(entries: seq<Memory>): map<Ident, Memory>
    decreases |entries|
  {
    if entries == [] then map[]
    else
      var last := |entries| - 1;
      Upserted(entries[..last])[IdentOf(entries[last]) := entries[last]]
  }

  function Imported(files: map<string, string>, order: seq<string>, parse: string -> Option<Memory>): map<Ident, Memory>
  {
    Upserted(Entries(files, order, parse))
  }

  class KnowledgeDir {
    const ns: string
    const alnum: char -> bool
    var files: map<string, string>

    constructor (ns: string, alnum: char -> bool)
      ensures files == map[] && this.ns == ns && this.alnum == alnum
    {
      this.ns, this.alnum, files := ns, alnum, map[];
    }

    method Export(rows: seq<Memory>)
      modifies this
      ensures files == Written(old(files), rows, FileName(alnum), Printer(ns))
    {
      for i := 0 to |rows|
        invariant files == Written(old(files), rows[..i], FileName(alnum), Printer(ns))
      {
        assert rows[..i + 1][..i] == rows[..i];
        if rows[i].key != "" { files := files[Slug(rows[i].key, alnum) + ".md" := ExportText(ns, rows[i])]; }
      }
      assert rows[..|rows|] == rows;
    }

    /** Only an empty table is seeded; `order` is the listing of the directory. */
    method ImportIfEmpty(existing: nat, order: seq<string>) returns (stored: map<Ident, Memory>, n: nat)
      ensures stored == if existing > 0 then map[] else Imported(files, order, Parser())
      ensures n == if existing > 0 then 0 else |Entries(files, order, Parser())|
    {
      stored, n := map[], 0;
      if existing > 0 { return; }
      ghost var parse := Parser();
      for i := 0 to |order|
        invariant stored == Imported(files, order[..i], parse)
        invariant n == |Entries(files, order[..i], parse)|
      {
        ImportOne(files, order, i, parse);
        if order[i] in files {
          var entry := ImportText(files[order[i]]);
          if entry.Some? {
            stored, n := stored[Ident(entry.value.key, entry.value.project) := entry.value], n + 1;
          }
        }
      }
      assert order[..|order|] == order;
    }
  }

  lemma ImportOne(files: map<string, string>, order: seq<string>, i: nat, parse: string -> Option<Memory>)
    requires i < |order|
    ensures var before, entry := Imported(files, order[..i], parse), EntryAt(files, order[i], parse);
            && Imported(files, order[..i + 1], parse) ==
                 (if entry.Some? then before[IdentOf(entry.value) := entry.value] else before)
            && |Entries(files, order[..i + 1], parse)| ==
                 |Entries(files, order[..i], parse)| + if entry.Some? then 1 else 0
  {
    assert order[..i + 1][..i] == order[..i];
    var before, entry := Entries(files, order[..i], parse), EntryAt(files, order[i], parse);
    if entry.Some? {
      assert Entries(files, order[..i + 1], parse) == before + [entry.value];
      UpsertOne(before, entry.value);
    } else {
      assert Entries(files, order[..i + 1], parse) == before;
    }
  }

  lemma UpsertOne(before: seq<Memory>, m: Memory)
    ensures Upserted(before + [m]) == Upserted(before)[IdentOf(m) := m]
  {
    assert (before + [m])[..|before|] == before;
  }

  // ------------------------------------------------------------------ what ends up in the table

  /** The last entry of a key and project is the row of the table. */
  lemma {:induction false} LastEntryWins(entries: seq<Memory>, id: Ident)
    ensures var t := Upserted(entries);
            if id in t then
              exists k :: 0 <= k < |entries| && t[id] == entries[k] && IdentOf(entries[k]) == id
                          && forall j :: k < j < |entries| ==> IdentOf(entries[j]) != id
            else forall m :: m in entries ==> IdentOf(m) != id
    decreases |entries|
  {
    if entries != [] {
      var last, t := |entries| - 1, Upserted(entries);
      var init := entries[..last];
      if IdentOf(entries[last]) == id {
        assert t[id] == entries[last];
      } else {
        LastEntryWins(init, id);
        if id in t {
          var k :| 0 <= k < last && Upserted(init)[id] == init[k] && IdentOf(init[k]) == id
                   && forall j :: k < j < last ==> IdentOf(init[j]) != id;
          assert t[id] == entries[k];
          forall j | k < j < |entries| ensures IdentOf(entries[j]) != id {
            if j < last { assert init[j] == entries[j]; }
          }
        } else {
          forall m | m in entries ensures IdentOf(m) != id { if m != entries[last] { assert m in init; } }
        }
      }
    }
  }

  lemma {:induction false} EntriesAreListed(files: map<string, string>, order: seq<string>,
                                           parse: string -> Option<Memory>, m: Memory)
    ensures m in Entries(files, order, parse) <==> exists f :: f in order && EntryAt(files, f, parse) == Some(m)
    decreases |order|
  {
    if order != [] {
      var last := |order| - 1;
      EntriesAreListed(files, order[..last], parse, m);
      assert order == order[..last] + [order[last]];
    }
  }

  /** The listing has every file of the directory, in any order. */
  ghost predicate Lists(order: seq<string>, files: map<string, string>)
  {
    forall f :: f in order <==> f in files
  }

  /** No two files hold a row of the same key and project. */
  ghost predicate OneFileEach(files: map<string, string>, parse: string -> Option<Memory>)
  {
    forall f, g | f in files && g in files && parse(files[f]).Some? && parse(files[g]).Some?
      :: IdentOf(parse(files[f]).value) == IdentOf(parse(files[g]).value) ==> f == g
  }

  /** Then the order of the listing does not matter: the table is what the files hold. */
  lemma ImportedIsFound(files: map<string, string>, order: seq<string>, parse: string -> Option<Memory>, m: Memory)
    requires Lists(order, files) && OneFileEach(files, parse)
    ensures m in Imported(files, order, parse).Values <==> m in Found(files, parse)
  {
    var entries, t := Entries(files, order, parse), Imported(files, order, parse);
    EntriesAreListed(files, order, parse, m);
    if m in t.Values {
      var id :| id in t && t[id] == m;
      LastEntryWins(entries, id);
    }
    if m in Found(files, parse) {
      var f :| f in files && parse(files[f]) == Some(m);
      assert EntryAt(files, f, parse) == Some(m);
      LastEntryWins(entries, IdentOf(m));
      var other := t[IdentOf(m)];
      EntriesAreListed(files, order, parse, other);
      var g :| g in order && EntryAt(files, g, parse) == Some(other);
      assert f == g;
    }
  }

  // ------------------------------------------------------------------ who wrote a file last

  lemma {:induction false} LastWriter(files: map<string, string>, rows: seq<Memory>, name: string -> string,
                                      show: Memory -> string, f: string)
    returns (k: int)
    requires forall m :: m in rows ==> m.key != ""
    requires f in Written(files, rows, name, show)
    ensures -1 <= k < |rows| && forall j :: k < j < |rows| ==> name(rows[j].key) != f
    ensures k >= 0 ==> name(rows[k].key) == f && Written(files, rows, name, show)[f] == show(rows[k])
    ensures k < 0 ==> f in files && Written(files, rows, name, show)[f] == files[f]
    decreases |rows|
  {
    if rows == [] {
      k := -1;
    } else {
      var last := |rows| - 1;
      assert rows[last] in rows;
      if name(rows[last].key) == f { k := last; } else { k := LastWriter(files, rows[..last], name, show, f); }
    }
  }

  lemma {:induction false} FileIsThere(files: map<string, string>, rows: seq<Memory>, name: string -> string,
                                       show: Memory -> string, f: string)
    requires forall m :: m in rows ==> m.key != ""
    requires f in files || exists i :: 0 <= i < |rows| && name(rows[i].key) == f
    ensures f in Written(files, rows, name, show)
    decreases |rows|
  {
    if rows != [] {
      var last := |rows| - 1;
      assert rows[last] in rows;
      if name(rows[last].key) != f {
        if i :| 0 <= i < |rows| && name(rows[i].key) == f { assert rows[..last][i] == rows[i]; }
        FileIsThere(files, rows[..last], name, show, f);
      }
    }
  }

  // ------------------------------------------------------------------ what an export and an import recover

  /** A table holds at most one row per key and project. */
  ghost predicate Keyed(rows: seq<Memory>)
  {
    forall i, j :: 0 <= i < j < |rows| ==> rows[i].key != rows[j].key || rows[i].project != rows[j].project
  }

  ghost predicate ReadsBack(show: Memory -> string, parse: string -> Option<Memory>)
  {
    forall m :: Clean(m) ==> parse(show(m)) == Some(Back(m))
  }

  /** Row `i` is the last one written to its file. */
  ghost predicate LastOf(rows: seq<Memory>, name: string -> string, i: int)
  {
    0 <= i < |rows| && forall j :: i < j < |rows| ==> name(rows[j].key) != name(rows[i].key)
  }

  ghost predicate Names(rows: seq<Memory>, name: string -> string, f: string)
  {
    exists i :: 0 <= i < |rows| && name(rows[i].key) == f
  }

  ghost predicate FromRow(rows: seq<Memory>, name: string -> string, m: Memory)
  {
    exists i :: LastOf(rows, name, i) && m == Back(rows[i])
  }

  ghost predicate FromOldFile(files: map<string, string>, rows: seq<Memory>, name: string -> string,
                              parse: string -> Option<Memory>, m: Memory)
  {
    exists f :: f in files && !Names(rows, name, f) && parse(files[f]) == Some(m)
  }

  lemma LastRowIsFound(files: map<string, string>, rows: seq<Memory>, name: string -> string,
                       show: Memory -> string, parse: string -> Option<Memory>, i: int)
    requires (forall m :: m in rows ==> Clean(m)) && ReadsBack(show, parse) && LastOf(rows, name, i)
    ensures Back(rows[i]) in Found(Written(files, rows, name, show), parse)
  {
    var f := name(rows[i].key);
    FileIsThere(files, rows, name, show, f);
    var k := LastWriter(files, rows, name, show, f);
    assert k == i && rows[i] in rows;
    assert parse(show(rows[i])) == Some(Back(rows[i]));
  }

  lemma OldFileIsFound(files: map<string, string>, rows: seq<Memory>, name: string -> string,
                       show: Memory -> string, parse: string -> Option<Memory>, f: string)
    requires (forall m :: m in rows ==> Clean(m)) && f in files && !Names(rows, name, f)
    ensures f in Written(files, rows, name, show) && Written(files, rows, name, show)[f] == files[f]
  {
    FileIsThere(files, rows, name, show, f);
    var k := LastWriter(files, rows, name, show, f);
  }

  /** An export over any directory leaves exactly the last row of each file name and the old files no row names. */
  lemma FoundIff(files: map<string, string>, rows: seq<Memory>, name: string -> string, show: Memory -> string,
                 parse: string -> Option<Memory>, m: Memory)
    requires (forall r :: r in rows ==> Clean(r)) && ReadsBack(show, parse)
    ensures m in Found(Written(files, rows, name, show), parse)
            <==> FromRow(rows, name, m) || FromOldFile(files, rows, name, parse, m)
  {
    var after := Written(files, rows, name, show);
    if m in Found(after, parse) {
      var f :| f in after && parse(after[f]) == Some(m);
      var k := LastWriter(files, rows, name, show, f);
      if k >= 0 { assert rows[k] in rows && LastOf(rows, name, k); } else { assert !Names(rows, name, f); }
    }
    if FromRow(rows, name, m) {
      var i :| LastOf(rows, name, i) && m == Back(rows[i]);
      LastRowIsFound(files, rows, name, show, parse, i);
    }
    if FromOldFile(files, rows, name, parse, m) {
      var f :| f in files && !Names(rows, name, f) && parse(files[f]) == Some(m);
      OldFileIsFound(files, rows, name, show, parse, f);
    }
  }

  lemma RowsHaveOneFileEach(rows: seq<Memory>, name: string -> string, show: Memory -> string,
                            parse: string -> Option<Memory>)
    requires (forall r :: r in rows ==> Clean(r)) && ReadsBack(show, parse)
    ensures OneFileEach(Written(map[], rows, name, show), parse)
  {
    var files := Written(map[], rows, name, show);
    forall f | f in files && parse(files[f]).Some? ensures name(parse(files[f]).value.key) == f {
      var k := LastWriter(map[], rows, name, show, f);
      assert rows[k] in rows;
    }
  }

  /** A directory that only exports have written to gives a table of exactly the last row of each file name, however
      it is listed. */
  lemma TableIff(rows: seq<Memory>, name: string -> string, show: Memory -> string, parse: string -> Option<Memory>,
                 order: seq<string>, m: Memory)
    requires (forall r :: r in rows ==> Clean(r)) && ReadsBack(show, parse)
    requires Lists(order, Written(map[], rows, name, show))
    ensures m in Imported(Written(map[], rows, name, show), order, parse).Values <==> FromRow(rows, name, m)
  {
    RowsHaveOneFileEach(rows, name, show, parse);
    ImportedIsFound(Written(map[], rows, name, show), order, parse, m);
    FoundIff(map[], rows, name, show, parse, m);
  }

  lemma TextsReadBack(ns: string)
    requires CleanValue(ns)
    ensures ReadsBack(Printer(ns), Parser())
  {
    forall m | Clean(m) ensures Parser()(Printer(ns)(m)) == Some(Back(m)) { RoundTrip(ns, m); }
  }

  // ------------------------------------------------------------------ the exporter's own names and texts

  function Directory(ns: string, rows: seq<Memory>, alnum: char -> bool): map<string, string>
  {
    Written(map[], rows, FileName(alnum), Printer(ns))
  }

  ghost predicate OwnSlugs(rows: seq<Memory>, alnum: char -> bool)
  {
    forall i, j :: 0 <= i < j < |rows| ==> Slug(rows[i].key, alnum) != Slug(rows[j].key, alnum)
  }

  lemma SameFile(a: string, b: string, alnum: char -> bool)
    ensures FileName(alnum)(a) == FileName(alnum)(b) <==> Slug(a, alnum) == Slug(b, alnum)
  {
    SameStem(Slug(a, alnum), Slug(b, alnum), ".md");
  }

  lemma SameStem(a: string, b: string, end: string)
    ensures a + end == b + end <==> a == b
  {
    if a + end == b + end {
      assert a == (a + end)[..|a + end| - |end|] && b == (b + end)[..|b + end| - |end|];
    }
  }

  /** What an import can bring back: the last row of each slug, and nothing else. */
  lemma ImportedExactly(ns: string, rows: seq<Memory>, alnum: char -> bool, order: seq<string>, m: Memory)
    requires CleanValue(ns) && (forall r :: r in rows ==> Clean(r)) && Lists(order, Directory(ns, rows, alnum))
    ensures m in Imported(Directory(ns, rows, alnum), order, Parser()).Values
            <==> exists i :: && 0 <= i < |rows| && m == Back(rows[i])
                             && forall j :: i < j < |rows| ==> Slug(rows[j].key, alnum) != Slug(rows[i].key, alnum)
  {
    TextsReadBack(ns);
    TableIff(rows, FileName(alnum), Printer(ns), Parser(), order, m);
    forall i, j | 0 <= i < j < |rows|
      ensures FileName(alnum)(rows[j].key) == FileName(alnum)(rows[i].key)
              <==> Slug(rows[j].key, alnum) == Slug(rows[i].key, alnum)
    {
      SameFile(rows[j].key, rows[i].key, alnum);
    }
    forall i | 0 <= i < |rows|
      ensures LastOf(rows, FileName(alnum), i)
              <==> forall j :: i < j < |rows| ==> Slug(rows[j].key, alnum) != Slug(rows[i].key, alnum)
    {
    }
  }

  ghost predicate Restored(rows: seq<Memory>, table: map<Ident, Memory>)
  {
    forall m :: m in table.Values <==> exists i :: 0 <= i < |rows| && m == Back(rows[i])
  }

  /** A table of a namespace comes back, every row and nothing else, exactly when the slugs of its keys differ. */
  lemma ExportImportIff(ns: string, rows: seq<Memory>, alnum: char -> bool, order: seq<string>)
    requires CleanValue(ns) && (forall m :: m in rows ==> Clean(m)) && Keyed(rows)
    requires Lists(order, Directory(ns, rows, alnum))
    ensures Restored(rows, Imported(Directory(ns, rows, alnum), order, Parser())) <==> OwnSlugs(rows, alnum)
  {
    var table := Imported(Directory(ns, rows, alnum), order, Parser());
    if OwnSlugs(rows, alnum) {
      forall m ensures m in table.Values <==> exists i :: 0 <= i < |rows| && m == Back(rows[i]) {
        ImportedExactly(ns, rows, alnum, order, m);
        if i :| 0 <= i < |rows| && m == Back(rows[i]) {
          assert forall j :: i < j < |rows| ==> Slug(rows[j].key, alnum) != Slug(rows[i].key, alnum);
        }
      }
    } else {
      var i, j :| 0 <= i < j < |rows| && Slug(rows[i].key, alnum) == Slug(rows[j].key, alnum);
      ImportedExactly(ns, rows, alnum, order, Back(rows[i]));
      forall k | 0 <= k < |rows| && Back(rows[i]) == Back(rows[k]) ensures k == i { SameBack(rows, i, k); }
      assert Back(rows[i]) !in table.Values;
    }
  }

  lemma SameBack(rows: seq<Memory>, i: nat, k: nat)
    requires Keyed(rows) && i < |rows| && k < |rows| && Back(rows[i]) == Back(rows[k])
    ensures k == i
  {
    assert rows[i].key == Back(rows[i]).key && rows[k].key == Back(rows[k]).key;
    assert rows[i].project == Back(rows[i]).project && rows[k].project == Back(rows[k]).project;
  }

  /** One key in two projects is one file: the second row is all that comes back. */
  lemma TwoProjectsShareAFile(ns: string, m: Memory, project: string, alnum: char -> bool, order: seq<string>)
    requires CleanValue(ns) && Clean(m) && CleanValue(project) && project != m.project
    requires Lists(order, Directory(ns, [m, m.(project := project)], alnum))
    ensures Imported(Directory(ns, [m, m.(project := project)], alnum), order, Parser()).Values ==
              {Back(m.(project := project))}
  {
    var rows := [m, m.(project := project)];
    forall x
      ensures x in Imported(Directory(ns, rows, alnum), order, Parser()).Values <==> x == Back(rows[1])
    {
      ImportedExactly(ns, rows, alnum, order, x);
      assert rows[0].key == rows[1].key;
    }
  }

  /** The slug forgets which separator a key has. */
  lemma SlugForgetsSeparators(alnum: char -> bool)
    requires alnum('a') && alnum('b') && !alnum(' ') && !alnum(':')
    ensures Slug("a b", alnum) == Slug("a:b", alnum) == Slug("a-b", alnum) == "a-b"
  {
    SafeOfThree("a b", alnum);
    SafeOfThree("a:b", alnum);
    SafeOfThree("a-b", alnum);
  }

  lemma SafeOfThree(s: string, alnum: char -> bool)
    requires |s| == 3 && s[0] == 'a' && s[2] == 'b' && alnum('a') && alnum('b') && (!alnum(s[1]) || s[1] == '-')
    requires s[1] != '_'
    ensures SafeChars(s, alnum) == "a-b"
  {
    assert s[1..][1..] == "b" && "b"[1..] == "";
    assert SafeChars("b", alnum) == "b";
    assert SafeChars(s[1..], alnum) == "-b";
  }

  lemma {:induction false} WrittenTwice(files: map<string, string>, past: seq<Memory>, rows: seq<Memory>,
                                       name: string -> string, show: Memory -> string)
    ensures Written(Written(files, past, name, show), rows, name, show) == Written(files, past + rows, name, show)
    decreases |rows|
  {
    if rows == [] {
      assert past + rows == past;
    } else {
      var last := |rows| - 1;
      WrittenTwice(files, past, rows[..last], name, show);
      WrittenOne(files, past + rows[..last], rows[last], name, show);
      assert past + rows == past + rows[..last] + [rows[last]];
    }
  }

  lemma WrittenOne(files: map<string, string>, rows: seq<Memory>, m: Memory, name: string -> string,
                   show: Memory -> string)
    ensures var before := Written(files, rows, name, show);
            Written(files, rows + [m], name, show) == if m.key == "" then before else before[name(m.key) := show(m)]
  {
    assert (rows + [m])[..|rows|] == rows;
  }

  /** Files of rows that are gone are never removed: a row that was exported before and is not in the table any more
      comes back exactly when no row of the later exports has its slug. */
  lemma GoneRowComesBackIff(ns: string, past: seq<Memory>, i: nat, rows: seq<Memory>, alnum: char -> bool,
                            order: seq<string>)
    requires CleanValue(ns) && (forall m :: m in past ==> Clean(m)) && (forall m :: m in rows ==> Clean(m))
    requires LastOf(past, FileName(alnum), i) && forall m :: m in rows ==> IdentOf(m) != IdentOf(past[i])
    requires Lists(order, Written(Directory(ns, past, alnum), rows, FileName(alnum), Printer(ns)))
    ensures Back(past[i]) in
              Imported(Written(Directory(ns, past, alnum), rows, FileName(alnum), Printer(ns)), order, Parser()).Values
            <==> forall m :: m in rows ==> Slug(m.key, alnum) != Slug(past[i].key, alnum)
  {
    var all, name := past + rows, FileName(alnum);
    WrittenTwice(map[], past, rows, name, Printer(ns));
    TextsReadBack(ns);
    TableIff(all, name, Printer(ns), Parser(), order, Back(past[i]));
    GoneIsLast(past, i, rows, name);
    forall m | m in rows ensures name(m.key) == name(past[i].key) <==> Slug(m.key, alnum) == Slug(past[i].key, alnum) {
      SameFile(m.key, past[i].key, alnum);
    }
  }

  lemma GoneIsLast(past: seq<Memory>, i: nat, rows: seq<Memory>, name: string -> string)
    requires LastOf(past, name, i) && forall m :: m in rows ==> IdentOf(m) != IdentOf(past[i])
    ensures FromRow(past + rows, name, Back(past[i])) <==> forall m :: m in rows ==> name(m.key) != name(past[i].key)
  {
    var all := past + rows;
    if forall m :: m in rows ==> name(m.key) != name(past[i].key) {
      assert LastOf(all, name, i) && all[i] == past[i];
    }
    if FromRow(all, name, Back(past[i])) {
      var k :| LastOf(all, name, k) && Back(past[i]) == Back(all[k]);
      assert IdentOf(all[k]) == IdentOf(Back(all[k])) == IdentOf(Back(past[i])) == IdentOf(past[i]);
      assert k < |past|;
      forall m | m in rows ensures name(m.key) != name(past[i].key) {
        var j :| 0 <= j < |rows| && rows[j] == m;
        assert all[|past| + j] == m;
      }
    }
  }
}
