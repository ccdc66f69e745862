/** The fields of an AGENT block, taken from its JSON body by looking for their names. */
module AgentBlocks {
  import opened Wrappers
  import opened Text
  import opened Splitting

  function Needle(name: string): string { "\"" + name + "\"" }

  /** What follows the first occurrence of `p`. */
  function Beyond(s: string, p: string): Option<string>
  {
    match Find(s, p) case None => None case Some(i) => Some(s[i + |p|..])
  }

  /** What precedes it, or everything. */
  function UpTo(s: string, p: string): string
  {
    match Find(s, p) case None => s case Some(i) => s[..i]
  }

  /** A string field: nothing is unescaped, and the first quote ends it. */
  function Field(json: string, name: string): string
  {
    match Beyond(json, Needle(name))
    case None => ""
    case Some(afterKey) =>
      match Beyond(afterKey, ":")
      case None => ""
      case Some(afterColon) =>
        var value := TrimStart(afterColon);
        if HasPrefix(value, "\"") then UpTo(value[1..], "\"") else ""
  }

  function TrimQuotes(s: string): string
    decreases |s|
  {
    if s != "" && s[0] == '"' then TrimQuotes(s[1..])
    else if s != "" && s[|s| - 1] == '"' then TrimQuotes(s[..|s| - 1])
    else s
  }

  function Item(piece: string): string { TrimQuotes(Trim(piece)) }

  /** The items that are not empty. */
  function Items(pieces: seq<string>): seq<string>
  {
    if pieces == [] then []
    else (if Item(pieces[0]) == "" then [] else [Item(pieces[0])]) + Items(pieces[1..])
  }

  /** A list of strings, split at every comma. */
  function List(json: string, name: string): seq<string>
  {
    match Beyond(json, Needle(name))
    case None => []
    case Some(afterKey) =>
      match Beyond(afterKey, "[")
      case None => []
      case Some(afterBracket) =>
        match Find(afterBracket, "]")
        case None => []
        case Some(end) => Items(Pieces(afterBracket[..end], ","))
  }

  // ------------------------------------------------------------------ one character as a pattern

  lemma CharOccurs(s: string, c: char, i: nat)
    requires i < |s|
    ensures OccursAt(s, [c], i) <==> s[i] == c
  {
    assert s[i..i + 1] == [s[i]];
  }

  lemma CharIn(s: string, c: char)
    ensures Contains(s, [c]) <==> c in s
  {
    if i :| OccursAt(s, [c], i) { CharOccurs(s, c, i); }
    if c in s {
      var i :| 0 <= i < |s| && s[i] == c;
      CharOccurs(s, c, i);
    }
  }

  /** The first `c` of a text that goes on after it. */
  lemma FirstChar(a: string, c: char, b: string)
    ensures Find(a + [c] + b, [c]) == Some(|a|) <==> c !in a
    ensures Find(a + [c] + b, [c]).Some? && Find(a + [c] + b, [c]).value <= |a|
  {
    var s := a + [c] + b;
    assert a + [c][..0] == a;
    FindAfter(a, [c], b);
    CharIn(a, c);
    CharOccurs(s, c, |a|);
  }

  lemma BeyondFirst(a: string, p: string, b: string)
    requires p != "" && !Contains(a + p[..|p| - 1], p)
    ensures Beyond(a + p + b, p) == Some(b)
  {
    FindAfter(a, p, b);
    assert (a + p + b)[|a| + |p|..] == b;
  }

  lemma BeyondChar(a: string, c: char, b: string)
    requires c !in a
    ensures Beyond(a + [c] + b, [c]) == Some(b)
  {
    FirstChar(a, c, b);
    assert (a + [c] + b)[|a| + 1..] == b;
  }

  lemma UpToChar(a: string, c: char, b: string)
    ensures if c in a then |UpTo(a + [c] + b, [c])| < |a| else UpTo(a + [c] + b, [c]) == a
  {
    FirstChar(a, c, b);
    assert (a + [c] + b)[..|a|] == a;
  }

  // ------------------------------------------------------------------ a string field

  lemma AfterSpace(quoted: string)
    requires quoted != "" && quoted[0] == '"'
    ensures TrimStart(" " + quoted) == quoted && HasPrefix(quoted, "\"")
  {
    assert (" " + quoted)[1..] == quoted && quoted[..1] == "\"";
  }

  /** A field written in the usual way reads back exactly when its value has no quote, provided that its name does not
      occur before. */
  lemma FieldIff(before: string, name: string, value: string, rest: string)
    requires !Contains(before + Needle(name)[..|name| + 1], Needle(name))
    ensures Field(before + Needle(name) + (": \"" + value + "\"" + rest), name) == value <==> '"' !in value
  {
    var content, quoted := value + "\"" + rest, "\"" + (value + "\"" + rest);
    var tail := ": \"" + value + "\"" + rest;
    assert tail == "" + ":" + (" " + quoted);
    BeyondFirst(before, Needle(name), tail);
    BeyondChar("", ':', " " + quoted);
    AfterSpace(quoted);
    assert quoted[1..] == content;
    UpToChar(value, '"', rest);
  }

  // ------------------------------------------------------------------ a list of strings

  /** What an item of a list can be. */
  ghost predicate GoodItem(f: string)
  {
    f != "" && ',' !in f && ']' !in f && f[0] != '"' && f[|f| - 1] != '"'
  }

  lemma {:induction false} TrimQuotesIs(s: string)
    ensures TrimQuotes(s) != "" ==> TrimQuotes(s)[0] != '"' && TrimQuotes(s)[|TrimQuotes(s)| - 1] != '"'
    ensures forall c :: c in TrimQuotes(s) ==> c in s
    decreases |s|
  {
    if s != "" && s[0] == '"' { TrimQuotesIs(s[1..]); }
    else if s != "" && s[|s| - 1] == '"' { TrimQuotesIs(s[..|s| - 1]); }
  }

  lemma ItemIsGood(piece: string)
    requires ',' !in piece && ']' !in piece && Item(piece) != ""
    ensures GoodItem(Item(piece))
  {
    var i, j := TrimShape(piece);
    TrimQuotesIs(Trim(piece));
  }

  lemma {:induction false} ItemsAreGood(pieces: seq<string>)
    requires forall p :: p in pieces ==> ',' !in p && ']' !in p
    ensures forall f :: f in Items(pieces) ==> GoodItem(f)
  {
    if pieces != [] {
      assert pieces[0] in pieces;
      if Item(pieces[0]) != "" { ItemIsGood(pieces[0]); }
      ItemsAreGood(pieces[1..]);
    }
  }

  lemma {:induction false} PiecesHave(s: string, c: char)
    requires c !in s
    ensures forall p :: p in Pieces(s, ",") ==> ',' !in p && c !in p
    decreases |s|
  {
    CharIn(s, ',');
    match Find(s, ",") {
      case None =>
      case Some(i) =>
        PiecesHave(s[i + 1..], c);
        forall k | 0 <= k < i ensures s[k] != ',' { CharOccurs(s, ',', k); }
    }
  }

  /** Whatever the body, a list has good items only. */
  lemma ListIsGood(json: string, name: string)
    ensures forall f :: f in List(json, name) ==> GoodItem(f)
  {
    var key := Beyond(json, Needle(name));
    if key.Some? && Beyond(key.value, "[").Some? {
      var s := Beyond(key.value, "[").value;
      if Find(s, "]").Some? {
        var end := Find(s, "]").value;
        forall k | 0 <= k < end ensures s[k] != ']' { CharOccurs(s, ']', k); }
        PiecesHave(s[..end], ']');
        ItemsAreGood(Pieces(s[..end], ","));
      }
    }
  }

  /** The files in quotes, with ", " between them. */
  function Quoted(files: seq<string>): string
  {
    if files == [] then ""
    else if |files| == 1 then "\"" + files[0] + "\""
    else "\"" + files[0] + "\"" + ", " + Quoted(files[1..])
  }

  lemma QuotedItem(lead: string, f: string)
    requires GoodItem(f) && IsBlank(lead)
    ensures Item(lead + "\"" + f + "\"") == f
  {
    var q := "\"" + f + "\"";
    TrimBlankAround(lead, q, "");
    assert lead + q + "" == lead + "\"" + f + "\"";
    assert TrimStart(q) == q && TrimEnd(q) == q;
    assert q[1..] == f + "\"" && (f + "\"")[..|f|] == f;
    assert TrimQuotes(q) == TrimQuotes(f + "\"") == TrimQuotes(f) == f;
  }

  lemma ItemsCons(p: string, more: seq<string>)
    requires Item(p) != ""
    ensures Items([p] + more) == [Item(p)] + Items(more)
  {
    assert ([p] + more)[1..] == more;
  }

  lemma NoItem(lead: string)
    requires IsBlank(lead) && ',' !in lead
    ensures Items(Pieces(lead, ",")) == []
  {
    CharIn(lead, ',');
    TrimsToNothing(lead);
    assert [lead][1..] == [];
  }

  lemma OneItem(lead: string, f: string)
    requires GoodItem(f) && IsBlank(lead) && ',' !in lead
    ensures Items(Pieces(lead + ("\"" + f + "\""), ",")) == [f]
  {
    var s := lead + ("\"" + f + "\"");
    assert s == lead + "\"" + f + "\"";
    QuotedItem(lead, f);
    CharIn(s, ',');
    ItemsCons(s, []);
    assert [s] + [] == [s];
  }

  lemma MoreItems(lead: string, f: string, more: string)
    requires GoodItem(f) && IsBlank(lead) && ',' !in lead
    ensures Items(Pieces(lead + ("\"" + f + "\"" + ", " + more), ",")) == [f] + Items(Pieces(" " + more, ","))
  {
    var head := lead + "\"" + f + "\"";
    QuotedItem(lead, f);
    QuotedCons(lead, f, more, head, lead + ("\"" + f + "\"" + ", " + more));
    ItemsCons(head, Pieces(" " + more, ","));
  }

  lemma {:induction false} QuotedItems(lead: string, files: seq<string>)
    requires (forall f :: f in files ==> GoodItem(f)) && IsBlank(lead) && ',' !in lead && ']' !in lead
    ensures Items(Pieces(lead + Quoted(files), ",")) == files
    decreases |files|
  {
    if files == [] {
      NoItem(lead);
      assert lead + "" == lead;
    } else {
      assert files == [files[0]] + files[1..] && files[0] in files;
      if |files| == 1 {
        OneItem(lead, files[0]);
      } else {
        QuotedItems(" ", files[1..]);
        MoreItems(lead, files[0], Quoted(files[1..]));
      }
    }
  }

  lemma {:induction false} QuotedStaysOpen(files: seq<string>)
    requires forall f :: f in files ==> GoodItem(f)
    ensures ']' !in Quoted(files)
    decreases |files|
  {
    if files != [] {
      assert files[0] in files;
      if |files| > 1 { QuotedStaysOpen(files[1..]); }
    }
  }

  lemma QuotedCons(lead: string, f: string, more: string, head: string, s: string)
    requires ',' !in lead && ',' !in f && head == lead + "\"" + f + "\"" && s == lead + ("\"" + f + "\"" + ", " + more)
    ensures Pieces(s, ",") == [head] + Pieces(" " + more, ",") && s == head + "," + (" " + more)
  {
    assert s == head + "," + (" " + more);
    CharIn(head, ',');
    assert head + ","[..0] == head;
    PiecesAt(head, ",", " " + more, s);
  }

  /** A list written in the usual way reads back exactly when its items are not empty, have no comma and no bracket
      that closes it, and neither begin nor end with a quote; provided that its name does not occur before. */
  lemma ListIff(before: string, name: string, files: seq<string>, rest: string)
    requires !Contains(before + Needle(name)[..|name| + 1], Needle(name))
    ensures List(before + Needle(name) + (": [" + Quoted(files) + "]" + rest), name) == files
            <==> forall f :: f in files ==> GoodItem(f)
  {
    var inner := Quoted(files) + "]" + rest;
    var tail := ": [" + Quoted(files) + "]" + rest;
    ListIsGood(before + Needle(name) + tail, name);
    if forall f :: f in files ==> GoodItem(f) {
      assert tail == ": " + "[" + inner;
      BeyondFirst(before, Needle(name), tail);
      BeyondChar(": ", '[', inner);
      ListEnds(files, rest);
    }
  }

  lemma ListEnds(files: seq<string>, rest: string)
    requires forall f :: f in files ==> GoodItem(f)
    ensures var inner := Quoted(files) + "]" + rest;
            Find(inner, "]") == Some(|Quoted(files)|) && Items(Pieces(inner[..|Quoted(files)|], ",")) == files
  {
    QuotedItems("", files);
    QuotedStaysOpen(files);
    assert "" + Quoted(files) == Quoted(files);
    FirstChar(Quoted(files), ']', rest);
    assert (Quoted(files) + "]" + rest)[..|Quoted(files)|] == Quoted(files);
  }
}
