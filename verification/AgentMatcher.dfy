/** The agent's own, older edit matcher, and how the shared `fuzzy_replace` covers it. */
module AgentMatcher {
  import opened Wrappers
  import opened Text
  import opened FuzzyEdit
  import opened Splitting

  function TrimAll(lines: seq<string>): seq<string>
  {
    seq(|lines|, i requires 0 <= i < |lines| => Trim(lines[i]))
  }

  /** OLD's lines, trimmed, sit at line `i`. */
  predicate TrimWindowAt(lines: seq<string>, olds: seq<string>, i: nat)
  {
    i + |olds| <= |lines| && forall j :: 0 <= j < |olds| ==> Trim(lines[i + j]) == olds[j]
  }

  function FirstTrimWindow(lines: seq<string>, olds: seq<string>, i: nat): (r: Option<nat>)
    ensures r.Some? ==> i <= r.value && TrimWindowAt(lines, olds, r.value)
    ensures r.Some? ==> forall j :: i <= j < r.value ==> !TrimWindowAt(lines, olds, j)
    ensures r.None? ==> forall j :: i <= j ==> !TrimWindowAt(lines, olds, j)
    decreases if i <= |lines| then |lines| - i + 1 else 0
  {
    if i + |olds| > |lines| then None
    else if TrimWindowAt(lines, olds, i) then Some(i)
    else FirstTrimWindow(lines, olds, i + 1)
  }

  /** `replacen(pat, rep, 1)` where the pattern occurs. */
  function ReplaceFirst(s: string, pat: string, rep: string): string
    requires Find(s, pat).Some?
  {
    var i := Find(s, pat).value;
    s[..i] + rep + s[i + |pat|..]
  }

  /** What the agent writes back; `None` when it skips the edit with a warning. */
  function AgentEdit(content: string, oldText: string, newText: string): Option<string>
  {
    var c, o, n := Normalize(content), Trim(Normalize(oldText)), Trim(Normalize(newText));
    if Find(c, o).Some? then Some(ReplaceFirst(c, o, n))
    else
      var lines, olds := Lines(c), TrimAll(Lines(o));
      match FirstTrimWindow(lines, olds, 0)
      case None => None
      case Some(i) => Some(Join(lines[..i] + Lines(n) + lines[i + |olds|..], "\n"))
  }

  lemma WindowStarts(lines: seq<string>, olds: seq<string>, i: nat)
    requires olds != [] && i < |lines|
    ensures TrimWindowAt(lines, olds, i) ==> Trim(lines[i]) == olds[0]
  {
    assert lines[i + 0] == lines[i];
  }

  /** The nested search loops of the line fallback. */
  method SearchWindow(lines: seq<string>, olds: seq<string>) returns (found: bool, startLine: nat)
    requires olds != []
    ensures found ==> FirstTrimWindow(lines, olds, 0) == Some(startLine)
    ensures !found ==> FirstTrimWindow(lines, olds, 0) == None
  {
    found, startLine := false, 0;
    for i := 0 to |lines|
      invariant !found && forall k :: 0 <= k < i ==> !TrimWindowAt(lines, olds, k)
    {
      if Trim(lines[i]) == olds[0] {
        var allMatch := true;
        for j := 0 to |olds|
          invariant allMatch && i + j <= |lines| && forall k :: 0 <= k < j ==> Trim(lines[i + k]) == olds[k]
        {
          if i + j >= |lines| || Trim(lines[i + j]) != olds[j] {
            allMatch := false;
            break;
          }
        }
        if allMatch {
          assert TrimWindowAt(lines, olds, i);
          startLine := i;
          found := true;
          break;
        }
      }
      WindowStarts(lines, olds, i);
    }
  }

  method ApplyEdit(content: string, oldText: string, newText: string) returns (updated: Option<string>)
    ensures updated == AgentEdit(content, oldText, newText)
  {
    var c, o, n := Normalize(content), Trim(Normalize(oldText)), Trim(Normalize(newText));
    if Find(c, o).Some? { return Some(ReplaceFirst(c, o, n)); }
    var lines := Lines(c);
    var olds := TrimAll(Lines(o));
    LinesOfText(o);
    assert olds != [] by { assert Find(c, "") == Some(0) by { assert OccursAt(c, "", 0); FindIsFirst(c, "", 0); } }
    var found, start := SearchWindow(lines, olds);
    if !found { return None; }
    return Some(Join(lines[..start] + Lines(n) + lines[start + |olds|..], "\n"));
  }

  // ------------------------------------------------------------------ covered by fuzzy_replace

  /** Lines that match after trimming match after collapsing. */
  lemma TrimWindowIsWindow(lines: seq<string>, olds: seq<string>, i: nat)
    requires TrimWindowAt(lines, TrimAll(olds), i)
    ensures WindowAt(lines, CollapseAll(olds), i)
  {
    forall j | 0 <= j < |olds| ensures Collapse(lines[i + j]) == CollapseAll(olds)[j] {
      assert Trim(lines[i + j]) == TrimAll(olds)[j];
      CollapseOfTrim(lines[i + j]);
      CollapseOfTrim(olds[j]);
    }
  }

  /** For an OLD block that is not blank, the shared matcher succeeds wherever the agent's own would apply the
      edit, and when both fall back to lines its window starts no later. */
  lemma FuzzyCoversAgent(content: string, oldText: string, newText: string)
    requires Trim(Normalize(oldText)) != ""
    ensures AgentEdit(content, oldText, newText).Some? ==> FuzzyReplace(content, oldText, newText).Some?
    ensures var c, o := Normalize(content), Trim(Normalize(oldText));
            Find(c, o).None? && AgentEdit(content, oldText, newText).Some? ==>
              var a := FirstTrimWindow(Lines(c), TrimAll(Lines(o)), 0).value;
              exists i: nat :: i <= a && FirstWindow(Lines(c), CollapseAll(Lines(o)), i)
  {
    var c, o := Normalize(content), Trim(Normalize(oldText));
    if Find(c, o).None? && AgentEdit(content, oldText, newText).Some? {
      var a := FirstTrimWindow(Lines(c), TrimAll(Lines(o)), 0).value;
      TrimWindowIsWindow(Lines(c), Lines(o), a);
      var i := LineTiers(content, oldText, newText, Lines(c), CollapseAll(Lines(o)), Lines(Trim(Normalize(newText))));
      assert i <= a && FirstWindow(Lines(c), CollapseAll(Lines(o)), i);
    }
  }

  /** With a blank OLD block the two part ways: the agent puts NEW in front of the file, `fuzzy_replace`
      refuses. So "the agent applies it" implies "the shared matcher does" exactly for a non-blank OLD. */
  lemma CoverIff(oldText: string)
    ensures (forall content, newText ::
               AgentEdit(content, oldText, newText).Some? ==> FuzzyReplace(content, oldText, newText).Some?)
            <==> Trim(Normalize(oldText)) != ""
  {
    if Trim(Normalize(oldText)) != "" {
      forall content, newText
        ensures AgentEdit(content, oldText, newText).Some? ==> FuzzyReplace(content, oldText, newText).Some?
      {
        FuzzyCoversAgent(content, oldText, newText);
      }
    } else {
      BlankOldPrepends("", oldText, "");
      assert AgentEdit("", oldText, "").Some? && FuzzyReplace("", oldText, "").None?;
    }
  }

  lemma BlankOldPrepends(content: string, oldText: string, newText: string)
    requires Trim(Normalize(oldText)) == ""
    ensures AgentEdit(content, oldText, newText) == Some(Trim(Normalize(newText)) + Normalize(content))
    ensures FuzzyReplace(content, oldText, newText) == None
  {
    var c := Normalize(content);
    assert OccursAt(c, "", 0);
    FindIsFirst(c, "", 0);
    assert c[..0] + Trim(Normalize(newText)) + c[0 + 0..] == Trim(Normalize(newText)) + c;
  }

  /** Where OLD occurs exactly once, both write the same text. */
  lemma SameOnSingleOccurrence(content: string, oldText: string, newText: string)
    requires var c, o := Normalize(content), Trim(Normalize(oldText)); o != "" && |Pieces(c, o)| == 2
    ensures AgentEdit(content, oldText, newText) == FuzzyReplace(content, oldText, newText)
  {
    var c, o := Normalize(content), Trim(Normalize(oldText));
    var i := Find(c, o).value;
    var rest := c[i + |o|..];
    assert |Pieces(rest, o)| == 1;
    assert ReplaceAll(rest, o, Trim(Normalize(newText))) == rest;
  }
}
