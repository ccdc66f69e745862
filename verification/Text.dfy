/** The string operations the edit pipeline and the memory files are written in: first occurrence, replace,
    trim, lines and whitespace collapse, with the meaning Rust's `str` gives them. */
module Text {
  import opened Wrappers

  // ------------------------------------------------------------------ occurrences

  predicate OccursAt(s: string, p: string, i: int)
  {
    0 <= i && i + |p| <= |s| && s[i..i + |p|] == p
  }

  ghost predicate Contains(s: string, p: string) { exists i :: OccursAt(s, p, i) }

  function FindFrom(s: string, p: string, i: nat): (r: Option<nat>)
    ensures r.Some? ==> i <= r.value && OccursAt(s, p, r.value) && forall j :: i <= j < r.value ==> !OccursAt(s, p, j)
    ensures r.None? ==> forall j :: i <= j ==> !OccursAt(s, p, j)
    decreases if i <= |s| then |s| - i + 1 else 0
  {
    if i + |p| > |s| then None else if OccursAt(s, p, i) then Some(i) else FindFrom(s, p, i + 1)
  }

  /** `str::find`: the first occurrence. */
  function Find(s: string, p: string): (r: Option<nat>)
    ensures r.Some? ==> OccursAt(s, p, r.value) && forall j :: 0 <= j < r.value ==> !OccursAt(s, p, j)
    ensures r.None? <==> !Contains(s, p)
  {
    FindFrom(s, p, 0)
  }

  predicate HasPrefix(s: string, p: string) { p <= s }

  lemma FindIsFirst(s: string, p: string, i: nat)
    requires OccursAt(s, p, i) && forall j :: 0 <= j < i ==> !OccursAt(s, p, j)
    ensures Find(s, p) == Some(i)
  {
    assert Contains(s, p);
  }

  /** A marker that follows `a` is the first one exactly when `a` cannot complete an earlier one with it. */
  lemma FindAfter(a: string, p: string, b: string)
    requires p != []
    ensures Find(a + p + b, p) == Some(|a|) <==> !Contains(a + p[..|p| - 1], p)
  {
    var s, t := a + p + b, a + p[..|p| - 1];
    assert OccursAt(s, p, |a|);
    forall i | 0 <= i < |a| ensures OccursAt(s, p, i) <==> OccursAt(t, p, i) {
      assert s[i..i + |p|] == t[i..i + |p|];
    }
    if !Contains(t, p) { FindIsFirst(s, p, |a|); }
    if i :| OccursAt(t, p, i) { assert i < |a|; }
  }

  lemma SliceOfSlice(s: string, i: nat, j: nat, k: nat, l: nat)
    requires i <= j <= |s| && k <= l <= j - i
    ensures s[i..j][k..l] == s[i + k..i + l]
  {
    forall x | 0 <= x < l - k ensures s[i..j][k..l][x] == s[i + k..i + l][x] {
      assert s[i..j][k + x] == s[i + k + x];
    }
  }

  lemma OccurrenceCovers(s: string, p: string, i: nat, k: nat)
    requires OccursAt(s, p, i) && i <= k < i + |p|
    ensures s[k] in p
  {
    assert s[i..i + |p|][k - i] == p[k - i];
  }

  /** An occurrence of `p` does not straddle a character `p` does not have. */
  lemma NoStraddle(a: string, c: char, b: string, p: string)
    requires c !in p
    ensures Contains(a + [c] + b, p) <==> Contains(a, p) || Contains(b, p)
  {
    if Contains(a + [c] + b, p) { OnOneSide(a, c, b, p); }
    if Contains(a, p) || Contains(b, p) { InTheWhole(a, c, b, p); }
  }

  lemma InTheWhole(a: string, c: char, b: string, p: string)
    requires Contains(a, p) || Contains(b, p)
    ensures Contains(a + [c] + b, p)
  {
    var s := a + [c] + b;
    if i :| OccursAt(a, p, i) {
      assert s[i..i + |p|] == a[i..i + |p|];
      assert OccursAt(s, p, i);
    } else {
      var i :| OccursAt(b, p, i);
      assert s[|a| + 1..] == b;
      SliceOfSlice(s, |a| + 1, |s|, i, i + |p|);
      assert OccursAt(s, p, i + |a| + 1);
    }
  }

  lemma OnOneSide(a: string, c: char, b: string, p: string)
    requires c !in p && Contains(a + [c] + b, p)
    ensures Contains(a, p) || Contains(b, p)
  {
    var s := a + [c] + b;
    var i :| OccursAt(s, p, i);
    if i + |p| <= |a| {
      assert a[i..i + |p|] == s[i..i + |p|];
      assert OccursAt(a, p, i);
    } else if i > |a| {
      var k := i - |a| - 1;
      assert s[|a| + 1..|s|] == b;
      SliceOfSlice(s, |a| + 1, |s|, k, k + |p|);
      assert OccursAt(b, p, k);
    } else {
      OccurrenceCovers(s, p, i, |a|);
    }
  }

  lemma ContainsSlice(s: string, p: string, i: nat, j: nat)
    requires i <= j <= |s| && Contains(s[i..j], p)
    ensures Contains(s, p)
  {
    var k :| OccursAt(s[i..j], p, k);
    SliceOfSlice(s, i, j, k, k + |p|);
    assert OccursAt(s, p, i + k);
  }

  lemma ContainsConcat(a: string, b: string, p: string)
    requires Contains(a, p) || Contains(b, p)
    ensures Contains(a + b, p)
  {
    assert (a + b)[0..|a|] == a && (a + b)[|a|..|a| + |b|] == b;
    if Contains(a, p) { ContainsSlice(a + b, p, 0, |a|); } else { ContainsSlice(a + b, p, |a|, |a + b|); }
  }

  // ------------------------------------------------------------------ replace

  /** `str::replace` for a non-empty pattern: every leftmost, non-overlapping occurrence. */
  function ReplaceAll(s: string, pat: string, rep: string): string
    requires pat != ""
    decreases |s|
  {
    match Find(s, pat)
    case None => s
    case Some(i) => s[..i] + rep + ReplaceAll(s[i + |pat|..], pat, rep)
  }

  /** `replace("\r\n", "\n")` */
  function Normalize(s: string): string { ReplaceAll(s, "\r\n", "\n") }

  // ------------------------------------------------------------------ trim

  /** Unicode White_Space, which `char::is_whitespace` tests. */
  predicate IsSpace(c: char)
  {
    var n := c as int;
    9 <= n <= 13 || n == 0x20 || n == 0x85 || n == 0xA0 || n == 0x1680 || 0x2000 <= n <= 0x200A ||
    n == 0x2028 || n == 0x2029 || n == 0x202F || n == 0x205F || n == 0x3000
  }

  predicate IsBlank(s: string) { forall i :: 0 <= i < |s| ==> IsSpace(s[i]) }

  function TrimStart(s: string): string
  {
    if s != "" && IsSpace(s[0]) then TrimStart(s[1..]) else s
  }

  function TrimEnd(s: string): string
  {
    if s != "" && IsSpace(s[|s| - 1]) then TrimEnd(s[..|s| - 1]) else s
  }

  function Trim(s: string): string { TrimEnd(TrimStart(s)) }

  predicate StartsSolid(s: string) { s != "" && !IsSpace(s[0]) }
  predicate EndsSolid(s: string) { s != "" && !IsSpace(s[|s| - 1]) }
  predicate Trimmed(s: string) { s == "" || (StartsSolid(s) && EndsSolid(s)) }

  lemma {:induction false} TrimStartShape(s: string) returns (i: nat)
    ensures i <= |s| && TrimStart(s) == s[i..] && IsBlank(s[..i])
    ensures i < |s| ==> !IsSpace(s[i])
  {
    if s != "" && IsSpace(s[0]) {
      i := TrimStartShape(s[1..]);
      assert s[1..][i..] == s[i + 1..];
      assert s[..i + 1] == [s[0]] + s[1..][..i];
      i := i + 1;
    } else {
      i := 0;
    }
  }

  lemma {:induction false} TrimEndShape(s: string) returns (j: nat)
    ensures j <= |s| && TrimEnd(s) == s[..j] && IsBlank(s[j..])
    ensures 0 < j ==> !IsSpace(s[j - 1])
  {
    if s != "" && IsSpace(s[|s| - 1]) {
      var t := s[..|s| - 1];
      j := TrimEndShape(t);
      assert t[..j] == s[..j];
      assert s[j..] == t[j..] + [s[|s| - 1]];
    } else {
      j := |s|;
      assert s[..j] == s;
    }
  }

  lemma {:induction false} TrimEndConcat(a: string, b: string)
    ensures TrimEnd(a + b) == if IsBlank(b) then TrimEnd(a) else a + TrimEnd(b)
  {
    if b == "" {
      assert a + b == a;
    } else {
      var last := |b| - 1;
      if IsSpace(b[last]) {
        TrimEndConcat(a, b[..last]);
        assert (a + b)[..|a + b| - 1] == a + b[..last];
        assert b == b[..last] + [b[last]];
      }
    }
  }

  lemma {:induction false} TrimStartConcat(a: string, b: string)
    ensures TrimStart(a + b) == if IsBlank(a) then TrimStart(b) else TrimStart(a) + b
  {
    if a == "" {
      assert a + b == b;
    } else if IsSpace(a[0]) {
      TrimStartConcat(a[1..], b);
      assert (a + b)[1..] == a[1..] + b;
      assert a == [a[0]] + a[1..];
    }
  }

  lemma TrimsToNothing(s: string)
    ensures TrimStart(s) == "" <==> IsBlank(s)
    ensures TrimEnd(s) == "" <==> IsBlank(s)
  {
    var i := TrimStartShape(s);
    var j := TrimEndShape(s);
    assert s[..|s|] == s && s[0..] == s;
  }

  /** Trimming what starts with a solid character only takes from the end. */
  lemma TrimSolidStart(a: string, b: string)
    requires StartsSolid(a)
    ensures Trim(a + b) == if IsBlank(b) then TrimEnd(a) else a + TrimEnd(b)
  {
    TrimStartConcat(a, b);
    TrimEndConcat(a, b);
  }

  lemma TrimOfTrimmed(s: string)
    ensures Trimmed(s) <==> Trim(s) == s
  {
    var _, _ := TrimShape(s);
  }

  lemma TrimBlankAround(a: string, s: string, b: string)
    requires IsBlank(a) && IsBlank(b)
    ensures Trim(a + s + b) == Trim(s)
  {
    assert a + s + b == a + (s + b);
    TrimStartConcat(a, s + b);
    TrimStartConcat(s, b);
    TrimEndConcat(TrimStart(s), b);
    TrimsToNothing(b);
    TrimsToNothing(s);
  }

  /** Trim takes a blank front and a blank end off, and nothing else. */
  lemma TrimShape(s: string) returns (i: nat, j: nat)
    ensures i <= j <= |s| && Trim(s) == s[i..j] && IsBlank(s[..i]) && IsBlank(s[j..])
    ensures Trimmed(Trim(s)) && (Trim(s) == "" <==> IsBlank(s))
  {
    i := TrimStartShape(s);
    j := TrimEndShape(s[i..]);
    TrimsToNothing(s);
    TrimsToNothing(s[i..]);
    assert s[i..][..j] == s[i..i + j] && s[i..][j..] == s[i + j..];
    j := i + j;
  }

  // ------------------------------------------------------------------ lines

  function StripCr(s: string): string
  {
    if s != "" && s[|s| - 1] == '\r' then s[..|s| - 1] else s
  }

  /** `str::lines`: a final newline opens no further line, and "\r\n" ends a line as "\n" does. */
  function Lines(s: string): seq<string>
    decreases |s|
  {
    if s == "" then []
    else
      match Find(s, "\n")
      case None => [s]
      case Some(i) => [StripCr(s[..i])] + Lines(s[i + 1..])
  }

  function Join(lines: seq<string>, sep: string): string
  {
    if lines == [] then "" else if |lines| == 1 then lines[0] else lines[0] + sep + Join(lines[1..], sep)
  }

  // ------------------------------------------------------------------ whitespace collapse

  /** Length of the leading run of non-space characters. */
  function WordLength(s: string): (n: nat)
    ensures n <= |s| && (forall i :: 0 <= i < n ==> !IsSpace(s[i])) && (n < |s| ==> IsSpace(s[n]))
  {
    if s == "" || IsSpace(s[0]) then 0 else 1 + WordLength(s[1..])
  }

  /** `str::split_whitespace` */
  function Words(s: string): seq<string>
    decreases |s|
  {
    if s == "" then []
    else if IsSpace(s[0]) then Words(s[1..])
    else [s[..WordLength(s)]] + Words(s[WordLength(s)..])
  }

  function Collapse(line: string): string { Join(Words(line), " ") }

  lemma {:induction false} WordsTrimStart(s: string)
    ensures Words(TrimStart(s)) == Words(s)
  {
    if s != "" && IsSpace(s[0]) { WordsTrimStart(s[1..]); }
  }

  lemma {:induction false} WordLengthConcat(a: string, c: char)
    requires IsSpace(c)
    ensures WordLength(a + [c]) == WordLength(a)
  {
    if a != "" && !IsSpace(a[0]) {
      WordLengthConcat(a[1..], c);
      assert (a + [c])[1..] == a[1..] + [c];
    }
  }

  lemma {:induction false} WordsDropLastSpace(a: string, c: char)
    requires IsSpace(c)
    ensures Words(a + [c]) == Words(a)
    decreases |a|
  {
    var s := a + [c];
    if a == "" {
      assert s[1..] == "";
    } else if IsSpace(a[0]) {
      assert s[1..] == a[1..] + [c];
      WordsDropLastSpace(a[1..], c);
    } else {
      WordLengthConcat(a, c);
      var n := WordLength(a);
      assert s[..n] == a[..n] && s[n..] == a[n..] + [c];
      WordsDropLastSpace(a[n..], c);
    }
  }

  lemma {:induction false} WordsTrimEnd(s: string)
    ensures Words(TrimEnd(s)) == Words(s)
  {
    if s != "" && IsSpace(s[|s| - 1]) {
      WordsTrimEnd(s[..|s| - 1]);
      WordsDropLastSpace(s[..|s| - 1], s[|s| - 1]);
      assert s == s[..|s| - 1] + [s[|s| - 1]];
    }
  }

  /** Collapsing forgets surrounding whitespace: lines equal after trimming are equal after collapsing. */
  lemma CollapseOfTrim(s: string)
    ensures Collapse(Trim(s)) == Collapse(s)
  {
    WordsTrimStart(s);
    WordsTrimEnd(TrimStart(s));
  }
}
