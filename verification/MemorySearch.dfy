/** Search over the dense index: over-fetch from the ranking of the whole index, filter, cut. */
module MemorySearch {
  import opened MemoryIndex

  const OVERFETCH := 8
  const MIN_SIMILARITY := 0.5

  datatype Hit = Hit(id: string, at: RowKey, content: string, similarity: real)
  {
    predicate Matches(namespaces: seq<string>, project: string)
    {
      at.scope.project == project && at.scope.ns in namespaces
    }
  }

  function Pool(k: nat): nat { if k * OVERFETCH > k then k * OVERFETCH else k }

  function Take<T>(s: seq<T>, n: nat): seq<T> { if n < |s| then s[..n] else s }

  function Matched(h: Hit, namespaces: seq<string>, project: string): seq<Hit>
  {
    if h.Matches(namespaces, project) then [h] else []
  }

  function Matching(hits: seq<Hit>, namespaces: seq<string>, project: string): seq<Hit>
  {
    if hits == [] then [] else Matched(hits[0], namespaces, project) + Matching(hits[1..], namespaces, project)
  }

  /** `ranking` is the dense index's answer to the query when everything is asked for. */
  function Search(ranking: seq<Hit>, namespaces: seq<string>, project: string, k: nat): seq<Hit>
  {
    Take(Matching(Take(ranking, Pool(k)), namespaces, project), k)
  }

  function Similar(hits: seq<Hit>): seq<Hit>
  {
    if hits == [] then []
    else (if hits[0].similarity < MIN_SIMILARITY then [] else [hits[0]]) + Similar(hits[1..])
  }

  // ------------------------------------------------------------------ against the brute-force ranking

  lemma Associative(a: seq<Hit>, b: seq<Hit>, c: seq<Hit>)
    ensures a + (b + c) == a + b + c
  {
  }

  lemma {:induction false} MatchingConcat(a: seq<Hit>, b: seq<Hit>, namespaces: seq<string>, project: string)
    ensures Matching(a + b, namespaces, project) == Matching(a, namespaces, project) + Matching(b, namespaces, project)
    decreases |a|
  {
    if a == [] {
      assert a + b == b;
    } else {
      assert (a + b)[1..] == a[1..] + b;
      MatchingConcat(a[1..], b, namespaces, project);
      Associative(Matched(a[0], namespaces, project), Matching(a[1..], namespaces, project),
                  Matching(b, namespaces, project));
    }
  }

  /** What is found is always the front of the brute-force ranking of the matching rows, and all of its first `k`
      exactly when the over-fetched pool holds as many matches as there are to find. */
  lemma SearchAgainstBruteForce(ranking: seq<Hit>, namespaces: seq<string>, project: string, k: nat)
    ensures var found, brute := Search(ranking, namespaces, project, k), Matching(ranking, namespaces, project);
            && found <= brute
            && (found == Take(brute, k)
                <==> |Matching(Take(ranking, Pool(k)), namespaces, project)| >= |Take(brute, k)|)
            && (|ranking| <= Pool(k) ==> found == Take(brute, k))
  {
    var pool := Take(ranking, Pool(k));
    assert ranking == pool + ranking[|pool|..];
    MatchingConcat(pool, ranking[|pool|..], namespaces, project);
  }

  /** The pool can be too small even though matches exist: eight better-ranked rows of another project hide the
      only one asked for. */
  lemma PoolTooSmall() returns (ranking: seq<Hit>)
    ensures Search(ranking, ["n"], "p", 1) == [] && |Matching(ranking, ["n"], "p")| == 1
  {
    var other := Hit("n:q:", RowKey(Scope("n", "q"), ""), "", 1.0);
    var mine := Hit("n:p:", RowKey(Scope("n", "p"), ""), "", 1.0);
    var others := [other, other, other, other, other, other, other, other];
    ranking := others + [mine];
    NoMatch(others, ["n"], "p");
    MatchingConcat(others, [mine], ["n"], "p");
    assert [mine][1..] == [];
    assert ranking[..8] == others;
  }

  lemma {:induction false} NoMatch(hits: seq<Hit>, namespaces: seq<string>, project: string)
    requires forall h :: h in hits ==> !h.Matches(namespaces, project)
    ensures Matching(hits, namespaces, project) == []
    decreases |hits|
  {
    if hits != [] {
      assert hits[0] in hits;
      NoMatch(hits[1..], namespaces, project);
    }
  }

  // ------------------------------------------------------------------ against the table

  /** A list of every dense entry once, the most similar first. `similarity` is how close a vector is to the query. */
  ghost predicate Ranks(ranking: seq<Hit>, dense: map<string, Entry>, similarity: seq<real> -> real)
  {
    && (forall i :: 0 <= i < |ranking| ==>
          ranking[i].id in dense && ranking[i] == HitOf(ranking[i].id, dense[ranking[i].id], similarity))
    && (forall id :: id in dense ==> HitOf(id, dense[id], similarity) in ranking)
    && (forall i, j :: 0 <= i < j < |ranking| ==> ranking[i].id != ranking[j].id)
    && Descending(ranking)
  }

  function HitOf(id: string, e: Entry, similarity: seq<real> -> real): Hit
  {
    Hit(id, e.at, e.content, similarity(e.embedding))
  }

  ghost predicate Descending(hits: seq<Hit>)
  {
    forall i, j :: 0 <= i < j < |hits| ==> hits[i].similarity >= hits[j].similarity
  }

  lemma {:induction false} MatchingMembers(hits: seq<Hit>, namespaces: seq<string>, project: string)
    ensures forall h :: h in Matching(hits, namespaces, project) <==> h in hits && h.Matches(namespaces, project)
    decreases |hits|
  {
    if hits != [] {
      assert hits == [hits[0]] + hits[1..];
      MatchingMembers(hits[1..], namespaces, project);
    }
  }

  lemma {:induction false} MatchingDescends(hits: seq<Hit>, namespaces: seq<string>, project: string)
    requires Descending(hits)
    ensures Descending(Matching(hits, namespaces, project))
    decreases |hits|
  {
    if hits != [] {
      var rest := Matching(hits[1..], namespaces, project);
      MatchingDescends(hits[1..], namespaces, project);
      MatchingMembers(hits[1..], namespaces, project);
      forall i | 0 <= i < |rest| ensures hits[0].similarity >= rest[i].similarity {
        assert rest[i] in hits[1..];
      }
    }
  }

  lemma {:induction false} NoneSimilar(hits: seq<Hit>)
    requires forall h :: h in hits ==> h.similarity < MIN_SIMILARITY
    ensures Similar(hits) == []
    decreases |hits|
  {
    if hits != [] {
      assert hits[0] in hits;
      NoneSimilar(hits[1..]);
    }
  }

  /** In a ranking, dropping the dissimilar hits cuts the tail off. */
  lemma {:induction false} SimilarCuts(hits: seq<Hit>)
    requires Descending(hits)
    ensures Similar(hits) <= hits
    ensures forall h :: h in Similar(hits) <==> h in hits && h.similarity >= MIN_SIMILARITY
    decreases |hits|
  {
    if hits != [] {
      assert hits == [hits[0]] + hits[1..];
      SimilarCuts(hits[1..]);
      if hits[0].similarity < MIN_SIMILARITY {
        forall h | h in hits[1..] ensures h.similarity < MIN_SIMILARITY {
          var i :| 0 <= i < |hits[1..]| && hits[1..][i] == h;
          assert hits[i + 1] == h;
        }
        NoneSimilar(hits[1..]);
      }
    }
  }

  function Answer(ranking: seq<Hit>, namespaces: seq<string>, project: string, k: nat): seq<Hit>
  {
    Similar(Search(ranking, namespaces, project, k))
  }

  /** Whatever insertions were refused, an answer only shows rows of the table with their present content, and
      entries left by interrupted decays; all in scope and similar enough. */
  lemma AnswersAreRows(s: State, known: set<RowKey>, left: set<RowKey>, haunts: set<RowKey>,
                       similarity: seq<real> -> real,
                       ranking: seq<Hit>, namespaces: seq<string>, project: string, k: nat, h: Hit)
    requires Mirrors(s, known, left, haunts) && Ranks(ranking, s.dense, similarity)
    requires h in Answer(ranking, namespaces, project, k)
    ensures h.at in known + left && h.id == RvId(h.at)
    ensures h.Matches(namespaces, project) && h.similarity >= MIN_SIMILARITY
    ensures h.at in known ==>
              h.content == s.table[h.at].content && h.similarity == similarity(s.table[h.at].embedding)
  {
    AnswerIsRanked(ranking, namespaces, project, k, h);
    FiledUnder(s, known, left, haunts, h.id);
  }

  lemma AnswerIsRanked(ranking: seq<Hit>, namespaces: seq<string>, project: string, k: nat, h: Hit)
    requires Descending(ranking) && h in Answer(ranking, namespaces, project, k)
    ensures h in ranking && h.Matches(namespaces, project) && h.similarity >= MIN_SIMILARITY
  {
    var brute, found := Matching(ranking, namespaces, project), Search(ranking, namespaces, project, k);
    SearchAgainstBruteForce(ranking, namespaces, project, k);
    MatchingMembers(ranking, namespaces, project);
    MatchingDescends(ranking, namespaces, project);
    assert forall i :: 0 <= i < |found| ==> found[i] == brute[i];
    SimilarCuts(found);
    assert h in brute;
  }

  lemma FiledUnder(s: State, known: set<RowKey>, left: set<RowKey>, haunts: set<RowKey>, id: string)
    requires Mirrors(s, known, left, haunts) && id in s.dense
    ensures var at := s.dense[id].at;
            at in known + left && id == RvId(at) && (at in known ==> s.dense[id] == EntryOf(at, s.table[at]))
  {
    var at :| at in known + left && RvId(at) == id;
    if at in known { assert Current(s, at); } else { assert Marked(s, at); }
  }

  lemma MissedOnlyForBetter(ranking: seq<Hit>, namespaces: seq<string>, project: string, k: nat, h: Hit)
    requires Descending(ranking) && |ranking| <= Pool(k)
    requires h in ranking && h.Matches(namespaces, project) && h.similarity >= MIN_SIMILARITY
    ensures var hits := Answer(ranking, namespaces, project, k);
            h in hits || (|hits| == k && forall i :: 0 <= i < k ==> hits[i].similarity >= h.similarity)
  {
    var brute, found := Matching(ranking, namespaces, project), Search(ranking, namespaces, project, k);
    SearchAgainstBruteForce(ranking, namespaces, project, k);
    MatchingMembers(ranking, namespaces, project);
    MatchingDescends(ranking, namespaces, project);
    var i :| 0 <= i < |brute| && brute[i] == h;
    assert forall j :: 0 <= j < |found| ==> found[j] == brute[j];
    if i < |found| {
      SimilarCuts(found);
      assert found[i] == h;
    } else {
      AllSimilar(found);
    }
  }

  /** With coherent indexes no larger than the pool, a similar enough row in scope is missing from the answer only
      if `k` rows at least as similar are in it. */
  lemma AnswersAreComplete(s: State, similarity: seq<real> -> real, ranking: seq<Hit>,
                           namespaces: seq<string>, project: string, k: nat, at: RowKey)
    requires Coherent(s) && Ranks(ranking, s.dense, similarity) && |ranking| <= Pool(k)
    requires at in s.table && at.scope.project == project && at.scope.ns in namespaces
    requires similarity(s.table[at].embedding) >= MIN_SIMILARITY
    ensures var hits, close := Answer(ranking, namespaces, project, k), similarity(s.table[at].embedding);
            || Hit(RvId(at), at, s.table[at].content, close) in hits
            || (|hits| == k && forall i :: 0 <= i < k ==> hits[i].similarity >= close)
  {
    assert Current(s, at);
    var h := HitOf(RvId(at), s.dense[RvId(at)], similarity);
    MissedOnlyForBetter(ranking, namespaces, project, k, h);
  }

  lemma {:induction false} AllSimilar(hits: seq<Hit>)
    requires forall j :: 0 <= j < |hits| ==> hits[j].similarity >= MIN_SIMILARITY
    ensures Similar(hits) == hits
    decreases |hits|
  {
    if hits != [] { AllSimilar(hits[1..]); }
  }
}
