/** The memory store: the table and its index as they are updated, each method tied to the step functions of
    `MemoryIndex`. */
module MemoryStore {
  import opened Wrappers
  import opened MemoryIndex
  import opened MemorySearch

  class RvIndex {
    var dense: map<string, Entry>
    var sparse: map<string, string>

    constructor ()
      ensures dense == map[] && sparse == map[]
    {
      dense, sparse := map[], map[];
    }

    /** Replace by id. `taken` is whether the vector database accepts the entry; when it does not, the method ends
        before the sparse index. */
    method Insert(at: RowKey, content: string, vector: seq<real>, taken: bool) returns (ok: bool)
      modifies this
      ensures ok == taken
      ensures dense == if ok then old(dense)[RvId(at) := Entry(at, content, vector)] else old(dense) - {RvId(at)}
      ensures sparse == if ok then old(sparse)[RvId(at) := content] else old(sparse)
    {
      var id := RvId(at);
      dense := dense - {id};
      if !taken { return false; }
      dense := dense[id := Entry(at, content, vector)];
      sparse := sparse - {id};
      sparse := sparse[id := content];
      return true;
    }

    method Delete(id: string)
      modifies this
      ensures dense == old(dense) - {id} && sparse == old(sparse) - {id}
    {
      sparse := sparse - {id};
      dense := dense - {id};
    }
  }

  /** An entry as handed in: times may be empty, and an empty embedding is to be computed. */
  datatype NewEntry = NewEntry(at: RowKey, content: string, embedding: seq<real>, createdAt: string,
                               lastUsedAt: string, useCount: nat, ttl: Option<nat>)

  /** The row an entry becomes; `embedded` is the embedder's answer, if it gave one, and `now` the time as text. */
  function Prepared(e: NewEntry, embedded: Option<seq<real>>, now: string): Option<Row>
  {
    if e.embedding == [] && embedded.None? then None
    else
      var created := if e.createdAt == "" then now else e.createdAt;
      Some(Row(e.content, if e.embedding == [] then embedded.value else e.embedding, Text(created),
               Text(if e.lastUsedAt == "" then created else e.lastUsedAt), e.useCount, e.ttl))
  }

  // ------------------------------------------------------------------ how long a stored row lives

  predicate LittleUsed(at: RowKey, row: Row)
  {
    at.scope.ns != TRAJECTORIES && row.useCount < DECAY_MIN_USE_COUNT
  }

  /** A deletion that takes a row whose times are text, whatever they say. */
  predicate Prunes(op: Op, at: RowKey, row: Row)
  {
    match op
    case Decay(project, clock) =>
      project == at.scope.project && clock.textFirst && (row.ttl.Some? || LittleUsed(at, row))
    case Interrupted(project, clock) => project == at.scope.project && clock.textFirst && LittleUsed(at, row)
    case _ => false
  }

  predicate OfOthers(op: Op, at: RowKey)
  {
    (op.Store? ==> op.at != at) && (op.Touch? ==> op.at != at)
  }

  lemma UntouchedStep(s: State, op: Op, at: RowKey, row: Row)
    requires OfOthers(op, at) && row.createdAt.Text? && row.lastUsedAt.Text?
    requires at in s.table ==> s.table[at] == row
    ensures var t := Apply(s, op);
            && (at in t.table <==> at in s.table && !Prunes(op, at, row))
            && (at in t.table ==> t.table[at] == row)
  {
  }

  /** A stored row that is not used: after any history it is there exactly when no decay of its project went by a
      database that orders text first and found the row little used or with a lifetime. Its times do not matter. */
  lemma {:induction false} UntouchedRowIff(before: seq<Op>, at: RowKey, row: Row, ok: bool, later: seq<Op>)
    requires row.createdAt.Text? && row.lastUsedAt.Text? && forall op :: op in later ==> OfOthers(op, at)
    ensures var t := Run(before + [Op.Store(at, row, ok)] + later);
            && (at in t.table <==> forall op :: op in later ==> !Prunes(op, at, row))
            && (at in t.table ==> t.table[at] == row)
    decreases |later|
  {
    var h := before + [Op.Store(at, row, ok)];
    if later == [] {
      RunAppend(before, Op.Store(at, row, ok));
      assert h + [] == h;
    } else {
      var init, last := later[..|later| - 1], later[|later| - 1];
      UntouchedRowIff(before, at, row, ok, init);
      RunAppend(h + init, last);
      assert h + later == h + init + [last];
      UntouchedStep(Run(h + init), last, at, row);
      SparedByAll(init, last, later, at, row);
    }
  }

  lemma SparedByAll(init: seq<Op>, last: Op, all: seq<Op>, at: RowKey, row: Row)
    requires all == init + [last]
    ensures (forall op :: op in all ==> !Prunes(op, at, row))
            <==> (forall op :: op in init ==> !Prunes(op, at, row)) && !Prunes(last, at, row)
  {
    assert last in all;
    forall op | op in init ensures op in all {}
  }

  /** Operations after a store at time `start`, other than a new store under the same key: uses, and decays within the
      stale period. */
  predicate Within(op: Op, at: RowKey, start: int, textFirst: bool)
  {
    match op
    case Store(k, _, _) => k != at
    case Touch(_, now) => start <= now
    case Decay(_, clock) => clock.now <= start + DECAY_STALE_SECS && clock.textFirst == textFirst
    case Interrupted(_, clock) => clock.now <= start + DECAY_STALE_SECS && clock.textFirst == textFirst
  }

  /** The row is there with its content, and no use of it was forgotten. */
  ghost predicate StillThere(s: State, at: RowKey, row: Row, start: int)
  {
    && at in s.table && s.table[at].content == row.content && s.table[at].createdAt == row.createdAt
    && s.table[at].ttl == row.ttl && s.table[at].useCount >= row.useCount
    && (s.table[at].lastUsedAt.Stamp? ==> s.table[at].lastUsedAt.at >= start)
  }

  ghost predicate AlwaysSurvives(at: RowKey, row: Row, start: int, textFirst: bool)
  {
    forall before, later, ok :: (forall op :: op in later ==> Within(op, at, start, textFirst)) ==>
      StillThere(Run(before + [Op.Store(at, row, ok)] + later), at, row, start)
  }

  lemma SurvivingStep(s: State, op: Op, at: RowKey, row: Row, start: int, textFirst: bool)
    requires StillThere(s, at, row, start) && Within(op, at, start, textFirst) && row.createdAt.Text?
    requires !textFirst || (row.ttl.None? && !LittleUsed(at, row))
    ensures StillThere(Apply(s, op), at, row, start)
  {
  }

  lemma {:induction false} Survives(before: seq<Op>, at: RowKey, row: Row, ok: bool, later: seq<Op>, start: int,
                                   textFirst: bool)
    requires row.createdAt.Text? && row.lastUsedAt.Text?
    requires forall op :: op in later ==> Within(op, at, start, textFirst)
    requires !textFirst || (row.ttl.None? && !LittleUsed(at, row))
    ensures StillThere(Run(before + [Op.Store(at, row, ok)] + later), at, row, start)
    decreases |later|
  {
    var h := before + [Op.Store(at, row, ok)];
    if later == [] {
      RunAppend(before, Op.Store(at, row, ok));
      assert h + [] == h;
    } else {
      var init, last := later[..|later| - 1], later[|later| - 1];
      Survives(before, at, row, ok, init, start, textFirst);
      RunAppend(h + init, last);
      assert h + later == h + init + [last];
      SurvivingStep(Run(h + init), last, at, row, start, textFirst);
    }
  }

  /** A stored row survives whatever happens within the stale period, uses included, exactly when the database does
      not order text first, or the row has no lifetime and is a trajectory or used often enough. */
  lemma StoredRowSurvivesIff(e: NewEntry, embedded: Option<seq<real>>, now: string, start: int, textFirst: bool)
    requires Prepared(e, embedded, now).Some?
    ensures AlwaysSurvives(e.at, Prepared(e, embedded, now).value, start, textFirst)
            <==> !textFirst || (e.ttl.None? && (e.at.scope.ns == TRAJECTORIES || e.useCount >= DECAY_MIN_USE_COUNT))
  {
    var at, row := e.at, Prepared(e, embedded, now).value;
    if !textFirst || (row.ttl.None? && !LittleUsed(at, row)) {
      AlwaysKept(at, row, start, textFirst);
    } else {
      GoesAtOnce(e, embedded, now, start);
    }
  }

  lemma AlwaysKept(at: RowKey, row: Row, start: int, textFirst: bool)
    requires row.createdAt.Text? && row.lastUsedAt.Text? && (!textFirst || (row.ttl.None? && !LittleUsed(at, row)))
    ensures AlwaysSurvives(at, row, start, textFirst)
  {
    forall before, later, ok | forall op :: op in later ==> Within(op, at, start, textFirst)
      ensures StillThere(Run(before + [Op.Store(at, row, ok)] + later), at, row, start)
    {
      Survives(before, at, row, ok, later, start, textFirst);
    }
  }

  /** One decay at the time of the store. */
  lemma GoesAtOnce(e: NewEntry, embedded: Option<seq<real>>, now: string, start: int)
    requires Prepared(e, embedded, now).Some?
    requires e.ttl.Some? || LittleUsed(e.at, Prepared(e, embedded, now).value)
    ensures !AlwaysSurvives(e.at, Prepared(e, embedded, now).value, start, true)
  {
    var row, prune := Prepared(e, embedded, now).value, Op.Decay(e.at.scope.project, Clock(start, true));
    assert prune in [prune] && Prunes(prune, e.at, row);
    UntouchedRowIff([], e.at, row, true, [prune]);
    NotAlways([], e.at, row, true, [prune], start, true);
  }

  lemma NotAlways(before: seq<Op>, at: RowKey, row: Row, ok: bool, later: seq<Op>, start: int, textFirst: bool)
    requires forall op :: op in later ==> Within(op, at, start, textFirst)
    requires at !in Run(before + [Op.Store(at, row, ok)] + later).table
    ensures !AlwaysSurvives(at, row, start, textFirst)
  {
    assert !StillThere(Run(before + [Op.Store(at, row, ok)] + later), at, row, start);
  }

  function TouchedAll(table: map<RowKey, Row>, hits: seq<Hit>, now: int): map<RowKey, Row>
  {
    if hits == [] then table else TouchedAll(Touched(table, hits[0].at, now), hits[1..], now)
  }

  /** Bumping usage counts changes nothing the index mirrors. */
  lemma {:induction false} TouchingKeepsMirrors(s: State, known: set<RowKey>, left: set<RowKey>, haunts: set<RowKey>,
                                                hits: seq<Hit>, now: int)
    requires Mirrors(s, known, left, haunts)
    ensures Mirrors(s.(table := TouchedAll(s.table, hits, now)), known, left, haunts)
    decreases |hits|
  {
    if hits != [] {
      TouchMirrors(s, known, left, haunts, hits[0].at, now);
      TouchingKeepsMirrors(s.(table := Touched(s.table, hits[0].at, now)), known, left, haunts, hits[1..], now);
    }
  }

  /** The rows with their index. */
  class MemoryStore {
    var table: map<RowKey, Row>
    const index: RvIndex

    /** A boot: the table survives, the index is a fresh one. */
    constructor (table: map<RowKey, Row>, index: RvIndex)
      ensures this.table == table && this.index == index
    {
      this.table, this.index := table, index;
    }

    ghost function Now(): State
      reads this, index
    {
      State(table, index.dense, index.sparse)
    }

    /** Fails when no embedding can be had or the row cannot be `written`; a refused insertion is only logged. */
    method Store(e: NewEntry, embedded: Option<seq<real>>, now: string, written: bool, taken: bool)
      returns (stored: bool)
      modifies this`table, index
      ensures stored == (written && Prepared(e, embedded, now).Some?)
      ensures Now() == if stored then Apply(old(Now()), Op.Store(e.at, Prepared(e, embedded, now).value, taken))
                       else old(Now())
    {
      var row := Prepared(e, embedded, now);
      if row.None? || !written { return false; }
      table := table[e.at := row.value];
      var ok := index.Insert(e.at, row.value.content, row.value.embedding, taken);
      return true;
    }

    method Evict(gone: set<RowKey>)
      modifies index
      ensures index.dense == old(index.dense) - Evicted(gone) && index.sparse == old(index.sparse) - Evicted(gone)
    {
      var todo := gone;
      ghost var done: set<RowKey> := {};
      while todo != {}
        invariant done + todo == gone
        invariant index.dense == old(index.dense) - Evicted(done) && index.sparse == old(index.sparse) - Evicted(done)
        decreases |todo|
      {
        var k :| k in todo;
        EvictStep(old(index.dense), done, k);
        EvictStep(old(index.sparse), done, k);
        if k.scope.ns != "" { index.Delete(RvId(k)); }
        todo, done := todo - {k}, done + {k};
      }
      assert done == gone;
    }

    /** Two deletions in a row, each of which can fail; the second sees only what the first left. Then the pruned
        rows are evicted. */
    method Decay(project: string, clock: Clock, first: bool, second: bool) returns (pruned: Option<nat>)
      modifies this`table, index
      ensures pruned == if first && second then Some(|Doomed(old(table), project, clock)|) else None
      ensures !first ==> Now() == old(Now())
      ensures first && !second ==> Now() == Apply(old(Now()), Op.Interrupted(project, clock))
      ensures first && second ==> Now() == Apply(old(Now()), Op.Decay(project, clock))
    {
      if !first { return None; }
      var stale := StaleRows(table, project, clock);
      table := table - stale;
      if !second { return None; }
      var expired := ExpiredRows(table, project, clock);
      table := table - expired;
      TwoDeletions(old(table), project, clock);
      Evict(stale + expired);
      return Some(|stale| + |expired|);
    }

    /** Inserts every row with an embedding and a namespace, in the order the rows are read; `refused` are the rows the
        vector database does not accept. */
    method RebuildIndex(order: seq<RowKey>, refused: set<RowKey>) returns (n: nat)
      modifies index
      ensures Now() == Reindexed(old(Now()), order, refused)
      ensures n == |Accepted(table, order, refused)|
    {
      n := 0;
      for i := 0 to |order|
        invariant Now() == Reindexed(old(Now()), order[..i], refused)
        invariant n == |Accepted(table, order[..i], refused)|
      {
        assert order[..i + 1][..i] == order[..i];
        var k := order[i];
        if k !in table || table[k].embedding == [] || k.scope.ns == "" { continue; }
        var ok := index.Insert(k, table[k].content, table[k].embedding, k !in refused);
        if ok { n := n + 1; }
      }
      assert order[..|order|] == order;
    }

    /** A search touches every row it shows. */
    method SearchInner(ranking: seq<Hit>, namespaces: seq<string>, project: string, k: nat,
                       now: int) returns (hits: seq<Hit>)
      modifies this`table
      ensures hits == Answer(ranking, namespaces, project, k)
      ensures table == TouchedAll(old(table), hits, now)
    {
      var found := Search(ranking, namespaces, project, k);
      hits := [];
      assert found[0..] == found;
      for i := 0 to |found|
        invariant hits + Similar(found[i..]) == Similar(found)
        invariant TouchedAll(table, Similar(found[i..]), now) == TouchedAll(old(table), Similar(found), now)
      {
        assert found[i..][1..] == found[i + 1..];
        if found[i].similarity >= MIN_SIMILARITY {
          assert Similar(found[i..])[1..] == Similar(found[i + 1..]);
          table := Touched(table, found[i].at, now);
          hits := hits + [found[i]];
        } else {
          assert Similar(found[i..]) == Similar(found[i + 1..]);
        }
      }
    }
  }

  lemma TwoDeletions(table: map<RowKey, Row>, project: string, clock: Clock)
    ensures var stale := StaleRows(table, project, clock); var expired := ExpiredRows(table - stale, project, clock);
            && stale + expired == Doomed(table, project, clock) && |stale| + |expired| == |stale + expired|
            && table - stale - expired == table - (stale + expired)
  {
    var stale := StaleRows(table, project, clock);
    var expired := ExpiredRows(table - stale, project, clock);
    assert stale !! expired;
    forall k | k in Doomed(table, project, clock) ensures k in stale + expired {
      if k !in stale { assert k in table - stale && (table - stale)[k] == table[k]; }
    }
  }

  lemma EvictStep<V>(m: map<string, V>, done: set<RowKey>, k: RowKey)
    ensures m - Evicted(done + {k}) == if k.scope.ns != "" then m - Evicted(done) - {RvId(k)} else m - Evicted(done)
  {
    assert Evicted(done + {k}) == Evicted(done) + if k.scope.ns != "" then {RvId(k)} else {};
  }

  /** Inserting a row of the table that is not in the index. */
  lemma RowInserted(s: State, known: set<RowKey>, k: RowKey, ok: bool)
    requires Distinct(s.table.Keys) && Mirrors(s, known, {}, {}) && k in s.table && k !in known
    requires s.sparse.Keys == s.dense.Keys
    ensures var t := Indexed(s, k, s.table[k], ok);
            Mirrors(t, if ok then known + {k} else known, {}, {}) && t.sparse.Keys == t.dense.Keys
  {
    assert s.table[k := s.table[k]] == s.table && s.table.Keys + {} + {k} == s.table.Keys;
    assert known - {k} == known && {} - {k} == {};
    StoreMirrors(s, known, {}, {}, k, s.table[k], ok);
    if ok {
      PutKeys(s.dense, RvId(k), EntryOf(k, s.table[k]));
      PutKeys(s.sparse, RvId(k), s.table[k].content);
    } else {
      assert RvId(k) in Ids({k}) && known + {} == known;
      IdsMinus(s.table.Keys, known, {k});
      assert s.dense - {RvId(k)} == s.dense;
    }
  }

  // ------------------------------------------------------------------ rebuilding

  function Rebuildable(table: map<RowKey, Row>): set<RowKey>
  {
    set k | k in table && table[k].embedding != [] && k.scope.ns != ""
  }

  ghost predicate Embedded(h: seq<Op>)
  {
    forall op :: op in h && op.Store? ==> op.row.embedding != []
  }

  lemma {:induction false} EmbeddedRows(h: seq<Op>)
    requires Embedded(h)
    ensures forall k :: k in Run(h).table ==> Run(h).table[k].embedding != []
    decreases |h|
  {
    if h != [] {
      assert h[|h| - 1] in h;
      EmbeddedRows(h[..|h| - 1]);
    }
  }

  /** One row read from the table goes into the index, replacing what was there under its id. */
  function Reinserted(s: State, k: RowKey, taken: bool): State
  {
    if k in Rebuildable(s.table) then Indexed(s, k, s.table[k], taken) else s
  }

  function Reindexed(s: State, order: seq<RowKey>, refused: set<RowKey>): State
    decreases |order|
  {
    if order == [] then s
    else
      var last := |order| - 1;
      Reinserted(Reindexed(s, order[..last], refused), order[last], order[last] !in refused)
  }

  /** The rows that are inserted, in order. */
  function Accepted(table: map<RowKey, Row>, order: seq<RowKey>, refused: set<RowKey>): seq<RowKey>
    decreases |order|
  {
    if order == [] then []
    else
      var last := |order| - 1;
      Accepted(table, order[..last], refused) +
      if order[last] in Rebuildable(table) && order[last] !in refused then [order[last]] else []
  }

  /** The last row that is read under an id. */
  function LastUnder(table: map<RowKey, Row>, order: seq<RowKey>, id: string): (r: Option<RowKey>)
    ensures if r.Some? then r.value in order && r.value in Rebuildable(table) && RvId(r.value) == id
            else forall k :: k in order && k in Rebuildable(table) ==> RvId(k) != id
    decreases |order|
  {
    if order == [] then None
    else
      var last := |order| - 1;
      if order[last] in Rebuildable(table) && RvId(order[last]) == id then Some(order[last])
      else LastUnder(table, order[..last], id)
  }

  /** In any order, with colliding ids too: the last row read under an id decides what the dense index has under it. */
  lemma {:induction false} LastInsertionDecides(s: State, order: seq<RowKey>, refused: set<RowKey>, id: string)
    ensures var t := Reindexed(s, order, refused);
            t.table == s.table &&
            match LastUnder(s.table, order, id)
            case None => (id in t.dense <==> id in s.dense) && (id in s.dense ==> t.dense[id] == s.dense[id])
            case Some(k) =>
              (id in t.dense <==> k !in refused) && (id in t.dense ==> t.dense[id] == EntryOf(k, s.table[k]))
    decreases |order|
  {
    if order != [] { LastInsertionDecides(s, order[..|order| - 1], refused, id); }
  }

  /** Every row of the table is read, once. */
  ghost predicate Lists(order: seq<RowKey>, table: map<RowKey, Row>)
  {
    (forall i, j :: 0 <= i < j < |order| ==> order[i] != order[j]) && forall k :: k in order <==> k in table
  }

  function Listed(table: map<RowKey, Row>, order: seq<RowKey>): set<RowKey>
  {
    set k | k in order && k in Rebuildable(table)
  }

  lemma ListedNext(table: map<RowKey, Row>, init: seq<RowKey>, k: RowKey)
    ensures Listed(table, init + [k]) ==
              if k in Rebuildable(table) then Listed(table, init) + {k} else Listed(table, init)
  {
  }

  lemma FreshMirrors(s: State)
    requires s.dense == map[] && s.sparse == map[]
    ensures Mirrors(s, {}, {}, {})
  {
    assert Ids({}) == {} && s.table.Keys + {} == s.table.Keys;
    var none: set<RowKey> := {};
    assert none + none == none;
  }

  lemma {:induction false} ReindexedMirrors(s: State, order: seq<RowKey>)
    requires s.dense == map[] && s.sparse == map[] && Distinct(s.table.Keys)
    requires (forall i, j :: 0 <= i < j < |order| ==> order[i] != order[j]) && forall k :: k in order ==> k in s.table
    ensures var t := Reindexed(s, order, {});
            t.table == s.table && Mirrors(t, Listed(s.table, order), {}, {}) && t.sparse.Keys == t.dense.Keys
    decreases |order|
  {
    if order == [] {
      FreshMirrors(s);
      assert Listed(s.table, order) == {};
    } else {
      var last := |order| - 1;
      var init, k := order[..last], order[last];
      ReindexedMirrors(s, init);
      ListedNext(s.table, init, k);
      assert order == init + [k];
      NextMirrors(Reindexed(s, init, {}), Listed(s.table, init), k);
    }
  }

  lemma NextMirrors(t: State, known: set<RowKey>, k: RowKey)
    requires Distinct(t.table.Keys) && Mirrors(t, known, {}, {}) && t.sparse.Keys == t.dense.Keys
    requires k in t.table && k !in known
    ensures var u := Reinserted(t, k, true);
            && u.table == t.table && u.sparse.Keys == u.dense.Keys
            && Mirrors(u, if k in Rebuildable(t.table) then known + {k} else known, {}, {})
  {
    RowInserted(t, known, k, true);
  }

  /** Whatever the history, a rebuild of a fresh index without refusals gives coherent indexes; when nothing in the
      history was refused or interrupted, those are the ones it left. */
  lemma RebuildRestores(h: seq<Op>, scopes: set<Scope>, order: seq<RowKey>)
    requires Over(h, scopes) && Sound(scopes) && Embedded(h) && Lists(order, Run(h).table)
    ensures var rebuilt := Reindexed(State(Run(h).table, map[], map[]), order, {});
            Coherent(rebuilt) && (Undisturbed(h) ==> rebuilt == Run(h))
  {
    var s := State(Run(h).table, map[], map[]);
    var rebuilt := Reindexed(s, order, {});
    DistinctRows(h, scopes);
    EmbeddedRows(h);
    NamedRows(h, scopes);
    ReindexedMirrors(s, order);
    AllListed(s.table, order);
    AllFiled(rebuilt, {});
    if Undisturbed(h) {
      CleanBooks(h);
      CoherentIffCaughtUp(h, scopes);
      CoherentIsUnique(rebuilt, Run(h));
    }
  }

  lemma AllListed(table: map<RowKey, Row>, order: seq<RowKey>)
    requires Lists(order, table) && forall k :: k in table ==> table[k].embedding != [] && k.scope.ns != ""
    ensures Listed(table, order) == table.Keys
  {
  }

  lemma NamedRows(h: seq<Op>, scopes: set<Scope>)
    requires Over(h, scopes) && Sound(scopes)
    ensures forall k :: k in Run(h).table ==> k.scope.ns != ""
  {
    HistoryMirrors(h, scopes);
  }

  /** A boot: what is left of a history is its table; the index starts empty and is rebuilt. */
  method Restart(table: map<RowKey, Row>, order: seq<RowKey>, ghost h: seq<Op>, ghost scopes: set<Scope>)
    returns (store: MemoryStore)
    requires table == Run(h).table && Lists(order, table) && Over(h, scopes) && Sound(scopes) && Embedded(h)
    ensures fresh(store) && fresh(store.index) && store.table == table
    ensures Coherent(store.Now()) && (Undisturbed(h) ==> store.Now() == Run(h))
  {
    var index := new RvIndex();
    store := new MemoryStore(table, index);
    var n := store.RebuildIndex(order, {});
    RebuildRestores(h, scopes, order);
  }
}
