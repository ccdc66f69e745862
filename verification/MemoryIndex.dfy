/** The memory table and the search index that mirrors it. The table is authoritative; the index holds a dense
    entry and a sparse (keyword) entry per row, filed under one string made from the row's key. */
module MemoryIndex {
  import opened Wrappers

  /** Namespace and project: what searches and decay select by. */
  datatype Scope = Scope(ns: string, project: string)
  {
    /** What every index id of the scope starts with. */
    function Prefix(): string { ns + ":" + project + ":" }
  }

  datatype RowKey = RowKey(scope: Scope, key: string)

  /** A time as the schemaless table holds it: the text a store writes, or a datetime in seconds, which only the
      database's own clock writes. */
  datatype Time = Text(text: string) | Stamp(at: int)

  /** The database's clock, and whether it orders text before datetimes. */
  datatype Clock = Clock(now: int, textFirst: bool)
  {
    /** `t < time::now() - age`. */
    predicate Past(t: Time, age: int)
    {
      match t
      case Text(_) => textFirst
      case Stamp(at) => at < now - age
    }
  }

  /** `content` and `embedding` are what the index mirrors. */
  datatype Row = Row(content: string, embedding: seq<real>, createdAt: Time, lastUsedAt: Time, useCount: nat,
                     ttl: Option<nat>)

  /** A dense entry: the vector with the row's key and content as metadata. */
  datatype Entry = Entry(at: RowKey, content: string, embedding: seq<real>)

  /** `sparse` maps an id to the text whose tokens are filed under it. */
  datatype State = State(table: map<RowKey, Row>, dense: map<string, Entry>, sparse: map<string, string>)

  const TRAJECTORIES := "trajectories"
  const DECAY_MIN_USE_COUNT := 2
  const DECAY_STALE_SECS := 30 * 24 * 3600

  function RvId(at: RowKey): string { at.scope.Prefix() + at.key }

  function Ids(keys: set<RowKey>): set<string> { set k | k in keys :: RvId(k) }

  function EntryOf(at: RowKey, row: Row): Entry { Entry(at, row.content, row.embedding) }

  predicate Stale(at: RowKey, row: Row, clock: Clock)
  {
    && at.scope.ns != TRAJECTORIES && row.useCount < DECAY_MIN_USE_COUNT
    && clock.Past(row.lastUsedAt, DECAY_STALE_SECS)
  }

  predicate Expired(row: Row, clock: Clock)
  {
    row.ttl.Some? && clock.Past(row.createdAt, row.ttl.value)
  }

  function StaleRows(table: map<RowKey, Row>, project: string, clock: Clock): set<RowKey>
  {
    set k | k in table && k.scope.project == project && Stale(k, table[k], clock)
  }

  function ExpiredRows(table: map<RowKey, Row>, project: string, clock: Clock): set<RowKey>
  {
    set k | k in table && k.scope.project == project && Expired(table[k], clock)
  }

  /** What the two deletions of a decay remove together. */
  function Doomed(table: map<RowKey, Row>, project: string, clock: Clock): set<RowKey>
  {
    set k | k in table && k.scope.project == project && (Stale(k, table[k], clock) || Expired(table[k], clock))
  }

  /** Rows whose namespace is empty are never evicted. */
  function Evicted(doomed: set<RowKey>): set<string> { set k | k in doomed && k.scope.ns != "" :: RvId(k) }

  // ------------------------------------------------------------------ histories

  /** `indexed` is whether the dense index took the vector. A decay is interrupted when its second deletion fails:
      it then returns before any eviction. */
  datatype Op =
    | Store(at: RowKey, row: Row, indexed: bool)
    | Touch(at: RowKey, now: int)
    | Decay(project: string, clock: Clock)
    | Interrupted(project: string, clock: Clock)

  /** The dense entry is deleted first; when its replacement is refused the sparse entry is not reached. */
  function Indexed(s: State, at: RowKey, row: Row, ok: bool): State
  {
    if ok then s.(dense := s.dense[RvId(at) := EntryOf(at, row)], sparse := s.sparse[RvId(at) := row.content])
    else s.(dense := s.dense - {RvId(at)})
  }

  function Touched(table: map<RowKey, Row>, at: RowKey, now: int): map<RowKey, Row>
  {
    if at in table then table[at := table[at].(useCount := table[at].useCount + 1, lastUsedAt := Stamp(now))]
    else table
  }

  function Apply(s: State, op: Op): State
  {
    match op
    case Store(at, row, ok) => Indexed(s.(table := s.table[at := row]), at, row, ok)
    case Touch(at, now) => s.(table := Touched(s.table, at, now))
    case Decay(project, clock) =>
      var doomed := Doomed(s.table, project, clock);
      State(s.table - doomed, s.dense - Evicted(doomed), s.sparse - Evicted(doomed))
    case Interrupted(project, clock) => s.(table := s.table - StaleRows(s.table, project, clock))
  }

  const FRESH := State(map[], map[], map[])

  function Run(h: seq<Op>): State
  {
    if h == [] then FRESH else Apply(Run(h[..|h| - 1]), h[|h| - 1])
  }

  /** What went wrong so far: rows whose latest store did not reach the dense index, and keys without a row that
      are still in the dense index (`left`) or at least in the sparse one (`haunts`). */
  datatype Books = Books(behind: set<RowKey>, left: set<RowKey>, haunts: set<RowKey>)

  function BooksOf(h: seq<Op>): Books
  {
    if h == [] then Books({}, {}, {})
    else
      var b, s := BooksOf(h[..|h| - 1]), Run(h[..|h| - 1]);
      match h[|h| - 1]
      case Store(at, _, ok) => Books(if ok then b.behind - {at} else b.behind + {at}, b.left - {at}, b.haunts - {at})
      case Touch(_, _) => b
      case Decay(project, clock) => b.(behind := b.behind - Doomed(s.table, project, clock))
      case Interrupted(project, clock) =>
        var gone := StaleRows(s.table, project, clock);
        Books(b.behind - gone, b.left + (gone - b.behind), b.haunts + Filed(s, gone))
  }

  /** The keys that have a sparse entry. */
  function Filed(s: State, keys: set<RowKey>): set<RowKey> { set k | k in keys && RvId(k) in s.sparse }

  /** Every row is in both indexes with its latest content, and nothing else is. */
  ghost predicate Coherent(s: State)
  {
    s.dense.Keys == s.sparse.Keys == Ids(s.table.Keys) && forall k :: k in s.table ==> Current(s, k)
  }

  ghost predicate Over(h: seq<Op>, scopes: set<Scope>)
  {
    forall op :: op in h && op.Store? ==> op.at.scope in scopes
  }

  // ------------------------------------------------------------------ when two rows share an id

  ghost predicate Related(a: Scope, b: Scope)
  {
    a.Prefix() <= b.Prefix() || b.Prefix() <= a.Prefix()
  }

  ghost predicate PrefixFree(scopes: set<Scope>)
  {
    forall a, b :: a in scopes && b in scopes && a != b ==> !Related(a, b)
  }

  lemma PrefixesOfOne(a: string, b: string, x: string, y: string)
    requires a + x == b + y
    ensures a <= b || b <= a
  {
    var t := a + x;
    assert a == t[..|a|] && b == t[..|b|];
    if |a| <= |b| { assert a == b[..|a|]; } else { assert b == a[..|b|]; }
  }

  /** Keys with which two related scopes collide. */
  lemma Collision(a: Scope, b: Scope) returns (x: string, y: string)
    requires Related(a, b)
    ensures RvId(RowKey(a, x)) == RvId(RowKey(b, y))
  {
    if a.Prefix() <= b.Prefix() {
      x, y := b.Prefix()[|a.Prefix()|..], "";
    } else {
      x, y := "", a.Prefix()[|b.Prefix()|..];
    }
  }

  /** Two scopes hold rows with a common id exactly when one scope's prefix is a prefix of the other's. */
  lemma CollideIff(a: Scope, b: Scope)
    ensures (exists x, y :: RvId(RowKey(a, x)) == RvId(RowKey(b, y))) <==> Related(a, b)
  {
    if Related(a, b) {
      var x, y := Collision(a, b);
    }
    forall x, y | RvId(RowKey(a, x)) == RvId(RowKey(b, y)) ensures Related(a, b) {
      PrefixesOfOne(a.Prefix(), b.Prefix(), x, y);
    }
  }

  lemma FirstColon(a: string, b: string, x: string, y: string)
    requires ':' !in a && ':' !in b && a + ":" + x == b + ":" + y
    ensures a == b && x == y
  {
    var t := a + ":" + x;
    assert t[|a|] == ':' && t[|b|] == ':';
    assert forall i :: 0 <= i < |a| ==> t[i] == a[i];
    assert forall i :: 0 <= i < |b| ==> t[i] == b[i];
    assert a == t[..|a|] && b == t[..|b|];
    assert x == t[|a| + 1..] && y == t[|b| + 1..];
  }

  /** Without ':' in namespaces and projects, ids tell rows apart, whatever the keys contain. */
  lemma ColonFree(scopes: set<Scope>)
    requires forall s :: s in scopes ==> ':' !in s.ns && ':' !in s.project
    ensures PrefixFree(scopes)
  {
    forall a, b | a in scopes && b in scopes && a != b ensures !Related(a, b) {
      if Related(a, b) {
        var x, y := Collision(a, b);
        assert a.ns + ":" + (a.project + ":" + x) == RvId(RowKey(a, x));
        assert b.ns + ":" + (b.project + ":" + y) == RvId(RowKey(b, y));
        FirstColon(a.ns, b.ns, a.project + ":" + x, b.project + ":" + y);
        FirstColon(a.project, b.project, x, y);
      }
    }
  }

  lemma Injective(scopes: set<Scope>, k: RowKey, l: RowKey)
    requires PrefixFree(scopes) && k.scope in scopes && l.scope in scopes && RvId(k) == RvId(l)
    ensures k == l
  {
    PrefixesOfOne(k.scope.Prefix(), l.scope.Prefix(), k.key, l.key);
    assert k.scope == l.scope;
    var n := |k.scope.Prefix()|;
    assert k.key == RvId(k)[n..] && l.key == RvId(l)[n..];
  }

  // ------------------------------------------------------------------ every history

  ghost predicate Distinct(keys: set<RowKey>)
  {
    forall k, l :: k in keys && l in keys && RvId(k) == RvId(l) ==> k == l
  }

  /** A row is in both indexes as it is now. */
  ghost predicate Current(s: State, k: RowKey)
  {
    && k in s.table && RvId(k) in s.dense && RvId(k) in s.sparse
    && s.dense[RvId(k)] == EntryOf(k, s.table[k]) && s.sparse[RvId(k)] == s.table[k].content
  }

  /** The dense entry under a key's id is that key's. */
  ghost predicate Marked(s: State, k: RowKey) { RvId(k) in s.dense && s.dense[RvId(k)].at == k }

  /** Exactly the rows `known` and the keys `left` are in the dense index; those and `haunts` are in the sparse one,
      and perhaps other rows. */
  ghost predicate Files(s: State, known: set<RowKey>, left: set<RowKey>, haunts: set<RowKey>)
  {
    && known <= s.table.Keys && left <= haunts && haunts !! s.table.Keys
    && s.dense.Keys == Ids(known + left) <= s.sparse.Keys
    && Ids(haunts) <= s.sparse.Keys <= Ids(s.table.Keys + haunts)
  }

  ghost predicate Mirrors(s: State, known: set<RowKey>, left: set<RowKey>, haunts: set<RowKey>)
  {
    && Files(s, known, left, haunts)
    && (forall k :: k in known ==> Current(s, k))
    && (forall k :: k in left ==> Marked(s, k))
  }

  lemma IdsGrow(a: set<RowKey>, b: set<RowKey>)
    requires a <= b
    ensures Ids(a) <= Ids(b)
  {
  }

  lemma IdsPlus(keys: set<RowKey>, at: RowKey)
    ensures Ids(keys + {at}) == Ids(keys) + {RvId(at)}
  {
  }

  lemma IdsMinus(keys: set<RowKey>, known: set<RowKey>, gone: set<RowKey>)
    requires Distinct(keys) && known <= keys && gone <= keys
    ensures Ids(known - gone) == Ids(known) - Ids(gone)
  {
    forall id | id in Ids(known) - Ids(gone) ensures id in Ids(known - gone) {
      var k :| k in known && RvId(k) == id;
      assert k in known - gone;
    }
  }

  lemma PutKeys<K, V>(m: map<K, V>, k: K, v: V)
    ensures m[k := v].Keys == m.Keys + {k}
  {
  }

  lemma StoredFiles(s: State, known: set<RowKey>, left: set<RowKey>, haunts: set<RowKey>, at: RowKey, row: Row)
    requires Files(s, known, left, haunts)
    ensures Files(Apply(s, Store(at, row, true)), known + {at}, left - {at}, haunts - {at})
  {
    var id, table, t := RvId(at), s.table.Keys, Apply(s, Store(at, row, true));
    PutKeys(s.table, at, row);
    PutKeys(s.dense, id, EntryOf(at, row));
    PutKeys(s.sparse, id, row.content);
    assert t.table.Keys == table + {at} && t.dense.Keys == s.dense.Keys + {id} && t.sparse.Keys == s.sparse.Keys + {id};
    PlusIds(known, left, at);
    PlusIds(table, haunts, at);
    IdsGrow(haunts - {at}, haunts);
  }

  lemma PlusIds(xs: set<RowKey>, ys: set<RowKey>, at: RowKey)
    ensures Ids(xs + {at} + (ys - {at})) == Ids(xs + ys) + {RvId(at)}
  {
    IdsPlus(xs + ys, at);
    assert xs + ys + {at} == xs + {at} + (ys - {at});
  }

  lemma RefusedFiles(s: State, known: set<RowKey>, left: set<RowKey>, haunts: set<RowKey>, at: RowKey, row: Row)
    requires Files(s, known, left, haunts) && Distinct(s.table.Keys + haunts + {at})
    ensures Files(Apply(s, Store(at, row, false)), known - {at}, left - {at}, haunts - {at})
  {
    var table := s.table.Keys;
    PutKeys(s.table, at, row);
    assert Ids({at}) == {RvId(at)};
    IdsMinus(table + haunts + {at}, known + left, {at});
    assert known + left - {at} == known - {at} + (left - {at});
    PlusIds(table, haunts, at);
    IdsGrow(haunts - {at}, haunts);
  }

  /** Storing a row leaves the entries filed under other ids alone. */
  lemma StoreSpares(s: State, at: RowKey, row: Row, ok: bool, k: RowKey)
    requires k != at && RvId(k) != RvId(at)
    ensures Current(s, k) ==> Current(Apply(s, Store(at, row, ok)), k)
    ensures Marked(s, k) ==> Marked(Apply(s, Store(at, row, ok)), k)
  {
  }

  lemma StoreMirrors(s: State, known: set<RowKey>, left: set<RowKey>, haunts: set<RowKey>, at: RowKey, row: Row,
                     ok: bool)
    requires Mirrors(s, known, left, haunts) && Distinct(s.table.Keys + haunts + {at})
    ensures Mirrors(Apply(s, Store(at, row, ok)), if ok then known + {at} else known - {at}, left - {at}, haunts - {at})
  {
    if ok { StoredFiles(s, known, left, haunts, at, row); } else { RefusedFiles(s, known, left, haunts, at, row); }
    var t := Apply(s, Store(at, row, ok));
    forall k | k in known + left && k != at
      ensures (Current(s, k) ==> Current(t, k)) && (Marked(s, k) ==> Marked(t, k))
    {
      StoreSpares(s, at, row, ok, k);
    }
    if ok { StoreIsCurrent(s, at, row); }
  }

  lemma StoreIsCurrent(s: State, at: RowKey, row: Row)
    ensures Current(Apply(s, Store(at, row, true)), at)
  {
  }

  lemma DecayFiles(s: State, known: set<RowKey>, left: set<RowKey>, haunts: set<RowKey>, doomed: set<RowKey>)
    requires Files(s, known, left, haunts) && Distinct(s.table.Keys + haunts) && doomed <= s.table.Keys
    ensures Files(State(s.table - doomed, s.dense - Ids(doomed), s.sparse - Ids(doomed)), known - doomed, left, haunts)
  {
    var all := s.table.Keys + haunts;
    IdsMinus(all, known + left, doomed);
    assert known + left - doomed == known - doomed + left;
    IdsMinus(all, all, doomed);
    assert all - doomed == s.table.Keys - doomed + haunts;
    IdsMinus(all, haunts, doomed);
    assert haunts - doomed == haunts;
    assert (s.table - doomed).Keys == s.table.Keys - doomed;
    assert (s.dense - Ids(doomed)).Keys == s.dense.Keys - Ids(doomed);
    assert (s.sparse - Ids(doomed)).Keys == s.sparse.Keys - Ids(doomed);
  }

  lemma DecayMirrors(s: State, known: set<RowKey>, left: set<RowKey>, haunts: set<RowKey>, project: string,
                     clock: Clock)
    requires Mirrors(s, known, left, haunts) && Distinct(s.table.Keys + haunts)
    requires forall k :: k in s.table ==> k.scope.ns != ""
    ensures Mirrors(Apply(s, Decay(project, clock)), known - Doomed(s.table, project, clock), left, haunts)
  {
    var doomed, t := Doomed(s.table, project, clock), Apply(s, Decay(project, clock));
    assert Evicted(doomed) == Ids(doomed);
    DecayFiles(s, known, left, haunts, doomed);
    IdsMinus(s.table.Keys + haunts, known, doomed);
    forall k | k in known - doomed ensures Current(t, k) {
      assert Current(s, k) && RvId(k) in Ids(known - doomed);
    }
    forall k | k in left ensures Marked(t, k) {
      assert Marked(s, k) && RvId(k) in Ids(known - doomed + left) && RvId(k) in t.dense.Keys;
    }
  }

  lemma InterruptedFiles(s: State, known: set<RowKey>, left: set<RowKey>, haunts: set<RowKey>, gone: set<RowKey>)
    requires Files(s, known, left, haunts) && gone <= s.table.Keys
    ensures Files(s.(table := s.table - gone), known - gone, left + known * gone, haunts + Filed(s, gone))
  {
    var table, haunts' := s.table.Keys - gone, haunts + Filed(s, gone);
    assert (s.table - gone).Keys == table;
    assert known - gone + (left + known * gone) == known + left;
    forall k | k in known * gone ensures k in Filed(s, gone) { assert RvId(k) in Ids(known + left); }
    forall id | id in s.sparse.Keys ensures id in Ids(table + haunts') {
      var k :| k in s.table.Keys + haunts && RvId(k) == id;
      assert k in table + haunts';
    }
    forall id | id in Ids(haunts') ensures id in s.sparse.Keys {
      var k :| k in haunts' && RvId(k) == id;
      if k in haunts { assert id in Ids(haunts); }
    }
  }

  lemma InterruptedMirrors(s: State, known: set<RowKey>, left: set<RowKey>, haunts: set<RowKey>, project: string,
                           clock: Clock)
    requires Mirrors(s, known, left, haunts)
    ensures var gone := StaleRows(s.table, project, clock);
            Mirrors(Apply(s, Interrupted(project, clock)), known - gone, left + known * gone, haunts + Filed(s, gone))
  {
    var gone, t := StaleRows(s.table, project, clock), Apply(s, Interrupted(project, clock));
    InterruptedFiles(s, known, left, haunts, gone);
    forall k | k in known - gone ensures Current(t, k) { assert Current(s, k); }
    forall k | k in left + known * gone ensures Marked(t, k) {
      if k in left { assert Marked(s, k); } else { assert Current(s, k); }
    }
  }

  lemma TouchMirrors(s: State, known: set<RowKey>, left: set<RowKey>, haunts: set<RowKey>, at: RowKey, now: int)
    requires Mirrors(s, known, left, haunts)
    ensures Mirrors(Apply(s, Touch(at, now)), known, left, haunts)
  {
    var t := Apply(s, Touch(at, now));
    assert t.table.Keys == s.table.Keys;
    forall k | k in known ensures Current(t, k) { assert Current(s, k); }
    forall k | k in left ensures Marked(t, k) { assert Marked(s, k); }
  }

  /** Scopes whose rows get distinct ids and can be evicted. */
  ghost predicate Sound(scopes: set<Scope>)
  {
    PrefixFree(scopes) && forall s :: s in scopes ==> s.ns != ""
  }

  lemma SoundDistinct(scopes: set<Scope>, keys: set<RowKey>)
    requires PrefixFree(scopes) && forall k :: k in keys ==> k.scope in scopes
    ensures Distinct(keys)
  {
    forall k, l | k in keys && l in keys && RvId(k) == RvId(l) ensures k == l { Injective(scopes, k, l); }
  }

  /** The books `b` describe the indexes. */
  ghost predicate BalancedBy(s: State, b: Books, scopes: set<Scope>)
  {
    && b.behind <= s.table.Keys && Mirrors(s, s.table.Keys - b.behind, b.left, b.haunts)
    && forall k :: k in s.table.Keys + b.haunts ==> k.scope in scopes
  }

  /** The books of a history describe its indexes. */
  ghost predicate Balanced(h: seq<Op>, scopes: set<Scope>) { BalancedBy(Run(h), BooksOf(h), scopes) }

  lemma StoreBalances(h: seq<Op>, scopes: set<Scope>)
    requires h != [] && h[|h| - 1].Store? && h[|h| - 1].at.scope in scopes
    requires Sound(scopes) && Balanced(h[..|h| - 1], scopes)
    ensures Balanced(h, scopes)
  {
    var before, op := h[..|h| - 1], h[|h| - 1];
    var s, b := Run(before), BooksOf(before);
    assert Run(h) == Apply(s, op);
    StoreKeepsBooks(s, b, scopes, op, Apply(s, op), BooksOf(h));
  }

  lemma StoreKeepsBooks(s: State, b: Books, scopes: set<Scope>, op: Op, t: State, books: Books)
    requires op.Store? && op.at.scope in scopes && Sound(scopes) && BalancedBy(s, b, scopes) && t == Apply(s, op)
    requires books == Books(if op.indexed then b.behind - {op.at} else b.behind + {op.at}, b.left - {op.at},
                            b.haunts - {op.at})
    ensures BalancedBy(t, books, scopes)
  {
    var known := s.table.Keys - b.behind;
    SoundDistinct(scopes, s.table.Keys + b.haunts + {op.at});
    StoreMirrors(s, known, b.left, b.haunts, op.at, op.row, op.indexed);
    StoredKeys(s, op, t);
    StoreSettles(s.table.Keys, b.behind, op.at);
    StoreLags(s.table.Keys, b.behind, op.at);
    BalancedFrom(t, books, scopes, if op.indexed then known + {op.at} else known - {op.at});
  }

  lemma StoredKeys(s: State, op: Op, t: State)
    requires op.Store? && t == Apply(s, op)
    ensures t.table.Keys == s.table.Keys + {op.at}
  {
  }

  lemma BalancedFrom(t: State, b: Books, scopes: set<Scope>, known: set<RowKey>)
    requires b.behind <= t.table.Keys && known == t.table.Keys - b.behind && Mirrors(t, known, b.left, b.haunts)
    requires forall k :: k in t.table.Keys + b.haunts ==> k.scope in scopes
    ensures BalancedBy(t, b, scopes)
  {
  }

  lemma StoreSettles(table: set<RowKey>, behind: set<RowKey>, at: RowKey)
    ensures (table + {at}) - (behind - {at}) == (table - behind) + {at}
  {
  }

  lemma StoreLags(table: set<RowKey>, behind: set<RowKey>, at: RowKey)
    ensures (table + {at}) - (behind + {at}) == (table - behind) - {at}
  {
  }

  lemma RestBalances(h: seq<Op>, scopes: set<Scope>)
    requires h != [] && !h[|h| - 1].Store? && Sound(scopes) && Balanced(h[..|h| - 1], scopes)
    ensures Balanced(h, scopes)
  {
    var before := h[..|h| - 1];
    var s, b := Run(before), BooksOf(before);
    var known := s.table.Keys - b.behind;
    match h[|h| - 1] {
      case Touch(at, now) =>
        TouchMirrors(s, known, b.left, b.haunts, at, now);
        assert Run(h).table.Keys == s.table.Keys;
      case Decay(project, clock) =>
        var doomed := Doomed(s.table, project, clock);
        SoundDistinct(scopes, s.table.Keys + b.haunts);
        DecayMirrors(s, known, b.left, b.haunts, project, clock);
        assert Run(h).table.Keys == s.table.Keys - doomed;
        assert Run(h).table.Keys - BooksOf(h).behind == known - doomed;
      case Interrupted(project, clock) =>
        var gone := StaleRows(s.table, project, clock);
        InterruptedMirrors(s, known, b.left, b.haunts, project, clock);
        assert Run(h).table.Keys == s.table.Keys - gone;
        assert Run(h).table.Keys - BooksOf(h).behind == known - gone && known * gone == gone - b.behind;
    }
  }

  /** After any history, refused insertions and interrupted decays included, the dense index holds exactly the rows
      that are not behind, with their latest content, and the entries left by interrupted decays. */
  lemma {:induction false} HistoryMirrors(h: seq<Op>, scopes: set<Scope>)
    requires Over(h, scopes) && Sound(scopes)
    ensures Balanced(h, scopes)
    decreases |h|
  {
    if h != [] {
      HistoryMirrors(h[..|h| - 1], scopes);
      if h[|h| - 1].Store? {
        assert h[|h| - 1] in h;
        StoreBalances(h, scopes);
      } else {
        RestBalances(h, scopes);
      }
    }
  }

  lemma Unfiled(keys: set<RowKey>, some: set<RowKey>, k: RowKey)
    requires Distinct(keys) && some <= keys && k in keys && k !in some
    ensures RvId(k) !in Ids(some)
  {
  }

  lemma CoherentIff(s: State, behind: set<RowKey>, left: set<RowKey>, haunts: set<RowKey>)
    requires behind <= s.table.Keys && Mirrors(s, s.table.Keys - behind, left, haunts)
    requires Distinct(s.table.Keys + haunts)
    ensures Coherent(s) <==> behind == {} && haunts == {}
  {
    var table := s.table.Keys;
    if behind == {} && haunts == {} {
      assert table - behind == table;
      AllFiled(s, left);
    } else if k :| k in behind {
      NotFiled(s, table - behind, left, haunts, k);
    } else {
      var k :| k in haunts;
      StillFiled(s, table - behind, left, haunts, k);
    }
  }

  lemma AllFiled(s: State, left: set<RowKey>)
    requires Mirrors(s, s.table.Keys, left, {})
    ensures Coherent(s)
  {
    assert s.table.Keys + left == s.table.Keys && s.table.Keys + {} == s.table.Keys;
  }

  lemma NotFiled(s: State, known: set<RowKey>, left: set<RowKey>, haunts: set<RowKey>, k: RowKey)
    requires Files(s, known, left, haunts) && Distinct(s.table.Keys + haunts) && k in s.table && k !in known
    ensures !Coherent(s)
  {
    Unfiled(s.table.Keys + haunts, known + left, k);
    assert RvId(k) in Ids(s.table.Keys);
  }

  lemma StillFiled(s: State, known: set<RowKey>, left: set<RowKey>, haunts: set<RowKey>, k: RowKey)
    requires Files(s, known, left, haunts) && Distinct(s.table.Keys + haunts) && k in haunts
    ensures !Coherent(s)
  {
    Unfiled(s.table.Keys + haunts, s.table.Keys, k);
    assert RvId(k) in Ids(haunts);
  }

  /** The two indexes and the table agree exactly when no row is behind and no entry outlived its row. */
  lemma CoherentIffCaughtUp(h: seq<Op>, scopes: set<Scope>)
    requires Over(h, scopes) && Sound(scopes)
    ensures Coherent(Run(h)) <==> BooksOf(h).behind == {} && BooksOf(h).haunts == {}
  {
    HistoryMirrors(h, scopes);
    SoundDistinct(scopes, Run(h).table.Keys + BooksOf(h).haunts);
    CoherentIff(Run(h), BooksOf(h).behind, BooksOf(h).left, BooksOf(h).haunts);
  }

  lemma CutIff(s: State, t: State, gone: set<RowKey>)
    requires Coherent(s) && Distinct(s.table.Keys) && gone <= s.table.Keys && t == s.(table := s.table - gone)
    ensures Coherent(t) <==> gone == {}
  {
    assert (s.table - gone).Keys == s.table.Keys - gone;
    if gone == {} {
      assert s.table - gone == s.table;
    } else {
      var k :| k in gone;
      Unfiled(s.table.Keys, s.table.Keys - gone, k);
      assert RvId(k) in Ids(s.table.Keys);
    }
  }

  /** From coherent indexes, a decay that is interrupted takes them apart exactly when its first deletion removed
      something. */
  lemma InterruptionIff(h: seq<Op>, scopes: set<Scope>, project: string, clock: Clock)
    requires Over(h, scopes) && Sound(scopes) && Coherent(Run(h))
    ensures Coherent(Run(h + [Interrupted(project, clock)])) <==> StaleRows(Run(h).table, project, clock) == {}
  {
    DistinctRows(h, scopes);
    RunAppend(h, Interrupted(project, clock));
    CutIff(Run(h), Run(h + [Interrupted(project, clock)]), StaleRows(Run(h).table, project, clock));
  }

  lemma RunAppend(h: seq<Op>, op: Op)
    ensures Run(h + [op]) == Apply(Run(h), op)
  {
    assert (h + [op])[..|h|] == h;
  }

  lemma DistinctRows(h: seq<Op>, scopes: set<Scope>)
    requires Over(h, scopes) && Sound(scopes)
    ensures Distinct(Run(h).table.Keys)
  {
    HistoryMirrors(h, scopes);
    SoundDistinct(scopes, Run(h).table.Keys);
  }

  /** Nothing fails: every insertion is taken, no decay is interrupted. */
  ghost predicate Undisturbed(h: seq<Op>)
  {
    forall op :: op in h ==> !op.Interrupted? && (op.Store? ==> op.indexed)
  }

  lemma {:induction false} CleanBooks(h: seq<Op>)
    requires Undisturbed(h)
    ensures BooksOf(h) == Books({}, {}, {})
    decreases |h|
  {
    if h != [] {
      assert h[|h| - 1] in h;
      CleanBooks(h[..|h| - 1]);
    }
  }

  /** What the code makes of one database: times are stored as text, and the order of types is always the same. */
  ghost predicate Plain(h: seq<Op>, textFirst: bool)
  {
    forall op :: op in h ==>
      && (op.Store? ==> op.row.createdAt.Text? && op.row.lastUsedAt.Text?)
      && (op.Decay? || op.Interrupted? ==> op.clock.textFirst == textFirst)
  }

  ghost predicate AlwaysCoherent(scopes: set<Scope>, textFirst: bool)
  {
    forall h :: Over(h, scopes) && Plain(h, textFirst) && Undisturbed(h) ==> Coherent(Run(h))
  }

  lemma RunTwo(a: Op, b: Op)
    ensures Run([a, b]) == Apply(Apply(FRESH, a), b)
  {
    assert [a, b][..1] == [a] && [a][..0] == [];
    assert Run([a]) == Apply(FRESH, a);
  }

  lemma RunThree(a: Op, b: Op, c: Op)
    ensures Run([a, b, c]) == Apply(Apply(Apply(FRESH, a), b), c)
  {
    RunTwo(a, b);
    assert [a, b, c][..2] == [a, b];
  }

  const UNDATED := Row("", [1.0], Text(""), Text(""), 0, None)

  /** Two related scopes: the second store takes over the first one's entries. */
  lemma RelatedBreaks(a: Scope, b: Scope, textFirst: bool) returns (h: seq<Op>)
    requires a != b && Related(a, b)
    ensures Over(h, {a, b}) && Plain(h, textFirst) && Undisturbed(h) && !Coherent(Run(h))
  {
    var x, y := Collision(a, b);
    var k, l := RowKey(a, x), RowKey(b, y);
    h := [Store(k, UNDATED, true), Store(l, UNDATED, true)];
    RunTwo(h[0], h[1]);
    assert k in Run(h).table && Run(h).dense[RvId(k)].at == l;
  }

  /** An empty namespace: a row that was used once and then pruned stays in the index, however the database orders
      text. */
  lemma EmptyNamespaceBreaks(a: Scope, textFirst: bool) returns (h: seq<Op>)
    requires a.ns == ""
    ensures Over(h, {a}) && Plain(h, textFirst) && Undisturbed(h) && !Coherent(Run(h))
  {
    var k, clock := RowKey(a, ""), Clock(DECAY_STALE_SECS + 1, textFirst);
    h := [Store(k, UNDATED, true), Touch(k, 0), Decay(a.project, clock)];
    RunThree(h[0], h[1], h[2]);
    var s := Apply(Apply(FRESH, h[0]), h[1]);
    assert Doomed(s.table, a.project, clock) == {k};
    assert RvId(k) in Run(h).dense && Run(h).table == map[];
    assert RvId(k) !in Ids(Run(h).table.Keys);
  }

  /** The scopes for which no history, however long, ever takes table and indexes apart. */
  lemma AlwaysCoherentIff(scopes: set<Scope>, textFirst: bool)
    ensures AlwaysCoherent(scopes, textFirst) <==> Sound(scopes)
  {
    if Sound(scopes) {
      forall h | Over(h, scopes) && Plain(h, textFirst) && Undisturbed(h) ensures Coherent(Run(h)) {
        CleanBooks(h);
        CoherentIffCaughtUp(h, scopes);
      }
    } else if PrefixFree(scopes) {
      var a :| a in scopes && a.ns == "";
      var h := EmptyNamespaceBreaks(a, textFirst);
    } else {
      var a, b :| a in scopes && b in scopes && a != b && Related(a, b);
      var h := RelatedBreaks(a, b, textFirst);
    }
  }

  /** At most one pair of indexes is coherent with a table. */
  lemma CoherentIsUnique(s: State, t: State)
    requires Coherent(s) && Coherent(t) && s.table == t.table
    ensures s == t
  {
    forall id | id in s.dense ensures s.dense[id] == t.dense[id] && s.sparse[id] == t.sparse[id] {
      var k :| k in s.table.Keys && RvId(k) == id;
      assert Current(s, k) && Current(t, k);
    }
    assert s.dense == t.dense && s.sparse == t.sparse;
  }
}
