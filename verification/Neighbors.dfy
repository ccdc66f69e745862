/** The code-graph pathfinder: a depth-bounded breadth-first search over stored relations, taken as
    undirected edges. The queue algorithm is proved to compute `Bfs`, a layer-by-layer definition, and
    `Bfs` is proved against shortest walks. */
module Neighbors {
  import opened LayeredSearch

  const MAX_TRAVERSE_DEPTH: nat := 4

  datatype Edge = Edge(src: string, dst: string, kind: string)
  datatype Hit = Hit(name: string, via: string, hops: nat)
  datatype Item = Item(name: string, hops: nat)   // an entry of the queue
  datatype Link = Link(to: string, kind: string)

  // ------------------------------------------------------------------ adjacency

  /** What one stored relation adds to the adjacency list of `n`; a blank endpoint drops the relation. */
  function Adds(e: Edge, n: string): seq<Link>
  {
    if e.src == "" || e.dst == "" then []
    else (if e.src == n then [Link(e.dst, e.kind)] else []) + (if e.dst == n then [Link(e.src, e.kind)] else [])
  }

  function LinksOf(edges: seq<Edge>, n: string): seq<Link>
  {
    if edges == [] then [] else LinksOf(edges[..|edges| - 1], n) + Adds(edges[|edges| - 1], n)
  }

  predicate Joins(e: Edge, a: string, b: string, kind: string)
  {
    e.kind == kind && e.src != "" && e.dst != "" && ((e.src == a && e.dst == b) || (e.src == b && e.dst == a))
  }

  /** Some stored relation of this kind has the two names as its endpoints. */
  ghost predicate Joined(edges: seq<Edge>, a: string, b: string, kind: string)
  {
    exists i :: 0 <= i < |edges| && Joins(edges[i], a, b, kind)
  }

  ghost predicate Linked(edges: seq<Edge>, a: string, b: string) { exists kind :: Joined(edges, a, b, kind) }

  lemma JoinedGrows(edges: seq<Edge>, a: string, b: string, kind: string)
    requires edges != []
    ensures Joined(edges, a, b, kind)
            <==> Joined(edges[..|edges| - 1], a, b, kind) || Joins(edges[|edges| - 1], a, b, kind)
  {
    var init := edges[..|edges| - 1];
    if i :| 0 <= i < |init| && Joins(init[i], a, b, kind) { assert Joins(edges[i], a, b, kind); }
    if i :| 0 <= i < |edges| && Joins(edges[i], a, b, kind) {
      if i < |init| { assert Joins(init[i], a, b, kind); }
    }
  }

  lemma AddsJoins(e: Edge, a: string, b: string, kind: string)
    ensures Link(b, kind) in Adds(e, a) <==> Joins(e, a, b, kind)
  {
  }

  lemma {:induction false} LinksAreJoined(edges: seq<Edge>, a: string, b: string, kind: string)
    ensures Link(b, kind) in LinksOf(edges, a) <==> Joined(edges, a, b, kind)
  {
    if edges != [] {
      var init, e := edges[..|edges| - 1], edges[|edges| - 1];
      LinksAreJoined(init, a, b, kind);
      AddsJoins(e, a, b, kind);
      JoinedGrows(edges, a, b, kind);
    }
  }

  // ------------------------------------------------------------------ walks and distance

  ghost predicate IsWalk(edges: seq<Edge>, p: seq<string>)
  {
    p != [] && forall i :: 0 <= i < |p| - 1 ==> Linked(edges, p[i], p[i + 1])
  }

  ghost predicate WalkFrom(edges: seq<Edge>, p: seq<string>, a: string, b: string, h: nat)
  {
    IsWalk(edges, p) && |p| == h + 1 && p[0] == a && p[h] == b
  }

  ghost predicate Reaches(edges: seq<Edge>, a: string, b: string, h: nat) { exists p :: WalkFrom(edges, p, a, b, h) }

  /** The shortest undirected walk from `a` to `b` has `h` hops. */
  ghost predicate Distance(edges: seq<Edge>, a: string, b: string, h: nat)
  {
    Reaches(edges, a, b, h) && forall g: nat :: g < h ==> !Reaches(edges, a, b, g)
  }

  lemma ReachesSelf(edges: seq<Edge>, a: string)
    ensures Reaches(edges, a, a, 0)
  {
    assert WalkFrom(edges, [a], a, a, 0);
  }

  lemma ReachesZero(edges: seq<Edge>, a: string, b: string)
    ensures Reaches(edges, a, b, 0) <==> a == b
  {
    ReachesSelf(edges, a);
  }

  lemma ReachesStep(edges: seq<Edge>, a: string, c: string, b: string, h: nat)
    requires Reaches(edges, a, c, h) && Linked(edges, c, b)
    ensures Reaches(edges, a, b, h + 1)
  {
    var p :| WalkFrom(edges, p, a, c, h);
    assert WalkFrom(edges, p + [b], a, b, h + 1);
  }

  lemma ReachesBack(edges: seq<Edge>, a: string, b: string, h: nat) returns (c: string)
    requires Reaches(edges, a, b, h + 1)
    ensures Reaches(edges, a, c, h) && Linked(edges, c, b)
  {
    var p :| WalkFrom(edges, p, a, b, h + 1);
    c := p[h];
    assert WalkFrom(edges, p[..h + 1], a, c, h);
  }

  lemma ReachesSymmetric(edges: seq<Edge>, a: string, b: string, h: nat)
    requires Reaches(edges, a, b, h)
    ensures Reaches(edges, b, a, h)
  {
    var p :| WalkFrom(edges, p, a, b, h);
    var q := seq(h + 1, i requires 0 <= i <= h => p[h - i]);
    forall i | 0 <= i < h ensures Linked(edges, q[i], q[i + 1]) {
      assert Linked(edges, p[h - i - 1], p[h - i - 1 + 1]);
      var kind :| Joined(edges, p[h - i - 1], p[h - i], kind);
      assert Joined(edges, q[i], q[i + 1], kind);
    }
    assert WalkFrom(edges, q, b, a, h);
  }

  lemma DistanceSymmetric(edges: seq<Edge>, a: string, b: string, h: nat)
    ensures Distance(edges, a, b, h) <==> Distance(edges, b, a, h)
  {
    forall g: nat, x, y | Reaches(edges, x, y, g) ensures Reaches(edges, y, x, g) { ReachesSymmetric(edges, x, y, g); }
  }

  ghost predicate Within(edges: seq<Edge>, a: string, b: string, h: nat)
  {
    exists g: nat :: g <= h && Reaches(edges, a, b, g)
  }

  /** Distance h + 1 means: not within h hops, but next to a node at distance h. */
  lemma DistanceNext(edges: seq<Edge>, a: string, b: string, h: nat)
    ensures Distance(edges, a, b, h + 1) <==>
              !Within(edges, a, b, h) && exists c :: Distance(edges, a, c, h) && Linked(edges, c, b)
  {
    if Distance(edges, a, b, h + 1) {
      var c := ReachesBack(edges, a, b, h);
      if g: nat :| g < h && Reaches(edges, a, c, g) { ReachesStep(edges, a, c, b, g); }
    }
    if !Within(edges, a, b, h) && exists c :: Distance(edges, a, c, h) && Linked(edges, c, b) {
      var c :| Distance(edges, a, c, h) && Linked(edges, c, b);
      ReachesStep(edges, a, c, b, h);
    }
  }

  lemma WithinNext(edges: seq<Edge>, a: string, b: string, h: nat)
    ensures Within(edges, a, b, h + 1) <==> Within(edges, a, b, h) || Distance(edges, a, b, h + 1)
  {
    if Within(edges, a, b, h + 1) && !Within(edges, a, b, h) {
      assert Reaches(edges, a, b, h + 1);
    }
  }

  // ------------------------------------------------------------------ layer-by-layer search

  function NameSeq(hits: seq<Hit>): seq<string>
  {
    seq(|hits|, i requires 0 <= i < |hits| => hits[i].name)
  }

  function Names(hits: seq<Hit>): set<string> { set h | h in hits :: h.name }

  /** First sightings among the links of one node, in order. */
  function Discover(links: seq<Link>, hops: nat, seen: set<string>): seq<Hit>
  {
    if links == [] then []
    else if links[0].to in seen then Discover(links[1..], hops, seen)
    else [Hit(links[0].to, links[0].kind, hops)] + Discover(links[1..], hops, seen + {links[0].to})
  }

  function Expand(edges: seq<Edge>, layer: seq<string>, hops: nat, seen: set<string>): seq<Hit>
  {
    if layer == [] then []
    else
      var found := Discover(LinksOf(edges, layer[0]), hops, seen);
      found + Expand(edges, layer[1..], hops, seen + Names(found))
  }

  function Expander(edges: seq<Edge>): (Front, nat) -> seq<Hit>
  {
    (f: Front, hops: nat) => Expand(edges, f.layer, hops, f.seen)
  }

  function GoOn(): (Front, seq<Hit>) -> Front
  {
    (f: Front, hits: seq<Hit>) => Front(NameSeq(hits), f.seen + Names(hits))
  }

  /** `d` more layers beyond a layer that is `hops` away from the seed. */
  function Layers(edges: seq<Edge>, layer: seq<string>, hops: nat, seen: set<string>, d: nat): seq<Hit>
  {
    Hits(Expander(edges), GoOn(), Front(layer, seen), hops, d)
  }

  lemma LayersNext(edges: seq<Edge>, layer: seq<string>, hops: nat, seen: set<string>, d: nat, next: seq<Hit>)
    requires d > 0 && next == Expand(edges, layer, hops + 1, seen)
    ensures Layers(edges, layer, hops, seen, d) ==
              next + Layers(edges, NameSeq(next), hops + 1, seen + Names(next), d - 1)
  {
  }

  function Bfs(edges: seq<Edge>, seed: string, depth: nat): seq<Hit>
  {
    Layers(edges, [seed], 0, {seed}, depth)
  }

  // ------------------------------------------------------------------ what a layer holds

  /** New names only, each once, all at the same hop count. */
  ghost predicate FreshHits(hits: seq<Hit>, hops: nat, seen: set<string>)
  {
    && (forall i :: 0 <= i < |hits| ==> hits[i].hops == hops && hits[i].name !in seen)
    && (forall i, j :: 0 <= i < j < |hits| ==> hits[i].name != hits[j].name)
  }

  lemma FreshCons(hit: Hit, rest: seq<Hit>, hops: nat, seen: set<string>)
    requires hit.hops == hops && hit.name !in seen && FreshHits(rest, hops, seen + {hit.name})
    ensures FreshHits([hit] + rest, hops, seen)
  {
  }

  lemma {:induction false} DiscoverFresh(links: seq<Link>, hops: nat, seen: set<string>)
    ensures FreshHits(Discover(links, hops, seen), hops, seen)
  {
    if links != [] {
      var l := links[0];
      if l.to in seen {
        DiscoverFresh(links[1..], hops, seen);
      } else {
        DiscoverFresh(links[1..], hops, seen + {l.to});
        FreshCons(Hit(l.to, l.kind, hops), Discover(links[1..], hops, seen + {l.to}), hops, seen);
      }
    }
  }

  lemma {:induction false} DiscoverLinks(links: seq<Link>, hops: nat, seen: set<string>)
    ensures forall h :: h in Discover(links, hops, seen) ==> Link(h.name, h.via) in links
  {
    if links != [] {
      var l := links[0];
      DiscoverLinks(links[1..], hops, if l.to in seen then seen else seen + {l.to});
    }
  }

  lemma {:induction false} DiscoverCovers(links: seq<Link>, hops: nat, seen: set<string>, l: Link)
    requires l in links
    ensures l.to in seen || l.to in Names(Discover(links, hops, seen))
  {
    var first := links[0];
    if first.to in seen {
      if l != first { DiscoverCovers(links[1..], hops, seen, l); }
    } else {
      var hit, rest := Hit(first.to, first.kind, hops), Discover(links[1..], hops, seen + {first.to});
      NamesConcat([hit], rest);
      assert hit in [hit];
      if l != first { DiscoverCovers(links[1..], hops, seen + {first.to}, l); }
    }
  }

  lemma NamesConcat(xs: seq<Hit>, ys: seq<Hit>)
    ensures Names(xs + ys) == Names(xs) + Names(ys)
  {
  }

  lemma FreshConcat(xs: seq<Hit>, ys: seq<Hit>, hops: nat, seen: set<string>)
    requires FreshHits(xs, hops, seen) && FreshHits(ys, hops, seen + Names(xs))
    ensures FreshHits(xs + ys, hops, seen)
  {
    forall i, j | 0 <= i < |xs| && 0 <= j < |ys| ensures xs[i].name != ys[j].name {
      assert xs[i] in xs && xs[i].name in Names(xs);
    }
  }

  lemma {:induction false} ExpandFresh(edges: seq<Edge>, layer: seq<string>, hops: nat, seen: set<string>)
    ensures FreshHits(Expand(edges, layer, hops, seen), hops, seen)
    ensures forall h :: h in Expand(edges, layer, hops, seen) ==>
              exists c :: c in layer && Joined(edges, c, h.name, h.via)
    ensures forall c, b :: c in layer && Linked(edges, c, b) ==>
              b in seen || b in Names(Expand(edges, layer, hops, seen))
    decreases |layer|
  {
    if layer != [] {
      var links := LinksOf(edges, layer[0]);
      var found := Discover(links, hops, seen);
      var rest := Expand(edges, layer[1..], hops, seen + Names(found));
      DiscoverFresh(links, hops, seen);
      DiscoverLinks(links, hops, seen);
      ExpandFresh(edges, layer[1..], hops, seen + Names(found));
      FreshConcat(found, rest, hops, seen);
      NamesConcat(found, rest);
      forall h | h in found ensures Joined(edges, layer[0], h.name, h.via) {
        LinksAreJoined(edges, layer[0], h.name, h.via);
      }
      forall b | Linked(edges, layer[0], b) ensures b in seen || b in Names(found) {
        var kind :| Joined(edges, layer[0], b, kind);
        LinksAreJoined(edges, layer[0], b, kind);
        DiscoverCovers(links, hops, seen, Link(b, kind));
      }
    }
  }

  /** `layer` is the set of nodes at distance `hops`, `seen` those within it. */
  ghost predicate IsLayer(edges: seq<Edge>, seed: string, layer: seq<string>, hops: nat, seen: set<string>)
  {
    && (forall b :: b in layer <==> Distance(edges, seed, b, hops))
    && (forall b :: b in seen <==> Within(edges, seed, b, hops))
  }

  ghost predicate HitCorrect(edges: seq<Edge>, seed: string, hit: Hit)
  {
    && hit.hops >= 1 && Distance(edges, seed, hit.name, hit.hops)
    && exists c :: Distance(edges, seed, c, hit.hops - 1) && Joined(edges, c, hit.name, hit.via)
  }

  lemma NamesOf(hits: seq<Hit>, b: string)
    ensures b in NameSeq(hits) <==> b in Names(hits)
  {
    if b in Names(hits) {
      var i :| 0 <= i < |hits| && hits[i].name == b;
      assert NameSeq(hits)[i] == b;
    }
    if b in NameSeq(hits) {
      var i :| 0 <= i < |hits| && NameSeq(hits)[i] == b;
      assert hits[i] in hits && hits[i].name == b;
    }
  }

  lemma NextLayer(edges: seq<Edge>, seed: string, layer: seq<string>, hops: nat, seen: set<string>)
    requires IsLayer(edges, seed, layer, hops, seen)
    ensures var next := Expand(edges, layer, hops + 1, seen);
            && IsLayer(edges, seed, NameSeq(next), hops + 1, seen + Names(next))
            && forall hit :: hit in next ==> HitCorrect(edges, seed, hit)
  {
    var next := Expand(edges, layer, hops + 1, seen);
    ExpandFresh(edges, layer, hops + 1, seen);
    forall b ensures b in Names(next) <==> Distance(edges, seed, b, hops + 1) {
      DistanceNext(edges, seed, b, hops);
      if b in Names(next) {
        var hit :| hit in next && hit.name == b;
        var c :| c in layer && Joined(edges, c, b, hit.via);
        assert Linked(edges, c, b);
      }
    }
    forall b ensures b in NameSeq(next) <==> b in Names(next) { NamesOf(next, b); }
    forall b ensures b in seen + Names(next) <==> Within(edges, seed, b, hops + 1) { WithinNext(edges, seed, b, hops); }
    forall hit | hit in next ensures HitCorrect(edges, seed, hit) {
      assert hit.name in Names(next);
      var c :| c in layer && Joined(edges, c, hit.name, hit.via);
      assert Distance(edges, seed, c, hit.hops - 1);
    }
  }

  lemma FirstLayer(edges: seq<Edge>, seed: string)
    ensures IsLayer(edges, seed, [seed], 0, {seed})
  {
    forall b ensures Reaches(edges, seed, b, 0) <==> seed == b { ReachesZero(edges, seed, b); }
  }

  /** Hits come in non-decreasing hop order, each name once and none of them seen before. */
  ghost predicate Ordered(hits: seq<Hit>, hops: nat, seen: set<string>)
  {
    && (forall i :: 0 <= i < |hits| ==> hits[i].name !in seen && hits[i].hops > hops)
    && (forall i, j :: 0 <= i < j < |hits| ==> hits[i].name != hits[j].name && hits[i].hops <= hits[j].hops)
  }

  lemma OrderedConcat(next: seq<Hit>, rest: seq<Hit>, hops: nat, seen: set<string>)
    requires FreshHits(next, hops + 1, seen) && Ordered(rest, hops + 1, seen + Names(next))
    ensures Ordered(next + rest, hops, seen)
  {
    forall i, j | 0 <= i < |next| && 0 <= j < |rest| ensures next[i].name != rest[j].name {
      assert next[i] in next && next[i].name in Names(next);
    }
  }

  lemma ExpandIsFresh(edges: seq<Edge>, layer: seq<string>, hops: nat, seen: set<string>)
    ensures FreshHits(Expand(edges, layer, hops, seen), hops, seen)
  {
    ExpandFresh(edges, layer, hops, seen);
  }

  lemma {:induction false} LayersOrdered(edges: seq<Edge>, layer: seq<string>, hops: nat, seen: set<string>, d: nat)
    ensures Ordered(Layers(edges, layer, hops, seen, d), hops, seen)
    decreases d
  {
    if d > 0 {
      var next := Expand(edges, layer, hops + 1, seen);
      var rest := Layers(edges, NameSeq(next), hops + 1, seen + Names(next), d - 1);
      LayersNext(edges, layer, hops, seen, d, next);
      ExpandIsFresh(edges, layer, hops + 1, seen);
      LayersOrdered(edges, NameSeq(next), hops + 1, seen + Names(next), d - 1);
      OrderedConcat(next, rest, hops, seen);
    }
  }

  ghost predicate HopsWithin(hits: seq<Hit>, h: nat) { forall hit :: hit in hits ==> hit.hops <= h }

  lemma FreshWithin(next: seq<Hit>, rest: seq<Hit>, hops: nat, seen: set<string>, h: nat)
    requires FreshHits(next, hops, seen) && hops <= h && HopsWithin(rest, h)
    ensures HopsWithin(next + rest, h)
  {
  }

  lemma {:induction false} LayersHops(edges: seq<Edge>, layer: seq<string>, hops: nat, seen: set<string>, d: nat)
    ensures HopsWithin(Layers(edges, layer, hops, seen, d), hops + d)
    decreases d
  {
    if d > 0 {
      var next := Expand(edges, layer, hops + 1, seen);
      var rest := Layers(edges, NameSeq(next), hops + 1, seen + Names(next), d - 1);
      LayersNext(edges, layer, hops, seen, d, next);
      ExpandIsFresh(edges, layer, hops + 1, seen);
      LayersHops(edges, NameSeq(next), hops + 1, seen + Names(next), d - 1);
      FreshWithin(next, rest, hops + 1, seen, hops + d);
    }
  }

  ghost function IsFront(edges: seq<Edge>, seed: string): (Front, nat) -> bool
  {
    (f: Front, hops: nat) => IsLayer(edges, seed, f.layer, hops, f.seen)
  }

  lemma FrontsPass(edges: seq<Edge>, seed: string)
    ensures Passes(Expander(edges), GoOn(), IsFront(edges, seed))
  {
    forall g: Front, h: nat, h': nat {:trigger GoOn()(g, Expander(edges)(g, h')), IsFront(edges, seed)(g, h)}
      | h' == h + 1 && IsFront(edges, seed)(g, h)
      ensures IsFront(edges, seed)(GoOn()(g, Expander(edges)(g, h')), h')
    {
      NextLayer(edges, seed, g.layer, h, g.seen);
    }
  }

  lemma LayersCorrect(edges: seq<Edge>, seed: string, depth: nat, hit: Hit)
    requires hit in Bfs(edges, seed, depth)
    ensures HitCorrect(edges, seed, hit)
  {
    var ok := (hit: Hit) => HitCorrect(edges, seed, hit);
    FrontsPass(edges, seed);
    forall g: Front, h: nat, h': nat, hit: Hit
      | h' == h + 1 && IsFront(edges, seed)(g, h) && hit in Expander(edges)(g, h')
      ensures ok(hit)
    {
      NextLayer(edges, seed, g.layer, h, g.seen);
    }
    FirstLayer(edges, seed);
    AllHits(Expander(edges), GoOn(), IsFront(edges, seed), ok, Front([seed], {seed}), 0, depth, hit);
  }

  lemma NextCovers(edges: seq<Edge>, seed: string, f: Front, hops: nat, b: string)
    requires IsFront(edges, seed)(f, hops) && Distance(edges, seed, b, hops + 1)
    ensures exists hit :: hit in Expander(edges)(f, hops + 1) && hit.name == b
  {
    var next := Expand(edges, f.layer, hops + 1, f.seen);
    NextLayer(edges, seed, f.layer, hops, f.seen);
    NamesOf(next, b);
    var hit :| hit in next && hit.name == b;
  }

  lemma LayersCover(edges: seq<Edge>, seed: string, depth: nat, b: string, h: nat)
    requires 1 <= h <= depth && Distance(edges, seed, b, h)
    ensures b in Names(Bfs(edges, seed, depth))
  {
    var wanted := (b: string, h: nat) => Distance(edges, seed, b, h);
    var name := (hit: Hit) => hit.name;
    FrontsPass(edges, seed);
    forall g: Front, h: nat, h': nat, b: string | h' == h + 1 && IsFront(edges, seed)(g, h) && wanted(b, h')
      ensures exists hit :: hit in Expander(edges)(g, h') && name(hit) == b
    {
      NextCovers(edges, seed, g, h, b);
      var hit :| hit in Expander(edges)(g, h') && hit.name == b;
      assert name(hit) == b;
    }
    FirstLayer(edges, seed);
    var hit := WantedIsHit(Expander(edges), GoOn(), IsFront(edges, seed), name, wanted,
                           Front([seed], {seed}), 0, depth, b, h);
  }

  /** The search returns exactly the nodes at distance 1 to `depth`, each once, nearest first, with the true
      distance and the kind of a relation to a node one hop nearer the seed. */
  lemma BfsCorrect(edges: seq<Edge>, seed: string, depth: nat)
    ensures var hits := Bfs(edges, seed, depth);
            && (forall b :: b in Names(hits) <==> exists h: nat :: 1 <= h <= depth && Distance(edges, seed, b, h))
            && (forall hit :: hit in hits ==> HitCorrect(edges, seed, hit) && hit.hops <= depth)
            && Ordered(hits, 0, {seed})
  {
    FirstLayer(edges, seed);
    LayersOrdered(edges, [seed], 0, {seed}, depth);
    LayersHops(edges, [seed], 0, {seed}, depth);
    var hits := Bfs(edges, seed, depth);
    forall hit | hit in hits ensures HitCorrect(edges, seed, hit) {
      LayersCorrect(edges, seed, depth, hit);
    }
    forall b, h: nat | 1 <= h <= depth && Distance(edges, seed, b, h) ensures b in Names(hits) {
      LayersCover(edges, seed, depth, b, h);
    }
    forall b | b in Names(hits) ensures exists h: nat :: 1 <= h <= depth && Distance(edges, seed, b, h) {
      var hit :| hit in hits && hit.name == b;
      assert HitCorrect(edges, seed, hit) && Distance(edges, seed, b, hit.hops);
    }
  }

  lemma PrefixConcat(first: seq<Hit>, xs: seq<Hit>, ys: seq<Hit>)
    requires xs <= ys
    ensures first + xs <= first + ys
  {
  }

  lemma {:induction false} LayersPrefix(edges: seq<Edge>, layer: seq<string>, hops: nat, seen: set<string>, d: nat)
    ensures Layers(edges, layer, hops, seen, d) <= Layers(edges, layer, hops, seen, d + 1)
    decreases d
  {
    if d > 0 {
      var next := Expand(edges, layer, hops + 1, seen);
      LayersNext(edges, layer, hops, seen, d, next);
      LayersNext(edges, layer, hops, seen, d + 1, next);
      LayersPrefix(edges, NameSeq(next), hops + 1, seen + Names(next), d - 1);
      PrefixConcat(next, Layers(edges, NameSeq(next), hops + 1, seen + Names(next), d - 1),
                   Layers(edges, NameSeq(next), hops + 1, seen + Names(next), d));
    }
  }

  /** Searching deeper only appends. */
  lemma {:induction false} DeeperAppends(edges: seq<Edge>, seed: string, d: nat, e: nat)
    requires d <= e
    ensures Bfs(edges, seed, d) <= Bfs(edges, seed, e)
    decreases e - d
  {
    if d < e {
      LayersPrefix(edges, [seed], 0, {seed}, d);
      DeeperAppends(edges, seed, d + 1, e);
    }
  }

  ghost predicate FoundAt(edges: seq<Edge>, a: string, depth: nat, b: string, hops: nat)
  {
    exists hit :: hit in Bfs(edges, a, depth) && hit.name == b && hit.hops == hops
  }

  lemma FoundIffDistance(edges: seq<Edge>, a: string, depth: nat, b: string, hops: nat)
    ensures FoundAt(edges, a, depth, b, hops) <==> 1 <= hops <= depth && Distance(edges, a, b, hops)
  {
    BfsCorrect(edges, a, depth);
    if 1 <= hops <= depth && Distance(edges, a, b, hops) {
      assert b in Names(Bfs(edges, a, depth));
      var hit :| hit in Bfs(edges, a, depth) && hit.name == b;
      assert Reaches(edges, a, b, hit.hops) && Reaches(edges, a, b, hops);
    }
  }

  /** The pathfinder is symmetric. */
  lemma FoundSymmetric(edges: seq<Edge>, a: string, b: string, depth: nat, hops: nat)
    ensures FoundAt(edges, a, depth, b, hops) <==> FoundAt(edges, b, depth, a, hops)
  {
    FoundIffDistance(edges, a, depth, b, hops);
    FoundIffDistance(edges, b, depth, a, hops);
    DistanceSymmetric(edges, a, b, hops);
  }

  // ------------------------------------------------------------------ the queue algorithm

  function Get(adj: map<string, seq<Link>>, n: string): seq<Link> { if n in adj then adj[n] else [] }

  function QueueOf(names: seq<string>, hops: nat): seq<Item>
  {
    seq(|names|, i requires 0 <= i < |names| => Item(names[i], hops))
  }

  function Nodes(edges: seq<Edge>, seed: string): set<string>
  {
    {seed} + (set e | e in edges :: e.src) + (set e | e in edges :: e.dst)
  }

  lemma LinksStayInside(edges: seq<Edge>, seed: string, a: string, l: Link)
    requires l in LinksOf(edges, a)
    ensures l.to in Nodes(edges, seed)
  {
    LinksAreJoined(edges, a, l.to, l.kind);
    var i :| 0 <= i < |edges| && Joins(edges[i], a, l.to, l.kind);
    assert edges[i] in edges;
  }

  /** What the queue `cur` (at `hops`) followed by `nxt` (at `hops + 1`) still contributes. */
  function Remaining(edges: seq<Edge>, cur: seq<string>, nxt: seq<string>, hops: nat, seen: set<string>,
                     depth: nat): seq<Hit>
  {
    if hops >= depth then []
    else
      var rest := Expand(edges, cur, hops + 1, seen);
      rest + Layers(edges, nxt + NameSeq(rest), hops + 1, seen + Names(rest), depth - hops - 1)
  }

  lemma RemainingIs(edges: seq<Edge>, cur: seq<string>, nxt: seq<string>, hops: nat, seen: set<string>, depth: nat,
                    rest: seq<Hit>, layer: seq<string>, seen': set<string>)
    requires hops < depth && rest == Expand(edges, cur, hops + 1, seen)
    requires layer == nxt + NameSeq(rest) && seen' == seen + Names(rest)
    ensures Remaining(edges, cur, nxt, hops, seen, depth) ==
              rest + Layers(edges, layer, hops + 1, seen', depth - hops - 1)
  {
  }

  lemma RemainingTurns(edges: seq<Edge>, nxt: seq<string>, hops: nat, seen: set<string>, depth: nat)
    ensures Remaining(edges, [], nxt, hops, seen, depth) == Remaining(edges, nxt, [], hops + 1, seen, depth)
  {
    if hops < depth {
      NothingNew(nxt, seen);
      RemainingIs(edges, [], nxt, hops, seen, depth, [], nxt, seen);
      RemainingLayers(edges, nxt, hops + 1, seen, depth);
    }
  }

  /** A queue of one whole layer stands for the layers from there on. */
  lemma RemainingLayers(edges: seq<Edge>, layer: seq<string>, hops: nat, seen: set<string>, depth: nat)
    requires hops <= depth
    ensures Remaining(edges, layer, [], hops, seen, depth) == [] + Layers(edges, layer, hops, seen, depth - hops)
  {
    if hops < depth {
      var rest := Expand(edges, layer, hops + 1, seen);
      FirstNames(NameSeq(rest));
      RemainingIs(edges, layer, [], hops, seen, depth, rest, NameSeq(rest), seen + Names(rest));
      LayersNext(edges, layer, hops, seen, depth - hops, rest);
    }
  }

  lemma NothingNew(nxt: seq<string>, seen: set<string>)
    ensures nxt == nxt + NameSeq([]) && seen == seen + Names([])
  {
  }

  lemma FirstNames(names: seq<string>)
    ensures names == [] + names
  {
  }

  lemma NameSeqConcat(xs: seq<Hit>, ys: seq<Hit>)
    ensures NameSeq(xs + ys) == NameSeq(xs) + NameSeq(ys)
  {
  }

  lemma RemainingPops(edges: seq<Edge>, cur: seq<string>, nxt: seq<string>, hops: nat, seen: set<string>, depth: nat)
    requires cur != [] && hops < depth
    ensures var found := Discover(LinksOf(edges, cur[0]), hops + 1, seen);
            Remaining(edges, cur, nxt, hops, seen, depth) ==
              found + Remaining(edges, cur[1..], nxt + NameSeq(found), hops, seen + Names(found), depth)
  {
    var found := Discover(LinksOf(edges, cur[0]), hops + 1, seen);
    var rest := Expand(edges, cur[1..], hops + 1, seen + Names(found));
    var layer, seen' := nxt + NameSeq(found) + NameSeq(rest), seen + Names(found) + Names(rest);
    NameSeqConcat(found, rest);
    NamesConcat(found, rest);
    AssociativeNames(nxt, NameSeq(found), NameSeq(rest));
    var tail := Layers(edges, layer, hops + 1, seen', depth - hops - 1);
    RemainingIs(edges, cur, nxt, hops, seen, depth, found + rest, layer, seen');
    RemainingIs(edges, cur[1..], nxt + NameSeq(found), hops, seen + Names(found), depth, rest, layer, seen');
    Associative(found, rest, tail);
  }

  lemma AssociativeNames(xs: seq<string>, ys: seq<string>, zs: seq<string>)
    ensures xs + (ys + zs) == xs + ys + zs
  {
  }

  lemma PushBoth(adj: map<string, seq<Link>>, e: Edge, n: string)
    requires e.src != "" && e.dst != ""
    ensures var adj1 := adj[e.src := Get(adj, e.src) + [Link(e.dst, e.kind)]];
            Get(adj1[e.dst := Get(adj1, e.dst) + [Link(e.src, e.kind)]], n) == Get(adj, n) + Adds(e, n)
  {
  }

  lemma LinksOfNext(edges: seq<Edge>, i: nat, n: string)
    requires i < |edges|
    ensures LinksOf(edges[..i + 1], n) == LinksOf(edges[..i], n) + Adds(edges[i], n)
  {
    assert edges[..i + 1][..i] == edges[..i];
  }

  method BuildAdjacency(edges: seq<Edge>) returns (adj: map<string, seq<Link>>)
    ensures forall n :: Get(adj, n) == LinksOf(edges, n)
  {
    adj := map[];
    for i := 0 to |edges|
      invariant forall n :: Get(adj, n) == LinksOf(edges[..i], n)
    {
      var e := edges[i];
      ghost var before := adj;
      if e.src != "" && e.dst != "" {
        adj := adj[e.src := Get(adj, e.src) + [Link(e.dst, e.kind)]];
        adj := adj[e.dst := Get(adj, e.dst) + [Link(e.src, e.kind)]];
      }
      forall n ensures Get(adj, n) == LinksOf(edges[..i + 1], n) {
        LinksOfNext(edges, i, n);
        if e.src != "" && e.dst != "" { PushBoth(before, e, n); }
      }
    }
    assert edges[..|edges|] == edges;
  }

  method Neighbors(edges: seq<Edge>, seed: string, depth: nat) returns (out: seq<Hit>)
    ensures out == Bfs(edges, seed, if depth < MAX_TRAVERSE_DEPTH then depth else MAX_TRAVERSE_DEPTH)
  {
    out := Search(edges, seed, if depth < MAX_TRAVERSE_DEPTH then depth else MAX_TRAVERSE_DEPTH);
  }

  /** The queue holds the rest of one layer, then what is known of the next; together with the output so
      far they make up the whole answer. */
  ghost predicate Searching(edges: seq<Edge>, seed: string, depth: nat, q: seq<Item>, out: seq<Hit>,
                            seen: set<string>, cur: seq<string>, nxt: seq<string>, h: nat)
  {
    && q == QueueOf(cur, h) + QueueOf(nxt, h + 1)
    && out + Remaining(edges, cur, nxt, h, seen, depth) == Bfs(edges, seed, depth)
  }

  lemma SearchTurns(edges: seq<Edge>, seed: string, depth: nat, q: seq<Item>, out: seq<Hit>,
                    seen: set<string>, nxt: seq<string>, h: nat)
    requires Searching(edges, seed, depth, q, out, seen, [], nxt, h)
    ensures Searching(edges, seed, depth, q, out, seen, nxt, [], h + 1)
  {
    RemainingTurns(edges, nxt, h, seen, depth);
  }

  lemma SearchSkips(edges: seq<Edge>, seed: string, depth: nat, q: seq<Item>, out: seq<Hit>,
                    seen: set<string>, cur: seq<string>, nxt: seq<string>, h: nat)
    requires cur != [] && h >= depth && Searching(edges, seed, depth, q, out, seen, cur, nxt, h)
    ensures Searching(edges, seed, depth, q[1..], out, seen, cur[1..], nxt, h)
  {
  }

  lemma SearchFront(edges: seq<Edge>, seed: string, depth: nat, q: seq<Item>, out: seq<Hit>, seen: set<string>,
                    cur: seq<string>, nxt: seq<string>, h: nat)
    requires q != [] && cur != [] && Searching(edges, seed, depth, q, out, seen, cur, nxt, h)
    ensures q[0] == Item(cur[0], h)
  {
  }

  lemma SearchEnds(edges: seq<Edge>, seed: string, depth: nat, out: seq<Hit>, seen: set<string>,
                   cur: seq<string>, nxt: seq<string>, h: nat)
    requires Searching(edges, seed, depth, [], out, seen, cur, nxt, h)
    ensures out == Bfs(edges, seed, depth)
  {
    assert |cur| + |nxt| == |QueueOf(cur, h) + QueueOf(nxt, h + 1)| == 0;
    RemainingEmpty(edges, h, seen, depth);
    assert out + [] == out;
  }

  lemma QueueVisits(cur: seq<string>, nxt: seq<string>, names: seq<string>, h: nat)
    requires cur != []
    ensures (QueueOf(cur, h) + QueueOf(nxt, h + 1))[1..] + QueueOf(names, h + 1)
         == QueueOf(cur[1..], h) + QueueOf(nxt + names, h + 1)
  {
  }

  lemma OutputVisits(edges: seq<Edge>, depth: nat, out: seq<Hit>, seen: set<string>, cur: seq<string>, nxt: seq<string>,
                     h: nat, found: seq<Hit>)
    requires cur != [] && h < depth && found == Discover(LinksOf(edges, cur[0]), h + 1, seen)
    ensures out + Remaining(edges, cur, nxt, h, seen, depth) ==
              (out + found) + Remaining(edges, cur[1..], nxt + NameSeq(found), h, seen + Names(found), depth)
  {
    RemainingPops(edges, cur, nxt, h, seen, depth);
    Associative(out, found, Remaining(edges, cur[1..], nxt + NameSeq(found), h, seen + Names(found), depth));
  }

  lemma SearchVisits(edges: seq<Edge>, seed: string, depth: nat, q: seq<Item>, out: seq<Hit>, seen: set<string>,
                     cur: seq<string>, nxt: seq<string>, h: nat, found: seq<Hit>)
    requires cur != [] && h < depth && Searching(edges, seed, depth, q, out, seen, cur, nxt, h)
    requires found == Discover(LinksOf(edges, cur[0]), h + 1, seen)
    ensures Searching(edges, seed, depth, q[1..] + QueueOf(NameSeq(found), h + 1), out + found, seen + Names(found),
                      cur[1..], nxt + NameSeq(found), h)
  {
    OutputVisits(edges, depth, out, seen, cur, nxt, h, found);
    QueueVisits(cur, nxt, NameSeq(found), h);
  }

  lemma SearchVisited(edges: seq<Edge>, seed: string, depth: nat, q: seq<Item>, out: seq<Hit>, seen: set<string>,
                      cur: seq<string>, nxt: seq<string>, h: nat, found: seq<Hit>,
                      q1: seq<Item>, out1: seq<Hit>, seen1: set<string>, nxt1: seq<string>)
    requires cur != [] && h < depth && Searching(edges, seed, depth, q, out, seen, cur, nxt, h)
    requires found == Discover(LinksOf(edges, cur[0]), h + 1, seen)
    requires q1 == q[1..] + QueueOf(NameSeq(found), h + 1) && out1 == out + found
    requires seen1 == seen + Names(found) && nxt1 == nxt + NameSeq(found)
    ensures Searching(edges, seed, depth, q1, out1, seen1, cur[1..], nxt1, h)
  {
    SearchVisits(edges, seed, depth, q, out, seen, cur, nxt, h, found);
  }

  lemma Associative(xs: seq<Hit>, ys: seq<Hit>, zs: seq<Hit>)
    ensures xs + (ys + zs) == (xs + ys) + zs
  {
  }

  /** The search below the depth cap, for any depth. */
  method Search(edges: seq<Edge>, seed: string, depth: nat) returns (out: seq<Hit>)
    ensures out == Bfs(edges, seed, depth)
  {
    var adj := BuildAdjacency(edges);
    var seen: set<string> := {seed};
    var q: seq<Item> := [Item(seed, 0)];
    out := [];
    ghost var cur, nxt, h: nat := [seed], [], 0;
    RemainingStart(edges, seed, depth);
    while q != []
      invariant seen <= Nodes(edges, seed)
      invariant Searching(edges, seed, depth, q, out, seen, cur, nxt, h)
      decreases |Nodes(edges, seed) - seen| + |q|
    {
      if cur == [] {
        SearchTurns(edges, seed, depth, q, out, seen, nxt, h);
        cur, nxt, h := nxt, [], h + 1;
      }
      var Item(node, d) := q[0];
      SearchFront(edges, seed, depth, q, out, seen, cur, nxt, h);
      if d >= depth {
        SearchSkips(edges, seed, depth, q, out, seen, cur, nxt, h);
        q := q[1..];
        cur := cur[1..];
      } else {
        var links := Get(adj, node);
        ghost var found, q0, out0, seen0, nxt0 := Discover(links, d + 1, seen), q, out, seen, nxt;
        nxt := nxt + NameSeq(found);
        out, q, seen := Visit(edges, seed, node, d, links, out, q[1..], seen);
        SearchVisited(edges, seed, depth, q0, out0, seen0, cur, nxt0, d, found, q, out, seen, nxt);
        cur := cur[1..];
      }
    }
    SearchEnds(edges, seed, depth, out, seen, cur, nxt, h);
  }

  lemma RemainingStart(edges: seq<Edge>, seed: string, depth: nat)
    ensures Remaining(edges, [seed], [], 0, {seed}, depth) == Bfs(edges, seed, depth)
    ensures [Item(seed, 0)] == QueueOf([seed], 0) + QueueOf([], 1)
  {
    RemainingLayers(edges, [seed], 0, {seed}, depth);
  }

  lemma {:induction false} LayersEmpty(edges: seq<Edge>, hops: nat, seen: set<string>, d: nat)
    ensures Layers(edges, [], hops, seen, d) == []
    decreases d
  {
    if d > 0 {
      assert NameSeq([]) == [];
      LayersNext(edges, [], hops, seen, d, []);
      LayersEmpty(edges, hops + 1, seen + Names([]), d - 1);
    }
  }

  lemma RemainingEmpty(edges: seq<Edge>, hops: nat, seen: set<string>, depth: nat)
    ensures Remaining(edges, [], [], hops, seen, depth) == []
  {
    assert [] + NameSeq([]) == [];
    if hops < depth { LayersEmpty(edges, hops + 1, seen + Names([]), depth - hops - 1); }
  }

  lemma SightingAppends(out0: seq<Hit>, q0: seq<Item>, seen0: set<string>, found: seq<Hit>, hit: Hit)
    ensures out0 + found + [hit] == out0 + (found + [hit])
    ensures q0 + QueueOf(NameSeq(found), hit.hops) + [Item(hit.name, hit.hops)]
         == q0 + QueueOf(NameSeq(found + [hit]), hit.hops)
    ensures seen0 + Names(found) + {hit.name} == seen0 + Names(found + [hit])
  {
    NamesConcat(found, [hit]);
    assert hit in [hit];
    assert QueueOf(NameSeq(found + [hit]), hit.hops) == QueueOf(NameSeq(found), hit.hops) + [Item(hit.name, hit.hops)];
  }

  /** After `i` links: what was found so far is in all three places, and each find trades a node not yet seen for
      an item in the queue. */
  ghost predicate Visiting(nodes: set<string>, hops: nat, links: seq<Link>, i: nat, out0: seq<Hit>, q0: seq<Item>,
                           seen0: set<string>,
                           found: seq<Hit>, out: seq<Hit>, q: seq<Item>, seen: set<string>)
  {
    && i <= |links|
    && out == out0 + found && q == q0 + QueueOf(NameSeq(found), hops) && seen == seen0 + Names(found)
    && found + Discover(links[i..], hops, seen) == Discover(links, hops, seen0)
    && seen <= nodes && |nodes - seen| + |q| == |nodes - seen0| + |q0|
  }

  lemma VisitFinds(nodes: set<string>, hops: nat, links: seq<Link>, i: nat, out0: seq<Hit>, q0: seq<Item>,
                   seen0: set<string>,
                   found: seq<Hit>, out: seq<Hit>, q: seq<Item>, seen: set<string>, hit: Hit)
    requires Visiting(nodes, hops, links, i, out0, q0, seen0, found, out, q, seen) && i < |links|
    requires links[i].to !in seen && links[i].to in nodes && hit == Hit(links[i].to, links[i].kind, hops)
    ensures Visiting(nodes, hops, links, i + 1, out0, q0, seen0,
                     found + [hit], out + [hit], q + [Item(hit.name, hops)], seen + {hit.name})
  {
    assert links[i..][0] == links[i] && links[i..][1..] == links[i + 1..];
    assert nodes - (seen + {hit.name}) == (nodes - seen) - {hit.name};
    SightingAppends(out0, q0, seen0, found, hit);
    Associative(found, [hit], Discover(links[i + 1..], hops, seen + {hit.name}));
  }

  lemma VisitSkips(nodes: set<string>, hops: nat, links: seq<Link>, i: nat, out0: seq<Hit>, q0: seq<Item>,
                   seen0: set<string>,
                   found: seq<Hit>, out: seq<Hit>, q: seq<Item>, seen: set<string>)
    requires Visiting(nodes, hops, links, i, out0, q0, seen0, found, out, q, seen) && i < |links| && links[i].to in seen
    ensures Visiting(nodes, hops, links, i + 1, out0, q0, seen0, found, out, q, seen)
  {
    assert links[i..][0] == links[i] && links[i..][1..] == links[i + 1..];
  }

  lemma VisitStarts(nodes: set<string>, hops: nat, links: seq<Link>, out0: seq<Hit>, q0: seq<Item>, seen0: set<string>)
    requires seen0 <= nodes
    ensures Visiting(nodes, hops, links, 0, out0, q0, seen0, [], out0, q0, seen0)
  {
    assert links[0..] == links;
    assert QueueOf(NameSeq([]), hops) == [];
    assert [] + Discover(links, hops, seen0) == Discover(links, hops, seen0);
  }

  lemma VisitEnds(nodes: set<string>, hops: nat, links: seq<Link>, out0: seq<Hit>, q0: seq<Item>, seen0: set<string>,
                  found: seq<Hit>, out: seq<Hit>, q: seq<Item>, seen: set<string>)
    requires Visiting(nodes, hops, links, |links|, out0, q0, seen0, found, out, q, seen)
    ensures found == Discover(links, hops, seen0)
  {
    assert links[|links|..] == [] && found + [] == found;
  }

  /** The inner loop: the links of one popped node. */
  method Visit(edges: seq<Edge>, seed: string, node: string, d: nat, links: seq<Link>,
               out0: seq<Hit>, q0: seq<Item>, seen0: set<string>)
    returns (out: seq<Hit>, q: seq<Item>, seen: set<string>)
    requires links == LinksOf(edges, node) && seen0 <= Nodes(edges, seed)
    ensures var found := Discover(links, d + 1, seen0);
            && out == out0 + found && q == q0 + QueueOf(NameSeq(found), d + 1) && seen == seen0 + Names(found)
    ensures seen <= Nodes(edges, seed)
    ensures |Nodes(edges, seed) - seen| + |q| == |Nodes(edges, seed) - seen0| + |q0|
  {
    out, q, seen := out0, q0, seen0;
    ghost var found: seq<Hit> := [];
    ghost var nodes := Nodes(edges, seed);
    VisitStarts(nodes, d + 1, links, out, q, seen);
    for i := 0 to |links|
      invariant Visiting(nodes, d + 1, links, i, out0, q0, seen0, found, out, q, seen)
    {
      var l := links[i];
      if l.to !in seen {
        LinksStayInside(edges, seed, node, l);
        var hit := Hit(l.to, l.kind, d + 1);
        VisitFinds(nodes, d + 1, links, i, out0, q0, seen0, found, out, q, seen, hit);
        seen := seen + {l.to};
        out := out + [hit];
        q := q + [Item(l.to, d + 1)];
        found := found + [hit];
      } else {
        VisitSkips(nodes, d + 1, links, i, out0, q0, seen0, found, out, q, seen);
      }
    }
    VisitEnds(nodes, d + 1, links, out0, q0, seen0, found, out, q, seen);
  }
}
