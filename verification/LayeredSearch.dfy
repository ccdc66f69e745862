/** Layer-by-layer search with the expansion of one layer as a parameter: how the layers make up the answer. */
module LayeredSearch {
  datatype Front = Front(layer: seq<string>, seen: set<string>)

  /** `expand(f, h)` are the hits at `h` hops found from `f`, `after(f, hits)` what the search goes on from. */
  function Hits<H>(expand: (Front, nat) -> seq<H>, after: (Front, seq<H>) -> Front, f: Front, hops: nat, d: nat): seq<H>
    decreases d
  {
    if d == 0 then []
    else
      var next := expand(f, hops + 1);
      next + Hits(expand, after, after(f, next), hops + 1, d - 1)
  }

  /** The front `i` layers on. */
  function Level<H>(expand: (Front, nat) -> seq<H>, after: (Front, seq<H>) -> Front, f: Front, hops: nat, i: nat): Front
    decreases i
  {
    if i == 0 then f else Level(expand, after, after(f, expand(f, hops + 1)), hops + 1, i - 1)
  }

  /** The answer of depth `d` is made of the expansions of the first `d` fronts. */
  lemma {:induction false} HitIsInALevel<H>(expand: (Front, nat) -> seq<H>, after: (Front, seq<H>) -> Front, f: Front,
                                            hops: nat, d: nat, hit: H)
    returns (i: nat)
    requires hit in Hits(expand, after, f, hops, d)
    ensures i < d && hit in expand(Level(expand, after, f, hops, i), hops + i + 1)
    decreases d
  {
    var next := expand(f, hops + 1);
    if hit in next {
      i := 0;
    } else {
      i := HitIsInALevel(expand, after, after(f, next), hops + 1, d - 1, hit);
      i := i + 1;
    }
  }

  lemma {:induction false} LevelIsInHits<H>(expand: (Front, nat) -> seq<H>, after: (Front, seq<H>) -> Front, f: Front,
                                            hops: nat, d: nat, i: nat, hit: H)
    requires i < d && hit in expand(Level(expand, after, f, hops, i), hops + i + 1)
    ensures hit in Hits(expand, after, f, hops, d)
    decreases i
  {
    if i > 0 { LevelIsInHits(expand, after, after(f, expand(f, hops + 1)), hops + 1, d - 1, i - 1, hit); }
  }

  /** `inv` passes from every front to the next. */
  ghost predicate Passes<H(!new)>(expand: (Front, nat) -> seq<H>, after: (Front, seq<H>) -> Front,
                                  inv: (Front, nat) -> bool)
  {
    forall g: Front, h: nat, h': nat {:trigger after(g, expand(g, h')), inv(g, h)} ::
      h' == h + 1 && inv(g, h) ==> inv(after(g, expand(g, h')), h')
  }

  lemma {:induction false} LevelKeeps<H(!new)>(expand: (Front, nat) -> seq<H>, after: (Front, seq<H>) -> Front,
                                               inv: (Front, nat) -> bool,
                                               f: Front, hops: nat, i: nat)
    requires Passes(expand, after, inv) && inv(f, hops)
    ensures inv(Level(expand, after, f, hops, i), hops + i)
    decreases i
  {
    if i > 0 { LevelKeeps(expand, after, inv, after(f, expand(f, hops + 1)), hops + 1, i - 1); }
  }

  /** Every hit found from a front with `inv` is `ok`. */
  ghost predicate Yields<H(!new)>(expand: (Front, nat) -> seq<H>, inv: (Front, nat) -> bool, ok: H -> bool)
  {
    forall g: Front, h: nat, h': nat, hit: H {:trigger inv(g, h), hit in expand(g, h')} ::
      h' == h + 1 && inv(g, h) && hit in expand(g, h') ==> ok(hit)
  }

  lemma AllHits<H(!new)>(expand: (Front, nat) -> seq<H>, after: (Front, seq<H>) -> Front, inv: (Front, nat) -> bool,
                         ok: H -> bool,
                         f: Front, hops: nat, d: nat, hit: H)
    requires Passes(expand, after, inv) && Yields(expand, inv, ok) && inv(f, hops)
    requires hit in Hits(expand, after, f, hops, d)
    ensures ok(hit)
  {
    var i := HitIsInALevel(expand, after, f, hops, d, hit);
    LevelKeeps(expand, after, inv, f, hops, i);
  }

  /** Whatever is wanted at the next hop is found from a front with `inv`. */
  ghost predicate Finds<H(!new)>(expand: (Front, nat) -> seq<H>, inv: (Front, nat) -> bool, name: H -> string,
                                 wanted: (string, nat) -> bool)
  {
    forall g: Front, h: nat, h': nat, b: string {:trigger inv(g, h), wanted(b, h')} ::
      h' == h + 1 && inv(g, h) && wanted(b, h') ==> exists hit :: hit in expand(g, h') && name(hit) == b
  }

  lemma WantedIsHit<H(!new)>(expand: (Front, nat) -> seq<H>, after: (Front, seq<H>) -> Front, inv: (Front, nat) -> bool,
                             name: H -> string, wanted: (string, nat) -> bool,
                             f: Front, hops: nat, d: nat, b: string, h: nat) returns (hit: H)
    requires Passes(expand, after, inv) && Finds(expand, inv, name, wanted) && inv(f, hops)
    requires hops < h <= hops + d && wanted(b, h)
    ensures hit in Hits(expand, after, f, hops, d) && name(hit) == b
  {
    var i := h - hops - 1;
    var g := Level(expand, after, f, hops, i);
    LevelKeeps(expand, after, inv, f, hops, i);
    assert inv(g, h - 1) && wanted(b, h);
    hit :| hit in expand(g, h) && name(hit) == b;
    LevelIsInHits(expand, after, f, hops, d, i, hit);
  }
}
