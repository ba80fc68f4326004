/**
 The half-edge arena of the hull: a recycling pool of edge slots and one ring of edges per vertex
 (crates/cspace-bullet/src/convex_hull_computer.rs:672-800, 1056-1101, 1149-1201, 1745-1761, 1919-1931, 1974-2064).

 A slot is in exactly one of three places: on the free list, in the ring of its source vertex, or pending
 (created, not yet linked into a ring).
 */
module HalfEdges {
  import opened GridSort

  /** No vertex, edge or face. */
  const NIL: int := -1

  datatype Vertex = Vertex(next: int, prev: int, edges: int, point: Point32, copy: int)

  datatype InternalEdge = InternalEdge(next: int, prev: int, reverse: int, target: int, face: int, copy: int)

  const ZERO := InternalEdge(NIL, NIL, NIL, NIL, NIL, 0)

  /** `e.next = n; n.prev = e`. */
  function LinkEdges(edges: seq<InternalEdge>, e: int, n: int): seq<InternalEdge>
    requires 0 <= e < |edges| && 0 <= n < |edges|
  {
    var half := edges[e := edges[e].(next := n)];
    half[n := half[n].(prev := e)]
  }

  // ---- one ring ----------------------------------------------------------

  function Succ(i: nat, n: nat): nat { if i + 1 < n then i + 1 else 0 }
  function Pred(i: nat, n: nat): nat requires n > 0 { if i > 0 then i - 1 else n - 1 }

  predicate Paired(edges: seq<InternalEdge>, e: int) {
    && 0 <= e < |edges|
    && 0 <= edges[e].reverse < |edges| && edges[e].reverse != e
    && edges[edges[e].reverse].reverse == e
  }

  /** The vertex an edge leaves: the target of its reverse. */
  function Source(edges: seq<InternalEdge>, e: int): int {
    if 0 <= e < |edges| && 0 <= edges[e].reverse < |edges| then edges[edges[e].reverse].target else NIL
  }

  ghost predicate Distinct(s: seq<nat>) { forall i, j :: 0 <= i < j < |s| ==> s[i] != s[j] }

  /** The edges of `ring` all leave `v`, with their reverses in order. */
  ghost predicate Leaving(edges: seq<InternalEdge>, v: int, ring: seq<nat>) {
    && Distinct(ring)
    && (forall i :: 0 <= i < |ring| ==> Paired(edges, ring[i]) && Source(edges, ring[i]) == v)
  }

  /** `next` and `prev` of the `i`-th edge are its neighbours on the ring. */
  ghost predicate LinkedAt(edges: seq<InternalEdge>, ring: seq<nat>, i: nat)
    requires i < |ring|
  {
    && ring[i] < |edges|
    && edges[ring[i]].next == ring[Succ(i, |ring|)] && edges[ring[i]].prev == ring[Pred(i, |ring|)]
  }

  /** `next` and `prev` run around `ring`, inverse to each other. */
  ghost predicate Cyclic(edges: seq<InternalEdge>, ring: seq<nat>) {
    forall i :: 0 <= i < |ring| ==> LinkedAt(edges, ring, i)
  }

  ghost predicate RingOf(edges: seq<InternalEdge>, v: int, ring: seq<nat>) {
    Leaving(edges, v, ring) && Cyclic(edges, ring)
  }

  /** The same ring read from position `i`. */
  function Rotated(ring: seq<nat>, i: nat): (r: seq<nat>)
    requires i <= |ring|
  {
    ring[i..] + ring[..i]
  }

  lemma RotatedMembers(ring: seq<nat>, i: nat)
    requires i <= |ring|
    ensures |Rotated(ring, i)| == |ring|
    ensures forall x :: x in Rotated(ring, i) <==> x in ring
    ensures Distinct(ring) ==> Distinct(Rotated(ring, i))
  {
    assert ring == ring[..i] + ring[i..];
  }

  /** A ring read from another of its edges is the same ring. */
  lemma RotatedRing(edges: seq<InternalEdge>, v: int, ring: seq<nat>, i: nat)
    requires RingOf(edges, v, ring) && i < |ring|
    ensures RingOf(edges, v, Rotated(ring, i))
  {
    RotatedMembers(ring, i);
    RotatedCyclic(edges, ring, i);
    var r := Rotated(ring, i);
    forall k | 0 <= k < |r| ensures Paired(edges, r[k]) && Source(edges, r[k]) == v {
      assert r[k] == ring[if k + i < |ring| then k + i else k + i - |ring|];
    }
  }

  lemma RotatedCyclic(edges: seq<InternalEdge>, ring: seq<nat>, i: nat)
    requires Cyclic(edges, ring) && i < |ring|
    ensures Cyclic(edges, Rotated(ring, i))
  {
    var r := Rotated(ring, i);
    forall k | 0 <= k < |r| ensures LinkedAt(edges, r, k) {
      var j := if k + i < |ring| then k + i else k + i - |ring|;
      assert r[k] == ring[j] && LinkedAt(edges, ring, j);
      assert r[Succ(k, |r|)] == ring[Succ(j, |ring|)] && r[Pred(k, |r|)] == ring[Pred(j, |ring|)];
    }
  }

  /** Dropping the first edge of a ring: its neighbours now point at each other. */
  lemma WithoutFirst(edges: seq<InternalEdge>, v: int, ring: seq<nat>, edges': seq<InternalEdge>)
    requires RingOf(edges, v, ring) && |ring| > 0
    requires |ring| == 1 ==> edges' == edges
    requires |ring| > 1 ==> ring[|ring| - 1] < |edges| && ring[1] < |edges|
    requires |ring| > 1 ==> edges' == LinkEdges(edges, ring[|ring| - 1], ring[1])
    ensures RingOf(edges', v, ring[1..])
  {
    var rest := ring[1..];
    if |ring| > 1 {
      forall k | 0 <= k < |rest|
        ensures Paired(edges', rest[k]) && Source(edges', rest[k]) == v && LinkedAt(edges', rest, k)
      {
        assert rest[k] == ring[k + 1] && LinkedAt(edges, ring, k + 1);
        assert Paired(edges, ring[k + 1]) && Source(edges, ring[k + 1]) == v;
      }
    }
  }

  /** A ring depends on the links of its own edges and on the pairing and target of their reverses. */
  lemma RingFrame(edges: seq<InternalEdge>, edges': seq<InternalEdge>, v: int, ring: seq<nat>)
    requires RingOf(edges, v, ring) && |edges| <= |edges'|
    requires forall i :: 0 <= i < |ring| ==>
      (var e := ring[i];
       && e < |edges| && 0 <= edges[e].reverse < |edges|
       && edges'[e].next == edges[e].next && edges'[e].prev == edges[e].prev && edges'[e].reverse == edges[e].reverse
       && edges'[edges[e].reverse].reverse == e && edges'[edges[e].reverse].target == edges[edges[e].reverse].target)
    ensures RingOf(edges', v, ring)
  {
    forall i | 0 <= i < |ring|
      ensures Paired(edges', ring[i]) && Source(edges', ring[i]) == v && LinkedAt(edges', ring, i)
    {
      assert Paired(edges, ring[i]) && Source(edges, ring[i]) == v && LinkedAt(edges, ring, i);
    }
  }

  // ---- the whole arena ---------------------------------------------------

  ghost predicate FreeList(edges: seq<InternalEdge>, head: int, free: seq<nat>) {
    && Distinct(free)
    && head == (if free == [] then NIL else free[0])
    && (forall k :: 0 <= k < |free| ==> free[k] < |edges| && edges[free[k]].reverse == NIL)
    && (forall k :: 0 <= k < |free| ==> NextFree(edges, free, k))
  }

  ghost predicate NextFree(edges: seq<InternalEdge>, free: seq<nat>, k: nat)
    requires k < |free| && free[k] < |edges|
  {
    edges[free[k]].next == (if k + 1 < |free| then free[k + 1] else NIL)
  }

  ghost predicate Heads(verts: seq<Vertex>, rings: seq<seq<nat>>) {
    && |rings| == |verts|
    && (forall v :: 0 <= v < |verts| ==> verts[v].edges == if rings[v] == [] then NIL else rings[v][0])
  }

  ghost predicate Rings(edges: seq<InternalEdge>, rings: seq<seq<nat>>) {
    && (forall v :: 0 <= v < |rings| ==> RingOf(edges, v, rings[v]))
    && (forall v, i :: 0 <= v < |rings| && 0 <= i < |rings[v]| ==> 0 <= edges[rings[v][i]].target < |rings|)
  }

  /** The edge is in the ring of its source. */
  ghost predicate Linked(edges: seq<InternalEdge>, rings: seq<seq<nat>>, e: int) {
    0 <= e < |edges| && 0 <= Source(edges, e) < |rings| && e in rings[Source(edges, e)]
  }

  /** Every slot is free, pending or in its source's ring, and a pending slot is neither of the others. */
  ghost predicate Placed(edges: seq<InternalEdge>, free: seq<nat>, rings: seq<seq<nat>>, pending: set<nat>) {
    && (forall e :: 0 <= e < |edges| ==> e in free || e in pending || Linked(edges, rings, e))
    && (forall e :: e in pending ==> e < |edges| && e !in free && !Linked(edges, rings, e))
  }

  ghost predicate Arena(verts: seq<Vertex>, edges: seq<InternalEdge>, head: int,
                        free: seq<nat>, rings: seq<seq<nat>>, pending: set<nat>) {
    && FreeList(edges, head, free)
    && Heads(verts, rings)
    && Rings(edges, rings)
    && Placed(edges, free, rings, pending)
  }

  ghost function IndexOf(ring: seq<nat>, e: nat): (i: nat)
    requires e in ring
    ensures i < |ring| && ring[i] == e
  {
    var i :| 0 <= i < |ring| && ring[i] == e; i
  }

  /** The ring without `e`, read from the edge after it. */
  ghost function After(ring: seq<nat>, e: nat): seq<nat>
    requires e in ring
  {
    Rotated(ring, IndexOf(ring, e))[1..]
  }

  lemma AfterMembers(ring: seq<nat>, e: nat)
    requires e in ring && Distinct(ring)
    ensures |After(ring, e)| == |ring| - 1 && Distinct(After(ring, e))
    ensures forall x :: x in After(ring, e) <==> x in ring && x != e
  {
    var i := IndexOf(ring, e);
    var r := Rotated(ring, i);
    RotatedMembers(ring, i);
    assert r[0] == e && r == [e] + r[1..];
    assert Distinct(r[1..]) by { assert forall k :: 0 <= k < |r| - 1 ==> r[1..][k] == r[k + 1]; }
    assert e !in r[1..] by { assert forall k :: 0 <= k < |r| - 1 ==> r[1..][k] == r[k + 1] != r[0]; }
  }

  /** The edges after one half has been unlinked from its ring. */
  function Unlinked(edges: seq<InternalEdge>, e: int): seq<InternalEdge>
    requires 0 <= e < |edges|
  {
    if edges[e].next != e && 0 <= edges[e].next < |edges| && 0 <= edges[e].prev < |edges| then LinkEdges(edges, edges[e].prev, edges[e].next) else edges
  }

  lemma RingNeighbours(edges: seq<InternalEdge>, v: int, ring: seq<nat>, e: nat)
    requires RingOf(edges, v, ring) && e in ring
    ensures e < |edges| && 0 <= edges[e].next < |edges| && 0 <= edges[e].prev < |edges|
    ensures edges[e].next in ring && edges[e].prev in ring
    ensures edges[e].next == e <==> |ring| == 1
    ensures RingOf(Unlinked(edges, e), v, After(ring, e))
    ensures edges[e].next == (if |ring| == 1 then e else After(ring, e)[0])
  {
    var i := IndexOf(ring, e);
    var r := Rotated(ring, i);
    RotatedMembers(ring, i);
    RotatedRing(edges, v, ring, i);
    assert r[0] == e && LinkedAt(edges, r, 0);
    assert LinkedAt(edges, r, Succ(0, |r|)) && LinkedAt(edges, r, |r| - 1);
    assert |r| > 1 ==> r[1] != r[0];
    WithoutFirst(edges, v, r, Unlinked(edges, e));
  }

  // ---- unlinking one half ------------------------------------------------

  /** Only the two neighbours are rewritten, and only in `next` and `prev`. */
  lemma UnlinkedFields(edges: seq<InternalEdge>, v: int, ring: seq<nat>, e: nat)
    requires RingOf(edges, v, ring) && e in ring && e < |edges|
    ensures |Unlinked(edges, e)| == |edges|
    ensures forall x :: 0 <= x < |edges| && x !in ring ==> Unlinked(edges, e)[x] == edges[x]
    ensures forall x :: 0 <= x < |edges| ==> SameButLinks(edges[x], Unlinked(edges, e)[x])
    ensures Unlinked(edges, e)[e] == edges[e]
  {
    RingNeighbours(edges, v, ring, e);
    var i := IndexOf(ring, e);
    assert LinkedAt(edges, ring, i);
  }

  predicate SameButLinks(a: InternalEdge, b: InternalEdge) {
    a.reverse == b.reverse && a.target == b.target && a.face == b.face && a.copy == b.copy
  }

  lemma FreeFrame(edges: seq<InternalEdge>, edges': seq<InternalEdge>, head: int, free: seq<nat>)
    requires FreeList(edges, head, free) && |edges| <= |edges'|
    requires forall k :: 0 <= k < |free| ==> edges'[free[k]] == edges[free[k]]
    ensures FreeList(edges', head, free)
  {
    forall k | 0 <= k < |free| ensures NextFree(edges', free, k) {
      assert NextFree(edges, free, k);
    }
  }

  /** Taking `e` out of its ring keeps every other ring and leaves `e` pending. */
  lemma UnlinkKeeps(verts: seq<Vertex>, edges: seq<InternalEdge>, head: int, free: seq<nat>, rings: seq<seq<nat>>,
                    pending: set<nat>, e: nat)
    requires Arena(verts, edges, head, free, rings, pending) && Linked(edges, rings, e)
    ensures 0 <= edges[e].next < |edges| && 0 <= edges[e].prev < |edges| && e !in pending
    ensures var v := Source(edges, e);
            Arena(verts[v := verts[v].(edges := if edges[e].next != e then edges[e].next else NIL)],
                  Unlinked(edges, e), head, free, rings[v := After(rings[v], e)], pending + {e})
  {
    var v := Source(edges, e);
    var ring := rings[v];
    RingNeighbours(edges, v, ring, e);
    UnlinkedFields(edges, v, ring, e);
    AfterMembers(ring, e);
    var edges', rings' := Unlinked(edges, e), rings[v := After(ring, e)];
    forall k | 0 <= k < |free| ensures edges'[free[k]] == edges[free[k]] {
      assert free[k] in ring ==> Paired(edges, free[k]);
    }
    FreeFrame(edges, edges', head, free);
    UnlinkKeepsRings(edges, edges', rings, v, e);
    UnlinkPlaces(edges, edges', free, rings, pending, v, e);
  }

  lemma HeadsLength(verts: seq<Vertex>, rings: seq<seq<nat>>)
    requires Heads(verts, rings)
    ensures |verts| == |rings|
  {}

  lemma UnlinkFacts(edges: seq<InternalEdge>, rings: seq<seq<nat>>, e: nat)
    requires Rings(edges, rings) && Linked(edges, rings, e)
    ensures 0 <= Source(edges, e) < |rings| && e in rings[Source(edges, e)] && e < |edges|
    ensures 0 <= edges[e].reverse < |edges|
    ensures forall x :: 0 <= x < |edges| ==> SameButLinks(edges[x], Unlinked(edges, e)[x])
    ensures var v := Source(edges, e);
            var ring := After(rings[v], e);
            && (edges[e].next == e <==> ring == [])
            && (ring != [] ==> edges[e].next == ring[0] && 0 <= edges[e].next < |edges| && 0 <= edges[e].prev < |edges|)
            && (forall x :: Linked(Unlinked(edges, e), rings[v := ring], x) <==> Linked(edges, rings, x) && x != e)
  {
    hide Unlinked, After, RingOf, SameButLinks;
    var v := Source(edges, e);
    LinkedIsPaired(edges, rings, e);
    RingIsThere(edges, rings, v);
    RingNeighbours(edges, v, rings[v], e);
    AfterMembers(rings[v], e);
    UnlinkedFields(edges, v, rings[v], e);
    SameSources(edges, Unlinked(edges, e));
  }

  lemma RingIsThere(edges: seq<InternalEdge>, rings: seq<seq<nat>>, v: nat)
    requires Rings(edges, rings) && v < |rings|
    ensures RingOf(edges, v, rings[v]) && Distinct(rings[v])
  {}

  lemma SameSources(edges: seq<InternalEdge>, edges': seq<InternalEdge>)
    requires |edges'| == |edges| && forall x :: 0 <= x < |edges| ==> SameButLinks(edges[x], edges'[x])
    ensures forall x :: Source(edges', x) == Source(edges, x)
  {}

  lemma UnlinkKeepsRings(edges: seq<InternalEdge>, edges': seq<InternalEdge>, rings: seq<seq<nat>>, v: nat, e: nat)
    requires Rings(edges, rings) && v < |rings| && e in rings[v]
    requires |edges'| == |edges| && RingOf(edges', v, After(rings[v], e))
    requires forall x :: 0 <= x < |edges| && x !in rings[v] ==> edges'[x] == edges[x]
    requires forall x :: 0 <= x < |edges| ==> SameButLinks(edges[x], edges'[x])
    ensures Rings(edges', rings[v := After(rings[v], e)])
  {
    var rings' := rings[v := After(rings[v], e)];
    AfterMembers(rings[v], e);
    forall u | 0 <= u < |rings| && u != v ensures RingOf(edges', u, rings[u]) {
      forall i | 0 <= i < |rings[u]|
        ensures rings[u][i] < |edges| && rings[u][i] !in rings[v] && Paired(edges, rings[u][i])
      {
        assert Source(edges, rings[u][i]) == u;
      }
      RingFrame(edges, edges', u, rings[u]);
    }
    forall u, i | 0 <= u < |rings'| && 0 <= i < |rings'[u]| ensures 0 <= edges'[rings'[u][i]].target < |rings| {
      var x := rings'[u][i];
      assert x in rings'[u];
      assert x in rings[u];
      assert RingOf(edges', u, rings'[u]);
      assert Paired(edges', x);
    }
  }

  lemma UnlinkPlaces(edges: seq<InternalEdge>, edges': seq<InternalEdge>, free: seq<nat>, rings: seq<seq<nat>>,
                     pending: set<nat>, v: nat, e: nat)
    requires Placed(edges, free, rings, pending) && v < |rings| && e < |edges| && Source(edges, e) == v && e in rings[v]
    requires Distinct(rings[v]) && e !in free
    requires |edges'| == |edges| && forall x :: 0 <= x < |edges| ==> SameButLinks(edges[x], edges'[x])
    ensures Placed(edges', free, rings[v := After(rings[v], e)], pending + {e})
  {
    AfterMembers(rings[v], e);
    forall x | 0 <= x < |edges| ensures Source(edges', x) == Source(edges, x) {}
  }

  // ---- the pool ----------------------------------------------------------

  /** A block of `size` fresh slots, linked in ascending order. */
  function Block(base: nat, size: nat): (b: seq<InternalEdge>)
  {
    seq(size, k => InternalEdge(if k + 1 < size then base + k + 1 else NIL, NIL, NIL, NIL, NIL, 0))
  }

  function Ascending(base: nat, size: nat): seq<nat> { seq(size, k requires k >= 0 => base + k) }

  /** The free list once a block has been carved, if one has to be. */
  function Stocked(free: seq<nat>, base: nat, size: nat): seq<nat> {
    if free == [] then Ascending(base, size) else free
  }

  function Grown(edges: seq<InternalEdge>, free: seq<nat>, size: nat): seq<InternalEdge> {
    if free == [] then edges + Block(|edges|, size) else edges
  }

  lemma RingMembers(edges: seq<InternalEdge>, rings: seq<seq<nat>>)
    requires Rings(edges, rings)
    ensures forall u, x :: 0 <= u < |rings| && x in rings[u] ==> Paired(edges, x) && Source(edges, x) == u
  {
    forall u, x | 0 <= u < |rings| && x in rings[u] ensures Paired(edges, x) && Source(edges, x) == u {
      assert RingOf(edges, u, rings[u]);
      assert rings[u][IndexOf(rings[u], x)] == x;
    }
  }

  lemma NoCarve(edges: seq<InternalEdge>, free: seq<nat>, size: nat)
    ensures free != [] ==> Stocked(free, |edges|, size) == free && Grown(edges, free, size) == edges
  {}

  lemma GrownKeeps(verts: seq<Vertex>, edges: seq<InternalEdge>, rings: seq<seq<nat>>, pending: set<nat>, size: nat)
    requires size > 0 && Arena(verts, edges, NIL, [], rings, pending)
    ensures Arena(verts, Grown(edges, [], size), |edges|, Stocked([], |edges|, size), rings, pending)
    ensures forall x :: Linked(Grown(edges, [], size), rings, x) <==> Linked(edges, rings, x)
    ensures forall x :: Linked(edges, rings, x) ==> 0 <= x < |edges|
  {
    var edges', free' := Grown(edges, [], size), Ascending(|edges|, size);
    forall u | 0 <= u < |rings| ensures RingOf(edges', u, rings[u]) {
      forall i | 0 <= i < |rings[u]| ensures rings[u][i] < |edges| && Paired(edges, rings[u][i]) {}
      RingFrame(edges, edges', u, rings[u]);
    }
    forall u, i | 0 <= u < |rings| && 0 <= i < |rings[u]| ensures 0 <= edges'[rings[u][i]].target < |rings| {
      assert RingOf(edges, u, rings[u]);
      assert Paired(edges, rings[u][i]);
    }
    forall x | 0 <= x < |edges'| ensures x in free' || x in pending || Linked(edges', rings, x) {
      if x < |edges| {
        assert x in pending || Linked(edges, rings, x);
      } else {
        assert free'[x - |edges|] == x;
      }
    }
    RingMembers(edges, rings);
  }

  lemma PopFreeList(edges: seq<InternalEdge>, head: int, free: seq<nat>)
    requires FreeList(edges, head, free) && |free| > 0
    ensures FreeList(edges[head := ZERO], edges[head].next, free[1..])
  {
    var edges', rest := edges[head := ZERO], free[1..];
    forall k | 0 <= k < |rest|
      ensures rest[k] == free[k + 1] && rest[k] < |edges| && rest[k] != head && edges'[rest[k]] == edges[rest[k]]
      ensures edges[rest[k]].reverse == NIL && NextFree(edges', rest, k)
    {
      assert free[0] != free[k + 1];
      assert NextFree(edges, free, k + 1);
      assert k + 1 < |rest| ==> rest[k + 1] == free[k + 2];
    }
    assert NextFree(edges, free, 0);
  }

  lemma FreeHead(edges: seq<InternalEdge>, head: int, free: seq<nat>)
    requires FreeList(edges, head, free)
    ensures head == NIL <==> free == []
    ensures head == if free == [] then NIL else free[0]
  {}

  /** Popping the head of the free list makes the slot pending. */
  lemma PopKeeps(verts: seq<Vertex>, edges: seq<InternalEdge>, head: int, free: seq<nat>, rings: seq<seq<nat>>,
                 pending: set<nat>)
    requires Arena(verts, edges, head, free, rings, pending) && |free| > 0
    ensures 0 <= head < |edges| && head == free[0]
    ensures Arena(verts, edges[head := ZERO], edges[head].next, free[1..], rings, pending + {head})
    ensures head !in pending && !Linked(edges[head := ZERO], rings, head)
    ensures forall x :: Linked(edges[head := ZERO], rings, x) <==> Linked(edges, rings, x)
    ensures forall x :: Linked(edges, rings, x) ==> edges[x].reverse != head
  {
    var edges' := edges[head := ZERO];
    FreeUnused(edges, head, free, rings);
    OverwriteKeepsRings(edges, edges', {head}, rings);
    PopFreeList(edges, head, free);
    forall x | 0 <= x < |edges| && x != head
      ensures x in free[1..] || x in pending || Linked(edges', rings, x)
      ensures x in pending ==> x !in free[1..] && !Linked(edges', rings, x)
    {
      assert free == [free[0]] + free[1..];
    }
  }

  /** A free slot is in no ring and is no ring edge's reverse. */
  lemma FreeUnused(edges: seq<InternalEdge>, head: int, free: seq<nat>, rings: seq<seq<nat>>)
    requires FreeList(edges, head, free) && Rings(edges, rings)
    ensures forall k :: 0 <= k < |free| ==> free[k] < |edges|
    ensures forall u, i :: 0 <= u < |rings| && 0 <= i < |rings[u]| ==> rings[u][i] !in free
    ensures forall u, x :: 0 <= u < |rings| && x in rings[u] ==> x !in free
    ensures forall u, i :: 0 <= u < |rings| && 0 <= i < |rings[u]| ==>
              rings[u][i] < |edges| && edges[rings[u][i]].reverse !in free
  {
    forall u, i | 0 <= u < |rings| && 0 <= i < |rings[u]|
      ensures rings[u][i] < |edges| && rings[u][i] !in free && edges[rings[u][i]].reverse !in free
    {
      assert RingOf(edges, u, rings[u]);
      assert Paired(edges, rings[u][i]);
    }
  }

  /** Overwriting slots that no ring uses keeps the rings. */
  lemma OverwriteKeepsRings(edges: seq<InternalEdge>, edges': seq<InternalEdge>, changed: set<int>, rings: seq<seq<nat>>)
    requires |edges| == |edges'| && Rings(edges, rings)
    requires forall x :: 0 <= x < |edges| && x !in changed ==> edges'[x] == edges[x]
    requires forall u, i :: 0 <= u < |rings| && 0 <= i < |rings[u]| ==>
               rings[u][i] < |edges| && rings[u][i] !in changed && edges[rings[u][i]].reverse !in changed
    ensures Rings(edges', rings)
    ensures forall x :: Linked(edges', rings, x) <==> Linked(edges, rings, x)
    ensures forall x :: x in changed ==> !Linked(edges', rings, x)
  {
    forall u | 0 <= u < |rings| ensures RingOf(edges', u, rings[u]) {
      forall i | 0 <= i < |rings[u]| ensures Paired(edges, rings[u][i]) { assert RingOf(edges, u, rings[u]); }
      RingFrame(edges, edges', u, rings[u]);
    }
    forall u, x | 0 <= u < |rings| && x in rings[u]
      ensures Source(edges, x) == u && Source(edges', x) == u && x !in changed
    {
      var i := IndexOf(rings[u], x);
      assert RingOf(edges, u, rings[u]) && RingOf(edges', u, rings[u]);
    }
  }

  /** Writing to pending slots that no ring edge is paired with. */
  lemma PendingWrites(verts: seq<Vertex>, edges: seq<InternalEdge>, edges': seq<InternalEdge>, head: int, free: seq<nat>,
                      rings: seq<seq<nat>>, pending: set<nat>, changed: set<int>)
    requires Arena(verts, edges, head, free, rings, pending) && |edges'| == |edges|
    requires forall x :: x in changed ==> x in pending
    requires forall x :: 0 <= x < |edges| && x !in changed ==> edges'[x] == edges[x]
    requires forall x :: 0 <= x < |edges| && Linked(edges, rings, x) ==> edges[x].reverse !in changed
    ensures Arena(verts, edges', head, free, rings, pending)
    ensures forall x :: Linked(edges', rings, x) <==> Linked(edges, rings, x)
  {
    RingEdgesAreLinked(edges, rings);
    OverwriteKeepsRings(edges, edges', changed, rings);
    FreeFrame(edges, edges', head, free);
  }

  /** Relinking pending slots, whatever they are paired with. */
  lemma PendingLinks(verts: seq<Vertex>, edges: seq<InternalEdge>, edges': seq<InternalEdge>, head: int, free: seq<nat>,
                     rings: seq<seq<nat>>, pending: set<nat>, changed: set<int>)
    requires Arena(verts, edges, head, free, rings, pending) && |edges'| == |edges|
    requires forall x :: x in changed ==> x in pending
    requires forall x :: 0 <= x < |edges| && x !in changed ==> edges'[x] == edges[x]
    requires forall x :: 0 <= x < |edges| ==> SameButLinks(edges[x], edges'[x])
    ensures Arena(verts, edges', head, free, rings, pending)
    ensures forall x :: Linked(edges', rings, x) <==> Linked(edges, rings, x)
  {
    SameSources(edges, edges');
    FreeFrame(edges, edges', head, free);
    forall v | 0 <= v < |rings| ensures RingOf(edges', v, rings[v]) {
      PendingNotLinked(edges, free, rings, pending, v);
      RelinkedRing(edges, edges', v, rings[v], changed);
    }
  }

  lemma RelinkedRing(edges: seq<InternalEdge>, edges': seq<InternalEdge>, v: int, ring: seq<nat>, changed: set<int>)
    requires RingOf(edges, v, ring) && |edges'| == |edges| && forall x :: x in ring ==> x !in changed
    requires forall x :: 0 <= x < |edges| && x !in changed ==> edges'[x] == edges[x]
    requires forall x :: 0 <= x < |edges| ==> SameButLinks(edges[x], edges'[x])
    ensures RingOf(edges', v, ring)
  {
    forall i | 0 <= i < |ring|
      ensures Paired(edges', ring[i]) && Source(edges', ring[i]) == v && LinkedAt(edges', ring, i)
    {
      assert Paired(edges, ring[i]) && Source(edges, ring[i]) == v && LinkedAt(edges, ring, i);
      assert ring[i] in ring;
    }
  }

  /** Pushing a pending slot that no ring uses. */
  lemma PushKeeps(verts: seq<Vertex>, edges: seq<InternalEdge>, head: int, free: seq<nat>, rings: seq<seq<nat>>,
                  pending: set<nat>, e: nat)
    requires Arena(verts, edges, head, free, rings, pending) && e in pending && e < |edges|
    requires forall u, i :: 0 <= u < |rings| && 0 <= i < |rings[u]| ==>
               rings[u][i] < |edges| && edges[rings[u][i]].reverse != e
    ensures Arena(verts, edges[e := InternalEdge(head, NIL, NIL, NIL, NIL, edges[e].copy)], e, [e] + free, rings, pending - {e})
    ensures forall x :: Linked(edges[e := InternalEdge(head, NIL, NIL, NIL, NIL, edges[e].copy)], rings, x) <==>
                        Linked(edges, rings, x)
  {
    var edges' := edges[e := InternalEdge(head, NIL, NIL, NIL, NIL, edges[e].copy)];
    forall u, i | 0 <= u < |rings| && 0 <= i < |rings[u]| ensures rings[u][i] != e {
      assert RingOf(edges, u, rings[u]);
      assert rings[u][i] in rings[u] && Source(edges, rings[u][i]) == u;
    }
    OverwriteKeepsRings(edges, edges', {e}, rings);
    var free' := [e] + free;
    assert FreeList(edges', e, free') by {
      assert forall k :: 0 < k < |free'| ==> free'[k] == free[k - 1] != e;
      forall k | 0 <= k < |free'| ensures NextFree(edges', free', k) {
        assert k > 0 ==> NextFree(edges, free, k - 1);
      }
    }
    forall x | 0 <= x < |edges|
      ensures x in free' || x in pending - {e} || Linked(edges', rings, x)
      ensures x in pending - {e} ==> x !in free' && !Linked(edges', rings, x)
    {}
  }

  ghost function Without(rings: seq<seq<nat>>, v: int, e: int): seq<seq<nat>> {
    if 0 <= v < |rings| && 0 <= e && e in rings[v] then rings[v := After(rings[v], e)] else rings
  }

  lemma RingEdgesAreLinked(edges: seq<InternalEdge>, rings: seq<seq<nat>>)
    requires Rings(edges, rings)
    ensures forall u, i :: 0 <= u < |rings| && 0 <= i < |rings[u]| ==> Linked(edges, rings, rings[u][i])
  {
    forall u, i | 0 <= u < |rings| && 0 <= i < |rings[u]| ensures Linked(edges, rings, rings[u][i]) {
      assert RingOf(edges, u, rings[u]);
      assert Paired(edges, rings[u][i]) && Source(edges, rings[u][i]) == u;
    }
  }

  lemma LinkedIsPaired(edges: seq<InternalEdge>, rings: seq<seq<nat>>, e: int)
    requires Rings(edges, rings) && Linked(edges, rings, e)
    ensures Paired(edges, e)
  {
    assert RingOf(edges, Source(edges, e), rings[Source(edges, e)]);
    assert rings[Source(edges, e)][IndexOf(rings[Source(edges, e)], e)] == e;
  }

  lemma VertexKeeps(verts: seq<Vertex>, edges: seq<InternalEdge>, head: int, free: seq<nat>, rings: seq<seq<nat>>,
                    pending: set<nat>)
    requires Arena(verts, edges, head, free, rings, pending)
    ensures Arena(verts + [Vertex(NIL, NIL, NIL, Point32(0, 0, 0, -1), -1)], edges, head, free, rings + [[]], pending)
  {
    forall x ensures Linked(edges, rings + [[]], x) <==> Linked(edges, rings, x) {}
  }

  // ---- linking pending edges in ------------------------------------------

  /** A pending edge of `v` that a ring of `v` may take up. */
  ghost predicate Ready(edges: seq<InternalEdge>, pending: set<nat>, n: nat, v: int, x: nat) {
    x in pending && Paired(edges, x) && Source(edges, x) == v && 0 <= edges[x].target < n
  }

  /** What stays pending once `chain` is linked in. */
  ghost function Left(pending: set<nat>, chain: seq<nat>): set<nat> {
    set x | x in pending && x !in chain
  }

  /** Relinking one ring around itself and some pending edges of the same vertex. */
  lemma InsertKeeps(verts: seq<Vertex>, edges: seq<InternalEdge>, edges': seq<InternalEdge>, head: int, free: seq<nat>,
                    rings: seq<seq<nat>>, pending: set<nat>, v: nat, ring: seq<nat>)
    requires Arena(verts, edges, head, free, rings, pending) && v < |rings| && |edges'| == |edges|
    requires forall x :: 0 <= x < |edges| ==> SameButLinks(edges[x], edges'[x])
    requires forall x :: 0 <= x < |edges| && x !in ring ==> edges'[x] == edges[x]
    requires Distinct(ring) && Cyclic(edges', ring) && |ring| > 0
    requires forall x :: x in rings[v] ==> x in ring
    requires forall x :: x in ring ==> x in rings[v] || Ready(edges, pending, |rings|, v, x)
    ensures Arena(verts[v := verts[v].(edges := ring[0])], edges', head, free, rings[v := ring],
                  Left(pending, ring))
  {
    hide FreeList, Placed, Left, Succ, Pred;
    var rings' := rings[v := ring];
    FreeUnused(edges, head, free, rings);
    RingEdgesAreLinked(edges, rings);
    PlacedPending(edges, free, rings, pending);
    assert forall k :: 0 <= k < |free| ==> free[k] in free;
    forall k | 0 <= k < |free| ensures edges'[free[k]] == edges[free[k]] {
      assert free[k] !in ring;
    }
    FreeFrame(edges, edges', head, free);
    forall x | x in ring ensures Paired(edges, x) && Source(edges, x) == v && 0 <= edges[x].target < |rings| {
      if x in rings[v] {
        var i := IndexOf(rings[v], x);
        assert Linked(edges, rings, rings[v][i]);
        LinkedIsPaired(edges, rings, x);
      }
    }
    forall i | 0 <= i < |ring| ensures Paired(edges', ring[i]) && Source(edges', ring[i]) == v {
      assert ring[i] in ring;
    }
    assert RingOf(edges', v, ring);
    forall u | 0 <= u < |rings| && u != v ensures RingOf(edges', u, rings[u]) {
      forall i | 0 <= i < |rings[u]| ensures rings[u][i] < |edges| && rings[u][i] !in ring && Paired(edges, rings[u][i]) {
        assert Linked(edges, rings, rings[u][i]);
        assert RingOf(edges, u, rings[u]);
        assert Source(edges, rings[u][i]) == u;
      }
      RingFrame(edges, edges', u, rings[u]);
    }
    forall u, i | 0 <= u < |rings'| && 0 <= i < |rings'[u]| ensures 0 <= edges'[rings'[u][i]].target < |rings| {
      assert rings'[u][i] in rings'[u];
      assert RingOf(edges', u, rings'[u]);
      assert Paired(edges', rings'[u][i]);
    }
    InsertPlaces(edges, edges', free, rings, pending, v, ring);
  }

  lemma PlacedPending(edges: seq<InternalEdge>, free: seq<nat>, rings: seq<seq<nat>>, pending: set<nat>)
    requires Placed(edges, free, rings, pending)
    ensures forall x :: x in pending ==> x !in free
  {}

  lemma InsertPlaces(edges: seq<InternalEdge>, edges': seq<InternalEdge>, free: seq<nat>, rings: seq<seq<nat>>,
                     pending: set<nat>, v: nat, ring: seq<nat>)
    requires Placed(edges, free, rings, pending) && v < |rings| && |edges'| == |edges|
    requires forall x :: 0 <= x < |edges| ==> SameButLinks(edges[x], edges'[x])
    requires forall x :: x in rings[v] ==> x in ring
    requires forall x :: x in ring ==> x < |edges| && Source(edges, x) == v
    ensures Placed(edges', free, rings[v := ring], Left(pending, ring))
  {
    forall x | 0 <= x < |edges| ensures Source(edges', x) == Source(edges, x) {}
  }

  /** `next` and `prev` run along `chain`, open at both ends. */
  ghost predicate Chained(edges: seq<InternalEdge>, chain: seq<nat>) {
    && (forall k :: 0 <= k < |chain| ==> chain[k] < |edges|)
    && (forall k :: 0 < k < |chain| ==> ChainedAt(edges, chain, k))
  }

  ghost predicate ChainedAt(edges: seq<InternalEdge>, chain: seq<nat>, k: nat)
    requires 0 < k < |chain| && chain[k] < |edges| && chain[k - 1] < |edges|
  {
    edges[chain[k - 1]].next == chain[k] && edges[chain[k]].prev == chain[k - 1]
  }

  /** Closing a chain on itself makes it a ring, read from any of its edges. */
  lemma ChainCloses(edges: seq<InternalEdge>, chain: seq<nat>, j: nat)
    requires Chained(edges, chain) && Distinct(chain) && j < |chain|
    ensures chain[|chain| - 1] < |edges| && chain[0] < |edges|
    ensures Cyclic(LinkEdges(edges, chain[|chain| - 1], chain[0]), Rotated(chain, j))
  {
    var n := |chain|;
    var edges' := LinkEdges(edges, chain[n - 1], chain[0]);
    LinkFields(edges, chain[n - 1], chain[0]);
    hide LinkEdges;
    forall i | 0 <= i < n ensures LinkedAt(edges', chain, i) {
      assert i > 0 ==> ChainedAt(edges, chain, i);
      assert i + 1 < n ==> ChainedAt(edges, chain, i + 1);
    }
    RotatedCyclic(edges', chain, j);
  }

  lemma LinkFields(edges: seq<InternalEdge>, e: int, n: int)
    requires 0 <= e < |edges| && 0 <= n < |edges|
    ensures |LinkEdges(edges, e, n)| == |edges|
    ensures forall x :: 0 <= x < |edges| ==>
              && LinkEdges(edges, e, n)[x].next == (if x == e then n else edges[x].next)
              && LinkEdges(edges, e, n)[x].prev == (if x == n then e else edges[x].prev)
  {}

  /** The ring with a chain put in after position `i`. */
  function Spliced(ring: seq<nat>, chain: seq<nat>, i: nat): seq<nat>
    requires i < |ring|
  {
    ring[..i + 1] + chain + ring[i + 1..]
  }

  lemma SplicedAt(ring: seq<nat>, chain: seq<nat>, i: nat)
    requires i < |ring|
    ensures |Spliced(ring, chain, i)| == |ring| + |chain|
    ensures forall k :: 0 <= k <= i ==> Spliced(ring, chain, i)[k] == ring[k]
    ensures forall k :: i < k <= i + |chain| ==> Spliced(ring, chain, i)[k] == chain[k - i - 1]
    ensures forall k :: i + |chain| < k < |ring| + |chain| ==> Spliced(ring, chain, i)[k] == ring[k - |chain|]
  {}

  lemma SplicedMembers(ring: seq<nat>, chain: seq<nat>, i: nat)
    requires i < |ring| && Distinct(ring) && Distinct(chain) && forall x :: x in chain ==> x !in ring
    ensures Distinct(Spliced(ring, chain, i))
    ensures forall x :: x in Spliced(ring, chain, i) <==> x in ring || x in chain
  {
    assert ring == ring[..i + 1] + ring[i + 1..];
    assert forall x :: x in Spliced(ring, chain, i) <==> (x in ring[..i + 1] || x in ring[i + 1..]) || x in chain;
    SplicedAt(ring, chain, i);
    hide Spliced;
    var r, n := Spliced(ring, chain, i), |chain|;
    forall a, b | 0 <= a < b < |r| ensures r[a] != r[b] {
      if a <= i < b <= i + n {
        assert chain[b - i - 1] in chain && ring[a] in ring;
      } else if i < a <= i + n < b {
        assert chain[a - i - 1] in chain && ring[b - n] in ring;
      }
    }
  }

  /** Two links rewrite two successors and two predecessors. */
  ghost predicate Relinked(edges: seq<InternalEdge>, edges': seq<InternalEdge>, p: int, first: int, last: int, next: int) {
    && |edges'| == |edges|
    && (forall x :: 0 <= x < |edges| ==>
          && edges'[x].next == (if x == p then first else if x == last then next else edges[x].next)
          && edges'[x].prev == (if x == first then p else if x == next then last else edges[x].prev))
  }

  lemma SpliceFields(edges: seq<InternalEdge>, p: int, first: int, last: int, next: int)
    requires 0 <= p < |edges| && 0 <= first < |edges| && 0 <= last < |edges| && 0 <= next < |edges|
    requires p != last && first != next
    ensures Relinked(edges, LinkEdges(LinkEdges(edges, p, first), last, next), p, first, last, next)
  {}

  /** Splicing a chain in after position `i`. */
  lemma ChainSplices(edges: seq<InternalEdge>, ring: seq<nat>, chain: seq<nat>, i: nat)
    requires Cyclic(edges, ring) && Chained(edges, chain) && i < |ring| && |chain| > 0
    requires Distinct(Spliced(ring, chain, i))
    ensures ring[i] < |edges| && chain[|chain| - 1] < |edges| && chain[0] < |edges| && ring[Succ(i, |ring|)] < |edges|
    ensures Cyclic(LinkEdges(LinkEdges(edges, ring[i], chain[0]), chain[|chain| - 1], ring[Succ(i, |ring|)]),
                   Spliced(ring, chain, i))
  {
    var m, n := |ring|, |chain|;
    assert LinkedAt(edges, ring, i) && LinkedAt(edges, ring, Succ(i, m));
    var r := Spliced(ring, chain, i);
    SplicedAt(ring, chain, i);
    hide Spliced;
    var p, first, last, next := ring[i], chain[0], chain[n - 1], ring[Succ(i, m)];
    var edges' := LinkEdges(LinkEdges(edges, p, first), last, next);
    assert p != last && first != next by {
      assert r[i] == p && r[i + n] == last && r[i + 1] == first;
      assert next == if i + 1 < m then r[i + 1 + n] else r[0];
    }
    SpliceFields(edges, p, first, last, next);
    hide LinkEdges, Distinct, LinkedAt;
    forall k | 0 <= k < m + n ensures LinkedAt(edges', r, k) {
      if i < k <= i + n {
        SplicedInChain(edges, edges', ring, chain, i, k - i - 1);
      } else {
        SplicedInRing(edges, edges', ring, chain, i, if k <= i then k else k - n);
      }
    }
  }

  lemma SplicedInChain(edges: seq<InternalEdge>, edges': seq<InternalEdge>, ring: seq<nat>, chain: seq<nat>, i: nat, c: nat)
    requires i < |ring| && c < |chain| && Cyclic(edges, ring) && Chained(edges, chain)
    requires Distinct(Spliced(ring, chain, i)) && i + 1 + c < |Spliced(ring, chain, i)|
    requires Relinked(edges, edges', ring[i], chain[0], chain[|chain| - 1], ring[Succ(i, |ring|)])
    ensures LinkedAt(edges', Spliced(ring, chain, i), i + 1 + c)
  {
    var m, n := |ring|, |chain|;
    var r := Spliced(ring, chain, i);
    SplicedAt(ring, chain, i);
    hide Spliced;
    assert c > 0 ==> ChainedAt(edges, chain, c);
    assert c + 1 < n ==> ChainedAt(edges, chain, c + 1);
    var k := i + 1 + c;
    var t := if i + 1 < m then i + 1 + n else 0;
    assert r[k] == chain[c] && r[i] == ring[i] && r[i + 1] == chain[0] && r[i + n] == chain[n - 1];
    assert r[t] == ring[Succ(i, m)];
    assert r[k] != r[i] && r[k] != r[t] && (r[k] == r[i + 1] ==> c == 0) && (r[k] == r[i + n] ==> c == n - 1);
    hide Distinct;
    assert Succ(k, m + n) == if c + 1 < n then k + 1 else t;
  }

  lemma SplicedInRing(edges: seq<InternalEdge>, edges': seq<InternalEdge>, ring: seq<nat>, chain: seq<nat>, i: nat, j: nat)
    requires i < |ring| && j < |ring| && |chain| > 0 && Cyclic(edges, ring) && Chained(edges, chain)
    requires Distinct(Spliced(ring, chain, i)) && |Spliced(ring, chain, i)| == |ring| + |chain|
    requires Relinked(edges, edges', ring[i], chain[0], chain[|chain| - 1], ring[Succ(i, |ring|)])
    ensures LinkedAt(edges', Spliced(ring, chain, i), if j <= i then j else j + |chain|)
  {
    var m, n := |ring|, |chain|;
    var r := Spliced(ring, chain, i);
    SplicedAt(ring, chain, i);
    hide Spliced;
    assert LinkedAt(edges, ring, j);
    assert r[i + 1] == chain[0] && r[i + n] == chain[n - 1];
    var k := if j <= i then j else j + n;
    assert r[k] == ring[j];
    var t := Succ(i, m);
    var q := if t <= i then t else t + n;
    assert r[i] == ring[i] && r[q] == ring[t];
    assert r[k] == r[i] ==> k == i;
    assert r[k] == r[q] ==> k == q;
    assert r[k] != r[i + 1] && r[k] != r[i + n];
    hide Distinct;
    assert r[Succ(k, m + n)] == (if j == i then chain[0] else ring[Succ(j, m)]);
    assert r[Pred(k, m + n)] == (if j == Succ(i, m) then chain[n - 1] else ring[Pred(j, m)]);
  }

  /** A chain of pending edges of `v`, ready to be linked in. */
  ghost predicate Spliceable(edges: seq<InternalEdge>, pending: set<nat>, n: nat, v: int, chain: seq<nat>) {
    && |chain| > 0 && Distinct(chain) && Chained(edges, chain)
    && forall x :: x in chain ==> Ready(edges, pending, n, v, x)
  }

  lemma SingleReady(edges: seq<InternalEdge>, pending: set<nat>, n: nat, v: int, e: nat)
    requires Ready(edges, pending, n, v, e)
    ensures Spliceable(edges, pending, n, v, [e])
  {}

  /** The pending edges of `v` in the order of `next`, with the two ends the merge remembers; no edges, no ends. */
  ghost predicate PendingList(edges: seq<InternalEdge>, pending: set<nat>, n: nat, v: int, chain: seq<nat>, first: int, last: int) {
    if chain == [] then first == NIL && last == NIL
    else Spliceable(edges, pending, n, v, chain) && first == chain[0] && last == chain[|chain| - 1]
  }

  /** Two lists of different vertices have no edge in common. */
  lemma ListsApart(edges: seq<InternalEdge>, pending: set<nat>, n: nat, v: int, w: int, p: seq<nat>, q: seq<nat>)
    requires v != w && (p != [] ==> Spliceable(edges, pending, n, v, p)) && (q != [] ==> Spliceable(edges, pending, n, w, q))
    ensures forall x :: x in p ==> x !in q
    ensures forall x :: x in p || x in q ==> x in pending
    ensures p != [] && q != [] ==> p[0] != q[|q| - 1]
  {
    forall x | x in p ensures x !in q {
      assert Source(edges, x) == v;
    }
    assert p != [] ==> p[0] in p;
    assert q != [] ==> q[|q| - 1] in q;
  }

  lemma NewReady(edges: seq<InternalEdge>, pending: set<nat>, n: nat, v: int, e: nat)
    requires e in pending && e < |edges| && 0 <= edges[e].reverse < |edges| && edges[e].reverse != e
    requires edges[edges[e].reverse].reverse == e && edges[edges[e].reverse].target == v && 0 <= edges[e].target < n
    ensures Ready(edges, pending, n, v, e)
  {}

  lemma ListEnds(edges: seq<InternalEdge>, pending: set<nat>, n: nat, v: int, chain: seq<nat>, first: int, last: int)
    requires PendingList(edges, pending, n, v, chain, first, last)
    ensures chain == [] ==> first == NIL && last == NIL
    ensures chain != [] ==> Spliceable(edges, pending, n, v, chain) && first == chain[0] && last == chain[|chain| - 1]
    ensures chain != [] ==> 0 <= first < |edges| && 0 <= last < |edges|
    ensures chain != [] ==> forall k :: 0 < k < |chain| ==> chain[k] != first
    ensures chain != [] ==> forall k :: 0 <= k < |chain| - 1 ==> chain[k] != last
  {}

  /** Edges keep being ready while only links change and new edges take slots nothing was paired with. */
  lemma ListReady(edges: seq<InternalEdge>, edges': seq<InternalEdge>, pending: set<nat>, pending': set<nat>, n: nat, v: int,
                  chain: seq<nat>, fresh': set<int>)
    requires chain == [] || Spliceable(edges, pending, n, v, chain)
    requires |edges| <= |edges'| && pending <= pending'
    requires forall x :: 0 <= x < |edges| && x !in fresh' ==> SameButLinks(edges[x], edges'[x])
    requires forall x :: 0 <= x < |edges| && x in fresh' ==> edges[x].reverse == NIL
    ensures forall x :: x in chain ==> x < |edges| && SameButLinks(edges[x], edges'[x]) && Ready(edges', pending', n, v, x)
  {
    forall x | x in chain ensures x < |edges| && SameButLinks(edges[x], edges'[x]) && Ready(edges', pending', n, v, x) {
      assert Ready(edges, pending, n, v, x);
      assert edges[x].reverse !in fresh' && x !in fresh';
    }
  }

  /** A new edge in front of a list: it points on to the old first edge, which points back. */
  lemma Prepended(edges: seq<InternalEdge>, edges': seq<InternalEdge>, pending: set<nat>, pending': set<nat>, n: nat,
                  v: int, chain: seq<nat>, e: nat)
    requires (chain == [] || Spliceable(edges, pending, n, v, chain)) && |edges| <= |edges'| && pending <= pending'
    requires e !in pending && Ready(edges', pending', n, v, e)
    requires forall x :: x in chain ==> x < |edges| && SameButLinks(edges[x], edges'[x])
    requires forall x :: x in chain ==> Ready(edges', pending', n, v, x)
    requires forall k :: 0 < k < |chain| ==> edges'[chain[k]] == edges[chain[k]]
    requires chain != [] ==> edges'[chain[0]].next == edges[chain[0]].next
    requires chain != [] ==> edges'[e].next == chain[0] && edges'[chain[0]].prev == e
    ensures Spliceable(edges', pending', n, v, [e] + chain)
  {
    var r := [e] + chain;
    assert forall x :: x in chain ==> x in pending;
    forall k | 0 < k < |r| ensures ChainedAt(edges', r, k) {
      if k > 1 { assert ChainedAt(edges, chain, k - 1); }
    }
  }

  /** A new edge behind a list: the old last edge points on to it, and it points back. */
  lemma Appended(edges: seq<InternalEdge>, edges': seq<InternalEdge>, pending: set<nat>, pending': set<nat>, n: nat,
                 v: int, chain: seq<nat>, e: nat)
    requires (chain == [] || Spliceable(edges, pending, n, v, chain)) && |edges| <= |edges'| && pending <= pending'
    requires e !in pending && Ready(edges', pending', n, v, e)
    requires forall x :: x in chain ==> x < |edges| && SameButLinks(edges[x], edges'[x])
    requires forall x :: x in chain ==> Ready(edges', pending', n, v, x)
    requires forall k :: 0 <= k < |chain| - 1 ==> edges'[chain[k]] == edges[chain[k]]
    requires chain != [] ==> edges'[chain[|chain| - 1]].prev == edges[chain[|chain| - 1]].prev
    requires chain != [] ==> edges'[e].prev == chain[|chain| - 1] && edges'[chain[|chain| - 1]].next == e
    ensures Spliceable(edges', pending', n, v, chain + [e])
  {
    var r := chain + [e];
    assert forall x :: x in chain ==> x in pending;
    forall k | 0 < k < |r| ensures ChainedAt(edges', r, k) {
      if k < |chain| { assert ChainedAt(edges, chain, k); }
    }
  }

  /** The writes that file a new pair in front of one list and behind another. */
  function Bridged(edges: seq<InternalEdge>, e: nat, r: nat, tail0: int, tail1: int): seq<InternalEdge>
    requires e < |edges| && r < |edges| && NIL <= tail0 < |edges| && NIL <= tail1 < |edges|
  {
    var a := if tail0 != NIL then edges[tail0 := edges[tail0].(prev := e)] else edges;
    var b := a[e := a[e].(next := tail0)];
    var c := if tail1 != NIL then b[tail1 := b[tail1].(next := r)] else b;
    c[r := c[r].(prev := tail1)]
  }

  lemma BridgedFields(edges: seq<InternalEdge>, e: nat, r: nat, tail0: int, tail1: int)
    requires e < |edges| && r < |edges| && NIL <= tail0 < |edges| && NIL <= tail1 < |edges|
    requires e != r && e != tail0 && e != tail1 && r != tail0 && r != tail1 && (tail0 != NIL ==> tail0 != tail1)
    ensures var b := Bridged(edges, e, r, tail0, tail1);
            && |b| == |edges| && b[e] == edges[e].(next := tail0) && b[r] == edges[r].(prev := tail1)
            && (forall x :: 0 <= x < |edges| ==> SameButLinks(edges[x], b[x]))
            && (forall x :: 0 <= x < |edges| && x != e && x != r && x != tail0 && x != tail1 ==> b[x] == edges[x])
            && (tail0 != NIL ==> b[tail0].prev == e && b[tail0].next == edges[tail0].next)
            && (tail1 != NIL ==> b[tail1].next == r && b[tail1].prev == edges[tail1].prev)
  {}

  lemma ListOf(edges: seq<InternalEdge>, pending: set<nat>, n: nat, v: int, chain: seq<nat>)
    requires chain != [] && Spliceable(edges, pending, n, v, chain)
    ensures PendingList(edges, pending, n, v, chain, chain[0], chain[|chain| - 1])
  {}

  lemma SameThrough(a: seq<InternalEdge>, b: seq<InternalEdge>, c: seq<InternalEdge>, but: set<int>)
    requires |a| <= |b| == |c|
    requires forall x :: 0 <= x < |a| && x !in but ==> b[x] == a[x]
    requires forall x :: 0 <= x < |b| ==> SameButLinks(b[x], c[x])
    ensures forall x :: 0 <= x < |a| && x !in but ==> SameButLinks(a[x], c[x])
  {}

  /** What the writes of one bridge make of the two lists. */
  lemma BridgeFiled(edges0: seq<InternalEdge>, created: seq<InternalEdge>, edges: seq<InternalEdge>, pending0: set<nat>,
                    pending: set<nat>, n: nat, v: nat, w: nat, e: nat, r: nat, p: seq<nat>, q: seq<nat>)
    requires (p == [] || Spliceable(edges0, pending0, n, v, p)) && (q == [] || Spliceable(edges0, pending0, n, w, q))
    requires v != w && v < n && w < n && |edges0| <= |created| == |edges| && e < |edges| && r < |edges| && e != r
    requires pending == pending0 + {e, r} && e !in pending0 && r !in pending0
    requires forall x :: 0 <= x < |edges0| && (x == e || x == r) ==> edges0[x].reverse == NIL
    requires forall x :: 0 <= x < |edges0| && x != e && x != r ==> created[x] == edges0[x]
    requires forall x :: 0 <= x < |edges| ==> SameButLinks(created[x], edges[x])
    requires created[e].reverse == r && created[r].reverse == e && created[e].target == w && created[r].target == v
    requires forall x :: 0 <= x < |edges| && x != e && x != r ==>
               ((p == [] || x != p[0]) && (q == [] || x != q[|q| - 1]) ==> edges[x] == created[x])
    requires p != [] ==> p[0] < |edges| && edges[p[0]].prev == e && edges[p[0]].next == created[p[0]].next && edges[e].next == p[0]
    requires q != [] ==> var t := q[|q| - 1];
             t < |edges| && edges[t].next == r && edges[t].prev == created[t].prev && edges[r].prev == t
    ensures Spliceable(edges, pending, n, v, [e] + p) && Spliceable(edges, pending, n, w, q + [r])
  {
    ListsApart(edges0, pending0, n, v, w, p, q);
    ListReady(edges0, edges, pending0, pending, n, v, p, {e, r});
    ListReady(edges0, edges, pending0, pending, n, w, q, {e, r});
    NewReady(edges, pending, n, v, e);
    NewReady(edges, pending, n, w, r);
    Prepended(edges0, edges, pending0, pending, n, v, p, e);
    Appended(edges0, edges, pending0, pending, n, w, q, r);
  }

  lemma SpliceKeeps(verts: seq<Vertex>, edges: seq<InternalEdge>, head: int, free: seq<nat>, rings: seq<seq<nat>>,
                    pending: set<nat>, v: nat, i: nat, chain: seq<nat>)
    requires Arena(verts, edges, head, free, rings, pending) && v < |rings| && i < |rings[v]|
    requires Spliceable(edges, pending, |rings|, v, chain)
    ensures var ring, p, first, last := rings[v], rings[v][i], chain[0], chain[|chain| - 1];
            && p < |edges| && first < |edges| && last < |edges| && 0 <= edges[p].next < |edges|
            && Arena(verts, LinkEdges(LinkEdges(edges, p, first), last, edges[p].next), head, free,
                     rings[v := Spliced(ring, chain, i)], Left(pending, chain))
  {
    hide Spliced, RingOf, FreeList, Placed, Rings, Cyclic, Spliceable, Ready, Distinct;
    var ring := rings[v];
    var ring' := Spliced(ring, chain, i);
    SpliceRing(edges, free, rings, pending, v, i, chain);
    var edges' := LinkEdges(LinkEdges(edges, ring[i], chain[0]), chain[|chain| - 1], edges[ring[i]].next);
    InsertKeeps(verts, edges, edges', head, free, rings, pending, v, ring');
    assert verts[v := verts[v].(edges := ring'[0])] == verts;
    assert Left(pending, ring') == Left(pending, chain);
  }

  lemma SpliceRing(edges: seq<InternalEdge>, free: seq<nat>, rings: seq<seq<nat>>, pending: set<nat>,
                   v: nat, i: nat, chain: seq<nat>)
    requires Rings(edges, rings) && Placed(edges, free, rings, pending) && v < |rings| && i < |rings[v]|
    requires Spliceable(edges, pending, |rings|, v, chain)
    ensures |chain| > 0
    ensures var ring, p, first, last := rings[v], rings[v][i], chain[0], chain[|chain| - 1];
            && p < |edges| && first < |edges| && last < |edges| && 0 <= edges[p].next < |edges|
            && var edges', ring' := LinkEdges(LinkEdges(edges, p, first), last, edges[p].next), Spliced(ring, chain, i);
            && Distinct(ring') && Cyclic(edges', ring') && |ring'| > 0 && ring'[0] == ring[0]
            && (forall x :: x in ring' <==> x in ring || x in chain)
            && (forall x :: x in ring ==> x !in pending)
            && (forall x :: x in chain ==> Ready(edges, pending, |rings|, v, x))
            && edges[p].next in ring
  {
    var ring := rings[v];
    assert RingOf(edges, v, ring) && LinkedAt(edges, ring, i);
    PendingNotLinked(edges, free, rings, pending, v);
    SplicedAt(ring, chain, i);
    SplicedMembers(ring, chain, i);
    ChainSplices(edges, ring, chain, i);
    assert LinkedAt(edges, ring, Succ(i, |ring|));
  }

  lemma PendingNotLinked(edges: seq<InternalEdge>, free: seq<nat>, rings: seq<seq<nat>>, pending: set<nat>, v: nat)
    requires Rings(edges, rings) && Placed(edges, free, rings, pending) && v < |rings|
    ensures forall x :: x in rings[v] ==> x !in pending
  {
    RingEdgesAreLinked(edges, rings);
    forall x | x in rings[v] ensures x !in pending {
      assert Linked(edges, rings, rings[v][IndexOf(rings[v], x)]);
    }
  }

  /** The ring read from `e`. */
  ghost function From(ring: seq<nat>, e: nat): seq<nat>
    requires e in ring
  {
    Rotated(ring, IndexOf(ring, e))
  }

  lemma AtMostOnce(ring: seq<nat>, i: nat, e: nat)
    requires Distinct(ring) && i < |ring| && ring[i] == e
    ensures IndexOf(ring, e) == i
  {}

  /** Dropping the edge after `p`, seen from `p`. */
  lemma AfterFrom(ring: seq<nat>, p: nat, x: nat, rest: seq<nat>)
    requires Distinct(ring) && p in ring && x != p && From(ring, p) == [p, x] + rest
    ensures x in ring && p in After(ring, x) && From(After(ring, x), p) == [p] + rest
  {
    hide Distinct;
    var i, n := IndexOf(ring, p), |ring|;
    RotatedMembers(ring, i);
    RotatedOnce(ring, i, p, x, rest);
    var j := if i + 1 < n then i + 1 else 0;
    AtMostOnce(ring, j, x);
    var after := After(ring, x);
    assert after == rest + [p];
    AfterMembers(ring, x);
    AtMostOnce(after, n - 2, p);
  }

  /** A ring read from one edge further on. */
  lemma RotatedOnce(ring: seq<nat>, i: nat, p: nat, x: nat, rest: seq<nat>)
    requires i < |ring| && Rotated(ring, i) == [p, x] + rest
    ensures var j := if i + 1 < |ring| then i + 1 else 0; j < |ring| && ring[j] == x && Rotated(ring, j) == [x] + rest + [p]
  {
    var (n, f) := (|ring|, Rotated(ring, i));
    var j := if i + 1 < n then i + 1 else 0;
    assert |f| == n;
    assert forall k :: 0 <= k < n ==> f[k] == ring[if i + k < n then i + k else i + k - n];
    assert f[1] == x && f[0] == p;
    var g := Rotated(ring, j);
    forall k | 0 <= k < n ensures g[k] == ([x] + rest + [p])[k] {
      assert g[k] == if k + 1 < n then f[k + 1] else p;
    }
  }

  /** The successor of the `k`-th edge of a ring read from `p`. */
  lemma NextFrom(edges: seq<InternalEdge>, v: int, ring: seq<nat>, p: nat, k: nat)
    requires RingOf(edges, v, ring) && p in ring && k < |ring|
    ensures |From(ring, p)| == |ring| && From(ring, p)[k] in ring && From(ring, p)[k] < |edges|
    ensures edges[From(ring, p)[k]].next == From(ring, p)[Succ(k, |ring|)]
    ensures Distinct(From(ring, p))
  {
    RotatedMembers(ring, IndexOf(ring, p));
    RotatedRing(edges, v, ring, IndexOf(ring, p));
    assert LinkedAt(edges, From(ring, p), k);
  }

  /** Where a walk from `p` along its ring goes. */
  lemma WalkAt(edges: seq<InternalEdge>, rings: seq<seq<nat>>, v: nat, p: nat, xs: seq<nat>, rest: seq<nat>)
    requires Rings(edges, rings) && v < |rings| && p in rings[v] && From(rings[v], p) == [p] + xs + rest
    ensures p < |edges| && edges[p].next == (xs + rest + [p])[0]
    ensures Distinct([p] + xs + rest) && Distinct(rings[v])
    ensures xs != [] ==> xs[0] < |edges| && Linked(edges, rings, xs[0]) && Source(edges, xs[0]) == v
                         && Paired(edges, xs[0]) && edges[xs[0]].next == (xs[1..] + rest + [p])[0]
  {
    var ring := rings[v];
    NextFrom(edges, v, ring, p, 0);
    if xs != [] {
      NextFrom(edges, v, ring, p, 1);
      assert From(ring, p)[1] == xs[0];
      assert Linked(edges, rings, ring[IndexOf(ring, xs[0])]) by { RingEdgesAreLinked(edges, rings); }
      assert RingOf(edges, v, ring);
    }
  }

  /** Removing the edge after `p` and its reverse, which is in another ring. */
  lemma WithoutNext(rings: seq<seq<nat>>, v: nat, p: nat, xs: seq<nat>, rest: seq<nat>, u: int, r: int)
    requires v < |rings| && p in rings[v] && Distinct(rings[v]) && |xs| > 0 && From(rings[v], p) == [p] + xs + rest
    requires u != v && Distinct([p] + xs + rest)
    ensures var rings' := Without(Without(rings, v, xs[0]), u, r);
            |rings'| == |rings| && p in rings'[v] && From(rings'[v], p) == [p] + xs[1..] + rest
  {
    var whole := [p] + xs + rest;
    assert whole[0] == p && whole[1] == xs[0];
    assert whole == [p, xs[0]] + (xs[1..] + rest);
    AfterFrom(rings[v], p, xs[0], xs[1..] + rest);
    assert [p] + (xs[1..] + rest) == [p] + xs[1..] + rest;
  }

  /** Dropping the edge before `p`, seen from `p`. */
  lemma BeforeFrom(ring: seq<nat>, p: nat, x: nat, rest: seq<nat>)
    requires Distinct(ring) && p in ring && x != p && From(ring, p) == [p] + rest + [x]
    ensures x in ring && p in After(ring, x) && From(After(ring, x), p) == [p] + rest
  {
    hide Distinct;
    var i := IndexOf(ring, p);
    RotatedMembers(ring, i);
    RotatedBack(ring, i, p, x, rest);
    var j := if i > 0 then i - 1 else |ring| - 1;
    AtMostOnce(ring, j, x);
    var after := After(ring, x);
    assert after == [p] + rest;
    AfterMembers(ring, x);
    AtMostOnce(after, 0, p);
    assert Rotated(after, 0) == after;
  }

  /** A ring read from one edge further back. */
  lemma RotatedBack(ring: seq<nat>, i: nat, p: nat, x: nat, rest: seq<nat>)
    requires i < |ring| && Rotated(ring, i) == [p] + rest + [x]
    ensures var j := if i > 0 then i - 1 else |ring| - 1; ring[j] == x && Rotated(ring, j) == [x, p] + rest
  {
    var (n, f) := (|ring|, Rotated(ring, i));
    var j := if i > 0 then i - 1 else n - 1;
    assert |f| == n;
    assert forall k :: 0 <= k < n ==> f[k] == ring[if i + k < n then i + k else i + k - n];
    assert f[n - 1] == x;
    var g := Rotated(ring, j);
    forall k | 0 <= k < n ensures g[k] == ([x, p] + rest)[k] {
      assert g[k] == if k > 0 then f[k - 1] else x;
      assert k > 0 ==> ([p] + rest + [x])[k - 1] == ([x, p] + rest)[k];
    }
  }

  /** Where a walk from `p` back along its ring goes. */
  lemma WalkBackAt(edges: seq<InternalEdge>, rings: seq<seq<nat>>, v: nat, p: nat, rest: seq<nat>, xs: seq<nat>)
    requires Rings(edges, rings) && v < |rings| && p in rings[v] && From(rings[v], p) == [p] + rest + xs
    ensures p < |edges| && edges[p].prev == ([p] + rest + xs)[|rest| + |xs|]
    ensures Distinct([p] + rest + xs) && Distinct(rings[v])
    ensures forall x :: x in xs ==> x in rings[v]
    ensures xs != [] ==>
              var x := xs[|xs| - 1];
              && x < |edges| && Linked(edges, rings, x) && Source(edges, x) == v && Paired(edges, x)
              && edges[x].prev == ([p] + rest + xs)[|rest| + |xs| - 1]
  {
    var ring := rings[v];
    var f := From(ring, p);
    PrevFrom(edges, v, ring, p, 0);
    RotatedMembers(ring, IndexOf(ring, p));
    assert forall x :: x in xs ==> x in f;
    if xs != [] {
      PrevFrom(edges, v, ring, p, |f| - 1);
      assert f[|f| - 1] == xs[|xs| - 1];
      assert Linked(edges, rings, ring[IndexOf(ring, f[|f| - 1])]) by { RingEdgesAreLinked(edges, rings); }
      assert RingOf(edges, v, ring);
    }
  }

  /** The predecessor of the `k`-th edge of a ring read from `p`. */
  lemma PrevFrom(edges: seq<InternalEdge>, v: int, ring: seq<nat>, p: nat, k: nat)
    requires RingOf(edges, v, ring) && p in ring && k < |ring|
    ensures |From(ring, p)| == |ring| && From(ring, p)[k] in ring && From(ring, p)[k] < |edges|
    ensures edges[From(ring, p)[k]].prev == From(ring, p)[Pred(k, |ring|)]
    ensures Distinct(From(ring, p))
  {
    RotatedMembers(ring, IndexOf(ring, p));
    RotatedRing(edges, v, ring, IndexOf(ring, p));
    assert LinkedAt(edges, From(ring, p), k);
  }

  /** Removing the edge before `p` and its reverse, which is in another ring. */
  lemma WithoutPrev(rings: seq<seq<nat>>, v: nat, p: nat, rest: seq<nat>, xs: seq<nat>, u: int, r: int)
    requires v < |rings| && p in rings[v] && Distinct(rings[v]) && |xs| > 0 && From(rings[v], p) == [p] + rest + xs
    requires u != v && Distinct([p] + rest + xs)
    ensures var rings' := Without(Without(rings, v, xs[|xs| - 1]), u, r);
            |rings'| == |rings| && p in rings'[v] && From(rings'[v], p) == [p] + rest + xs[..|xs| - 1]
  {
    var (n, whole) := (|xs| - 1, [p] + rest + xs);
    assert whole[0] == p && whole[|rest| + |xs|] == xs[n];
    assert whole == [p] + (rest + xs[..n]) + [xs[n]];
    BeforeFrom(rings[v], p, xs[n], rest + xs[..n]);
    assert [p] + (rest + xs[..n]) == [p] + rest + xs[..n];
  }

  /** What a removal run has done so far: the pairs of `xs` are gone and nothing else is. */
  ghost predicate Trimmed(edges0: seq<InternalEdge>, rings0: seq<seq<nat>>, edges: seq<InternalEdge>, rings: seq<seq<nat>>,
                          xs: seq<nat>)
  {
    && |edges| == |edges0| && |rings| == |rings0|
    && (forall x :: 0 <= x < |edges| ==>
          (Linked(edges, rings, x) <==> Linked(edges0, rings0, x) && x !in xs && edges0[x].reverse !in xs))
    && (forall x :: 0 <= x < |edges| && Linked(edges, rings, x) ==> SameButLinks(edges0[x], edges[x]))
  }

  lemma TrimStart(edges: seq<InternalEdge>, rings: seq<seq<nat>>, v: nat, p: nat, xs: seq<nat>, rest: seq<nat>)
    requires Rings(edges, rings) && v < |rings| && p in rings[v] && From(rings[v], p) == [p] + xs + rest
    ensures p < |edges| && edges[p].next == (xs + rest + [p])[0]
    ensures Trimmed(edges, rings, edges, rings, xs[..0])
    ensures forall j :: 0 <= j < |xs| ==> xs[j] != (rest + [p])[0]
  {
    WalkAt(edges, rings, v, p, xs, rest);
    var whole := [p] + xs + rest;
    assert forall j :: 0 <= j < |xs| ==> whole[j + 1] == xs[j];
    assert (rest + [p])[0] == if rest == [] then whole[0] else whole[|xs| + 1];
  }

  function Backwards(xs: seq<nat>): seq<nat> {
    seq(|xs|, k requires 0 <= k < |xs| => xs[|xs| - 1 - k])
  }

  lemma TrimBackStart(edges: seq<InternalEdge>, rings: seq<seq<nat>>, v: nat, p: nat, rest: seq<nat>, xs: seq<nat>)
    requires Rings(edges, rings) && v < |rings| && p in rings[v] && From(rings[v], p) == [p] + rest + xs
    ensures var (ys, stop) := (Backwards(xs), if rest == [] then p else rest[|rest| - 1]);
            && p < |edges| && edges[p].prev == (if xs == [] then stop else ys[0])
            && Trimmed(edges, rings, edges, rings, ys[..0])
            && (forall j :: 0 <= j < |xs| ==> ys[j] != stop)
            && Distinct(ys) && (forall y :: y in ys <==> y in xs) && (forall y :: y in ys ==> y in rings[v])
  {
    hide Rings, Linked, Source, Paired, From;
    WalkBackAt(edges, rings, v, p, rest, xs);
    BackwardsOf(p, rest, xs);
  }

  lemma BackwardsOf(p: nat, rest: seq<nat>, xs: seq<nat>)
    requires Distinct([p] + rest + xs)
    ensures var (ys, stop) := (Backwards(xs), if rest == [] then p else rest[|rest| - 1]);
            && ([p] + rest + xs)[|rest| + |xs|] == (if xs == [] then stop else ys[0])
            && (forall j :: 0 <= j < |xs| ==> ys[j] != stop)
            && Distinct(ys) && (forall y :: y in ys <==> y in xs)
  {
    var (whole, ys) := ([p] + rest + xs, Backwards(xs));
    assert forall j :: 0 <= j < |xs| ==> whole[|rest| + 1 + j] == xs[j];
    assert whole[|rest|] == if rest == [] then p else rest[|rest| - 1];
    forall y ensures y in ys <==> y in xs {
      if y in xs { assert ys[|xs| - 1 - IndexOf(xs, y)] == y; }
    }
  }

  lemma TrimNext(edges0: seq<InternalEdge>, rings0: seq<seq<nat>>, edges: seq<InternalEdge>, rings: seq<seq<nat>>,
                 v: nat, xs: seq<nat>, k: nat)
    requires Rings(edges0, rings0) && v < |rings0| && Distinct(xs) && forall x :: x in xs ==> x in rings0[v]
    requires forall x :: x in xs ==> x < |edges0| && 0 <= edges0[x].reverse < |edges0|
                                     && Linked(edges0, rings0, edges0[x].reverse) && edges0[x].target != v
    requires k < |xs| && Trimmed(edges0, rings0, edges, rings, xs[..k]) && Linked(edges, rings, xs[k]) && xs[k] < |edges|
    ensures Linked(edges0, rings0, xs[k])
    ensures edges[xs[k]].target != v && edges[xs[k]].reverse == edges0[xs[k]].reverse
    ensures 0 <= edges[xs[k]].reverse < |edges| && Linked(edges, rings, edges[xs[k]].reverse)
  {
    var x := xs[k];
    var y := edges0[x].reverse;
    LinkedIsPaired(edges0, rings0, x);
    forall j | 0 <= j < k ensures xs[j] != x && xs[j] != y {
      assert xs[j] in xs;
      assert RingOf(edges0, v, rings0[v]);
      assert Source(edges0, rings0[v][IndexOf(rings0[v], xs[j])]) == v;
      assert Source(edges0, y) == edges0[x].target;
    }
  }

  /** The stretch of a ring that a run is to remove. */
  lemma Stretch(ring: seq<nat>, p: nat, before: seq<nat>, xs: seq<nat>, after: seq<nat>)
    requires p in ring && Distinct(ring) && From(ring, p) == before + xs + after
    ensures Distinct(xs) && forall x :: x in xs ==> x in ring
  {
    RotatedMembers(ring, IndexOf(ring, p));
    var whole := before + xs + after;
    assert forall j :: 0 <= j < |xs| ==> whole[|before| + j] == xs[j];
    forall x | x in xs ensures x in ring { assert x in whole; }
  }

  lemma TrimStep(edges0: seq<InternalEdge>, rings0: seq<seq<nat>>, edges1: seq<InternalEdge>, rings1: seq<seq<nat>>,
                 edges: seq<InternalEdge>, rings: seq<seq<nat>>, xs: seq<nat>, k: nat)
    requires k < |xs| && Trimmed(edges0, rings0, edges1, rings1, xs[..k]) && xs[k] < |edges1|
    requires |edges| == |edges1| && |rings| == |rings1|
    requires 0 <= edges1[xs[k]].reverse < |edges1| && edges1[xs[k]].reverse == edges0[xs[k]].reverse
    requires Rings(edges0, rings0) && Linked(edges0, rings0, xs[k])
    requires forall x :: 0 <= x < |edges| ==>
               (Linked(edges, rings, x) <==> Linked(edges1, rings1, x) && x != xs[k] && x != edges1[xs[k]].reverse)
    requires forall x :: 0 <= x < |edges| && x != xs[k] && x != edges1[xs[k]].reverse ==> SameButLinks(edges1[x], edges[x])
    ensures Trimmed(edges0, rings0, edges, rings, xs[..k + 1])
  {
    hide Linked, Rings;
    assert xs[..k + 1] == xs[..k] + [xs[k]];
    LinkedIsPaired(edges0, rings0, xs[k]);
    forall x | 0 <= x < |edges| && Linked(edges0, rings0, x)
      ensures x == edges0[xs[k]].reverse <==> edges0[x].reverse == xs[k]
    {
      LinkedIsPaired(edges0, rings0, x);
    }
  }

  /** With nothing pending, every half-edge in a ring has its reverse in a ring: `reverse` is an involution without
      fixpoints on the live edges. */
  lemma RestIsPaired(verts: seq<Vertex>, edges: seq<InternalEdge>, head: int, free: seq<nat>, rings: seq<seq<nat>>)
    requires Arena(verts, edges, head, free, rings, {})
    ensures forall e :: Linked(edges, rings, e) ==> Paired(edges, e) && Linked(edges, rings, edges[e].reverse)
  {
    forall e | Linked(edges, rings, e) ensures Paired(edges, e) && Linked(edges, rings, edges[e].reverse) {
      LinkedIsPaired(edges, rings, e);
    }
  }

  // ---- the structure the hull works on -----------------------------------

  class HullInternal {
    var verts: seq<Vertex>
    var edges: seq<InternalEdge>
    var edgeFree: int
    var edgeArraySize: nat
    var mergeStamp: int
    ghost var free: seq<nat>
    ghost var rings: seq<seq<nat>>
    ghost var pending: set<nat>

    ghost predicate Valid() reads this {
      edgeArraySize > 0 && Arena(verts, edges, edgeFree, free, rings, pending)
    }

    ghost predicate InRing(e: int) reads this { 0 <= e < |edges| && Linked(edges, rings, e) }

    /** A pool-empty hull; the block size is `6 * count`. */
    constructor (count: nat)
      requires count > 0
      ensures Valid() && verts == [] && edges == [] && rings == [] && pending == {} && edgeArraySize == 6 * count
    {
      verts, edges, edgeFree, edgeArraySize, mergeStamp := [], [], NIL, 6 * count, -3;
      free, rings, pending := [], [], {};
    }

    /** A new vertex has an empty ring. */
    method NewVertexObject() returns (v: nat)
      requires Valid()
      modifies `verts, `rings
      ensures Valid() && v == old(|verts|)
      ensures verts == old(verts) + [Vertex(NIL, NIL, NIL, Point32(0, 0, 0, -1), -1)] && rings == old(rings) + [[]]
    {
      v := |verts|;
      VertexKeeps(verts, edges, edgeFree, free, rings, pending);
      verts := verts + [Vertex(NIL, NIL, NIL, Point32(0, 0, 0, -1), -1)];
      rings := rings + [[]];
    }

    /** The pool is exhausted: append a block of free slots, linked in ascending order. */
    method CarveBlock()
      requires Valid() && edgeFree == NIL
      modifies `edges, `edgeFree, `free
      ensures Valid() && free == Ascending(old(|edges|), edgeArraySize) && edgeFree == old(|edges|)
      ensures old(free) == [] && edges == Grown(old(edges), [], edgeArraySize)
      ensures forall x :: InRing(x) <==> old(InRing(x))
    {
      hide Heads, Rings, Placed, Linked, NextFree;
      FreeHead(edges, edgeFree, free);
      hide FreeList;
      var base := |edges|;
      var k := 0;
      while k < edgeArraySize
        invariant 0 <= k <= edgeArraySize
        invariant edges == old(edges) + Block(base, edgeArraySize)[..k]
        modifies `edges
      {
        var next := if k + 1 < edgeArraySize then base + k + 1 else NIL;
        edges := edges + [InternalEdge(next, NIL, NIL, NIL, NIL, 0)];
        k := k + 1;
      }
      GrownKeeps(verts, old(edges), rings, pending, edgeArraySize);
      assert edges == Grown(old(edges), [], edgeArraySize);
      edgeFree := base;
      free := Ascending(base, edgeArraySize);
    }

    /** Takes the most recently freed slot, or carves a block when none is free. */
    method NewEdgeObject() returns (o: int)
      requires Valid()
      modifies `edges, `edgeFree, `free, `pending
      ensures Valid()
      ensures [o] + free == Stocked(old(free), old(|edges|), edgeArraySize)
      ensures o !in old(pending) && pending == old(pending) + {o}
      ensures forall x :: InRing(x) <==> old(InRing(x))
      ensures 0 <= o < |Grown(old(edges), old(free), edgeArraySize)|
      ensures edges == Grown(old(edges), old(free), edgeArraySize)[o := ZERO]
      ensures |edges| >= old(|edges|) && forall x :: 0 <= x < old(|edges|) && x != o ==> edges[x] == old(edges[x])
      ensures o < old(|edges|) ==> old(edges[o]).reverse == NIL
      ensures !InRing(o)
      ensures forall x :: InRing(x) ==> edges[x].reverse != o
    {
      hide Heads, Rings, Placed, Linked, NextFree, Block;
      FreeHead(edges, edgeFree, free);
      hide FreeList;
      if edgeFree == NIL {
        CarveBlock();
      }
      ghost var edges0, free0 := edges, free;
      assert free0 == Stocked(old(free), old(|edges|), edgeArraySize);
      PopKeeps(verts, edges, edgeFree, free, rings, pending);
      o := edgeFree;
      edgeFree := edges[o].next;
      edges := edges[o := ZERO];
      pending := pending + {o};
      free := free[1..];
      assert [o] + free == free0;
    }

    /** Clears every link but keeps `copy`, and puts the slot at the head of the free list. */
    method FreeEdgeObject(e: nat)
      requires Valid() && e in pending && e < |edges|
      requires forall x :: InRing(x) ==> edges[x].reverse != e
      modifies `edges, `edgeFree, `free, `pending
      ensures Valid()
      ensures free == [e] + old(free) && pending == old(pending) - {e}
      ensures forall x :: InRing(x) <==> old(InRing(x))
      ensures edges == old(edges)[e := InternalEdge(old(edgeFree), NIL, NIL, NIL, NIL, old(edges[e].copy))]
    {
      RingEdgesAreLinked(edges, rings);
      hide FreeList, Heads, Rings, Placed, NextFree;
      PushKeeps(verts, edges, edgeFree, free, rings, pending, e);
      var head := edgeFree;
      edges := edges[e := InternalEdge(head, NIL, NIL, NIL, NIL, edges[e].copy)];
      edgeFree := e;
      free := [e] + free;
      pending := pending - {e};
    }

    method Link(e: int, n: int)
      requires 0 <= e < |edges| && 0 <= n < |edges|
      modifies `edges
      ensures edges == LinkEdges(old(edges), e, n)
    {
      edges := edges[e := edges[e].(next := n)];
      edges := edges[n := edges[n].(prev := e)];
    }

    /** A half-edge and its reverse, stamped with the merge round; both are pending. */
    method NewEdgePair(from: nat, to: nat) returns (e: int)
      requires Valid() && from < |verts| && to < |verts|
      modifies `edges, `edgeFree, `free, `pending
      ensures Valid()
      ensures |edges| >= old(|edges|) && 0 <= e < |edges| && 0 <= edges[e].reverse < |edges| && edges[e].reverse != e
      ensures edges[e] == InternalEdge(NIL, NIL, edges[e].reverse, to, NIL, mergeStamp)
      ensures edges[edges[e].reverse] == InternalEdge(NIL, NIL, e, from, NIL, mergeStamp)
      ensures pending == old(pending) + {e, edges[e].reverse} && old(pending) !! {e, edges[e].reverse}
      ensures forall x :: 0 <= x < old(|edges|) && x != e && x != edges[e].reverse ==> edges[x] == old(edges[x])
      ensures forall x :: InRing(x) <==> old(InRing(x))
      ensures |old(free)| >= 2 ==> [e, edges[e].reverse] + free == old(free) && |edges| == old(|edges|)
      ensures forall x :: 0 <= x < old(|edges|) && (x == e || x == edges[e].reverse) ==> old(edges[x]).reverse == NIL
    {
      hide FreeList, Heads, Rings, Placed, Linked, Grown, Stocked;
      NoCarve(edges, free, edgeArraySize);
      e := NewEdgeObject();
      ghost var middle := edges;
      NoCarve(edges, free, edgeArraySize);
      var r := NewEdgeObject();
      ghost var before := edges;
      forall x | 0 <= x < |before| && Linked(before, rings, x) ensures before[x].reverse !in {e, r} {
        assert InRing(x);
        assert before[x] == middle[x];
      }
      edges := edges[e := edges[e].(reverse := r, copy := mergeStamp, target := to, face := NIL)];
      edges := edges[r := edges[r].(reverse := e, copy := mergeStamp, target := from, face := NIL)];
      PendingWrites(verts, before, edges, edgeFree, free, rings, pending, {e, r});
    }

    /** One half of a removal: the ring closes over `e`, and the vertex now starts at the edge after it. */
    method UnlinkHalf(e: int, r: int)
      requires Valid() && InRing(e) && r == edges[e].reverse
      modifies `verts, `edges, `rings, `pending
      ensures Valid()
      ensures var v := Source(old(edges), e);
              && 0 <= v < |rings| == |verts| == old(|verts|) && rings == Without(old(rings), v, e)
              && verts == old(verts)[v := old(verts[v]).(edges := if rings[v] == [] then NIL else rings[v][0])]
      ensures e !in old(pending) && pending == old(pending) + {e}
      ensures edges == Unlinked(old(edges), e) && |edges| == old(|edges|)
      ensures forall x :: 0 <= x < |edges| ==> SameButLinks(old(edges[x]), edges[x])
      ensures forall x :: InRing(x) <==> old(InRing(x)) && x != e
    {
      ghost var v := Source(edges, e);
      hide FreeList, Placed, Rings, RingOf, Linked, Heads, After;
      UnlinkKeeps(verts, edges, edgeFree, free, rings, pending, e);
      UnlinkFacts(edges, rings, e);
      HeadsLength(verts, rings);
      var n := edges[e].next;
      if n != e {
        var p := edges[e].prev;
        edges := edges[n := edges[n].(prev := p)];
        edges := edges[p := edges[p].(next := n)];
        var target := edges[r].target;
        verts := verts[target := verts[target].(edges := n)];
        assert edges == Unlinked(old(edges), e);
      } else {
        var target := edges[r].target;
        verts := verts[target := verts[target].(edges := NIL)];
      }
      rings := rings[v := After(rings[v], e)];
      pending := pending + {e};
    }

    /** Both halves leave their rings; no ring edge is paired with either any more. */
    method UnlinkPair(e: int, r: int)
      requires Valid() && InRing(e) && InRing(r) && r == edges[e].reverse
      modifies `verts, `edges, `rings, `pending
      ensures Valid() && |edges| == old(|edges|) && |verts| == old(|verts|)
      ensures rings == Without(Without(old(rings), Source(old(edges), e), e), Source(old(edges), r), r)
      ensures e !in old(pending) && r !in old(pending) && e != r && pending == old(pending) + {e, r}
      ensures forall x :: 0 <= x < |edges| ==> SameButLinks(old(edges[x]), edges[x])
      ensures forall x :: InRing(x) <==> old(InRing(x)) && x != e && x != r
      ensures forall x :: InRing(x) ==> edges[x].reverse != e && edges[x].reverse != r
    {
      LinkedIsPaired(edges, rings, e);
      UnlinkHalf(e, r);
      hide FreeList, Heads, Placed, Unlinked, Without;
      assert Source(edges, r) == Source(old(edges), r);
      hide Source;
      UnlinkHalf(r, e);
      forall x | InRing(x) ensures edges[x].reverse != e && edges[x].reverse != r {
        LinkedIsPaired(edges, rings, x);
      }
    }

    /** Both halves leave their rings and join the free list, the reverse on top. */
    method RemoveEdgePair(e: int)
      requires Valid() && InRing(e) && InRing(edges[e].reverse)
      modifies `verts, `edges, `edgeFree, `free, `rings, `pending
      ensures Valid() && |edges| == old(|edges|) && |verts| == old(|verts|)
      ensures free == [old(edges[e].reverse), e] + old(free)
      ensures var r := old(edges[e].reverse);
              rings == Without(Without(old(rings), Source(old(edges), e), e), Source(old(edges), r), r)
      ensures pending == old(pending)
      ensures forall x :: InRing(x) <==> old(InRing(x)) && x != e && x != old(edges[e].reverse)
      ensures forall x :: 0 <= x < |edges| && x != e && x != old(edges[e].reverse) ==> SameButLinks(old(edges[x]), edges[x])
    {
      hide FreeList, Heads, Rings, Placed, Linked, Without, Source;
      var r := edges[e].reverse;
      UnlinkPair(e, r);
      FreeEdgeObject(e);
      FreeEdgeObject(r);
    }

    /** Creating a pair right after removing one reuses its two slots with the roles exchanged. */
    method RemoveThenCreate(e: int, from: nat, to: nat) returns (created: int)
      requires Valid() && InRing(e) && InRing(edges[e].reverse) && from < |verts| && to < |verts|
      modifies `verts, `edges, `edgeFree, `free, `rings, `pending
      ensures Valid() && |edges| == old(|edges|)
      ensures created == old(edges[e].reverse) && 0 <= created < |edges| && edges[created].reverse == e
      ensures free == old(free) && edgeFree == old(edgeFree)
    {
      FreeHead(edges, edgeFree, free);
      hide FreeList, Heads, Rings, Placed, Linked, Without, Source;
      RemoveEdgePair(e);
      ghost var freed := free;
      created := NewEdgePair(from, to);
      ghost var reused := [created, edges[created].reverse] + free;
      assert reused == freed;
      assert reused[0] == freed[0] && reused[1] == freed[1] && reused[2..] == freed[2..];
      assert FreeList(edges, edgeFree, free);
      FreeHead(edges, edgeFree, free);
    }

    /**
     One bridge of a merge: a new pair from `c0` to `c1`, filed in front of the
     pending list of `c0` and behind that of `c1`. Both stay lists that can be
     spliced or closed, one edge longer.
     */
    method AppendBridge(c0: nat, c1: nat, tail0: int, head0: int, head1: int, tail1: int,
                        ghost chain0: seq<nat>, ghost chain1: seq<nat>)
      returns (e: int, r: int, newHead0: int, newHead1: int)
      requires Valid() && c0 < |verts| && c1 < |verts| && c0 != c1
      requires PendingList(edges, pending, |verts|, c0, chain0, tail0, head0)
      requires PendingList(edges, pending, |verts|, c1, chain1, head1, tail1)
      modifies `edges, `edgeFree, `free, `pending
      ensures Valid() && |edges| >= old(|edges|) && 0 <= e < |edges| && 0 <= r < |edges| && edges[e].reverse == r
      ensures edges[e].target == c1 && edges[r].target == c0 && edges[e].copy == edges[r].copy == mergeStamp
      ensures PendingList(edges, pending, |verts|, c0, [e] + chain0, e, newHead0)
      ensures PendingList(edges, pending, |verts|, c1, chain1 + [r], newHead1, r)
      ensures pending == old(pending) + {e, r} && old(pending) !! {e, r}
      ensures forall x :: InRing(x) <==> old(InRing(x))
      ensures forall x :: 0 <= x < old(|edges|) && x != e && x != r ==> SameButLinks(old(edges[x]), edges[x])
    {
      hide FreeList, Heads, Rings, Placed, Linked, Spliceable, Ready, PendingList, Bridged, SameButLinks;
      ListEnds(edges, pending, |verts|, c0, chain0, tail0, head0);
      ListEnds(edges, pending, |verts|, c1, chain1, head1, tail1);
      ListsApart(edges, pending, |verts|, c0, c1, chain0, chain1);
      assert (tail0 != NIL ==> tail0 in chain0) && (tail1 != NIL ==> tail1 in chain1);
      e := NewEdgePair(c0, c1);
      r := edges[e].reverse;
      ghost var created := edges;
      BridgedFields(edges, e, r, tail0, tail1);
      LinkBridge(e, r, tail0, tail1);
      newHead0 := if tail0 != NIL then head0 else e;
      newHead1 := if tail1 != NIL then head1 else r;
      PendingLinks(verts, created, edges, edgeFree, free, rings, pending, {e, r, tail0, tail1} - {NIL});
      BridgeFiled(old(edges), created, edges, old(pending), pending, |verts|, c0, c1, e, r, chain0, chain1);
      SameThrough(old(edges), created, edges, {e, r});
      ListOf(edges, pending, |verts|, c0, [e] + chain0);
      ListOf(edges, pending, |verts|, c1, chain1 + [r]);
    }

    /** The two tails take up the new pair. */
    method LinkBridge(e: nat, r: nat, tail0: int, tail1: int)
      requires e < |edges| && r < |edges| && NIL <= tail0 < |edges| && NIL <= tail1 < |edges|
      modifies `edges
      ensures edges == Bridged(old(edges), e, r, tail0, tail1)
    {
      if tail0 != NIL {
        edges := edges[tail0 := edges[tail0].(prev := e)];
      }
      edges := edges[e := edges[e].(next := tail0)];
      if tail1 != NIL {
        edges := edges[tail1 := edges[tail1].(next := r)];
      }
      edges := edges[r := edges[r].(prev := tail1)];
    }

    /** A pending chain becomes the whole ring of an edgeless vertex. */
    method CloseRing(first: int, last: int, start: int, v: nat, ghost chain: seq<nat>, ghost j: nat)
      requires Valid() && v < |rings| && rings[v] == [] && Spliceable(edges, pending, |verts|, v, chain) && j < |chain|
      requires first == chain[0] && last == chain[|chain| - 1] && start == chain[j]
      modifies `verts, `edges, `rings, `pending
      ensures Valid() && 0 <= last < old(|edges|) && 0 <= first < old(|edges|)
      ensures |edges| == old(|edges|) && verts == old(verts)[v := old(verts[v]).(edges := start)]
      ensures edges == LinkEdges(old(edges), last, first)
      ensures forall x :: 0 <= x < |edges| ==> SameButLinks(old(edges[x]), edges[x])
      ensures rings == old(rings)[v := Rotated(chain, j)]
      ensures pending == Left(old(pending), chain)
    {
      ChainCloses(edges, chain, j);
      ghost var ring := Rotated(chain, j);
      RotatedMembers(chain, j);
      InsertKeeps(verts, edges, LinkEdges(edges, last, first), edgeFree, free, rings, pending, v, ring);
      Link(last, first);
      verts := verts[v := verts[v].(edges := start)];
      rings := rings[v := ring];
      pending := Left(pending, ring);
    }

    /** A pending chain is linked in between `p` and the edge after it. */
    method SpliceChain(p: int, first: int, last: int, n: int, ghost v: nat, ghost i: nat, ghost chain: seq<nat>)
      requires Valid() && v < |rings| && i < |rings[v]| && Spliceable(edges, pending, |verts|, v, chain)
      requires first == chain[0] && last == chain[|chain| - 1]
      requires p == rings[v][i] && 0 <= p < |edges| && n == edges[p].next
      modifies `edges, `rings, `pending
      ensures Valid()
      ensures rings == old(rings)[v := Spliced(old(rings[v]), chain, i)]
      ensures pending == Left(old(pending), chain)
      ensures |edges| == old(|edges|) && forall x :: 0 <= x < |edges| ==> SameButLinks(old(edges[x]), edges[x])
    {
      SpliceKeeps(verts, edges, edgeFree, free, rings, pending, v, i, chain);
      hide FreeList, Heads, Rings, Placed, Spliceable;
      Link(p, first);
      Link(last, n);
      rings := rings[v := Spliced(rings[v], chain, i)];
      pending := Left(pending, chain);
    }

    /** A pending edge becomes the one-edge ring of its source. */
    method LinkToItself(v: nat, e: nat)
      requires Valid() && v < |rings| == |verts| && rings[v] == [] && Ready(edges, pending, |verts|, v, e)
      modifies `verts, `edges, `rings, `pending
      ensures Valid() && |edges| == old(|edges|) && verts == old(verts)[v := old(verts[v]).(edges := e)]
      ensures forall x :: 0 <= x < |edges| ==> SameButLinks(old(edges[x]), edges[x])
      ensures rings == old(rings)[v := [e]] && pending == old(pending) - {e}
    {
      hide FreeList, Heads, Rings, Placed, Linked, Spliceable, LinkEdges;
      SingleReady(edges, pending, |verts|, v, e);
      assert Rotated([e], 0) == [e];
      CloseRing(e, e, e, v, [e], 0);
      assert pending == old(pending) - {e};
    }

    /** Both hulls are single vertices: the pair is the whole ring at either end. */
    method BridgeLoneVertices(v: nat, w: nat) returns (e: int)
      requires Valid() && v < |verts| && w < |verts| && v != w && |rings| == |verts| && rings[v] == [] && rings[w] == []
      modifies `verts, `edges, `edgeFree, `free, `rings, `pending
      ensures Valid() && pending == old(pending)
      ensures 0 <= e < |edges| && 0 <= edges[e].reverse < |edges| && edges[edges[e].reverse].reverse == e
      ensures edges[e].target == w && edges[e].copy == mergeStamp
      ensures edges[edges[e].reverse].target == v && edges[edges[e].reverse].copy == mergeStamp
      ensures rings == old(rings)[v := [e]][w := [edges[e].reverse]]
      ensures verts == old(verts)[v := old(verts[v]).(edges := e)][w := old(verts[w]).(edges := edges[e].reverse)]
    {
      hide FreeList, Heads, Rings, Placed, Linked;
      e := NewEdgePair(v, w);
      var r := edges[e].reverse;
      LinkToItself(v, e);
      LinkToItself(w, r);
    }

    /** The pair after `p` on the ring of `v` is removed. */
    method RemoveNext(p: int, e: int, ghost v: nat, ghost xs: seq<nat>, ghost rest: seq<nat>)
      requires Valid() && v < |rings| && 0 <= p < |edges| && p in rings[v] && |xs| > 0
      requires From(rings[v], p) == [p] + xs + rest && e == xs[0] && 0 <= e < |edges|
      requires InRing(edges[e].reverse) && edges[e].target != v
      modifies `verts, `edges, `edgeFree, `free, `rings, `pending
      ensures Valid() && |edges| == old(|edges|) && |rings| == old(|rings|) && |verts| == old(|verts|)
      ensures p in rings[v] && From(rings[v], p) == [p] + xs[1..] + rest
      ensures pending == old(pending) && |free| == old(|free|) + 2
      ensures forall x :: InRing(x) <==> old(InRing(x)) && x != e && x != old(edges[e].reverse)
      ensures forall x :: 0 <= x < |edges| && x != e && x != old(edges[e].reverse) ==> SameButLinks(old(edges[x]), edges[x])
      ensures old(InRing(e)) && old(Paired(edges, e))
    {
      hide FreeList, Heads, Rings, Placed, Linked, From, After, Without;
      WalkAt(edges, rings, v, p, xs, rest);
      WithoutNext(rings, v, p, xs, rest, edges[e].target, edges[e].reverse);
      assert Source(edges, edges[e].reverse) == edges[e].target;
      RemoveEdgePair(e);
    }

    /** The pairs strictly between `p` and `stop` on the ring of `v`, walking by `next`, are removed. */
    method RemoveBetween(p: int, stop: int, ghost v: nat, ghost xs: seq<nat>, ghost rest: seq<nat>)
      requires Valid() && v < |rings| && 0 <= p < |edges| && p in rings[v] && From(rings[v], p) == [p] + xs + rest
      requires stop == (if rest == [] then p else rest[0])
      requires forall x :: x in xs ==> x < |edges| && InRing(edges[x].reverse) && edges[x].target != v
      modifies `verts, `edges, `edgeFree, `free, `rings, `pending
      ensures Valid() && Trimmed(old(edges), old(rings), edges, rings, xs)
      ensures p in rings[v] && From(rings[v], p) == [p] + rest
      ensures pending == old(pending) && |free| == old(|free|) + 2 * |xs|
    {
      hide FreeList, Heads, Rings, Placed, Linked, From, After, Trimmed, Without, Source, Paired, Distinct;
      TrimStart(edges, rings, v, p, xs, rest);
      RingIsThere(edges, rings, v);
      Stretch(rings[v], p, [p], xs, rest);
      var e := edges[p].next;
      ghost var k := 0;
      while e != stop
        invariant Valid() && |edges| == old(|edges|) && |rings| == old(|rings|)
        invariant 0 <= k <= |xs| && Trimmed(old(edges), old(rings), edges, rings, xs[..k])
        invariant e == (if k < |xs| then xs[k] else stop)
        invariant p in rings[v] && From(rings[v], p) == [p] + xs[k..] + rest
        invariant pending == old(pending) && |free| == old(|free|) + 2 * k
        decreases |xs| - k
      {
        WalkAt(edges, rings, v, p, xs[k..], rest);
        TrimNext(old(edges), old(rings), edges, rings, v, xs, k);
        var n := edges[e].next;
        ghost var edges1, rings1 := edges, rings;
        label before:
        RemoveNext(p, e, v, xs[k..], rest);
        assert forall x :: 0 <= x < |edges| ==> (InRing(x) <==> Linked(edges, rings, x));
        assert forall x :: 0 <= x < |edges| ==> (old@before(InRing(x)) <==> Linked(edges1, rings1, x));
        TrimStep(old(edges), old(rings), edges1, rings1, edges, rings, xs, k);
        e := n;
        k := k + 1;
      }
      assert xs[..k] == xs;
    }

    /** The pair before `p` on the ring of `v` is removed. */
    method RemovePrev(p: int, e: int, ghost v: nat, ghost rest: seq<nat>, ghost xs: seq<nat>)
      requires Valid() && v < |rings| && 0 <= p < |edges| && p in rings[v] && |xs| > 0
      requires From(rings[v], p) == [p] + rest + xs && e == xs[|xs| - 1] && 0 <= e < |edges|
      requires InRing(edges[e].reverse) && edges[e].target != v
      modifies `verts, `edges, `edgeFree, `free, `rings, `pending
      ensures Valid() && |edges| == old(|edges|) && |rings| == old(|rings|) && |verts| == old(|verts|)
      ensures p in rings[v] && From(rings[v], p) == [p] + rest + xs[..|xs| - 1]
      ensures pending == old(pending) && |free| == old(|free|) + 2
      ensures forall x :: InRing(x) <==> old(InRing(x)) && x != e && x != old(edges[e].reverse)
      ensures forall x :: 0 <= x < |edges| && x != e && x != old(edges[e].reverse) ==> SameButLinks(old(edges[x]), edges[x])
      ensures old(InRing(e)) && old(Paired(edges, e))
    {
      hide FreeList, Heads, Rings, Placed, Linked, From, After, Without;
      WalkBackAt(edges, rings, v, p, rest, xs);
      WithoutPrev(rings, v, p, rest, xs, edges[e].target, edges[e].reverse);
      assert Source(edges, edges[e].reverse) == edges[e].target;
      RemoveEdgePair(e);
    }

    /** The pairs strictly between `stop` and `p` on the ring of `v`, walking by `prev`, are removed. */
    method RemoveBetweenBack(p: int, stop: int, ghost v: nat, ghost rest: seq<nat>, ghost xs: seq<nat>)
      requires Valid() && v < |rings| && 0 <= p < |edges| && p in rings[v] && From(rings[v], p) == [p] + rest + xs
      requires stop == (if rest == [] then p else rest[|rest| - 1])
      requires forall x :: x in xs ==> x < |edges| && InRing(edges[x].reverse) && edges[x].target != v
      modifies `verts, `edges, `edgeFree, `free, `rings, `pending
      ensures Valid() && Trimmed(old(edges), old(rings), edges, rings, Backwards(xs))
      ensures p in rings[v] && From(rings[v], p) == [p] + rest
      ensures pending == old(pending) && |free| == old(|free|) + 2 * |xs|
    {
      hide FreeList, Heads, Rings, Placed, Linked, From, After, Trimmed, Without, Source, Paired, Distinct;
      ghost var (n, ys) := (|xs|, Backwards(xs));
      TrimBackStart(edges, rings, v, p, rest, xs);
      forall y | y in ys
        ensures y < |edges| && 0 <= edges[y].reverse < |edges| && Linked(edges, rings, edges[y].reverse) && edges[y].target != v
      {
        assert y in xs && InRing(edges[y].reverse);
      }
      var e := edges[p].prev;
      ghost var k := 0;
      assert xs[..n] == xs;
      while e != stop
        invariant Valid() && |edges| == old(|edges|) && |rings| == old(|rings|)
        invariant 0 <= k <= n && Trimmed(old(edges), old(rings), edges, rings, ys[..k])
        invariant e == (if k < n then ys[k] else stop)
        invariant p in rings[v] && From(rings[v], p) == [p] + rest + xs[..n - k]
        invariant pending == old(pending) && |free| == old(|free|) + 2 * k
        decreases n - k
      {
        WalkBackAt(edges, rings, v, p, rest, xs[..n - k]);
        TrimNext(old(edges), old(rings), edges, rings, v, ys, k);
        var prev := edges[e].prev;
        ghost var edges1, rings1 := edges, rings;
        label before:
        RemovePrev(p, e, v, rest, xs[..n - k]);
        assert forall x :: 0 <= x < |edges| ==> (InRing(x) <==> Linked(edges, rings, x));
        assert forall x :: 0 <= x < |edges| ==> (old@before(InRing(x)) <==> Linked(edges1, rings1, x));
        TrimStep(old(edges), old(rings), edges1, rings1, edges, rings, ys, k);
        e := prev;
        k := k + 1;
      }
      assert ys[..k] == ys && xs[..0] == [];
      assert [p] + rest + [] == [p] + rest;
    }
  }
}
