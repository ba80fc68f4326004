/**
 Reading a finished hull out into flat arrays
 (crates/cspace-bullet/src/convex_hull_computer.rs:2688-2704, 2763-2825, 2857-2944).

 The output edges refer to one another by relative offsets. Two ghost sequences say what they stand for: output
 vertex `k` is the hull's vertex `old[k]` and output edge `s` is the hull's half-edge `from[s]`.
 */
module HullOutput {
  import opened GridSort
  import opened HalfEdges

  /** An output half-edge: `next` and `reverse` are offsets, `target` an index. */
  datatype Edge = Edge(next: int, reverse: int, target: int)

  function ReverseEdge(out: seq<Edge>, s: int): int requires 0 <= s < |out| { s + out[s].reverse }

  function NextEdgeOfVertex(out: seq<Edge>, s: int): int requires 0 <= s < |out| { s + out[s].next }

  // ---- the marks of the first pass ---------------------------------------

  /** The hull being read: at rest, so every linked half-edge has a linked reverse. */
  ghost predicate AtRest(g: seq<InternalEdge>, rings: seq<seq<nat>>) {
    && Rings(g, rings)
    && (forall e :: Linked(g, rings, e) ==> Paired(g, e) && Linked(g, rings, g[e].reverse))
  }

  /** Only marks have been written, and the marks of the linked edges are `from` read backwards. */
  ghost predicate EdgeMarks(g: seq<InternalEdge>, rings: seq<seq<nat>>, edges: seq<InternalEdge>, from: seq<nat>) {
    && |edges| == |g|
    && (forall e :: 0 <= e < |g| ==> edges[e] == g[e].(copy := edges[e].copy))
    && (forall s :: 0 <= s < |from| ==> Linked(g, rings, from[s]) && edges[from[s]].copy == s)
    && (forall e :: Linked(g, rings, e) && edges[e].copy >= 0 ==> edges[e].copy < |from| && from[edges[e].copy] == e)
  }

  /** The same for vertices. */
  ghost predicate VertexMarks(h: seq<Vertex>, verts: seq<Vertex>, old_: seq<nat>) {
    && |verts| == |h|
    && (forall v :: 0 <= v < |h| ==> verts[v] == h[v].(copy := verts[v].copy))
    && (forall k :: 0 <= k < |old_| ==> old_[k] < |verts| && verts[old_[k]].copy == k)
    && (forall v :: 0 <= v < |verts| && verts[v].copy >= 0 ==> verts[v].copy < |old_| && old_[verts[v].copy] == v)
  }

  /** Output edge `s` is paired with the output of its reverse and names the output of its target. */
  ghost predicate EmittedAt(g: seq<InternalEdge>, edges: seq<InternalEdge>, verts: seq<Vertex>, from: seq<nat>,
                            out: seq<Edge>, s: nat)
    requires s < |from| == |out|
  {
    && from[s] < |g| == |edges| && 0 <= g[from[s]].reverse < |g| && 0 <= g[from[s]].target < |verts|
    && edges[g[from[s]].reverse].copy == s + out[s].reverse >= 0
    && verts[g[from[s]].target].copy == out[s].target >= 0
  }

  ghost predicate Emitted(g: seq<InternalEdge>, edges: seq<InternalEdge>, verts: seq<Vertex>, from: seq<nat>,
                          out: seq<Edge>)
  {
    |from| == |out| && forall s :: 0 <= s < |from| ==> EmittedAt(g, edges, verts, from, out, s)
  }

  /** The output `next` of edge `e` leads to its internal `prev`. */
  ghost predicate Turned(g: seq<InternalEdge>, edges: seq<InternalEdge>, out: seq<Edge>, e: nat) {
    && e < |g| == |edges| && 0 <= g[e].prev < |g|
    && 0 <= edges[e].copy < |out| && out[edges[e].copy].next == edges[g[e].prev].copy - edges[e].copy
    && 0 <= edges[g[e].prev].copy < |out|
  }

  ghost predicate RingDone(g: seq<InternalEdge>, edges: seq<InternalEdge>, out: seq<Edge>, ring: seq<nat>) {
    forall e :: e in ring ==> Turned(g, edges, out, e)
  }

  /** Every output vertex but the first was reached over an edge from an earlier one. */
  ghost predicate Found(g: seq<InternalEdge>, rings: seq<seq<nat>>, old_: seq<nat>) {
    forall k :: 0 < k < |old_| ==> FoundAt(g, rings, old_, k)
  }

  ghost predicate FoundAt(g: seq<InternalEdge>, rings: seq<seq<nat>>, old_: seq<nat>, k: nat)
    requires k < |old_|
  {
    exists j, e :: 0 <= j < k && old_[j] < |rings| && e in rings[old_[j]] && e < |g| && g[e].target == old_[k]
  }

  // ---- one edge ----------------------------------------------------------

  /** An edge and its reverse are marked together. */
  lemma MarkedTogether(g: seq<InternalEdge>, rings: seq<seq<nat>>, edges: seq<InternalEdge>, verts: seq<Vertex>,
                       from: seq<nat>, out: seq<Edge>, e: nat)
    requires AtRest(g, rings) && EdgeMarks(g, rings, edges, from) && Emitted(g, edges, verts, from, out)
    requires Linked(g, rings, e)
    ensures Paired(g, e) && Linked(g, rings, g[e].reverse)
    ensures edges[g[e].reverse].copy >= 0 <==> edges[e].copy >= 0
  {
    forall x | x in {e as int, g[e].reverse} && edges[x].copy >= 0 ensures edges[g[x].reverse].copy >= 0 {
      assert EmittedAt(g, edges, verts, from, out, edges[x].copy);
    }
  }

  /** Marking a fresh pair. */
  lemma PairMarked(g: seq<InternalEdge>, rings: seq<seq<nat>>, edges: seq<InternalEdge>, edges': seq<InternalEdge>,
                   verts: seq<Vertex>, from: seq<nat>, out: seq<Edge>, e: nat)
    requires AtRest(g, rings) && EdgeMarks(g, rings, edges, from) && Emitted(g, edges, verts, from, out)
    requires Linked(g, rings, e) && edges[e].copy < 0
    requires var r, s := g[e].reverse, |out|;
             0 <= r < |edges| && r != e &&
             edges' == edges[e := edges[e].(copy := s)][r := edges[r].(copy := s + 1)]
    ensures EdgeMarks(g, rings, edges', from + [e, g[e].reverse])
    ensures forall s :: 0 <= s < |from| ==>
              from[s] < |g| && edges'[from[s]].copy == edges[from[s]].copy && 0 <= g[from[s]].reverse < |g|
              && edges'[g[from[s]].reverse].copy == edges[g[from[s]].reverse].copy
    ensures forall x :: 0 <= x < |edges| && edges[x].copy >= 0 && Linked(g, rings, x) ==> edges'[x].copy == edges[x].copy
  {
    var r := g[e].reverse;
    var from' := from + [e, r];
    MarkedTogether(g, rings, edges, verts, from, out, e);
    assert from'[|from|] == e && from'[|from| + 1] == r;
    forall s | 0 <= s < |from|
      ensures from'[s] == from[s] && from[s] != e && from[s] != r && Paired(g, from[s])
      ensures g[from[s]].reverse != e && g[from[s]].reverse != r
    {
      assert EmittedAt(g, edges, verts, from, out, s);
    }
  }

  /** Everything the first pass has established so far. */
  ghost predicate Partway(g: seq<InternalEdge>, rings: seq<seq<nat>>, h: seq<Vertex>, edges: seq<InternalEdge>,
                          verts: seq<Vertex>, old_: seq<nat>, from: seq<nat>, out: seq<Edge>)
  {
    && AtRest(g, rings) && |h| == |rings|
    && EdgeMarks(g, rings, edges, from)
    && VertexMarks(h, verts, old_)
    && Emitted(g, edges, verts, from, out)
    && Found(g, rings, old_)
  }

  ghost predicate RingsDone(g: seq<InternalEdge>, rings: seq<seq<nat>>, edges: seq<InternalEdge>, out: seq<Edge>,
                            old_: seq<nat>, n: nat)
    requires n <= |old_|
  {
    forall k :: 0 <= k < n ==> old_[k] < |rings| && RingDone(g, edges, out, rings[old_[k]])
  }

  /** The first `p` edges of the ring being walked have been emitted and turned, the very first one excepted. */
  ghost predicate RingPartway(g: seq<InternalEdge>, edges: seq<InternalEdge>, out: seq<Edge>, ring: seq<nat>, p: nat) {
    && p <= |ring|
    && (forall j :: 0 <= j < p ==> ring[j] < |edges| && 0 <= edges[ring[j]].copy < |out|)
    && (forall j :: 0 < j < p ==> Turned(g, edges, out, ring[j]))
  }

  /** A new output vertex is found over the edge that led to it. */
  lemma FoundOneMore(g: seq<InternalEdge>, rings: seq<seq<nat>>, old_: seq<nat>, i: nat, e: nat)
    requires Found(g, rings, old_) && i < |old_| && old_[i] < |rings| && e in rings[old_[i]] && e < |g|
    requires g[e].target >= 0
    ensures Found(g, rings, old_ + [g[e].target])
  {
    var more := old_ + [g[e].target];
    forall k | 0 < k < |more| ensures FoundAt(g, rings, more, k) {
      if k < |old_| {
        assert FoundAt(g, rings, old_, k);
        var j, x :| 0 <= j < k && old_[j] < |rings| && x in rings[old_[j]] && x < |g| && g[x].target == old_[k];
        assert more[j] == old_[j];
      } else {
        assert more[i] == old_[i];
      }
    }
  }

  /** What an untouched mark keeps. */
  lemma TurnedKeeps(g: seq<InternalEdge>, edges: seq<InternalEdge>, edges': seq<InternalEdge>, out: seq<Edge>,
                    out': seq<Edge>, e: nat)
    requires Turned(g, edges, out, e) && |edges'| == |edges| && |out| <= |out'|
    requires edges'[e].copy == edges[e].copy && edges'[g[e].prev].copy == edges[g[e].prev].copy
    requires out'[edges[e].copy].next == out[edges[e].copy].next
    ensures Turned(g, edges', out', e)
  {}

  /** Emitting a pair keeps the whole state. */
  lemma EmitKeeps(g: seq<InternalEdge>, rings: seq<seq<nat>>, h: seq<Vertex>,
                  edges: seq<InternalEdge>, edges': seq<InternalEdge>, verts: seq<Vertex>, verts': seq<Vertex>,
                  old_: seq<nat>, old': seq<nat>, from: seq<nat>, out: seq<Edge>, e: nat, i: nat, index: int)
    requires Partway(g, rings, h, edges, verts, old_, from, out)
    requires i < |old_| && old_[i] < |rings| && e in rings[old_[i]] && e < |edges| && edges[e].copy < 0
    requires var r, s := g[e].reverse, |out|;
             0 <= r < |edges| && r != e &&
             edges' == edges[e := edges[e].(copy := s)][r := edges[r].(copy := s + 1)]
    requires VertexMarks(h, verts', old') && 0 <= g[e].target < |verts| && verts'[g[e].target].copy == index >= 0
    requires old' == old_ + (if verts[g[e].target].copy < 0 then [g[e].target] else [])
    requires forall v :: 0 <= v < |h| && v != g[e].target ==> verts'[v] == verts[v]
    requires verts[g[e].target].copy >= 0 ==> verts' == verts
    ensures Partway(g, rings, h, edges', verts', old', from + [e, g[e].reverse],
                    out + [Edge(0, 1, index), Edge(0, -1, i)])
    ensures forall x :: 0 <= x < |edges| && edges[x].copy >= 0 && Linked(g, rings, x) ==> edges'[x].copy == edges[x].copy
  {
    var r := g[e].reverse;
    var from', out' := from + [e, r], out + [Edge(0, 1, index), Edge(0, -1, i)];
    RingMembers(g, rings);
    PairMarked(g, rings, edges, edges', verts, from, out, e);
    EmittedMore(g, edges, edges', verts, verts', from, out, e, i, index);
    if verts[g[e].target].copy < 0 {
      FoundOneMore(g, rings, old_, i, e);
    } else {
      assert old' == old_;
    }
  }

  lemma EmittedMore(g: seq<InternalEdge>, edges: seq<InternalEdge>, edges': seq<InternalEdge>,
                    verts: seq<Vertex>, verts': seq<Vertex>, from: seq<nat>, out: seq<Edge>, e: nat, i: nat, index: int)
    requires Emitted(g, edges, verts, from, out) && Paired(g, e) && |g| == |edges| == |edges'| && |verts'| == |verts|
    requires 0 <= g[e].target < |verts| && verts'[g[e].target].copy == index >= 0
    requires 0 <= Source(g, e) < |verts| && verts'[Source(g, e)].copy == i
    requires edges'[e].copy == |out| && edges'[g[e].reverse].copy == |out| + 1
    requires forall s :: 0 <= s < |from| ==>
               from[s] < |g| && 0 <= g[from[s]].reverse < |g|
               && edges'[g[from[s]].reverse].copy == edges[g[from[s]].reverse].copy
    requires forall v :: 0 <= v < |verts| && verts[v].copy >= 0 ==> verts'[v] == verts[v]
    ensures Emitted(g, edges', verts', from + [e, g[e].reverse], out + [Edge(0, 1, index), Edge(0, -1, i)])
  {
    var from', out' := from + [e, g[e].reverse], out + [Edge(0, 1, index), Edge(0, -1, i)];
    forall s | 0 <= s < |from'| ensures EmittedAt(g, edges', verts', from', out', s) {
      if s < |from| {
        assert EmittedAt(g, edges, verts, from, out, s);
        assert from'[s] == from[s] && out'[s] == out[s];
      } else if s == |from| {
        assert from'[s] == e && out'[s] == Edge(0, 1, index);
      } else {
        assert from'[s] == g[e].reverse && out'[s] == Edge(0, -1, i);
      }
    }
  }

  /** What is already marked stays turned when more is emitted. */
  lemma TurnedStays(g: seq<InternalEdge>, rings: seq<seq<nat>>, edges: seq<InternalEdge>, edges': seq<InternalEdge>,
                    out: seq<Edge>, out': seq<Edge>, old_: seq<nat>, n: nat, v: nat, p: nat)
    requires AtRest(g, rings) && n <= |old_| && v < |rings|
    requires RingsDone(g, rings, edges, out, old_, n) && RingPartway(g, edges, out, rings[v], p)
    requires |edges'| == |edges| == |g| && |out| <= |out'| && out'[..|out|] == out
    requires forall x :: 0 <= x < |edges| && edges[x].copy >= 0 && Linked(g, rings, x) ==> edges'[x].copy == edges[x].copy
    ensures RingsDone(g, rings, edges', out', old_, n) && RingPartway(g, edges', out', rings[v], p)
  {
    forall u, e | 0 <= u < |rings| && e in rings[u] && Turned(g, edges, out, e) ensures Turned(g, edges', out', e) {
      TurnedInRing(g, rings, u, e);
      assert out[edges[e].copy] == out'[..|out|][edges[e].copy];
      TurnedKeeps(g, edges, edges', out, out', e);
    }
    RingMembers(g, rings);
    RingEdgesAreLinked(g, rings);
    forall j | 0 < j < p ensures Turned(g, edges', out', rings[v][j]) {
      assert Turned(g, edges, out, rings[v][j]);
    }
  }

  lemma TurnedInRing(g: seq<InternalEdge>, rings: seq<seq<nat>>, u: nat, e: nat)
    requires Rings(g, rings) && u < |rings| && e in rings[u]
    ensures e < |g| && 0 <= g[e].prev < |g| && g[e].prev in rings[u]
    ensures Linked(g, rings, e) && Linked(g, rings, g[e].prev)
  {
    RingMembers(g, rings);
    RingNeighbours(g, u, rings[u], e);
  }

  /** Setting the `next` of the edge now being walked touches nothing else. */
  lemma TurnKeeps(g: seq<InternalEdge>, rings: seq<seq<nat>>, h: seq<Vertex>, edges: seq<InternalEdge>,
                  verts: seq<Vertex>, old_: seq<nat>, from: seq<nat>, out: seq<Edge>, n: nat, j: nat, p: nat, prev: int)
    requires Partway(g, rings, h, edges, verts, old_, from, out) && n < |old_| && old_[n] < |rings|
    requires var ring := rings[old_[n]];
             && RingsDone(g, rings, edges, out, old_, n) && RingPartway(g, edges, out, ring, p)
             && j < |ring| && (p <= j || j == 0) && ring[j] < |edges| && 0 <= edges[ring[j]].copy < |out|
    ensures var ring := rings[old_[n]];
            var c := edges[ring[j]].copy;
            var out' := out[c := out[c].(next := prev - c)];
            && Partway(g, rings, h, edges, verts, old_, from, out')
            && RingsDone(g, rings, edges, out', old_, n) && RingPartway(g, edges, out', ring, p)
  {
    var ring := rings[old_[n]];
    var c := edges[ring[j]].copy;
    var out' := out[c := out[c].(next := prev - c)];
    RingMembers(g, rings);
    RingEdgesAreLinked(g, rings);
    assert Emitted(g, edges, verts, from, out') by {
      forall s | 0 <= s < |from| ensures EmittedAt(g, edges, verts, from, out', s) {
        assert EmittedAt(g, edges, verts, from, out, s);
      }
    }
    forall k | 0 <= k < n ensures old_[k] < |rings| && RingDone(g, edges, out', rings[old_[k]]) {
      assert old_[k] != old_[n];
      forall e | e in rings[old_[k]] ensures Turned(g, edges, out', e) {
        assert Turned(g, edges, out, e) && Source(g, e) == old_[k] && Source(g, ring[j]) == old_[n];
        assert edges[e].copy != c;
      }
    }
    forall i | 0 < i < p ensures Turned(g, edges, out', ring[i]) {
      assert Turned(g, edges, out, ring[i]);
      assert Distinct(ring) by { assert RingOf(g, old_[n], ring); }
      assert ring[i] != ring[j];
    }
  }

  /** What a fresh edge of the ring being walked looks like. */
  lemma EmitStart(g: seq<InternalEdge>, rings: seq<seq<nat>>, h: seq<Vertex>, edges: seq<InternalEdge>,
                  verts: seq<Vertex>, old_: seq<nat>, from: seq<nat>, out: seq<Edge>, i: nat, e: nat)
    requires Partway(g, rings, h, edges, verts, old_, from, out)
    requires i < |old_| && old_[i] < |rings| && e in rings[old_[i]]
    ensures |edges| == |g| && |verts| == |h| && VertexMarks(h, verts, old_) && e < |g|
    ensures edges[e] == g[e].(copy := edges[e].copy)
    ensures 0 <= g[e].reverse < |g| && g[e].reverse != e && 0 <= g[e].target < |verts|
    ensures edges[g[e].reverse] == g[g[e].reverse].(copy := edges[g[e].reverse].copy)
  {
    RingMembers(g, rings);
    assert rings[old_[i]][IndexOf(rings[old_[i]], e)] == e;
  }

  /** The invariant of the first pass while vertex `i`'s ring is being walked and `p` of its edges are behind. */
  ghost predicate Walking(g: seq<InternalEdge>, rings: seq<seq<nat>>, h: seq<Vertex>, edges: seq<InternalEdge>,
                          verts: seq<Vertex>, old_: seq<nat>, from: seq<nat>, out: seq<Edge>, i: nat, p: nat)
  {
    && Partway(g, rings, h, edges, verts, old_, from, out)
    && i < |old_| && old_[i] < |rings|
    && RingsDone(g, rings, edges, out, old_, i)
    && RingPartway(g, edges, out, rings[old_[i]], p)
  }

  /** The edge now being walked. */
  lemma WalkingAt(g: seq<InternalEdge>, rings: seq<seq<nat>>, h: seq<Vertex>, edges: seq<InternalEdge>,
                  verts: seq<Vertex>, old_: seq<nat>, from: seq<nat>, out: seq<Edge>, i: nat, p: nat)
    requires i < |old_| && old_[i] < |rings| && p < |rings[old_[i]]|
    requires Walking(g, rings, h, edges, verts, old_, from, out, i, p) || Walking(g, rings, h, edges, verts, old_, from, out, i, p + 1)
    ensures var ring := rings[old_[i]];
            && |edges| == |g| && ring[p] < |g| && Linked(g, rings, ring[p])
            && edges[ring[p]].next == ring[Succ(p, |ring|)]
            && (edges[ring[p]].copy >= 0 ==> edges[ring[p]].copy < |out|)
  {
    var ring := rings[old_[i]];
    RingEdgesAreLinked(g, rings);
    assert RingOf(g, old_[i], ring) && LinkedAt(g, ring, p);
  }

  /** A pair emitted while walking. */
  lemma EmittedWalking(g: seq<InternalEdge>, rings: seq<seq<nat>>, h: seq<Vertex>, edges: seq<InternalEdge>,
                       edges': seq<InternalEdge>, verts: seq<Vertex>, verts': seq<Vertex>, old_: seq<nat>, old': seq<nat>,
                       from: seq<nat>, from': seq<nat>, out: seq<Edge>, out': seq<Edge>, i: nat, p: nat)
    requires Walking(g, rings, h, edges, verts, old_, from, out, i, p) && p < |rings[old_[i]]|
    requires Partway(g, rings, h, edges', verts', old', from', out')
    requires old_ <= old' && |edges'| == |edges| && |out'| >= |out| && out'[..|out|] == out
    requires forall x :: 0 <= x < |edges| && edges[x].copy >= 0 && Linked(g, rings, x) ==> edges'[x].copy == edges[x].copy
    ensures Walking(g, rings, h, edges', verts', old', from', out', i, p)
  {
    assert forall k :: 0 <= k <= i ==> old'[k] == old_[k];
    TurnedStays(g, rings, edges, edges', out, out', old_, i, old_[i], p);
    assert RingsDone(g, rings, edges', out', old', i) by {
      forall k | 0 <= k < i ensures old'[k] < |rings| && RingDone(g, edges', out', rings[old'[k]]) {
        assert RingDone(g, edges', out', rings[old_[k]]);
      }
    }
  }

  /** A `next` written while walking. */
  lemma TurnWalking(g: seq<InternalEdge>, rings: seq<seq<nat>>, h: seq<Vertex>, edges: seq<InternalEdge>,
                    verts: seq<Vertex>, old_: seq<nat>, from: seq<nat>, out: seq<Edge>, i: nat, p: nat, j: nat, prev: int)
    requires Walking(g, rings, h, edges, verts, old_, from, out, i, p) && j < |rings[old_[i]]| && (p == j || j == 0)
    requires rings[old_[i]][j] < |edges| && 0 <= edges[rings[old_[i]][j]].copy < |out|
    ensures var c := edges[rings[old_[i]][j]].copy;
            Walking(g, rings, h, edges, verts, old_, from, out[c := out[c].(next := prev - c)], i, p)
  {
    TurnKeeps(g, rings, h, edges, verts, old_, from, out, i, j, p, prev);
  }

  lemma WalkingLength(g: seq<InternalEdge>, rings: seq<seq<nat>>, h: seq<Vertex>, edges: seq<InternalEdge>,
                      verts: seq<Vertex>, old_: seq<nat>, from: seq<nat>, out: seq<Edge>, i: nat, p: nat)
    requires Walking(g, rings, h, edges, verts, old_, from, out, i, p)
    ensures |edges| == |g| && forall k :: 0 < k < |rings[old_[i]]| ==> rings[old_[i]][k] != rings[old_[i]][0]
    ensures forall k :: 0 <= k < |rings[old_[i]]| ==> rings[old_[i]][k] < |edges|
    ensures forall k :: 0 <= k < p && k < |rings[old_[i]]| ==> 0 <= edges[rings[old_[i]][k]].copy < |out|
  {
    var ring := rings[old_[i]];
    RingEdgesAreLinked(g, rings);
    assert RingOf(g, old_[i], ring);
    assert forall k :: 0 <= k < |ring| ==> Linked(g, rings, ring[k]);
  }

  /** Stepping past an emitted edge. */
  lemma StepWalking(g: seq<InternalEdge>, rings: seq<seq<nat>>, h: seq<Vertex>, edges: seq<InternalEdge>,
                    verts: seq<Vertex>, old_: seq<nat>, from: seq<nat>, out: seq<Edge>, i: nat, p: nat)
    requires Walking(g, rings, h, edges, verts, old_, from, out, i, p) && p < |rings[old_[i]]|
    requires var ring := rings[old_[i]];
             && ring[p] < |edges| && 0 <= edges[ring[p]].copy < |out|
             && (p > 0 ==> ring[p - 1] < |edges|)
             && (p > 0 ==> out[edges[ring[p]].copy].next == edges[ring[p - 1]].copy - edges[ring[p]].copy)
    ensures Walking(g, rings, h, edges, verts, old_, from, out, i, p + 1)
  {
    var ring := rings[old_[i]];
    assert RingOf(g, old_[i], ring) && LinkedAt(g, ring, p);
    if p > 0 {
      assert 0 <= edges[ring[p - 1]].copy < |out|;
      assert Turned(g, edges, out, ring[p]);
    }
  }

  /** The last write closes the ring. */
  lemma CloseWalking(g: seq<InternalEdge>, rings: seq<seq<nat>>, h: seq<Vertex>, edges: seq<InternalEdge>,
                     verts: seq<Vertex>, old_: seq<nat>, from: seq<nat>, out: seq<Edge>, i: nat)
    requires i < |old_| && old_[i] < |rings| && Walking(g, rings, h, edges, verts, old_, from, out, i, |rings[old_[i]]|)
    requires var ring := rings[old_[i]];
             |ring| > 0 ==>
               && ring[0] < |edges| && ring[|ring| - 1] < |edges| && 0 <= edges[ring[0]].copy < |out|
               && out[edges[ring[0]].copy].next == edges[ring[|ring| - 1]].copy - edges[ring[0]].copy
    ensures RingsDone(g, rings, edges, out, old_, i + 1)
  {
    var ring := rings[old_[i]];
    assert RingOf(g, old_[i], ring);
    forall e | e in ring ensures Turned(g, edges, out, e) {
      var j := IndexOf(ring, e);
      assert LinkedAt(g, ring, j);
      assert 0 <= edges[ring[j]].copy < |out| && 0 <= edges[ring[Pred(j, |ring|)]].copy < |out|;
      assert j > 0 ==> Turned(g, edges, out, ring[j]);
    }
  }

  /** The edges behind the walk are linked, so their marks stay. */
  lemma KeptMarks(g: seq<InternalEdge>, rings: seq<seq<nat>>, h: seq<Vertex>, edges: seq<InternalEdge>,
                  verts: seq<Vertex>, old_: seq<nat>, from: seq<nat>, out: seq<Edge>, i: nat, p: nat)
    requires Walking(g, rings, h, edges, verts, old_, from, out, i, p)
    ensures forall k :: 0 <= k < |rings[old_[i]]| ==> Linked(g, rings, rings[old_[i]][k])
  {
    RingEdgesAreLinked(g, rings);
  }

  // ---- what the first pass produces --------------------------------------

  /** Distinct numbers below `n` are at most `n`. */
  lemma {:induction false} PigeonHole(s: seq<nat>, n: nat)
    requires Distinct(s) && forall k :: 0 <= k < |s| ==> s[k] < n
    ensures |s| <= n
    decreases n
  {
    if |s| > 0 {
      assert s[0] < n;
      if n - 1 in s {
        AfterMembers(s, n - 1);
        var rest := After(s, n - 1);
        forall k | 0 <= k < |rest| ensures rest[k] < n - 1 {
          assert rest[k] in rest;
        }
        PigeonHole(rest, n - 1);
      } else {
        forall k | 0 <= k < |s| ensures s[k] < n - 1 {
          assert s[k] in s;
        }
        PigeonHole(s, n - 1);
      }
    }
  }

  /** The output is a copy of the half-edge structure reachable from `root`: `old_` and `from` are bijections that
      carry reverse, target and the internal `prev` over. */
  ghost predicate CopyOf(g: seq<InternalEdge>, rings: seq<seq<nat>>, root: nat, old_: seq<nat>, from: seq<nat>,
                         out: seq<Edge>)
  {
    && |old_| > 0 && old_[0] == root && Distinct(old_) && (forall k :: 0 <= k < |old_| ==> old_[k] < |rings|)
    && Found(g, rings, old_)
    && |from| == |out| && Distinct(from)
    && (forall e :: e in from <==> Linked(g, rings, e) && Source(g, e) in old_)
    && (forall s :: 0 <= s < |out| ==> CopyAt(g, old_, from, out, s))
  }

  ghost predicate CopyAt(g: seq<InternalEdge>, old_: seq<nat>, from: seq<nat>, out: seq<Edge>, s: nat)
    requires s < |out| == |from|
  {
    && from[s] < |g|
    && 0 <= ReverseEdge(out, s) < |out| && from[ReverseEdge(out, s)] == g[from[s]].reverse
    && 0 <= NextEdgeOfVertex(out, s) < |out| && from[NextEdgeOfVertex(out, s)] == g[from[s]].prev
    && 0 <= out[s].target < |old_| && old_[out[s].target] == g[from[s]].target
  }

  lemma FirstPassCopies(g: seq<InternalEdge>, rings: seq<seq<nat>>, h: seq<Vertex>, edges: seq<InternalEdge>,
                        verts: seq<Vertex>, old_: seq<nat>, from: seq<nat>, out: seq<Edge>)
    requires Partway(g, rings, h, edges, verts, old_, from, out) && |old_| > 0
    requires RingsDone(g, rings, edges, out, old_, |old_|)
    ensures CopyOf(g, rings, old_[0], old_, from, out)
  {
    forall s | 0 <= s < |from| ensures Source(g, from[s]) in old_ && CopyAt(g, old_, from, out, s) {
      EmittedSource(g, rings, h, edges, verts, old_, from, out, s);
      var e := from[s];
      var k := IndexOf(old_, Source(g, e));
      assert RingDone(g, edges, out, rings[old_[k]]);
      assert Turned(g, edges, out, e);
      TurnedInRing(g, rings, old_[k], e);
    }
    forall e | Linked(g, rings, e) && Source(g, e) in old_ ensures e in from {
      var k := IndexOf(old_, Source(g, e));
      assert RingDone(g, edges, out, rings[old_[k]]);
      assert Turned(g, edges, out, e);
      assert from[edges[e].copy] == e;
    }
  }

  /** The source of an emitted edge is an output vertex. */
  lemma EmittedSource(g: seq<InternalEdge>, rings: seq<seq<nat>>, h: seq<Vertex>, edges: seq<InternalEdge>,
                      verts: seq<Vertex>, old_: seq<nat>, from: seq<nat>, out: seq<Edge>, s: nat)
    requires Partway(g, rings, h, edges, verts, old_, from, out) && s < |from|
    ensures Source(g, from[s]) in old_
    ensures from[s] < |g| && Linked(g, rings, from[s])
    ensures 0 <= ReverseEdge(out, s) < |out| && from[ReverseEdge(out, s)] == g[from[s]].reverse
    ensures 0 <= out[s].target < |old_| && old_[out[s].target] == g[from[s]].target
  {
    assert EmittedAt(g, edges, verts, from, out, s);
    var r := g[from[s]].reverse;
    assert Linked(g, rings, from[s]);
    var t := edges[r].copy;
    assert EmittedAt(g, edges, verts, from, out, t);
  }

  lemma StartOfPass(verts: seq<Vertex>, edges: seq<InternalEdge>, head: int, free: seq<nat>, rings: seq<seq<nat>>, root: nat)
    requires Arena(verts, edges, head, free, rings, {}) && root < |verts|
    requires forall v :: 0 <= v < |verts| ==> verts[v].copy < 0
    requires forall e :: 0 <= e < |edges| && Linked(edges, rings, e) ==> edges[e].copy < 0
    ensures AtRest(edges, rings) && |verts| == |rings| && Heads(verts, rings)
    ensures EdgeMarks(edges, rings, edges, []) && VertexMarks(verts, verts, [])
  {
    RestIsPaired(verts, edges, head, free, rings);
  }

  /** The pass starts with the root alone. */
  lemma RootFound(g: seq<InternalEdge>, rings: seq<seq<nat>>, h: seq<Vertex>, verts: seq<Vertex>, root: nat)
    requires AtRest(g, rings) && Heads(h, rings) && EdgeMarks(g, rings, g, []) && VertexMarks(h, verts, [root])
    requires root < |h|
    ensures Partway(g, rings, h, g, verts, [root], [], []) && RingsDone(g, rings, g, [], [root], 0)
    ensures |[root]| <= |h|
  {}

  /** The next vertex to visit, with an empty stretch of its ring behind. */
  lemma NextVertex(g: seq<InternalEdge>, rings: seq<seq<nat>>, h: seq<Vertex>, edges: seq<InternalEdge>,
                   verts: seq<Vertex>, old_: seq<nat>, from: seq<nat>, out: seq<Edge>, i: nat)
    requires Partway(g, rings, h, edges, verts, old_, from, out) && i < |old_| && RingsDone(g, rings, edges, out, old_, i)
    requires Heads(h, rings)
    ensures old_[i] < |rings| && old_[i] < |verts| == |h| && Walking(g, rings, h, edges, verts, old_, from, out, i, 0)
    ensures verts[old_[i]].point == h[old_[i]].point
    ensures verts[old_[i]].edges == (if rings[old_[i]] == [] then NIL else rings[old_[i]][0])
  {}

  /** A vertex without edges needs no walk. */
  lemma EmptyRing(g: seq<InternalEdge>, rings: seq<seq<nat>>, edges: seq<InternalEdge>, out: seq<Edge>, old_: seq<nat>, i: nat)
    requires i < |old_| && old_[i] < |rings| && rings[old_[i]] == [] && RingsDone(g, rings, edges, out, old_, i)
    ensures RingsDone(g, rings, edges, out, old_, i + 1)
  {}

  lemma FoundBound(g: seq<InternalEdge>, rings: seq<seq<nat>>, h: seq<Vertex>, edges: seq<InternalEdge>,
                   verts: seq<Vertex>, old_: seq<nat>, from: seq<nat>, out: seq<Edge>)
    requires Partway(g, rings, h, edges, verts, old_, from, out)
    ensures |old_| <= |h| && EdgeMarks(g, rings, edges, from) && VertexMarks(h, verts, old_)
  {
    PigeonHole(old_, |h|);
  }

  /** The vertex rows written so far. */
  ghost predicate VertexRows(h: seq<Vertex>, found: seq<nat>, points: seq<Point32>, index: seq<int>) {
    && |index| == |points| <= |found|
    && forall k :: 0 <= k < |points| ==>
         found[k] < |h| && points[k] == h[found[k]].point && index[k] == h[found[k]].point.index
  }

  lemma NoRows(h: seq<Vertex>, found: seq<nat>)
    ensures VertexRows(h, found, [], [])
  {}

  lemma OneMoreRow(h: seq<Vertex>, found: seq<nat>, points: seq<Point32>, index: seq<int>, verts: seq<Vertex>)
    requires VertexRows(h, found, points, index) && |points| < |found| && found[|points|] < |h| == |verts|
    requires verts[found[|points|]].point == h[found[|points|]].point
    ensures var v := verts[found[|points|]]; VertexRows(h, found, points + [v.point], index + [v.point.index])
  {}

  lemma RowsStay(h: seq<Vertex>, found: seq<nat>, found': seq<nat>, points: seq<Point32>, index: seq<int>)
    requires VertexRows(h, found, points, index) && found <= found'
    ensures VertexRows(h, found', points, index)
  {}

  // ---- what the copy means -----------------------------------------------

  /** Equal half-edges are equal output edges. */
  lemma SameOutput(from: seq<nat>, s: nat, t: nat)
    requires Distinct(from) && s < |from| && t < |from| && from[s] == from[t]
    ensures s == t
  {}

  /** An output edge's half-edge is linked, so all its neighbours are too. */
  lemma OutputIsLinked(g: seq<InternalEdge>, rings: seq<seq<nat>>, root: nat, old_: seq<nat>, from: seq<nat>,
                       out: seq<Edge>, s: nat)
    requires AtRest(g, rings) && CopyOf(g, rings, root, old_, from, out) && s < |out|
    ensures Linked(g, rings, from[s]) && Paired(g, from[s]) && CopyAt(g, old_, from, out, s)
    ensures 0 <= g[from[s]].prev < |g| && g[g[from[s]].prev].next == from[s]
  {
    assert from[s] in from;
    var v := Source(g, from[s]);
    var ring := rings[v];
    assert RingOf(g, v, ring);
    var i := IndexOf(ring, from[s]);
    assert LinkedAt(g, ring, i) && LinkedAt(g, ring, Pred(i, |ring|));
  }

  /** `reverse_edge` is an involution without fixpoints and swaps source and target. */
  lemma ReverseIsInvolution(g: seq<InternalEdge>, rings: seq<seq<nat>>, root: nat, old_: seq<nat>, from: seq<nat>,
                            out: seq<Edge>, s: nat)
    requires AtRest(g, rings) && CopyOf(g, rings, root, old_, from, out) && s < |out|
    ensures 0 <= ReverseEdge(out, s) < |out| && ReverseEdge(out, s) != s
    ensures ReverseEdge(out, ReverseEdge(out, s)) == s
    ensures 0 <= EdgeSourceVertex(out, s) < |old_| && old_[EdgeSourceVertex(out, s)] == Source(g, from[s])
  {
    OutputIsLinked(g, rings, root, old_, from, out, s);
    var r := ReverseEdge(out, s);
    OutputIsLinked(g, rings, root, old_, from, out, r);
    SameOutput(from, ReverseEdge(out, r), s);
  }

  /** The vertex an output edge leaves. */
  function EdgeSourceVertex(out: seq<Edge>, s: int): int
    requires 0 <= s < |out| && 0 <= ReverseEdge(out, s) < |out|
  {
    out[ReverseEdge(out, s)].target
  }

  /** `n` steps over ring edges lead from `u` to `v`. */
  ghost predicate Leads(g: seq<InternalEdge>, rings: seq<seq<nat>>, u: int, v: int, n: nat)
    decreases n
  {
    if n == 0 then u == v
    else exists w :: 0 <= w < |rings| && Leads(g, rings, u, w, n - 1) && Adjacent(g, rings, w, v)
  }

  ghost predicate Adjacent(g: seq<InternalEdge>, rings: seq<seq<nat>>, w: int, v: int) {
    0 <= w < |rings| && exists e :: e in rings[w] && e < |g| && g[e].target == v
  }

  /** Exactly the vertices that can be reached from the root are emitted. */
  lemma ReachableExactly(g: seq<InternalEdge>, rings: seq<seq<nat>>, root: nat, old_: seq<nat>, from: seq<nat>,
                         out: seq<Edge>, v: nat)
    requires AtRest(g, rings) && CopyOf(g, rings, root, old_, from, out)
    ensures v in old_ <==> exists n: nat :: Leads(g, rings, root, v, n)
  {
    if v in old_ {
      var n := FoundLeads(g, rings, root, old_, from, out, IndexOf(old_, v));
      assert Leads(g, rings, root, v, n);
    }
    forall n: nat | Leads(g, rings, root, v, n) ensures v in old_ {
      LeadsFound(g, rings, root, old_, from, out, v, n);
    }
  }

  lemma {:induction false} FoundLeads(g: seq<InternalEdge>, rings: seq<seq<nat>>, root: nat, old_: seq<nat>, from: seq<nat>,
                                      out: seq<Edge>, k: nat) returns (n: nat)
    requires CopyOf(g, rings, root, old_, from, out) && k < |old_|
    ensures Leads(g, rings, root, old_[k], n)
    decreases k
  {
    if k == 0 {
      n := 0;
    } else {
      assert FoundAt(g, rings, old_, k);
      var j, e :| 0 <= j < k && old_[j] < |rings| && e in rings[old_[j]] && e < |g| && g[e].target == old_[k];
      n := FoundLeads(g, rings, root, old_, from, out, j);
      assert Adjacent(g, rings, old_[j], old_[k]);
      n := n + 1;
    }
  }

  lemma {:induction false} LeadsFound(g: seq<InternalEdge>, rings: seq<seq<nat>>, root: nat, old_: seq<nat>, from: seq<nat>,
                                      out: seq<Edge>, v: int, n: nat)
    requires AtRest(g, rings) && CopyOf(g, rings, root, old_, from, out) && Leads(g, rings, root, v, n)
    ensures v >= 0 && v in old_
    decreases n
  {
    if n == 0 {
      assert old_[0] == v;
    } else {
      var w :| 0 <= w < |rings| && Leads(g, rings, root, w, n - 1) && Adjacent(g, rings, w, v);
      LeadsFound(g, rings, root, old_, from, out, w, n - 1);
      var e :| e in rings[w] && e < |g| && g[e].target == v;
      RingMembers(g, rings);
      assert e in from;
      var s := IndexOf(from, e);
      assert CopyAt(g, old_, from, out, s);
    }
  }

  // ---- face loops --------------------------------------------------------

  /** The next edge around the face: reverse, then turn at that vertex. */
  function NextEdgeOfFace(out: seq<Edge>, s: int): int
    requires 0 <= s < |out| && 0 <= ReverseEdge(out, s) < |out|
  {
    NextEdgeOfVertex(out, ReverseEdge(out, s))
  }

  /** Offsets stay inside and no two edges have the same successor on a face. */
  ghost predicate FaceLoops(out: seq<Edge>) {
    && (forall s :: 0 <= s < |out| ==> 0 <= ReverseEdge(out, s) < |out| && 0 <= NextEdgeOfVertex(out, s) < |out|)
    && (forall s, t :: 0 <= s < |out| && 0 <= t < |out| && NextEdgeOfFace(out, s) == NextEdgeOfFace(out, t) ==> s == t)
  }

  /** A step around an output face is `e.reverse.prev` inside the hull. */
  ghost predicate StepMatches(g: seq<InternalEdge>, from: seq<nat>, out: seq<Edge>, s: nat)
    requires s < |out| == |from|
  {
    && 0 <= ReverseEdge(out, s) < |out| && 0 <= NextEdgeOfFace(out, s) < |out|
    && from[s] < |g| && 0 <= g[from[s]].reverse < |g|
    && from[NextEdgeOfFace(out, s)] == g[g[from[s]].reverse].prev
  }

  ghost predicate StepsMatch(g: seq<InternalEdge>, from: seq<nat>, out: seq<Edge>) {
    |out| == |from| && forall s :: 0 <= s < |out| ==> StepMatches(g, from, out, s)
  }

  lemma CopyHasFaceLoops(g: seq<InternalEdge>, rings: seq<seq<nat>>, root: nat, old_: seq<nat>, from: seq<nat>,
                         out: seq<Edge>)
    requires AtRest(g, rings) && CopyOf(g, rings, root, old_, from, out)
    ensures FaceLoops(out) && StepsMatch(g, from, out)
    ensures |from| == |out| && Distinct(from) && forall k :: 0 <= k < |old_| ==> old_[k] < |rings|
  {
    forall s | 0 <= s < |out|
      ensures 0 <= ReverseEdge(out, s) < |out| && 0 <= NextEdgeOfVertex(out, s) < |out|
      ensures StepMatches(g, from, out, s)
      ensures 0 <= from[NextEdgeOfFace(out, s)] < |g| && g[from[NextEdgeOfFace(out, s)]].next == g[from[s]].reverse
    {
      OutputIsLinked(g, rings, root, old_, from, out, s);
      OutputIsLinked(g, rings, root, old_, from, out, ReverseEdge(out, s));
    }
    forall s, t | 0 <= s < |out| && 0 <= t < |out| && NextEdgeOfFace(out, s) == NextEdgeOfFace(out, t)
      ensures s == t
    {
      OutputIsLinked(g, rings, root, old_, from, out, s);
      OutputIsLinked(g, rings, root, old_, from, out, t);
      assert g[from[s]].reverse == g[from[t]].reverse;
      SameOutput(from, s, t);
    }
  }

  /** `n` steps around a face. */
  ghost function FaceWalk(out: seq<Edge>, s: int, n: nat): (t: int)
    requires FaceLoops(out) && 0 <= s < |out|
    ensures 0 <= t < |out|
  {
    if n == 0 then s else NextEdgeOfFace(out, FaceWalk(out, s, n - 1))
  }

  /** The two edges lie on one face loop. */
  ghost predicate SameFace(out: seq<Edge>, s: int, t: int)
    requires FaceLoops(out) && 0 <= s < |out|
  {
    exists n: nat :: FaceWalk(out, s, n) == t
  }

  lemma {:induction false} FaceWalkAdds(out: seq<Edge>, s: int, m: nat, n: nat)
    requires FaceLoops(out) && 0 <= s < |out|
    ensures FaceWalk(out, s, m + n) == FaceWalk(out, FaceWalk(out, s, m), n)
  {
    if n > 0 {
      FaceWalkAdds(out, s, m, n - 1);
    }
  }

  /** Walks that meet started together. */
  lemma {:induction false} FaceWalkInjective(out: seq<Edge>, s: int, t: int, n: nat)
    requires FaceLoops(out) && 0 <= s < |out| && 0 <= t < |out| && FaceWalk(out, s, n) == FaceWalk(out, t, n)
    ensures s == t
  {
    if n > 0 {
      FaceWalkInjective(out, s, t, n - 1);
    }
  }

  /** The first `n` edges of a walk that has not come back are distinct. */
  lemma WalkDistinct(out: seq<Edge>, s: int, n: nat)
    requires FaceLoops(out) && 0 <= s < |out|
    requires forall k :: 0 < k < n ==> FaceWalk(out, s, k) != s
    ensures Distinct(seq(n, k requires k >= 0 => FaceWalk(out, s, k) as nat))
  {
    var w := seq(n, k requires k >= 0 => FaceWalk(out, s, k) as nat);
    forall i, j | 0 <= i < j < n ensures w[i] != w[j] {
      FaceWalkAdds(out, s, j - i, i);
      if w[i] == w[j] {
        FaceWalkInjective(out, s, FaceWalk(out, s, j - i), i);
      }
    }
  }

  /** Every walk comes back: after some positive number of steps, no more than there are edges. */
  lemma FacesClose(out: seq<Edge>, s: int) returns (n: nat)
    requires FaceLoops(out) && 0 <= s < |out|
    ensures 0 < n <= |out| && FaceWalk(out, s, n) == s
  {
    if forall k :: 0 < k < |out| + 1 ==> FaceWalk(out, s, k) != s {
      WalkDistinct(out, s, |out| + 1);
      PigeonHole(seq(|out| + 1, k requires k >= 0 => FaceWalk(out, s, k) as nat), |out|);
    } else {
      n :| 0 < n < |out| + 1 && FaceWalk(out, s, n) == s;
    }
  }

  lemma {:induction false} FaceWalkRepeats(out: seq<Edge>, s: int, n: nat, k: nat)
    requires FaceLoops(out) && 0 <= s < |out| && FaceWalk(out, s, n) == s
    ensures FaceWalk(out, s, k * n) == s
  {
    if k > 0 {
      FaceWalkRepeats(out, s, n, k - 1);
      assert k * n == (k - 1) * n + n;
      FaceWalkAdds(out, s, (k - 1) * n, n);
    } else {
      assert k * n == 0;
    }
  }

  lemma SameFaceSymmetric(out: seq<Edge>, s: int, t: int)
    requires FaceLoops(out) && 0 <= s < |out| && SameFace(out, s, t)
    ensures 0 <= t < |out| && SameFace(out, t, s)
  {
    var m: nat :| FaceWalk(out, s, m) == t;
    var n := FacesClose(out, s);
    FaceWalkRepeats(out, s, n, m);
    assert m * n >= m by { assert m * n - m == m * (n - 1); }
    FaceWalkAdds(out, s, m, m * n - m);
  }

  lemma SameFaceTransitive(out: seq<Edge>, s: int, t: int, u: int)
    requires FaceLoops(out) && 0 <= s < |out| && 0 <= t < |out| && SameFace(out, s, t) && SameFace(out, t, u)
    ensures SameFace(out, s, u)
  {
    var m: nat :| FaceWalk(out, s, m) == t;
    var n: nat :| FaceWalk(out, t, n) == u;
    FaceWalkAdds(out, s, m, n);
  }

  /** The edges of one whole loop are those met before the walk first comes back. */
  lemma LoopIsWhole(out: seq<Edge>, s: int, n: nat, t: int)
    requires FaceLoops(out) && 0 <= s < |out| && n > 0 && FaceWalk(out, s, n) == s
    ensures SameFace(out, s, t) <==> exists k: nat :: k < n && FaceWalk(out, s, k) == t
  {
    if SameFace(out, s, t) {
      var m: nat :| FaceWalk(out, s, m) == t;
      var k := Reduced(out, s, n, m);
      assert FaceWalk(out, s, k) == t;
    }
  }

  lemma Reduced(out: seq<Edge>, s: int, n: nat, m: nat) returns (k: nat)
    requires FaceLoops(out) && 0 <= s < |out| && n > 0 && FaceWalk(out, s, n) == s
    ensures k < n && FaceWalk(out, s, k) == FaceWalk(out, s, m)
    decreases m
  {
    if m < n {
      k := m;
    } else {
      FaceWalkAdds(out, s, n, m - n);
      k := Reduced(out, s, n, m - n);
    }
  }

  /** The second pass clears the marks of the edges in `done`. */
  ghost predicate Cleared(g: seq<InternalEdge>, edges: seq<InternalEdge>, from: seq<nat>, done: set<int>) {
    && |edges| == |g|
    && (forall e :: 0 <= e < |g| ==> edges[e] == g[e].(copy := edges[e].copy))
    && (forall s :: 0 <= s < |from| ==> from[s] < |edges| && edges[from[s]].copy == if s in done then -1 else s)
  }

  ghost predicate OnSomeFace(out: seq<Edge>, faces: seq<int>, s: int)
    requires FaceLoops(out)
  {
    exists k :: 0 <= k < |faces| && 0 <= faces[k] < |out| && SameFace(out, faces[k], s)
  }

  /** The faces collected so far account for exactly the cleared edges, one loop each. */
  ghost predicate Collected(out: seq<Edge>, faces: seq<int>, done: set<int>)
    requires FaceLoops(out)
  {
    && (forall k :: 0 <= k < |faces| ==> 0 <= faces[k] < |out|)
    && (forall s :: s in done <==> 0 <= s < |out| && OnSomeFace(out, faces, s))
    && (forall i, j :: 0 <= i < |faces| && 0 <= j < |faces| && SameFace(out, faces[i], faces[j]) ==> i == j)
  }

  /** A whole loop that was not cleared yet is one face more. */
  lemma CollectOne(out: seq<Edge>, faces: seq<int>, done: set<int>, c: int, loop: set<int>)
    requires FaceLoops(out) && Collected(out, faces, done) && 0 <= c < |out| && c !in done
    requires forall t :: t in loop <==> SameFace(out, c, t)
    ensures Collected(out, faces + [c], done + loop) && c in loop
  {
    assert FaceWalk(out, c, 0) == c;
    var more := faces + [c];
    forall t | SameFace(out, c, t) ensures 0 <= t < |out| { SameFaceSymmetric(out, c, t); }
    forall k | 0 <= k < |faces| ensures !SameFace(out, faces[k], c) && !SameFace(out, c, faces[k]) {
      if SameFace(out, c, faces[k]) {
        SameFaceSymmetric(out, c, faces[k]);
      }
    }
    forall s | s in done + loop ensures OnSomeFace(out, more, s) {
      if s in done {
        var k :| 0 <= k < |faces| && SameFace(out, faces[k], s);
        assert more[k] == faces[k];
      } else {
        assert more[|faces|] == c;
      }
    }
    forall i, j | 0 <= i < |more| && 0 <= j < |more| && SameFace(out, more[i], more[j]) ensures i == j {
      assert i < |faces| ==> more[i] == faces[i];
      assert j < |faces| ==> more[j] == faces[j];
    }
  }

  /** The edges met in the first `n` steps. */
  ghost function Met(out: seq<Edge>, c: int, n: nat): set<int>
    requires FaceLoops(out) && 0 <= c < |out|
  {
    if n == 0 then {} else Met(out, c, n - 1) + {FaceWalk(out, c, n - 1)}
  }

  lemma {:induction false} MetBefore(out: seq<Edge>, c: int, n: nat, k: nat)
    requires FaceLoops(out) && 0 <= c < |out| && k < n
    ensures FaceWalk(out, c, k) in Met(out, c, n)
  {
    if k < n - 1 {
      MetBefore(out, c, n - 1, k);
    }
  }

  lemma {:induction false} MetWhen(out: seq<Edge>, c: int, n: nat, t: int) returns (k: nat)
    requires FaceLoops(out) && 0 <= c < |out| && t in Met(out, c, n)
    ensures k < n && FaceWalk(out, c, k) == t
  {
    if t == FaceWalk(out, c, n - 1) {
      k := n - 1;
    } else {
      k := MetWhen(out, c, n - 1, t);
    }
  }

  lemma MetExactly(out: seq<Edge>, c: int, n: nat, t: int)
    requires FaceLoops(out) && 0 <= c < |out|
    ensures t in Met(out, c, n) <==> exists k: nat :: k < n && FaceWalk(out, c, k) == t
  {
    hide Met;
    if t in Met(out, c, n) {
      var k := MetWhen(out, c, n, t);
      assert FaceWalk(out, c, k) == t;
    }
    forall k: nat | k < n && FaceWalk(out, c, k) == t ensures t in Met(out, c, n) {
      MetBefore(out, c, n, k);
    }
  }

  lemma FaceWalkStep(out: seq<Edge>, c: int, n: nat)
    requires FaceLoops(out) && 0 <= c < |out|
    ensures 0 <= ReverseEdge(out, FaceWalk(out, c, n)) < |out|
    ensures FaceWalk(out, c, n + 1) == NextEdgeOfFace(out, FaceWalk(out, c, n))
  {}

  lemma SameOutputs(from: seq<nat>, s: nat, t: nat)
    requires Distinct(from) && s < |from| && t < |from|
    ensures from[s] == from[t] <==> s == t
  {}

  /** One step of clearing a loop. */
  lemma ClearStep(g: seq<InternalEdge>, edges: seq<InternalEdge>, from: seq<nat>, out: seq<Edge>, done: set<int>,
                  c: int, n: nat)
    requires FaceLoops(out) && |from| == |out| && Distinct(from) && 0 <= c < |out|
    requires Cleared(g, edges, from, done + Met(out, c, n))
    requires StepsMatch(g, from, out)
    ensures var f := from[FaceWalk(out, c, n)];
            && f < |edges| == |g| && 0 <= edges[f].reverse < |edges|
            && var edges' := edges[f := edges[f].(copy := -1)];
            && Cleared(g, edges', from, done + Met(out, c, n + 1))
            && edges'[edges'[f].reverse].prev == from[FaceWalk(out, c, n + 1)]
    ensures from[FaceWalk(out, c, n + 1)] == from[c] <==> FaceWalk(out, c, n + 1) == c
  {
    hide FaceLoops;
    FaceWalkStep(out, c, n);
    var s := FaceWalk(out, c, n);
    assert StepMatches(g, from, out, s);
    var f := from[s];
    var edges' := edges[f := edges[f].(copy := -1)];
    SameOutputs(from, FaceWalk(out, c, n + 1), c);
    forall t | 0 <= t < |from|
      ensures edges'[from[t]].copy == if t in done + Met(out, c, n + 1) then -1 else t
    {
      if from[t] == f {
        SameOutput(from, t, s);
      }
    }
  }

  lemma MetStart(out: seq<Edge>, c: int)
    requires FaceLoops(out) && 0 <= c < |out|
    ensures Met(out, c, 0) == {} && FaceWalk(out, c, 0) == c
  {}

  /** Every output edge is on exactly one of the faces. */
  ghost predicate OnePerLoop(out: seq<Edge>, faces: seq<int>)
    requires FaceLoops(out)
  {
    && (forall k :: 0 <= k < |faces| ==> 0 <= faces[k] < |out|)
    && (forall s :: 0 <= s < |out| ==> OnSomeFace(out, faces, s))
    && (forall i, j, s :: (0 <= i < |faces| && 0 <= j < |faces| && SameFace(out, faces[i], s)
                           && SameFace(out, faces[j], s)) ==> i == j)
  }

  lemma AllCollected(out: seq<Edge>, faces: seq<int>, done: set<int>)
    requires FaceLoops(out) && Collected(out, faces, done) && forall s :: 0 <= s < |out| ==> s in done
    ensures OnePerLoop(out, faces)
  {
    forall i, j, s | 0 <= i < |faces| && 0 <= j < |faces| && SameFace(out, faces[i], s) && SameFace(out, faces[j], s)
      ensures i == j
    {
      SameFaceSymmetric(out, faces[j], s);
      SameFaceTransitive(out, faces[i], s, faces[j]);
    }
  }

  /** The rings of the first `i` vertices, and `p` edges of the next one, are cleared. */
  ghost predicate Swept(rings: seq<seq<nat>>, old_: seq<nat>, from: seq<nat>, done: set<int>, i: nat, p: nat) {
    && i <= |old_| && (forall k :: 0 <= k < |old_| ==> old_[k] < |rings|)
    && (forall s :: 0 <= s < |from| && InSweep(rings, old_, from[s], i, p) ==> s in done)
  }

  ghost predicate InSweep(rings: seq<seq<nat>>, old_: seq<nat>, e: nat, i: nat, p: nat) {
    || (exists k :: 0 <= k < i && k < |old_| && old_[k] < |rings| && e in rings[old_[k]])
    || (i < |old_| && old_[i] < |rings| && p <= |rings[old_[i]]| && e in rings[old_[i]][..p])
  }

  lemma SweptMore(rings: seq<seq<nat>>, old_: seq<nat>, from: seq<nat>, done: set<int>, done': set<int>, i: nat, p: nat)
    requires Swept(rings, old_, from, done, i, p) && done <= done' && i < |old_| && p < |rings[old_[i]]|
    requires forall s :: 0 <= s < |from| && from[s] == rings[old_[i]][p] ==> s in done'
    ensures Swept(rings, old_, from, done', i, p + 1)
  {
    var ring := rings[old_[i]];
    assert ring[..p + 1] == ring[..p] + [ring[p]];
  }

  lemma SweptRing(rings: seq<seq<nat>>, old_: seq<nat>, from: seq<nat>, done: set<int>, i: nat)
    requires i < |old_| && old_[i] < |rings| && Swept(rings, old_, from, done, i, |rings[old_[i]]|)
    ensures Swept(rings, old_, from, done, i + 1, 0)
  {
    var ring := rings[old_[i]];
    assert ring[..|ring|] == ring;
    forall s | 0 <= s < |from| && InSweep(rings, old_, from[s], i + 1, 0) ensures s in done {
      if exists k :: 0 <= k < i && old_[k] < |rings| && from[s] in rings[old_[k]] {
      } else {
        assert from[s] in ring;
      }
    }
  }

  /** The edge met in the second pass, with its mark. */
  lemma RingEdgeOut(g: seq<InternalEdge>, rings: seq<seq<nat>>, root: nat, old_: seq<nat>, from: seq<nat>, out: seq<Edge>,
                    edges: seq<InternalEdge>, done: set<int>, i: nat, p: nat)
    requires AtRest(g, rings) && CopyOf(g, rings, root, old_, from, out) && Cleared(g, edges, from, done)
    requires i < |old_| && old_[i] < |rings| && p < |rings[old_[i]]|
    ensures var ring := rings[old_[i]];
            var e := ring[p];
            && e in from && e < |edges| && edges[e].next == ring[Succ(p, |ring|)]
            && var c := IndexOf(from, e);
            && c < |out| && edges[e].copy == (if c in done then -1 else c)
            && (forall s :: 0 <= s < |from| && from[s] == e ==> s == c)
    ensures forall k :: 0 < k < |rings[old_[i]]| ==> rings[old_[i]][k] != rings[old_[i]][0]
  {
    var ring := rings[old_[i]];
    RingEdgesAreLinked(g, rings);
    assert RingOf(g, old_[i], ring) && LinkedAt(g, ring, p);
    assert Source(g, ring[p]) == old_[i];
  }

  /** The second pass starts with every mark still there. */
  lemma NothingCleared(g: seq<InternalEdge>, rings: seq<seq<nat>>, root: nat, old_: seq<nat>, from: seq<nat>,
                       out: seq<Edge>, edges: seq<InternalEdge>)
    requires CopyOf(g, rings, root, old_, from, out) && EdgeMarks(g, rings, edges, from) && FaceLoops(out)
    ensures Cleared(g, edges, from, {}) && Collected(out, [], {}) && Swept(rings, old_, from, {}, 0, 0)
  {}

  lemma EmptySwept(rings: seq<seq<nat>>, old_: seq<nat>, from: seq<nat>, done: set<int>, i: nat)
    requires i < |old_| && old_[i] < |rings| && rings[old_[i]] == [] && Swept(rings, old_, from, done, i, 0)
    ensures Swept(rings, old_, from, done, i + 1, 0)
  {
    SweptRing(rings, old_, from, done, i);
  }

  /** Once every ring is swept every edge is on a face. */
  lemma SweptAll(g: seq<InternalEdge>, rings: seq<seq<nat>>, root: nat, old_: seq<nat>, from: seq<nat>, out: seq<Edge>,
                 faces: seq<int>, done: set<int>)
    requires AtRest(g, rings) && CopyOf(g, rings, root, old_, from, out) && FaceLoops(out)
    requires Collected(out, faces, done) && Swept(rings, old_, from, done, |old_|, 0)
    ensures OnePerLoop(out, faces)
  {
    forall s | 0 <= s < |out| ensures s in done {
      assert from[s] in from;
      assert from[s] in rings[old_[IndexOf(old_, Source(g, from[s]))]];
      assert InSweep(rings, old_, from[s], |old_|, 0);
    }
    AllCollected(out, faces, done);
  }

  class ConvexHullComputer {
    var vertices: seq<Point32>
    var originalVertexIndex: seq<int>
    var edges: seq<Edge>
    var faces: seq<int>

    /** The output index of a hull vertex, assigned on first sight. */
    method GetVertexCopy(hull: HullInternal, vertex: nat, found: seq<nat>, ghost h: seq<Vertex>)
      returns (index: int, found': seq<nat>)
      requires VertexMarks(h, hull.verts, found) && vertex < |hull.verts|
      modifies hull`verts
      ensures VertexMarks(h, hull.verts, found')
      ensures 0 <= index < |found'| && found'[index] == vertex && hull.verts[vertex].copy == index
      ensures found' == found + (if old(hull.verts[vertex].copy) < 0 then [vertex] else [])
      ensures forall v :: 0 <= v < |h| && v != vertex ==> hull.verts[v] == old(hull.verts[v])
      ensures old(hull.verts[vertex].copy) >= 0 ==> hull.verts == old(hull.verts)
    {
      index, found' := hull.verts[vertex].copy, found;
      if index < 0 {
        index := |found|;
        hull.verts := hull.verts[vertex := hull.verts[vertex].(copy := index)];
        found' := found + [vertex];
      }
    }

    /** Both halves of an edge seen for the first time are appended. */
    method EmitPair(hull: HullInternal, e: nat, copied: nat, found: seq<nat>,
                    ghost g: seq<InternalEdge>, ghost rings: seq<seq<nat>>, ghost h: seq<Vertex>, ghost from: seq<nat>)
      returns (found': seq<nat>)
      requires Partway(g, rings, h, hull.edges, hull.verts, found, from, edges)
      requires copied < |found| && found[copied] < |rings| && e in rings[found[copied]]
      requires e < |hull.edges| && hull.edges[e].copy < 0
      modifies hull`verts, hull`edges, `edges
      ensures e < |g| && g[e].reverse >= 0
      ensures Partway(g, rings, h, hull.edges, hull.verts, found', from + [e, g[e].reverse], edges)
      ensures found <= found' && |hull.edges| == old(|hull.edges|) && |edges| == old(|edges|) + 2
      ensures edges[..|old(edges)|] == old(edges)
      ensures hull.edges[e].copy == old(|edges|)
      ensures forall x :: 0 <= x < |hull.edges| && old(hull.edges[x].copy) >= 0 && Linked(g, rings, x) ==>
                hull.edges[x].copy == old(hull.edges[x].copy)
    {
      EmitStart(g, rings, h, hull.edges, hull.verts, found, from, edges, copied, e);
      ghost var edges0, verts0, out0 := hull.edges, hull.verts, edges;
      var s := |edges|;
      edges := edges + [Edge(0, 0, 0), Edge(0, 0, 0)];
      hull.edges := hull.edges[e := hull.edges[e].(copy := s)];
      var r := hull.edges[e].reverse;
      hull.edges := hull.edges[r := hull.edges[r].(copy := s + 1)];
      edges := edges[s := edges[s].(reverse := 1)];
      edges := edges[s + 1 := edges[s + 1].(reverse := -1)];
      var target := hull.edges[e].target;
      var index;
      index, found' := GetVertexCopy(hull, target, found, h);
      edges := edges[s := edges[s].(target := index)];
      edges := edges[s + 1 := edges[s + 1].(target := copied)];
      assert edges == out0 + [Edge(0, 1, index), Edge(0, -1, copied)];
      EmitKeeps(g, rings, h, edges0, hull.edges, verts0, hull.verts, found, found', from, out0, e, copied, index);
    }

    method EmitHere(hull: HullInternal, e: nat, copied: nat, found: seq<nat>,
                    ghost g: seq<InternalEdge>, ghost rings: seq<seq<nat>>, ghost h: seq<Vertex>,
                    ghost from: seq<nat>, ghost p: nat)
      returns (found': seq<nat>, ghost from': seq<nat>)
      requires Walking(g, rings, h, hull.edges, hull.verts, found, from, edges, copied, p)
      requires p < |rings[found[copied]]| && e == rings[found[copied]][p]
      requires e < |hull.edges| && hull.edges[e].copy < 0
      modifies hull`verts, hull`edges, `edges
      ensures Walking(g, rings, h, hull.edges, hull.verts, found', from', edges, copied, p)
      ensures found <= found' && found'[copied] == found[copied] && |hull.edges| == old(|hull.edges|)
      ensures 0 <= hull.edges[e].copy < |edges| && |edges| >= old(|edges|)
      ensures forall x :: 0 <= x < |hull.edges| && old(hull.edges[x].copy) >= 0 && Linked(g, rings, x) ==>
                hull.edges[x].copy == old(hull.edges[x].copy)
    {
      hide Partway, RingsDone, RingPartway, Linked;
      found' := EmitPair(hull, e, copied, found, g, rings, h, from);
      from' := from + [e, g[e].reverse];
      EmittedWalking(g, rings, h, old(hull.edges), hull.edges, old(hull.verts), hull.verts, found, found',
                     from, from', old(edges), edges, copied, p);
    }

    /** The ring of one vertex: each `next` offset leads back to the edge walked just before. */
    method EmitRing(hull: HullInternal, firstEdge: nat, copied: nat, found: seq<nat>,
                    ghost g: seq<InternalEdge>, ghost rings: seq<seq<nat>>, ghost h: seq<Vertex>, ghost from: seq<nat>)
      returns (found': seq<nat>, ghost from': seq<nat>)
      requires Walking(g, rings, h, hull.edges, hull.verts, found, from, edges, copied, 0)
      requires |rings[found[copied]]| > 0 && firstEdge == rings[found[copied]][0]
      modifies hull`verts, hull`edges, `edges
      ensures found <= found' && copied < |found'|
      ensures Partway(g, rings, h, hull.edges, hull.verts, found', from', edges)
      ensures RingsDone(g, rings, hull.edges, edges, found', copied + 1)
    {
      hide Partway, RingsDone, RingPartway, Linked, Distinct;
      found', from' := found, from;
      var firstCopy, prevCopy := -1, -1;
      var e := firstEdge;
      ghost var ring := rings[found[copied]];
      ghost var p := 0;
      WalkingLength(g, rings, h, hull.edges, hull.verts, found', from', edges, copied, p);
      while true
        invariant found <= found' && found'[copied] == found[copied]
        invariant Walking(g, rings, h, hull.edges, hull.verts, found', from', edges, copied, p)
        invariant p < |ring| && e == ring[p] && |hull.edges| == |g|
        invariant p == 0 ==> prevCopy == -1
        invariant p > 0 ==> ring[p - 1] < |g| && prevCopy == hull.edges[ring[p - 1]].copy >= 0
        invariant p > 0 ==> ring[0] < |g| && firstCopy == hull.edges[ring[0]].copy >= 0
        decreases |ring| - p
      {
        WalkingAt(g, rings, h, hull.edges, hull.verts, found', from', edges, copied, p);
        if hull.edges[e].copy < 0 {
          KeptMarks(g, rings, h, hull.edges, hull.verts, found', from', edges, copied, p);
          found', from' := EmitHere(hull, e, copied, found', g, rings, h, from', p);
        }
        var ec := hull.edges[e].copy;
        if prevCopy >= 0 {
          TurnWalking(g, rings, h, hull.edges, hull.verts, found', from', edges, copied, p, p, prevCopy);
          edges := edges[ec := edges[ec].(next := prevCopy - ec)];
        } else {
          firstCopy := ec;
        }
        prevCopy := ec;
        StepWalking(g, rings, h, hull.edges, hull.verts, found', from', edges, copied, p);
        WalkingLength(g, rings, h, hull.edges, hull.verts, found', from', edges, copied, p + 1);
        WalkingAt(g, rings, h, hull.edges, hull.verts, found', from', edges, copied, p);
        e := hull.edges[e].next;
        p := p + 1;
        assert p < |ring| ==> e == ring[p] != ring[0];
        if e == firstEdge {
          break;
        }
      }
      WalkingLength(g, rings, h, hull.edges, hull.verts, found', from', edges, copied, p);
      TurnWalking(g, rings, h, hull.edges, hull.verts, found', from', edges, copied, p, 0, prevCopy);
      edges := edges[firstCopy := edges[firstCopy].(next := prevCopy - firstCopy)];
      CloseWalking(g, rings, h, hull.edges, hull.verts, found', from', edges, copied);
    }

    /** One output vertex and the edges of its ring. */
    method EmitVertex(hull: HullInternal, copied: nat, found: seq<nat>, ghost g: seq<InternalEdge>,
                      ghost rings: seq<seq<nat>>, ghost h: seq<Vertex>, ghost from: seq<nat>)
      returns (found': seq<nat>, ghost from': seq<nat>)
      requires Heads(h, rings) && copied < |found|
      requires Partway(g, rings, h, hull.edges, hull.verts, found, from, edges)
      requires RingsDone(g, rings, hull.edges, edges, found, copied)
      requires |vertices| == copied && VertexRows(h, found, vertices, originalVertexIndex)
      modifies hull`verts, hull`edges, `edges, `vertices, `originalVertexIndex
      ensures Partway(g, rings, h, hull.edges, hull.verts, found', from', edges)
      ensures found <= found' && copied < |found'| && RingsDone(g, rings, hull.edges, edges, found', copied + 1)
      ensures |vertices| == copied + 1 && VertexRows(h, found', vertices, originalVertexIndex)
    {
      hide Partway, RingsDone, Linked, Heads, VertexRows, Walking;
      found', from' := found, from;
      var v := found[copied];
      NextVertex(g, rings, h, hull.edges, hull.verts, found, from, edges, copied);
      OneMoreRow(h, found, vertices, originalVertexIndex, hull.verts);
      vertices := vertices + [hull.verts[v].point];
      originalVertexIndex := originalVertexIndex + [hull.verts[v].point.index];
      var firstEdge := hull.verts[v].edges;
      if firstEdge != NIL {
        found', from' := EmitRing(hull, firstEdge, copied, found, g, rings, h, from);
      } else {
        EmptyRing(g, rings, hull.edges, edges, found, copied);
      }
      RowsStay(h, found, found', vertices, originalVertexIndex);
    }

    /** The first pass: every vertex reachable from `root` and every one of its edges, once each. */
    method EmitAll(hull: HullInternal, root: nat,
                   ghost g: seq<InternalEdge>, ghost rings: seq<seq<nat>>, ghost h: seq<Vertex>)
      returns (found: seq<nat>, ghost from: seq<nat>)
      requires AtRest(g, rings) && Heads(h, rings) && root < |h| && hull.edges == g && hull.verts == h
      requires EdgeMarks(g, rings, g, []) && VertexMarks(h, h, [])
      modifies hull`verts, hull`edges, this
      ensures CopyOf(g, rings, root, found, from, edges)
      ensures EdgeMarks(g, rings, hull.edges, from) && VertexMarks(h, hull.verts, found)
      ensures |vertices| == |found| && VertexRows(h, found, vertices, originalVertexIndex)
      ensures faces == []
    {
      hide Partway, RingsDone, Linked, Heads, EdgeMarks, VertexRows, CopyOf, AtRest;
      vertices, originalVertexIndex, edges, faces, found, from := [], [], [], [], [], [];
      var index;
      index, found := GetVertexCopy(hull, root, found, h);
      assert found == [root];
      RootFound(g, rings, h, hull.verts, root);
      var copied := 0;
      FoundBound(g, rings, h, hull.edges, hull.verts, found, from, edges);
      NoRows(h, found);
      while copied < |found|
        invariant copied <= |found| && |found| > 0 && found[0] == root && |found| <= |h| && faces == []
        invariant Partway(g, rings, h, hull.edges, hull.verts, found, from, edges)
        invariant RingsDone(g, rings, hull.edges, edges, found, copied)
        invariant |vertices| == copied && VertexRows(h, found, vertices, originalVertexIndex)
        decreases |h| - copied
      {
        found, from := EmitVertex(hull, copied, found, g, rings, h, from);
        FoundBound(g, rings, h, hull.edges, hull.verts, found, from, edges);
        copied := copied + 1;
      }
      FirstPassCopies(g, rings, h, hull.edges, hull.verts, found, from, edges);
      FoundBound(g, rings, h, hull.edges, hull.verts, found, from, edges);
    }

    /** One face: every edge of the loop through `e` loses its mark. */
    method ClearLoop(hull: HullInternal, e: nat, ghost g: seq<InternalEdge>, ghost from: seq<nat>,
                     ghost done: set<int>, ghost c: int)
      returns (ghost loop: set<int>)
      requires FaceLoops(edges) && |from| == |edges| && Distinct(from) && Cleared(g, hull.edges, from, done)
      requires StepsMatch(g, from, edges) && 0 <= c < |edges| && from[c] == e
      modifies hull`edges
      ensures forall t :: t in loop <==> SameFace(edges, c, t)
      ensures Cleared(g, hull.edges, from, done + loop)
    {
      hide FaceLoops, FaceWalk, Met, Distinct, Cleared;
      ghost var period := FacesClose(edges, c);
      ghost var n := 0;
      assert Met(edges, c, 0) == {} && FaceWalk(edges, c, 0) == c by { MetStart(edges, c); }
      assert done + {} == done;
      var f := e;
      while true
        invariant FaceLoops(edges) && n < period
        invariant f == from[FaceWalk(edges, c, n)]
        invariant Cleared(g, hull.edges, from, done + Met(edges, c, n))
        invariant forall k :: 0 < k <= n ==> FaceWalk(edges, c, k) != c
        decreases period - n
      {
        ClearStep(g, hull.edges, from, edges, done, c, n);
        hull.edges := hull.edges[f := hull.edges[f].(copy := -1)];
        f := hull.edges[hull.edges[f].reverse].prev;
        n := n + 1;
        if f == e {
          break;
        }
      }
      loop := Met(edges, c, n);
      forall t ensures t in loop <==> SameFace(edges, c, t) {
        LoopIsWhole(edges, c, n, t);
        MetExactly(edges, c, n, t);
      }
    }

    /** A face is reported at the first of its edges that is met. */
    method CollectEdge(hull: HullInternal, e: nat, ghost g: seq<InternalEdge>, ghost rings: seq<seq<nat>>,
                       ghost root: nat, ghost found: seq<nat>, ghost from: seq<nat>, ghost done: set<int>,
                       ghost i: nat, ghost p: nat)
      returns (ghost done': set<int>)
      requires AtRest(g, rings) && CopyOf(g, rings, root, found, from, edges) && FaceLoops(edges)
      requires |from| == |edges| && Distinct(from) && StepsMatch(g, from, edges)
      requires i < |found| && found[i] < |rings| && p < |rings[found[i]]| && e == rings[found[i]][p]
      requires Cleared(g, hull.edges, from, done) && Collected(edges, faces, done) && Swept(rings, found, from, done, i, p)
      modifies hull`edges, `faces
      ensures Cleared(g, hull.edges, from, done') && Collected(edges, faces, done')
      ensures Swept(rings, found, from, done', i, p + 1)
    {
      hide FaceLoops, Collected, Cleared, Swept, SameFace, AtRest, StepsMatch, CopyOf, Distinct, Linked;
      RingEdgeOut(g, rings, root, found, from, edges, hull.edges, done, i, p);
      ghost var c := IndexOf(from, e);
      done' := done;
      if hull.edges[e].copy >= 0 {
        ghost var faces0 := faces;
        faces := faces + [hull.edges[e].copy];
        ghost var loop := ClearLoop(hull, e, g, from, done, c);
        CollectOne(edges, faces0, done, c, loop);
        done' := done + loop;
      }
      SweptMore(rings, found, from, done, done', i, p);
    }

    /** The faces met on the ring of one vertex. */
    method CollectRing(hull: HullInternal, firstEdge: nat, ghost g: seq<InternalEdge>, ghost rings: seq<seq<nat>>,
                       ghost root: nat, ghost found: seq<nat>, ghost from: seq<nat>, ghost done: set<int>, ghost i: nat)
      returns (ghost done': set<int>)
      requires AtRest(g, rings) && CopyOf(g, rings, root, found, from, edges) && FaceLoops(edges)
      requires i < |found| && Swept(rings, found, from, done, i, 0) && |rings[found[i]]| > 0
      requires firstEdge == rings[found[i]][0]
      requires Cleared(g, hull.edges, from, done) && Collected(edges, faces, done)
      modifies hull`edges, `faces
      ensures Cleared(g, hull.edges, from, done') && Collected(edges, faces, done')
      ensures Swept(rings, found, from, done', i + 1, 0)
    {
      CopyHasFaceLoops(g, rings, root, found, from, edges);
      hide FaceLoops, Collected, Cleared, Swept, SameFace, AtRest, StepsMatch, CopyOf, Distinct, Linked;
      ghost var ring := rings[found[i]];
      done' := done;
      var e := firstEdge;
      ghost var p := 0;
      while true
        invariant FaceLoops(edges) && p < |ring| && e == ring[p]
        invariant Cleared(g, hull.edges, from, done') && Collected(edges, faces, done')
        invariant Swept(rings, found, from, done', i, p)
        decreases |ring| - p
      {
        done' := CollectEdge(hull, e, g, rings, root, found, from, done', i, p);
        RingEdgeOut(g, rings, root, found, from, edges, hull.edges, done', i, p);
        e := hull.edges[e].next;
        p := p + 1;
        assert p < |ring| ==> e == ring[p] != firstEdge;
        if e == firstEdge {
          break;
        }
      }
      SweptRing(rings, found, from, done', i);
    }

    /** The second pass: one edge of every face loop, found by clearing the marks loop by loop. */
    method CollectFaces(hull: HullInternal, found: seq<nat>, ghost root: nat, ghost g: seq<InternalEdge>,
                        ghost rings: seq<seq<nat>>, ghost h: seq<Vertex>, ghost from: seq<nat>)
      requires AtRest(g, rings) && Heads(h, rings) && CopyOf(g, rings, root, found, from, edges) && faces == []
      requires EdgeMarks(g, rings, hull.edges, from) && VertexMarks(h, hull.verts, found)
      modifies hull`edges, `faces
      ensures FaceLoops(edges) && OnePerLoop(edges, faces)
    {
      CopyHasFaceLoops(g, rings, root, found, from, edges);
      NothingCleared(g, rings, root, found, from, edges, hull.edges);
      hide FaceLoops, Collected, Cleared, Swept, AtRest, StepsMatch, EdgeMarks, Found, OnePerLoop, Linked, Source;
      ghost var done: set<int> := {};
      var i := 0;
      while i < |found|
        invariant i <= |found| && FaceLoops(edges)
        invariant Cleared(g, hull.edges, from, done) && Collected(edges, faces, done)
        invariant Swept(rings, found, from, done, i, 0)
      {
        var firstEdge := hull.verts[found[i]].edges;
        if firstEdge != NIL {
          done := CollectRing(hull, firstEdge, g, rings, root, found, from, done, i);
        } else {
          EmptySwept(rings, found, from, done, i);
        }
        i := i + 1;
      }
      SweptAll(g, rings, root, found, from, edges, faces, done);
    }

    /** Reads a hull at rest out. The output is a copy of the half-edge structure reachable from the vertex list, and
        `faces` holds exactly one edge of every face loop. */
    method ReadOut(hull: HullInternal, vertexList: nat) returns (ghost found: seq<nat>, ghost from: seq<nat>)
      requires hull.Valid() && hull.pending == {} && vertexList < |hull.verts|
      requires forall v :: 0 <= v < |hull.verts| ==> hull.verts[v].copy < 0
      requires forall e :: hull.InRing(e) ==> hull.edges[e].copy < 0
      modifies hull`verts, hull`edges, this
      ensures old(AtRest(hull.edges, hull.rings))
      ensures CopyOf(old(hull.edges), hull.rings, vertexList, found, from, edges)
      ensures |vertices| == |found| && VertexRows(old(hull.verts), found, vertices, originalVertexIndex)
      ensures FaceLoops(edges) && OnePerLoop(edges, faces)
    {
      ghost var g, rings, h := hull.edges, hull.rings, hull.verts;
      forall e | 0 <= e < |g| && Linked(g, rings, e) ensures g[e].copy < 0 { assert hull.InRing(e); }
      StartOfPass(hull.verts, hull.edges, hull.edgeFree, hull.free, hull.rings, vertexList);
      hide AtRest, Heads, EdgeMarks, VertexMarks, CopyOf, VertexRows, FaceLoops, OnePerLoop, Arena;
      var oldVertices;
      oldVertices, from := EmitAll(hull, vertexList, g, rings, h);
      found := oldVertices;
      CollectFaces(hull, oldVertices, vertexList, g, rings, h, from);
    }
  }
}
