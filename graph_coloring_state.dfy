/**
 * Colourings of the graph-colouring problem
 * (local_search/problems/graph_coloring_problem/state.py and models/vertex.py).
 */
module GraphColoringState {
  import opened Wrappers

  /** `Vertex`: its index and its colour. */
  datatype Vertex = Vertex(idx: int, color: int)

  /** `GraphColoringState.coloring`: the vertex at position i is vertex i. */
  type Coloring = seq<Vertex>

  /**
   * `GraphColoringState.__eq__`: false against None; otherwise the colours agree
   * position by position over the positions both colourings have (`zip`).
   */
  predicate Equals(self: Coloring, other: Option<Coloring>) {
    other.Some? &&
    forall i :: 0 <= i < |self| && i < |other.value| ==> self[i].color == other.value[i].color
  }

  lemma EqualsReflexive(s: Coloring)
    ensures Equals(s, Some(s))
  {
  }

  lemma EqualsSymmetric(s: Coloring, t: Coloring)
    ensures Equals(s, Some(t)) <==> Equals(t, Some(s))
  {
  }

  /** Only colours are compared: two colourings of equal length are equal iff their colours are. */
  lemma EqualsComparesColours(s: Coloring, t: Coloring)
    requires |s| == |t|
    ensures Equals(s, Some(t)) <==> forall i :: 0 <= i < |s| ==> s[i].color == t[i].color
  {
  }

  /** Because of `zip`, a colouring equals each of its prefixes, the empty one included. */
  lemma EqualsPrefix(s: Coloring, k: nat)
    requires k <= |s|
    ensures Equals(s, Some(s[..k])) && Equals(s[..k], Some(s))
  {
  }

  /** So the relation is not transitive: [0] equals [], [] equals [1], but [0] is not [1]. */
  lemma EqualsNotTransitive()
    ensures var a, e, b := [Vertex(0, 0)], [], [Vertex(0, 1)];
      Equals(a, Some(e)) && Equals(e, Some(b)) && !Equals(a, Some(b))
  {
    var a, b := [Vertex(0, 0)], [Vertex(0, 1)];
    assert a[0].color != b[0].color;
  }
}
