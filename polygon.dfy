/**
 * A polygon of the limited-avatar problem
 * (local_search/problems/limited_avatar_problem/models/polygon.py): a list of vertex
 * objects and a colour object, both changed in place by the moves.
 */
module LimitedAvatarPolygon {
  import opened Wrappers

  /** `Color`: four channels R, G, B, A. */
  class Color {
    var r: int
    var g: int
    var b: int
    var a: int

    constructor (r: int, g: int, b: int, a: int)
      ensures this.r == r && this.g == g && this.b == b && this.a == a
    {
      this.r, this.g, this.b, this.a := r, g, b, a;
    }
  }

  /** `Vertex`: a point whose coordinates are changed in place. */
  class Vertex {
    var x: int
    var y: int

    constructor (x: int, y: int)
      ensures this.x == x && this.y == y
    {
      this.x, this.y := x, y;
    }
  }

  /** One channel after adding `d`: Python's `%` by 256, which never yields a negative value. */
  function Channel(c: int, d: int): (r: int)
    ensures 0 <= r < 256
    ensures exists k: int :: r == c + d - 256 * k
  {
    var q := (c + d) / 256;
    assert (c + d) % 256 == c + d - 256 * q;
    (c + d) % 256
  }

  /** Adding 0 to a channel in [0, 255] leaves it unchanged. */
  lemma ChannelZero(c: int)
    requires 0 <= c < 256
    ensures Channel(c, 0) == c
  {
  }

  /** A value differing from c in [0, 255] by a multiple of 256 wraps back to c. */
  lemma {:induction false} WrapMultiple(c: int, k: int)
    requires 0 <= c < 256
    ensures (c + 256 * k) % 256 == c
    decreases if k < 0 then -k else k
  {
    if k > 0 {
      WrapMultiple(c, k - 1);
      assert c + 256 * k == (c + 256 * (k - 1)) + 256;
    } else if k < 0 {
      WrapMultiple(c, k + 1);
      assert c + 256 * k == (c + 256 * (k + 1)) - 256;
    }
  }

  /** Changing a channel by d and then by -d restores a channel in [0, 255]. */
  lemma ChannelInverse(c: int, d: int)
    requires 0 <= c < 256
    ensures Channel(Channel(c, d), -d) == c
  {
    var k :| Channel(c, d) == c + d - 256 * k;
    WrapMultiple(c, -k);
  }

  /** `change_coords` on one vertex: both coordinates shifted by the diff. */
  function Shifted(p: (int, int), diff: (int, int)): (int, int) {
    (p.0 + diff.0, p.1 + diff.1)
  }

  /** Shifting by d and then by -d gives back the coordinates. */
  lemma ShiftInverse(p: (int, int), d: (int, int))
    ensures Shifted(Shifted(p, d), (-d.0, -d.1)) == p
  {
  }

  /** `Polygon`: its vertices and its colour. */
  class Polygon {
    var vertices: seq<Vertex>
    var color: Color

    constructor (vertices: seq<Vertex>, color: Color)
      ensures this.vertices == vertices && this.color == color
    {
      this.vertices, this.color := vertices, color;
    }

    /**
     * `change_color`: every channel of the polygon's colour object moves by the diff,
     * modulo 256; each channel of the diff is read before that channel is written, so
     * the diff may be the colour object itself.
     */
    method ChangeColor(diff: Color)
      modifies color
      ensures color.r == Channel(old(color.r), old(diff.r))
      ensures color.g == Channel(old(color.g), old(diff.g))
      ensures color.b == Channel(old(color.b), old(diff.b))
      ensures color.a == Channel(old(color.a), old(diff.a))
    {
      color.r := (color.r + diff.r) % 256;
      color.g := (color.g + diff.g) % 256;
      color.b := (color.b + diff.b) % 256;
      color.a := (color.a + diff.a) % 256;
    }

    /**
     * `change_coords`: the vertex object at `vertexIdx` (a Python index, so negative
     * ones count from the end) is shifted; every vertex that is a different object is
     * unchanged. An index outside the list is Python's IndexError: `ok` is false and
     * no vertex changes.
     */
    method ChangeCoords(vertexIdx: int, diff: (int, int)) returns (ok: bool)
      modifies set v | v in vertices
      ensures ok <==> -|vertices| <= vertexIdx < |vertices|
      ensures ok ==> var v := vertices[Slot(vertexIdx, |vertices|)];
        (v.x, v.y) == Shifted((old(v.x), old(v.y)), diff)
      ensures ok ==> forall j :: 0 <= j < |vertices| && vertices[j] != vertices[Slot(vertexIdx, |vertices|)] ==>
        vertices[j].x == old(vertices[j].x) && vertices[j].y == old(vertices[j].y)
      ensures !ok ==> forall j :: 0 <= j < |vertices| ==>
        vertices[j].x == old(vertices[j].x) && vertices[j].y == old(vertices[j].y)
    {
      if vertexIdx < -|vertices| || vertexIdx >= |vertices| {
        return false;
      }
      var v := vertices[Slot(vertexIdx, |vertices|)];
      v.x := v.x + diff.0;
      v.y := v.y + diff.1;
      ok := true;
    }
  }
}
