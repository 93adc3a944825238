/** `PolygonPlaneVisualizer`: the triangle fan that turns a plane's
    boundary polygon into a mesh around its center. */
module Polygon {
  import opened Wrappers

  /** The `i`-th triangle of the fan over `n` boundary points: the center
      (vertex 0), boundary point `i + 1` and the next one, wrapping back to
      point 1 after the last. */
  function FanTriangle(n: nat, i: nat): (t: seq<int>)
    requires i < n
    ensures |t| == 3 && t[0] == 0 && t[1] == i + 1
    ensures t[2] == (if i == n - 1 then 1 else i + 2)
  {
    [0, i + 1, if i == n - 1 then 1 else i + 2]
  }

  /** `GenerateTriangles` for a boundary of `n` points. */
  method GenerateTriangles(n: nat) returns (indices: seq<int>)
    ensures |indices| == 3 * n
    ensures forall i :: 0 <= i < n ==> indices[3 * i..3 * i + 3] == FanTriangle(n, i)
  {
    indices := [];
    var i := 0;
    while i < n
      invariant 0 <= i <= n
      invariant |indices| == 3 * i
      invariant forall k :: 0 <= k < i ==> indices[3 * k..3 * k + 3] == FanTriangle(n, k)
    {
      var before := indices;
      if i != n - 1 {
        indices := indices + [0, i + 1, i + 2];
      } else {
        indices := indices + [0, i + 1, 1];
      }
      assert forall k :: 0 <= k < i ==> indices[3 * k..3 * k + 3] == before[3 * k..3 * k + 3];
      assert indices[3 * i..3 * i + 3] == FanTriangle(n, i);
      i := i + 1;
    }
  }

  /** Every index of the fan names the center or a boundary point, and every
      triangle starts at the center. */
  lemma FanIndicesInRange(n: nat, indices: seq<int>)
    requires |indices| == 3 * n
    requires forall i :: 0 <= i < n ==> indices[3 * i..3 * i + 3] == FanTriangle(n, i)
    ensures forall k :: 0 <= k < |indices| ==> 0 <= indices[k] <= n
    ensures forall i :: 0 <= i < n ==> indices[3 * i] == 0
  {
    forall k | 0 <= k < |indices|
      ensures 0 <= indices[k] <= n
    {
      var i := k / 3;
      assert indices[3 * i..3 * i + 3] == FanTriangle(n, i);
      assert indices[k] == FanTriangle(n, i)[k - 3 * i];
    }
    forall i | 0 <= i < n
      ensures indices[3 * i] == 0
    {
      assert indices[3 * i..3 * i + 3] == FanTriangle(n, i);
    }
  }

  /** The fan uses every boundary point: point `p` is the second corner of
      triangle `p - 1`. */
  lemma FanCoversBoundary(n: nat, indices: seq<int>, p: nat)
    requires |indices| == 3 * n
    requires forall i :: 0 <= i < n ==> indices[3 * i..3 * i + 3] == FanTriangle(n, i)
    requires 1 <= p <= n
    ensures indices[3 * (p - 1) + 1] == p
  {
    assert indices[3 * (p - 1)..3 * (p - 1) + 3] == FanTriangle(n, p - 1);
  }

  /** The mesh `DrawFromCenter` builds: the center and the boundary points
      as vertices, and the fan over them. */
  datatype PlaneMesh = PlaneMesh(vertexCount: nat, triangles: seq<int>)

  /** `DrawFromCenter`: nothing for fewer than three boundary points;
      otherwise `n + 1` vertices and the fan, whose every index is a vertex
      of the mesh. */
  method DrawFromCenter(n: nat) returns (mesh: Option<PlaneMesh>)
    ensures n < 3 <==> mesh.None?
    ensures mesh.Some? ==> mesh.value.vertexCount == n + 1 && |mesh.value.triangles| == 3 * n
    ensures mesh.Some? ==> forall k :: 0 <= k < |mesh.value.triangles| ==> 0 <= mesh.value.triangles[k] < mesh.value.vertexCount
  {
    if n < 3 {
      return None;
    }
    var triangles := GenerateTriangles(n);
    FanIndicesInRange(n, triangles);
    return Some(PlaneMesh(n + 1, triangles));
  }
}
