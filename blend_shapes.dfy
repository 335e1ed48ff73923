/**
 * The internal auto-freeze step for skinned meshes: every blend shape of the
 * mesh that no vertex carries a delta for has no visible effect, so its name
 * is added to the FreezeBlendShape component's set of shapes to freeze.
 */
module AutoFreezeMeaninglessBlendShape {

  /** A vertex, reduced to the names of the blend shapes it has deltas for. */
  datatype Vertex = Vertex(blendShapeKeys: set<string>)

  /** A mesh blend shape, reduced to its name (the default weight plays no part here). */
  datatype BlendShape = BlendShape(name: string)

  /** The mesh being processed; the step only reads it. */
  datatype MeshInfo = MeshInfo(vertices: seq<Vertex>, blendShapes: seq<BlendShape>)

  /** The FreezeBlendShape component on the renderer: the names of the shapes to freeze. */
  class FreezeBlendShape {
    var shapeKeys: set<string>

    constructor (shapeKeys: set<string>)
      ensures this.shapeKeys == shapeKeys
    {
      this.shapeKeys := shapeKeys;
    }
  }

  /** The mesh-info computer the processor chain threads through; only its identity matters here. */
  datatype MeshInfoComputer = MeshInfoComputer(id: nat)

  /** The union of the blend-shape keys of the vertices, first to last. */
  ghost function KeysOfVertices(vertices: seq<Vertex>): set<string>
  {
    if vertices == [] then {}
    else KeysOfVertices(vertices[..|vertices| - 1]) + vertices[|vertices| - 1].blendShapeKeys
  }

  /** A name is a key of the union exactly when some vertex carries it. */
  lemma {:induction false} KeysOfVerticesMeans(vertices: seq<Vertex>, name: string)
    ensures name in KeysOfVertices(vertices) <==> exists i :: 0 <= i < |vertices| && name in vertices[i].blendShapeKeys
    decreases |vertices|
  {
    if vertices != [] {
      var init := vertices[..|vertices| - 1];
      KeysOfVerticesMeans(init, name);
      if name in KeysOfVertices(init) {
        var i :| 0 <= i < |init| && name in init[i].blendShapeKeys;
        assert vertices[i] == init[i];
      }
      if exists i :: 0 <= i < |vertices| && name in vertices[i].blendShapeKeys {
        var i :| 0 <= i < |vertices| && name in vertices[i].blendShapeKeys;
        if i < |init| {
          assert init[i] == vertices[i];
        }
      }
    }
  }

  /** The names of the shapes in `shapes` that are not in `meaningful`. */
  ghost function NamesNotIn(shapes: seq<BlendShape>, meaningful: set<string>): set<string>
  {
    if shapes == [] then {}
    else
      var last := shapes[|shapes| - 1];
      NamesNotIn(shapes[..|shapes| - 1], meaningful) + (if last.name in meaningful then {} else {last.name})
  }

  /** A name is collected exactly when some shape carries it and it is not meaningful. */
  lemma {:induction false} NamesNotInMeans(shapes: seq<BlendShape>, meaningful: set<string>, name: string)
    ensures name in NamesNotIn(shapes, meaningful) <==>
      name !in meaningful && exists i :: 0 <= i < |shapes| && shapes[i].name == name
    decreases |shapes|
  {
    if shapes != [] {
      var init := shapes[..|shapes| - 1];
      NamesNotInMeans(init, meaningful, name);
      if name in NamesNotIn(init, meaningful) {
        var i :| 0 <= i < |init| && init[i].name == name;
        assert shapes[i] == init[i];
      }
      if name !in meaningful && exists i :: 0 <= i < |shapes| && shapes[i].name == name {
        var i :| 0 <= i < |shapes| && shapes[i].name == name;
        if i < |init| {
          assert init[i] == shapes[i];
        }
      }
    }
  }

  /** The blend shapes of the mesh that no vertex carries a delta for. */
  ghost function MeaninglessNames(mesh: MeshInfo): set<string>
  {
    NamesNotIn(mesh.blendShapes, KeysOfVertices(mesh.vertices))
  }

  /** What the freeze set becomes when the step runs on `mesh` starting from `frozen`. */
  ghost function FrozenAfter(frozen: set<string>, mesh: MeshInfo): set<string>
  {
    frozen + MeaninglessNames(mesh)
  }

  /** The union of the vertices' blend-shape keys, grown one vertex at a time. */
  method MeaningfulBlendShapes(mesh: MeshInfo) returns (meaningful: set<string>)
    ensures meaningful == KeysOfVertices(mesh.vertices)
  {
    meaningful := {};
    var i := 0;
    while i < |mesh.vertices|
      invariant 0 <= i <= |mesh.vertices|
      invariant meaningful == KeysOfVertices(mesh.vertices[..i])
    {
      assert mesh.vertices[..i + 1][..i] == mesh.vertices[..i];
      meaningful := meaningful + mesh.vertices[i].blendShapeKeys;
      i := i + 1;
    }
    assert mesh.vertices[..i] == mesh.vertices;
  }

  /** The names of the mesh's blend shapes that are not in `meaningful`. */
  method MeaninglessBlendShapes(mesh: MeshInfo, meaningful: set<string>) returns (names: set<string>)
    ensures names == NamesNotIn(mesh.blendShapes, meaningful)
  {
    names := {};
    var i := 0;
    while i < |mesh.blendShapes|
      invariant 0 <= i <= |mesh.blendShapes|
      invariant names == NamesNotIn(mesh.blendShapes[..i], meaningful)
    {
      assert mesh.blendShapes[..i + 1][..i] == mesh.blendShapes[..i];
      var name := mesh.blendShapes[i].name;
      if name !in meaningful {
        names := names + {name};
      }
      i := i + 1;
    }
    assert mesh.blendShapes[..i] == mesh.blendShapes;
  }

  /**
   * The step: collect the meaningful shapes, then add every other shape of the
   * mesh to the freeze set and write the set back.
   */
  method Process(mesh: MeshInfo, freeze: FreezeBlendShape)
    modifies freeze
    ensures freeze.shapeKeys == FrozenAfter(old(freeze.shapeKeys), mesh)
  {
    var meaningful := MeaningfulBlendShapes(mesh);
    var frozen := freeze.shapeKeys;
    var meaningless := MeaninglessBlendShapes(mesh, meaningful);
    frozen := frozen + meaningless;
    freeze.shapeKeys := frozen;
  }

  /** The step never changes the mesh-info computer chain. */
  function GetComputer(upstream: MeshInfoComputer): (r: MeshInfoComputer)
    ensures r == upstream
  {
    upstream
  }

  /** Nothing already frozen is unfrozen. */
  lemma FrozenAfterKeeps(frozen: set<string>, mesh: MeshInfo)
    ensures frozen <= FrozenAfter(frozen, mesh)
  {
  }

  /**
   * After the step a name is frozen exactly when it was frozen before, or it
   * names a blend shape of the mesh that no vertex carries.
   */
  lemma {:induction false} FrozenAfterMeans(frozen: set<string>, mesh: MeshInfo, name: string)
    ensures name in FrozenAfter(frozen, mesh) <==>
      name in frozen
      || ((exists i :: 0 <= i < |mesh.blendShapes| && mesh.blendShapes[i].name == name)
          && forall j :: 0 <= j < |mesh.vertices| ==> name !in mesh.vertices[j].blendShapeKeys)
  {
    NamesNotInMeans(mesh.blendShapes, KeysOfVertices(mesh.vertices), name);
    KeysOfVerticesMeans(mesh.vertices, name);
  }

  /** A name some vertex carries is frozen afterwards only if it was frozen before. */
  lemma {:induction false} MeaningfulNotAdded(frozen: set<string>, mesh: MeshInfo, name: string, j: int)
    requires 0 <= j < |mesh.vertices| && name in mesh.vertices[j].blendShapeKeys
    ensures name in FrozenAfter(frozen, mesh) <==> name in frozen
  {
    FrozenAfterMeans(frozen, mesh, name);
  }

  /** Every name the step adds is the name of one of the mesh's blend shapes. */
  lemma {:induction false} AddedNamesFromMesh(frozen: set<string>, mesh: MeshInfo, name: string)
    requires name in FrozenAfter(frozen, mesh) && name !in frozen
    ensures exists i :: 0 <= i < |mesh.blendShapes| && mesh.blendShapes[i].name == name
  {
    FrozenAfterMeans(frozen, mesh, name);
  }

  /** Running the step a second time on the same mesh changes nothing. */
  lemma FrozenAfterIdempotent(frozen: set<string>, mesh: MeshInfo)
    ensures FrozenAfter(FrozenAfter(frozen, mesh), mesh) == FrozenAfter(frozen, mesh)
  {
  }
}
