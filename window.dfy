/**
 * The registry rules of the panel window: the shared `materials` dict of `Material`
 * layers, and the `meshItems` / `meshToMtlID` dicts of the meshes shown in the
 * material view, with the selection-driven operations that grow them.
 */
module Window {
  import opened Wrappers
  import opened PyText
  import opened Seqs
  import opened Utilities
  import opened IdCells
  import opened Panel

  /** A mesh's material names by ID, as `materials([mesh])[mesh]` reports them. */
  predicate Lists(buckets: Buckets, n: string) {
    exists k :: k in buckets && n in buckets[k]
  }

  /**
   * A mesh row's map as made from `buckets`: it holds exactly the materials the
   * buckets list, each under a bucket that lists it.
   */
  ghost predicate Mirrors(ids: map<string, Option<int>>, buckets: Buckets) {
    && (forall n :: n in ids <==> Lists(buckets, n))
    && (forall n :: n in ids ==> ids[n] in buckets && n in buckets[ids[n]])
  }

  /**
   * The mesh row made from `buckets`: its map mirrors the buckets, and it has one ID
   * row per material, bound to the registry's `Material` and showing its ID.
   */
  ghost predicate MeshRow(item: MeshItem, buckets: Buckets, registry: Registry)
    reads item, item.rows, registry, set r | r in item.rows :: r.material
  {
    && Mirrors(item.mtlNameToID, buckets)
    && Names(item.rows) == item.mtlNameToID.Keys
    && AllBound(item.rows, item.mtlNameToID, registry)
  }

  /** The meshes of `selection` that `addSelection` scans: those without a mesh row yet. */
  predicate Scanned(selection: seq<string>, shown: map<string, MeshItem>, mesh: string) {
    mesh in selection && mesh !in shown
  }

  /**
   * `deleteSelectedMatte`'s argument: the texts of the selected cells that are not
   * digit strings (so the ID cells showing an ID are left out), in order.
   */
  function DeletableMattes(texts: seq<string>): (r: seq<string>)
    ensures |r| <= |texts|
    ensures forall t :: t in r <==> t in texts && !IsDigits(t)
  {
    if texts == [] then []
    else
      var rest := DeletableMattes(texts[1..]);
      assert forall t :: t in texts <==> t == texts[0] || t in texts[1..];
      if IsDigits(texts[0]) then rest else [texts[0]] + rest
  }

  /** `DeletableMattes` keeps the order of the selection: it is the filter of `texts`. */
  lemma {:induction false} DeletableIsFilter(texts: seq<string>, t: string)
    ensures DeletableMattes(texts + [t]) == if IsDigits(t) then DeletableMattes(texts) else DeletableMattes(texts) + [t]
  {
    if texts != [] {
      assert (texts + [t])[1..] == texts[1..] + [t];
      DeletableIsFilter(texts[1..], t);
    } else {
      assert (texts + [t])[1..] == [];
    }
  }

  /** The panel window, as far as its registries go. */
  class Gui {
    const scene: Scene
    /** `materials_helper` for one mesh: the host's connection walking, taken as given. */
    const scan: string -> Buckets
    /** `self.materials`: material name to its `Material`, each of which has it as `container`. */
    const materials: Registry
    /** `self.meshItems`: mesh name to its row of the material view. */
    var meshItems: map<string, MeshItem>
    /** `self.meshToMtlID`: mesh name to its materials by ID. */
    var meshToMtlID: map<string, Buckets>

    /** `addSelection` fills both mesh dicts together, so they have the same meshes. */
    ghost predicate Valid()
      reads this
    {
      forall mesh :: mesh in meshItems <==> mesh in meshToMtlID
    }

    /** The registries as the window starts: all empty, `materials` made on first use. */
    constructor (scene: Scene, scan: string -> Buckets)
      ensures this.scene == scene && this.scan == scan && fresh(materials)
      ensures materials.entries == map[] && meshItems == map[] && meshToMtlID == map[]
      ensures Valid()
    {
      this.scene := scene;
      this.scan := scan;
      materials := new Registry();
      meshItems := map[];
      meshToMtlID := map[];
    }

    /**
     * `populateMaterials` over the materials the host lists: a new `Material` for each
     * name not yet registered; the registered ones, with their bound rows, stay.
     */
    method PopulateMaterials(listed: seq<string>)
      modifies materials`entries
      ensures forall n :: n in materials.entries <==> n in old(materials.entries) || n in listed
      ensures forall n :: n in old(materials.entries) ==> materials.entries[n] == old(materials.entries[n])
      ensures forall n :: n in materials.entries && n !in old(materials.entries) ==>
                var m := materials.entries[n];
                fresh(m) && m.fpnMtl == n && m.container == materials && m.scene == scene &&
                m.mtlID == None && m.mtlItem == []
    {
      var i := 0;
      while i < |listed|
        invariant 0 <= i <= |listed|
        invariant forall n :: n in materials.entries <==> n in old(materials.entries) || n in listed[..i]
        invariant forall n :: n in old(materials.entries) ==> materials.entries[n] == old(materials.entries[n])
        invariant forall n :: n in materials.entries && n !in old(materials.entries) ==>
                    var m := materials.entries[n];
                    fresh(m) && m.fpnMtl == n && m.container == materials && m.scene == scene &&
                    m.mtlID == None && m.mtlItem == []
      {
        var name := listed[i];
        if name !in materials.entries {
          var m := new Material(name, materials, scene);
          materials.entries := materials.entries[name := m];
        }
        assert listed[..i + 1] == listed[..i] + [name];
        i := i + 1;
      }
      assert listed[..i] == listed;
    }

    /**
     * `addSelection` for the selected meshes `selection`, with `listed` the materials the
     * host lists: the meshes without a row are scanned, the registry is populated, and
     * each scanned mesh gets a row (in the dict's order, taken as arbitrary). When a
     * mesh uses a material the registry lacks, `giveChild` raises (`ok` is false) and
     * neither mesh dict changes; otherwise both take the new meshes, keeping the others.
     */
    method AddSelection(selection: seq<string>, listed: seq<string>) returns (ok: bool)
      requires Valid()
      modifies this`meshItems, this`meshToMtlID, materials`entries, materials.entries.Values
      ensures ok <==> forall mesh, n :: Scanned(selection, old(meshItems), mesh) && Lists(scan(mesh), n) ==>
                        n in old(materials.entries) || n in listed
      ensures !ok ==> meshItems == old(meshItems) && meshToMtlID == old(meshToMtlID)
      ensures ok ==> Grown(selection, old(meshItems), old(meshToMtlID))
      ensures ok ==> forall mesh :: mesh in selection ==> mesh in meshItems
      ensures ok ==> forall mesh :: Scanned(selection, old(meshItems), mesh) ==>
                       fresh(meshItems[mesh]) && meshItems[mesh].fpnMesh == mesh &&
                       MeshRow(meshItems[mesh], scan(mesh), materials)
      ensures Valid()
      ensures forall n :: n in materials.entries <==> n in old(materials.entries) || n in listed
      ensures forall n :: n in old(materials.entries) ==> materials.entries[n] == old(materials.entries[n])
      ensures forall m :: m in old(materials.entries.Values) ==> Extends(m.mtlItem, old(m.mtlItem))
    {
      var found := ScanNew(selection);
      PopulateMaterials(listed);
      var made: map<string, MeshItem>;
      ok, made := MakeMeshItems(found);
      if ok {
        Merge(selection, found, made);
      }
    }

    /**
     * The mesh dicts after a successful `addSelection` from `shown0` and `ids0`: they
     * gained the scanned meshes of `selection`, with their scans, and kept the rest.
     */
    ghost predicate Grown(selection: seq<string>, shown0: map<string, MeshItem>, ids0: map<string, Buckets>)
      reads this
    {
      && (forall mesh :: mesh in meshToMtlID <==> mesh in ids0 || Scanned(selection, shown0, mesh))
      && (forall mesh :: mesh in meshToMtlID ==>
            meshToMtlID[mesh] == if Scanned(selection, shown0, mesh) then scan(mesh) else ids0[mesh])
      && (forall mesh :: mesh in meshItems <==> mesh in shown0 || Scanned(selection, shown0, mesh))
      && (forall mesh :: mesh in shown0 ==> meshItems[mesh] == shown0[mesh])
    }

    /** The two dict merges that end `addSelection`. */
    method Merge(ghost selection: seq<string>, found: map<string, Buckets>, made: map<string, MeshItem>)
      requires Valid()
      requires forall mesh :: mesh in found <==> Scanned(selection, meshItems, mesh)
      requires forall mesh :: mesh in found ==> found[mesh] == scan(mesh)
      requires forall mesh :: mesh in made <==> mesh in found
      requires forall mesh :: mesh in made ==> MeshRow(made[mesh], found[mesh], materials)
      modifies this`meshItems, this`meshToMtlID
      ensures Grown(selection, old(meshItems), old(meshToMtlID))
      ensures forall mesh :: mesh in selection ==> mesh in meshItems
      ensures forall mesh :: mesh in made ==> meshItems[mesh] == made[mesh]
      ensures forall mesh :: mesh in made ==> MeshRow(made[mesh], found[mesh], materials)
      ensures Valid()
    {
      meshItems := meshItems + made;
      meshToMtlID := meshToMtlID + found;
    }

    /** The first loop of `addSelection`: each selected mesh without a row, with its scan. */
    method ScanNew(selection: seq<string>) returns (found: map<string, Buckets>)
      ensures forall mesh :: mesh in found <==> Scanned(selection, meshItems, mesh)
      ensures forall mesh :: mesh in found ==> found[mesh] == scan(mesh)
    {
      found := map[];
      var i := 0;
      while i < |selection|
        invariant 0 <= i <= |selection|
        invariant forall mesh :: mesh in found <==> Scanned(selection[..i], meshItems, mesh)
        invariant forall mesh :: mesh in found ==> found[mesh] == scan(mesh)
      {
        var mesh := selection[i];
        if mesh !in meshItems {
          found := found[mesh := scan(mesh)];
        }
        assert selection[..i + 1] == selection[..i] + [mesh];
        i := i + 1;
      }
      assert selection[..i] == selection;
    }

    /**
     * The second loop of `addSelection`: a `MeshItem` for each scanned mesh, its rows
     * bound to the registry. The first mesh using an unregistered material stops it.
     */
    method MakeMeshItems(found: map<string, Buckets>) returns (ok: bool, made: map<string, MeshItem>)
      modifies materials.entries.Values
      ensures materials.entries == old(materials.entries)
      ensures ok <==> forall mesh, n :: mesh in found && Lists(found[mesh], n) ==> n in materials.entries
      ensures ok ==> forall mesh :: mesh in made <==> mesh in found
      ensures forall mesh :: mesh in made ==>
                fresh(made[mesh]) && made[mesh].fpnMesh == mesh && mesh in found &&
                MeshRow(made[mesh], found[mesh], materials)
      ensures forall m :: m in old(materials.entries.Values) ==> Extends(m.mtlItem, old(m.mtlItem))
    {
      made := map[];
      var todo := found.Keys;
      while todo != {}
        invariant todo <= found.Keys
        invariant materials.entries == old(materials.entries)
        invariant forall mesh :: mesh in made <==> mesh in found && mesh !in todo
        invariant forall mesh, n :: mesh in made && Lists(found[mesh], n) ==> n in materials.entries
        invariant forall mesh :: mesh in made ==> fresh(made[mesh]) && made[mesh].fpnMesh == mesh
        invariant forall mesh :: mesh in made ==> MeshRow(made[mesh], found[mesh], materials)
        invariant forall m :: m in old(materials.entries.Values) ==> Extends(m.mtlItem, old(m.mtlItem))
        decreases |todo|
      {
        var mesh :| mesh in todo;
        label Pass:
        var given, item := MakeMeshItem(mesh, found[mesh], made, found);
        forall m | m in old(materials.entries.Values) ensures Extends(m.mtlItem, old(m.mtlItem)) {
          ExtendsTrans(m.mtlItem, old@Pass(m.mtlItem), old(m.mtlItem));
        }
        if !given {
          return false, made;
        }
        made := made[mesh := item];
        todo := todo - {mesh};
      }
      ok := true;
    }

    /** One scanned mesh of `addSelection`: its `MeshItem`, made and given its rows. */
    method MakeMeshItem(mesh: string, buckets: Buckets, ghost made: map<string, MeshItem>,
                        ghost found: map<string, Buckets>)
      returns (ok: bool, item: MeshItem)
      requires forall m :: m in made ==> m in found && MeshRow(made[m], found[m], materials)
      modifies materials.entries.Values
      ensures materials.entries == old(materials.entries)
      ensures ok <==> forall n :: Lists(buckets, n) ==> n in materials.entries
      ensures fresh(item) && item.fpnMesh == mesh
      ensures ok ==> MeshRow(item, buckets, materials)
      ensures AllBound(item.rows, item.mtlNameToID, materials)
      ensures forall m :: m in old(materials.entries.Values) ==> Extends(m.mtlItem, old(m.mtlItem))
      ensures forall m :: m in made ==> MeshRow(made[m], found[m], materials)
    {
      item := new MeshItem(mesh, buckets);
      ok := item.GiveChild(materials);
      assert forall n :: Lists(buckets, n) <==> n in item.mtlNameToID;
      forall m | m in made ensures MeshRow(made[m], found[m], materials) {
        var it := made[m];
        assert old(MeshRow(it, found[m], materials));
        forall i | 0 <= i < |it.rows| ensures Bound(it.rows[i], it.mtlNameToID, materials) {
          var r := it.rows[i];
          assert old(Bound(r, it.mtlNameToID, materials));
          assert r.material in old(materials.entries.Values);
          ExtendsHas(r.material.mtlItem, old(r.material.mtlItem), r);
        }
      }
    }
  }
}
