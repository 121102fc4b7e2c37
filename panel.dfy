/**
 * The panel's objects over the scene: the `Material` layer with the ID rows bound to
 * it, the ID rows themselves, the mesh rows of the material view, the material view's
 * edit handler, and the GUI's registries of materials and meshes.
 */
module Panel {
  import opened Wrappers
  import opened PyText
  import opened Seqs
  import opened Utilities
  import opened IdCells

  /** The ID stored on a material, as `getMaterialID` without `createNewID` reports it. */
  function StoredID(mats: map<string, Option<int>>, mtl: string): Option<int> {
    if mtl in mats then mats[mtl] else None
  }

  /**
   * What a refresh whose rows showed something else leaves stored on the material:
   * the text the rows now show, written back. That is 0 over a missing or
   * non-positive ID; a positive ID is left as it is.
   */
  function RefreshWrite(mats: map<string, Option<int>>, mtl: string): (r: map<string, Option<int>>)
    ensures r == if mtl in mats && (mats[mtl].None? || mats[mtl].value <= 0) then mats[mtl := Some(0)] else mats
  {
    if mtl in mats then
      WriteBackID(mats[mtl]);
      var r := mats[mtl := Some(CoercedID(TextArg(Displayed(IdValue(mats[mtl])))))];
      SameMap(r, if mats[mtl].None? || mats[mtl].value <= 0 then mats[mtl := Some(0)] else mats);
      r
    else mats
  }

  /** The text a cell shows for a stored ID, written back, is that ID when it is positive and 0 otherwise. */
  lemma {:induction false} WriteBackID(id: Option<int>)
    ensures CoercedID(TextArg(Displayed(IdValue(id)))) == if id.Some? && id.value > 0 then id.value else 0
  {
    DisplayedOfID(id);
    if id.Some? && id.value > 0 {
      CoercedIDOfText("", id.value);
    } else {
      CoercedIDOfText("", 0);
    }
  }

  /** After the write-back, the stored ID shows as the same text, so no later row re-enters the handler. */
  lemma {:induction false} EchoSettles(mats: map<string, Option<int>>, mtl: string)
    ensures Displayed(IdValue(StoredID(RefreshWrite(mats, mtl), mtl))) == Displayed(IdValue(StoredID(mats, mtl)))
  {
    if mtl in mats {
      DisplayedOfID(mats[mtl]);
      DisplayedOfID(Some(0));
    }
  }

  /** The undo log and the stored IDs of `EchoAll`, before and after: the write-back happened exactly when `fired`. */
  ghost predicate Echoed(mats0: map<string, Option<int>>, mats: map<string, Option<int>>,
                         log0: seq<UndoEvent>, log: seq<UndoEvent>, mtl: string, fired: bool) {
    && log == log0 + (if fired then [CloseChunk] else [])
    && mats == if fired then RefreshWrite(mats0, mtl) else mats0
  }

  /** What the rows show, in order. */
  function Texts(rows: seq<MtlIDItem>): (r: seq<string>)
    reads rows
    ensures |r| == |rows| && forall k :: 0 <= k < |rows| ==> r[k] == rows[k].text
  {
    seq(|rows|, k requires 0 <= k < |rows| reads rows => rows[k].text)
  }

  /** Every row shows `d`. */
  predicate AllShow(texts: seq<string>, d: string) {
    forall k :: 0 <= k < |texts| ==> texts[k] == d
  }

  /** When every row shows `d`, each bound row does. */
  lemma AllShowEach(rows: seq<MtlIDItem>, d: string)
    requires AllShow(Texts(rows), d)
    ensures forall x :: x in rows ==> x.text == d
  {
    forall x | x in rows ensures x.text == d {
      var k :| 0 <= k < |rows| && rows[k] == x;
      assert Texts(rows)[k] == d;
    }
  }

  /** A write-back followed by none, or none followed by one, is one write-back. */
  lemma EchoedTwice(mats0: map<string, Option<int>>, mats1: map<string, Option<int>>, mats2: map<string, Option<int>>,
                    log0: seq<UndoEvent>, log1: seq<UndoEvent>, log2: seq<UndoEvent>, mtl: string, first: bool, second: bool)
    requires Echoed(mats0, mats1, log0, log1, mtl, first) && Echoed(mats1, mats2, log1, log2, mtl, second)
    requires !(first && second)
    ensures Echoed(mats0, mats2, log0, log2, mtl, first || second)
  {
  }

  /** The GUI's `materials` dict, shared with every `Material` as its `container`. */
  class Registry {
    var entries: map<string, Material>

    constructor ()
      ensures entries == map[]
    {
      entries := map[];
    }
  }

  /** The layer between the ID rows and the scene, one per material name. */
  class Material {
    const fpnMtl: string
    const container: Registry
    const scene: Scene
    /** The cached ID; `None` until the first `refresh` or `changeID`. */
    var mtlID: Option<int>
    /** The ID rows bound to this material, in the order they registered. */
    var mtlItem: seq<MtlIDItem>

    constructor (fpnMtl: string, container: Registry, scene: Scene)
      ensures this.fpnMtl == fpnMtl && this.container == container && this.scene == scene
      ensures mtlID == None && mtlItem == []
    {
      this.fpnMtl := fpnMtl;
      this.container := container;
      this.scene := scene;
      mtlID := None;
      mtlItem := [];
    }

    /** `addToMtlItemList`: the row is appended to the bound rows. */
    method AddToMtlItemList(item: MtlIDItem)
      modifies this`mtlItem
      ensures mtlItem == old(mtlItem) + [item]
    {
      mtlItem := mtlItem + [item];
    }

    /**
     * `changeID(mtlID, chunkOpen, looping)` for a material that exists (`exists` always
     * answers yes). With `looping`, the text is written as the material's ID, inside a
     * chunk opened or closed as `chunkOpen` says, the stored ID is read back into the
     * cache, and every bound row shows the requested text; without it, nothing happens.
     * `changeMtlID` calls it with the view's edit handler disconnected.
     */
    method ChangeID(text: string, chunkOpen: bool, looping: bool)
      modifies this`mtlID, scene`materials, scene`undoLog, mtlItem`text
      ensures !looping ==> mtlID == old(mtlID) && scene.materials == old(scene.materials) &&
                           scene.undoLog == old(scene.undoLog) && Texts(mtlItem) == old(Texts(mtlItem))
      ensures looping ==> scene.undoLog == old(scene.undoLog) + [if chunkOpen then OpenChunk else CloseChunk]
      ensures looping ==> scene.materials == if fpnMtl in old(scene.materials)
                                             then old(scene.materials)[fpnMtl := Some(CoercedID(TextArg(text)))]
                                             else old(scene.materials)
      ensures looping ==> mtlID == StoredID(scene.materials, fpnMtl)
      ensures looping ==> AllShow(Texts(mtlItem), Displayed(TextValue(text)))
    {
      if looping {
        Store(text, chunkOpen);
      }
    }

    /** The body of `changeID` under `looping`: write, read back, fan out. */
    method Store(text: string, chunkOpen: bool)
      modifies this`mtlID, scene`materials, scene`undoLog, mtlItem`text
      ensures scene.undoLog == old(scene.undoLog) + [if chunkOpen then OpenChunk else CloseChunk]
      ensures scene.materials == if fpnMtl in old(scene.materials)
                                 then old(scene.materials)[fpnMtl := Some(CoercedID(TextArg(text)))]
                                 else old(scene.materials)
      ensures mtlID == StoredID(scene.materials, fpnMtl)
      ensures AllShow(Texts(mtlItem), Displayed(TextValue(text)))
    {
      scene.SetMaterialIDs([fpnMtl], TextArg(text), if chunkOpen then OpenKey else CloseKey);
      ghost var written := scene.materials;
      mtlID := scene.GetMaterialID(fpnMtl, false, NoKey);
      assert scene.materials == written;
      ShowAll(TextValue(text));
    }

    /** `x.textChanged(value, False, False)` on every bound row: each shows the value. */
    method ShowAll(v: CellValue)
      modifies mtlItem`text
      ensures AllShow(Texts(mtlItem), Displayed(v))
    {
      var i := 0;
      while i < |mtlItem|
        invariant 0 <= i <= |mtlItem|
        invariant forall j :: 0 <= j < i ==> mtlItem[j].text == Displayed(v)
      {
        mtlItem[i].Show(v);
        i := i + 1;
      }
    }

    /**
     * `refresh` for a material that exists: the stored ID is read into the cache, the
     * rows whose cell is gone are dropped, and every remaining row shows the ID. If some
     * remaining row showed something else, the view's edit handler runs once, and the
     * material stores what the rows now show, closing an undo chunk: 0 over a missing
     * or non-positive ID, a positive ID unchanged (`RefreshWrite`).
     */
    method Refresh()
      modifies this`mtlID, this`mtlItem, scene`materials, scene`undoLog, mtlItem`text
      ensures mtlItem == old(Live(mtlItem))
      ensures AllShow(Texts(mtlItem), Displayed(IdValue(StoredID(old(scene.materials), fpnMtl))))
      ensures Echoed(old(scene.materials), scene.materials, old(scene.undoLog), scene.undoLog, fpnMtl,
                     !AllShow(old(Texts(Live(mtlItem))), Displayed(IdValue(StoredID(old(scene.materials), fpnMtl)))))
      ensures mtlID == StoredID(scene.materials, fpnMtl)
    {
      ghost var live := Live(mtlItem);
      ghost var shown := Texts(live);
      mtlID := scene.GetMaterialID(fpnMtl, false, NoKey);
      assert scene.materials == old(scene.materials) && scene.undoLog == old(scene.undoLog);
      assert Live(mtlItem) == live;
      assert Texts(live) == shown;
      UpdateMaterialItems();
    }

    /**
     * `updateMaterialItems`, which `refresh` calls right after reading the cache: the
     * rows whose cell is gone are removed, and each survivor is shown the cached ID
     * (see `EchoAll`).
     */
    method UpdateMaterialItems()
      requires mtlID == StoredID(scene.materials, fpnMtl)
      modifies this`mtlItem, this`mtlID, scene`materials, scene`undoLog, mtlItem`text
      ensures mtlItem == old(Live(mtlItem))
      ensures AllShow(Texts(mtlItem), Displayed(IdValue(old(mtlID))))
      ensures Echoed(old(scene.materials), scene.materials, old(scene.undoLog), scene.undoLog, fpnMtl,
                     !AllShow(old(Texts(Live(mtlItem))), Displayed(IdValue(old(mtlID)))))
      ensures mtlID == StoredID(scene.materials, fpnMtl)
    {
      DropDeadRows();
      EchoAll();
    }

    /**
     * The first loop of `updateMaterialItems`: every row whose `text()` raises (its
     * cell is gone) is popped at its first occurrence, and the others keep their order.
     */
    method DropDeadRows()
      modifies this`mtlItem
      ensures mtlItem == old(Live(mtlItem))
    {
      var tmp := mtlItem;
      ghost var live := set x | x in tmp && x.alive;
      ghost var kept: seq<MtlIDItem> := [];
      var i := 0;
      while i < |tmp|
        invariant 0 <= i <= |tmp|
        invariant kept == Keep(tmp[..i], live)
        invariant mtlItem == kept + tmp[i..]
      {
        var x := tmp[i];
        KeepStep(tmp, i, live, kept, mtlItem);
        if !x.alive {
          // `self.mtlItem.pop(self.mtlItem.index(mtlItem))`: the first occurrence is this one
          mtlItem := PopFirst(mtlItem, x);
        } else {
          kept := kept + [x];
        }
        i := i + 1;
      }
      assert tmp[..i] == tmp;
    }

    /**
     * `map(lambda x: x.textChanged(self.mtlID, looping=False), self.mtlItem)` with the
     * material view's `itemChanged` handler connected, as it is during the GUI's
     * `refresh` (which clears the selection first). A row whose text this changes
     * raises `itemChanged`, and `changeMtlID` edits that row alone: `textChanged` with
     * the default `chunkOpen=False` and `looping=True` makes the row's material (this
     * one: a row registers on its own material) store what the row shows, and every
     * bound row shows it while the handler is disconnected. What is stored reads back
     * as the text shown (`EchoSettles`), so only the first row that changes re-enters.
     */
    method EchoAll()
      requires mtlID == StoredID(scene.materials, fpnMtl)
      modifies this`mtlID, scene`materials, scene`undoLog, mtlItem`text
      ensures AllShow(Texts(mtlItem), Displayed(IdValue(old(mtlID))))
      ensures Echoed(old(scene.materials), scene.materials, old(scene.undoLog), scene.undoLog, fpnMtl,
                     !AllShow(old(Texts(mtlItem)), Displayed(IdValue(old(mtlID)))))
      ensures mtlID == StoredID(scene.materials, fpnMtl)
    {
      var rows := mtlItem;
      ghost var texts := Texts(rows);
      ghost var d := Displayed(IdValue(mtlID));
      ghost var fired := false;
      var i := 0;
      while i < |rows|
        invariant 0 <= i <= |rows|
        invariant mtlID == StoredID(scene.materials, fpnMtl) && Displayed(IdValue(mtlID)) == d
        invariant fired <==> exists k :: 0 <= k < i && texts[k] != d
        invariant forall k :: 0 <= k < |rows| ==> rows[k].text == if fired then d else texts[k]
        invariant Echoed(old(scene.materials), scene.materials, old(scene.undoLog), scene.undoLog, fpnMtl, fired)
      {
        ghost var mats1, log1 := scene.materials, scene.undoLog;
        var changed := EchoOne(rows, i);
        EchoedTwice(old(scene.materials), mats1, scene.materials, old(scene.undoLog), log1, scene.undoLog,
                    fpnMtl, fired, changed);
        fired := fired || changed;
        i := i + 1;
      }
      assert fired <==> !AllShow(texts, d);
      assert AllShow(Texts(rows), d);
    }

    /**
     * One row of `EchoAll`: the row is shown the cached ID, and when that changes its
     * text the handler's one-row edit stores the text and every bound row shows it.
     */
    method EchoOne(rows: seq<MtlIDItem>, i: nat) returns (changed: bool)
      requires rows == mtlItem && i < |rows| && mtlID == StoredID(scene.materials, fpnMtl)
      modifies this`mtlID, scene`materials, scene`undoLog, rows`text
      ensures changed <==> old(rows[i].text) != Displayed(IdValue(old(mtlID)))
      ensures mtlID == StoredID(scene.materials, fpnMtl) && Displayed(IdValue(mtlID)) == Displayed(IdValue(old(mtlID)))
      ensures forall k :: 0 <= k < |rows| ==>
                rows[k].text == if changed then Displayed(IdValue(old(mtlID))) else old(rows[k].text)
      ensures Echoed(old(scene.materials), scene.materials, old(scene.undoLog), scene.undoLog, fpnMtl, changed)
    {
      var x := rows[i];
      var before := x.text;
      x.Show(IdValue(mtlID));
      changed := x.text != before;
      if changed {
        // `itemChanged` fires: `changeMtlID` runs `textChanged(text)` on this row alone
        EchoSettles(scene.materials, fpnMtl);
        DisplayedIdempotent(IdValue(mtlID));
        Store(x.text, false);
        AllShowEach(rows, x.text);
      }
    }

    /**
     * `hide`: every bound row is hidden and the material leaves the shared registry;
     * `found` is false when it was not registered (the `pop` raises `KeyError`). The
     * rows' text and cells are left as they were.
     */
    method Hide() returns (found: bool)
      modifies container`entries, mtlItem`hidden
      ensures found <==> fpnMtl in old(container.entries)
      ensures container.entries == old(container.entries) - {fpnMtl}
      ensures forall x :: x in mtlItem ==> x.hidden && x.text == old(x.text) && x.alive == old(x.alive)
    {
      var i := 0;
      while i < |mtlItem|
        invariant 0 <= i <= |mtlItem|
        invariant forall j :: 0 <= j < i ==> mtlItem[j].hidden
        invariant container.entries == old(container.entries)
      {
        mtlItem[i].Hide();
        i := i + 1;
      }
      found := fpnMtl in container.entries;
      container.entries := container.entries - {fpnMtl};
    }
  }

  /** The rows whose cell still exists, in order. */
  function Live(items: seq<MtlIDItem>): (r: seq<MtlIDItem>)
    reads items
  {
    Keep(items, set x | x in items && x.alive)
  }

  /** The elements of `items` that belong to `s`, in order. */
  function Keep<T(==)>(items: seq<T>, s: set<T>): (r: seq<T>)
    ensures forall k :: 0 <= k < |r| ==> r[k] in items && r[k] in s
  {
    if items == [] then []
    else Keep(items[..|items| - 1], s) + (if items[|items| - 1] in s then [items[|items| - 1]] else [])
  }

  lemma KeepSnoc<T>(items: seq<T>, x: T, s: set<T>)
    ensures Keep(items + [x], s) == Keep(items, s) + (if x in s then [x] else [])
  {
    assert (items + [x])[..|items|] == items;
  }

  /** `l.pop(l.index(x))`: the list without the first occurrence of `x`. */
  function PopFirst<T(==)>(s: seq<T>, x: T): (r: seq<T>)
    requires x in s
    ensures |r| == |s| - 1
  {
    var k := FirstIndex(s, x);
    s[..k] + s[k + 1..]
  }

  /** The first occurrence is the one after `kept` when `kept` does not hold `x`. */
  lemma PopFirstAfter<T>(kept: seq<T>, x: T, rest: seq<T>)
    requires x !in kept
    ensures x in kept + [x] + rest
    ensures PopFirst(kept + [x] + rest, x) == kept + rest
  {
    var s := kept + [x] + rest;
    assert s[..|kept|] == kept;
    assert s[|kept|] == x;
    assert FirstIndex(s, x) == |kept|;
    assert s[|kept| + 1..] == rest;
  }

  /** One row of `updateMaterialItems`: a dead row is the first occurrence of itself still in the list. */
  lemma KeepStep<T>(tmp: seq<T>, i: nat, s: set<T>, kept: seq<T>, cur: seq<T>)
    requires i < |tmp| && kept == Keep(tmp[..i], s) && cur == kept + tmp[i..]
    ensures tmp[i] in s ==> kept + [tmp[i]] == Keep(tmp[..i + 1], s) && cur == kept + [tmp[i]] + tmp[i + 1..]
    ensures tmp[i] !in s ==> kept == Keep(tmp[..i + 1], s) && tmp[i] in cur && PopFirst(cur, tmp[i]) == kept + tmp[i + 1..]
  {
    var x := tmp[i];
    KeepSnoc(tmp[..i], x, s);
    assert tmp[..i + 1] == tmp[..i] + [x];
    assert tmp[i..] == [x] + tmp[i + 1..];
    assert cur == kept + [x] + tmp[i + 1..];
    if x !in s {
      PopFirstAfter(kept, x, tmp[i + 1..]);
    }
  }

  /** A row of the ID column: the material it belongs to and the ID it shows. */
  class MtlIDItem {
    var text: string
    const mtlName: string
    const material: Material
    /** False once the view has deleted the cell; `text()` then raises. */
    var alive: bool
    var hidden: bool

    /** `MtlIDItem(parent, mtl, mtlID, material)`: shows `processMtlID(mtlID)` and registers on its material. */
    constructor (mtlName: string, mtlID: CellValue, material: Material)
      modifies material`mtlItem
      ensures this.mtlName == mtlName && this.material == material
      ensures text == ProcessMtlID(mtlID) && alive && !hidden
      ensures material.mtlItem == old(material.mtlItem) + [this]
    {
      this.mtlName := mtlName;
      this.material := material;
      text := ProcessMtlID(mtlID);
      alive := true;
      hidden := false;
      new;
      material.AddToMtlItemList(this);
    }

    /** The cell update of `textChanged`, which is all it does when `looping` is false. */
    method Show(v: CellValue)
      modifies this`text
      ensures text == Displayed(v)
    {
      text := Displayed(v);
    }

    /**
     * `textChanged(text, chunkOpen, looping)`: the cell shows the normalised value and,
     * only when `looping`, the material is told to store what the cell now shows. The
     * `itemChanged` signal a new text raises is not part of this method: `changeMtlID`
     * calls it with the view's handler disconnected, and the one call made with the
     * handler connected, from `updateMaterialItems`, is `Material.EchoAll`.
     */
    method TextChanged(v: CellValue, chunkOpen: bool, looping: bool)
      modifies this`text, material`mtlID, material.scene`materials, material.scene`undoLog, material.mtlItem`text
      ensures text == Displayed(v)
      ensures !looping ==> material.mtlID == old(material.mtlID) &&
                           material.scene.materials == old(material.scene.materials) &&
                           material.scene.undoLog == old(material.scene.undoLog) &&
                           forall x :: x in material.mtlItem && x != this ==> x.text == old(x.text)
      ensures looping ==> material.scene.undoLog == old(material.scene.undoLog) + [if chunkOpen then OpenChunk else CloseChunk]
      ensures looping ==> material.scene.materials ==
                            if material.fpnMtl in old(material.scene.materials)
                            then old(material.scene.materials)[material.fpnMtl := Some(CoercedID(TextArg(Displayed(v))))]
                            else old(material.scene.materials)
      ensures looping ==> material.mtlID == StoredID(material.scene.materials, material.fpnMtl)
      ensures looping ==> forall x :: x in material.mtlItem ==> x.text == Displayed(v)
    {
      Show(v);
      if looping {
        DisplayedIdempotent(v);
        material.ChangeID(text, chunkOpen, looping);
        AllShowEach(material.mtlItem, Displayed(v));
      }
    }

    /** `hide`, kept as the event of hiding the row. */
    method Hide()
      modifies this`hidden
      ensures hidden
    {
      hidden := true;
    }
  }

  /** One mesh's materials by ID, as `materials([mesh])` reports them for that mesh. */
  type Buckets = map<Option<int>, seq<string>>

  /**
   * The nested loops of `MeshItem.__init__` that fill `mtlNameToID`: every material
   * listed in a bucket is a key, mapped to (the last-visited) bucket listing it.
   */
  method MtlNameToID(buckets: Buckets) returns (r: map<string, Option<int>>)
    ensures forall n :: n in r <==> exists k :: k in buckets && n in buckets[k]
    ensures forall n :: n in r ==> r[n] in buckets && n in buckets[r[n]]
  {
    r := map[];
    var seen: set<Option<int>> := {};
    while seen != buckets.Keys
      invariant seen <= buckets.Keys
      invariant forall n :: n in r <==> exists k :: k in seen && n in buckets[k]
      invariant forall n :: n in r ==> r[n] in seen && n in buckets[r[n]]
      decreases buckets.Keys - seen
    {
      SomeLeft(buckets.Keys, seen);
      var k :| k in buckets.Keys && k !in seen;
      var names := buckets[k];
      var j := 0;
      while j < |names|
        invariant 0 <= j <= |names|
        invariant forall n :: n in r <==> (exists k' :: k' in seen && n in buckets[k']) || n in names[..j]
        invariant forall n :: n in r ==> (r[n] in seen || r[n] == k) && n in buckets[r[n]]
      {
        assert names[..j + 1] == names[..j] + [names[j]];
        r := r[names[j] := k];
        j := j + 1;
      }
      assert names[..j] == names;
      seen := seen + {k};
    }
  }

  /** A mesh row of the material view, with one ID row per material of the mesh. */
  class MeshItem {
    const fpnMesh: string
    /** The row's text: the mesh name after its last namespace separator. */
    const title: string
    const mtlNameToID: map<string, Option<int>>
    /** The ID rows `giveChild` creates. */
    var rows: seq<MtlIDItem>

    /** `MeshItem(parent, {mesh: buckets}, materials)` up to `giveChild`. */
    constructor (mesh: string, buckets: Buckets)
      ensures fpnMesh == mesh && title == LastPiece(mesh, ':') && rows == []
      ensures forall n :: n in mtlNameToID <==> exists k :: k in buckets && n in buckets[k]
      ensures forall n :: n in mtlNameToID ==> mtlNameToID[n] in buckets && n in buckets[mtlNameToID[n]]
    {
      fpnMesh := mesh;
      title := LastPiece(mesh, ':');
      var m := MtlNameToID(buckets);
      mtlNameToID := m;
      rows := [];
    }

    /**
     * `giveChild`: an ID row for each material of the mesh, bound to that material's
     * `Material` in the registry and showing its ID. A material missing from the
     * registry raises `KeyError` (`ok` is false); the rows made before stay bound.
     */
    method GiveChild(registry: Registry) returns (ok: bool)
      modifies this`rows, registry.entries.Values
      ensures registry.entries == old(registry.entries)
      ensures ok <==> forall n :: n in mtlNameToID ==> n in registry.entries
      ensures ok ==> Names(rows) == mtlNameToID.Keys
      ensures Distinct(rows)
      ensures AllBound(rows, mtlNameToID, registry)
      ensures forall m :: m in old(registry.entries.Values) ==> Extends(m.mtlItem, old(m.mtlItem))
    {
      var made;
      ok, made := MakeRows(registry);
      rows := made;
    }

    /** The loop of `giveChild`, one material name at a time. */
    method MakeRows(registry: Registry) returns (ok: bool, made: seq<MtlIDItem>)
      modifies registry.entries.Values
      ensures registry.entries == old(registry.entries)
      ensures ok <==> forall n :: n in mtlNameToID ==> n in registry.entries
      ensures ok ==> Names(made) == mtlNameToID.Keys
      ensures Distinct(made)
      ensures AllBound(made, mtlNameToID, registry)
      ensures forall m :: m in old(registry.entries.Values) ==> Extends(m.mtlItem, old(m.mtlItem))
    {
      ghost var start := map m | m in registry.entries.Values :: m.mtlItem;
      made := [];
      var seen: set<string> := {};
      while seen != mtlNameToID.Keys
        invariant seen <= mtlNameToID.Keys
        invariant registry.entries == old(registry.entries)
        invariant RowsBuilt(made, seen, mtlNameToID, registry, start)
        decreases mtlNameToID.Keys - seen
      {
        SomeLeft(mtlNameToID.Keys, seen);
        var n :| n in mtlNameToID.Keys && n !in seen;
        if n !in registry.entries {
          return false, made;
        }
        var item := AddRow(n, registry, made, seen, start);
        made := made + [item];
        seen := seen + {n};
      }
      ok := true;
    }

    /**
     * One `MtlIDItem(self, mtlName, mtlNameToID[name], materials[name])` of `giveChild`,
     * registered on the material's rows; what the rows made before (`prev`, for the
     * names `seen`) satisfy still holds with the new row.
     */
    method AddRow(n: string, registry: Registry, ghost prev: seq<MtlIDItem>, ghost seen: set<string>,
                  ghost start: map<Material, seq<MtlIDItem>>)
      returns (item: MtlIDItem)
      requires n in mtlNameToID && n in registry.entries && n !in seen
      requires RowsBuilt(prev, seen, mtlNameToID, registry, start)
      modifies registry.entries[n]
      ensures registry.entries == old(registry.entries)
      ensures fresh(item) && item.mtlName == n
      ensures registry.entries[n].mtlItem == old(registry.entries[n].mtlItem) + [item]
      ensures RowsBuilt(prev + [item], seen + {n}, mtlNameToID, registry, start)
    {
      ghost var m0 := registry.entries[n];
      item := NewRow(n, mtlNameToID, registry, prev);
      var rows := prev + [item];
      assert Names(rows) == seen + {n} && Distinct(rows) by {
        NamesSnoc(prev, item);
      }
      assert AllBound(rows, mtlNameToID, registry) by {
        forall i | 0 <= i < |rows| ensures Bound(rows[i], mtlNameToID, registry) {
          if i < |prev| {
            assert rows[i] == prev[i];
          }
        }
      }
      assert forall m :: m in start ==> Extends(m.mtlItem, start[m]) by {
        forall m | m in start ensures Extends(m.mtlItem, start[m]) {
          if m == m0 {
            assert m.mtlItem[..|start[m]|] == old(m.mtlItem)[..|start[m]|];
          }
        }
      }
    }
  }

  /** The `MtlIDItem` made for `n`: it is bound, and the rows bound before stay bound. */
  method NewRow(n: string, ids: map<string, Option<int>>, registry: Registry, ghost prev: seq<MtlIDItem>)
    returns (item: MtlIDItem)
    requires n in ids && n in registry.entries && AllBound(prev, ids, registry)
    modifies registry.entries[n]
    ensures fresh(item) && item.mtlName == n && Bound(item, ids, registry)
    ensures registry.entries[n].mtlItem == old(registry.entries[n].mtlItem) + [item]
    ensures AllBound(prev, ids, registry)
  {
    var m0 := registry.entries[n];
    item := new MtlIDItem(n, IdValue(ids[n]), m0);
    forall i | 0 <= i < |prev| ensures Bound(prev[i], ids, registry) {
      var r := prev[i];
      assert old(Bound(r, ids, registry));
      if r.material == m0 {
        assert old(m0.mtlItem) == m0.mtlItem[..|old(m0.mtlItem)|];
      }
    }
  }

  /**
   * What the rows `made` so far for the names `seen` satisfy: one row per name, each
   * bound, and every material's rows extending what they were at the start.
   */
  ghost predicate RowsBuilt(made: seq<MtlIDItem>, seen: set<string>, ids: map<string, Option<int>>,
                        registry: Registry, start: map<Material, seq<MtlIDItem>>)
    reads made, registry, set r | r in made :: r.material, start.Keys
  {
    && seen == Names(made) && Distinct(made)
    && (forall n :: n in seen ==> n in registry.entries)
    && AllBound(made, ids, registry)
    && forall m :: m in start ==> Extends(m.mtlItem, start[m])
  }

  /** The material names of `rows`. */
  function Names(rows: seq<MtlIDItem>): (names: set<string>)
    ensures forall i :: 0 <= i < |rows| ==> rows[i].mtlName in names
  {
    if rows == [] then {} else Names(rows[..|rows| - 1]) + {rows[|rows| - 1].mtlName}
  }

  /** No two rows are for the same material name. */
  predicate Distinct(rows: seq<MtlIDItem>) {
    forall i, j :: 0 <= i < j < |rows| ==> rows[i].mtlName != rows[j].mtlName
  }

  /** A name is among the names of `rows` exactly when some row carries it. */
  lemma {:induction false} NamesMembers(rows: seq<MtlIDItem>, n: string)
    ensures n in Names(rows) <==> exists i :: 0 <= i < |rows| && rows[i].mtlName == n
  {
    if rows != [] && n in Names(rows) {
      var p := rows[..|rows| - 1];
      if n in Names(p) {
        NamesMembers(p, n);
        var i :| 0 <= i < |p| && p[i].mtlName == n;
        assert rows[i] == p[i];
      } else {
        assert rows[|rows| - 1].mtlName == n;
      }
    }
  }

  /** A row for a new name adds that name and keeps the names distinct. */
  lemma NamesSnoc(rows: seq<MtlIDItem>, item: MtlIDItem)
    requires Distinct(rows) && item.mtlName !in Names(rows)
    ensures Names(rows + [item]) == Names(rows) + {item.mtlName}
    ensures Distinct(rows + [item])
  {
    assert (rows + [item])[..|rows|] == rows;
  }

  /** `row` belongs to a material of the mesh, shows its ID, and is registered on the material's rows. */
  ghost predicate Bound(row: MtlIDItem, ids: map<string, Option<int>>, registry: Registry)
    reads row, registry, row.material
  {
    && row.mtlName in ids && row.mtlName in registry.entries
    && row.material == registry.entries[row.mtlName]
    && row.text == ProcessMtlID(IdValue(ids[row.mtlName]))
    && row in row.material.mtlItem
  }

  /** `s` is `prefix` with rows appended. */
  predicate Extends<T(==)>(s: seq<T>, prefix: seq<T>) {
    |prefix| <= |s| && s[..|prefix|] == prefix
  }

  /** A list that extends an extension of `prefix` extends `prefix`. */
  lemma ExtendsTrans<T>(a: seq<T>, b: seq<T>, c: seq<T>)
    requires Extends(a, b) && Extends(b, c)
    ensures Extends(a, c)
  {
    assert a[..|c|] == a[..|b|][..|c|];
  }

  /** What a list held, its extension still holds. */
  lemma ExtendsHas<T>(s: seq<T>, prefix: seq<T>, x: T)
    requires Extends(s, prefix) && x in prefix
    ensures x in s
  {
    var k :| 0 <= k < |prefix| && prefix[k] == x;
    assert s[k] == x;
  }

  /** Every row of `rows` is bound. */
  ghost predicate AllBound(rows: seq<MtlIDItem>, ids: map<string, Option<int>>, registry: Registry)
    reads rows, registry, set r | r in rows :: r.material
  {
    forall i :: 0 <= i < |rows| ==> Bound(rows[i], ids, registry)
  }
}
