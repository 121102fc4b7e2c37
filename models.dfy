/**
 * The two item models of the panel and their edit handlers: the material view's
 * `changeMtlID`, which spreads one edited ID over the selected ID rows, and the
 * matte view's `changeMatteID`, which writes a matte row's three IDs back to its node.
 */
module Models {
  import opened Wrappers
  import opened PyText
  import opened Seqs
  import opened Utilities
  import opened IdCells
  import opened Panel

  /** The undo event a decorated call with this `chunkOpen` flag issues. */
  function EventOf(open: bool): UndoEvent {
    if open then OpenChunk else CloseChunk
  }

  /** The undo events of the first `n` rows of an edit, each row flagged as `ChunkFlag` says. */
  function Events<T(==)>(rows: seq<T>, n: nat): (r: seq<UndoEvent>)
    requires n <= |rows|
    ensures |r| == n
    ensures forall i :: 0 <= i < n ==> r[i] == EventOf(ChunkFlag(rows, i))
  {
    if n == 0 then [] else Events(rows, n - 1) + [EventOf(ChunkFlag(rows, n - 1))]
  }

  /** One write of `setMaterialID`: the material takes the ID if the scene has it. */
  function WriteOne(mats: map<string, Option<int>>, name: string, id: int): map<string, Option<int>> {
    if name in mats then mats[name := Some(id)] else mats
  }

  /** The writes of `names`, one after another, all of the same ID. */
  function WriteAll(mats: map<string, Option<int>>, names: seq<string>, id: int): map<string, Option<int>> {
    if names == [] then mats else WriteOne(WriteAll(mats, names[..|names| - 1], id), names[|names| - 1], id)
  }

  /** Writing names keeps the scene's materials and gives each written one the ID; the rest keep theirs. */
  lemma {:induction false} WriteAllValue(mats: map<string, Option<int>>, names: seq<string>, id: int)
    ensures WriteAll(mats, names, id).Keys == mats.Keys
    ensures forall n :: n in mats ==> WriteAll(mats, names, id)[n] == if n in names then Some(id) else mats[n]
  {
    if names != [] {
      var p := names[..|names| - 1];
      WriteAllValue(mats, p, id);
      assert names == p + [names[|names| - 1]];
    }
  }

  /** The material names of the rows of an edit, in order. */
  function MtlNames(rows: seq<MtlIDItem>): (r: seq<string>)
    ensures |r| == |rows| && forall i :: 0 <= i < |rows| ==> r[i] == rows[i].material.fpnMtl
  {
    seq(|rows|, i requires 0 <= i < |rows| => rows[i].material.fpnMtl)
  }

  /** The ID the cache of a material written with `id` holds: `id` if the scene has it, else `None`. */
  function CachedAfter(mats: map<string, Option<int>>, name: string, id: int): Option<int> {
    if name in mats then Some(id) else None
  }

  /** The materials of the rows of an edit. */
  ghost function MaterialsOf(rows: seq<MtlIDItem>): set<Material> {
    set i | 0 <= i < |rows| :: rows[i].material
  }

  /** The rows bound to the materials of an edit: the ones the fan-out of `changeID` reaches. */
  ghost function Reached(rows: seq<MtlIDItem>): set<MtlIDItem>
    reads MaterialsOf(rows)
  {
    set m, x | m in MaterialsOf(rows) && x in m.mtlItem :: x
  }

  /** The material view's model, whose `itemChanged` signal is wired to `changeMtlID`. */
  class MtlModel {
    const scene: Scene

    constructor (scene: Scene)
      ensures this.scene == scene
    {
      this.scene := scene;
    }

    /**
     * `changeMtlID(mtl)` for an edited ID row `edited` with the ID rows `selected`:
     * `textChanged(edited.text(), chunkOpen)` runs on each selected row and then on the
     * edited row.
     */
    method ChangeMtlID(selected: seq<MtlIDItem>, edited: MtlIDItem)
      requires forall i :: 0 <= i < |selected| ==> selected[i].material.scene == scene
      requires edited.material.scene == scene
      modifies scene`materials, scene`undoLog
      modifies MaterialsOf(EditRows(selected, edited, true))`mtlID
      modifies EditRows(selected, edited, true), Reached(EditRows(selected, edited, true))
      ensures var rows := EditRows(selected, edited, true);
              var shown := Displayed(TextValue(old(edited.text)));
              var id := CoercedID(TextArg(shown));
              && scene.undoLog == old(scene.undoLog) + Events(rows, |rows|)
              && scene.materials == WriteAll(old(scene.materials), MtlNames(rows), id)
              && (forall i :: 0 <= i < |rows| ==> rows[i].text == shown)
              && (forall i, x :: 0 <= i < |rows| && x in rows[i].material.mtlItem ==> x.text == shown)
              && (forall i :: 0 <= i < |rows| ==> rows[i].material.mtlID == CachedAfter(old(scene.materials), rows[i].material.fpnMtl, id))
    {
      var rows := EditRows(selected, edited, true);
      Covered(rows);
      Propagate(rows, edited, MaterialsOf(rows), Reached(rows));
    }

    /**
     * The edit as evidently intended: the same updates over the selected rows without
     * repeats and the edited row once, last.
     */
    method ChangeMtlIDOnce(selected: seq<MtlIDItem>, edited: MtlIDItem)
      requires forall i :: 0 <= i < |selected| ==> selected[i].material.scene == scene
      requires edited.material.scene == scene
      modifies scene`materials, scene`undoLog
      modifies MaterialsOf(FixedEditRows(selected, edited))`mtlID
      modifies FixedEditRows(selected, edited), Reached(FixedEditRows(selected, edited))
      ensures var rows := FixedEditRows(selected, edited);
              var shown := Displayed(TextValue(old(edited.text)));
              var id := CoercedID(TextArg(shown));
              && scene.undoLog == old(scene.undoLog) + Events(rows, |rows|)
              && scene.materials == WriteAll(old(scene.materials), MtlNames(rows), id)
              && (forall i :: 0 <= i < |rows| ==> rows[i].text == shown)
              && (forall i, x :: 0 <= i < |rows| && x in rows[i].material.mtlItem ==> x.text == shown)
              && (forall i :: 0 <= i < |rows| ==> rows[i].material.mtlID == CachedAfter(old(scene.materials), rows[i].material.fpnMtl, id))
    {
      var rows := FixedEditRows(selected, edited);
      Covered(rows);
      Propagate(rows, edited, MaterialsOf(rows), Reached(rows));
    }

    /**
     * `changeMtlID(mtl)` for an edited cell that is not an ID row (a mesh or material
     * name): the row list is empty, so no row is updated, and the cell is cleared.
     */
    method ChangeNameCell(cell: NameCell)
      modifies cell`text
      ensures cell.text == ""
    {
      cell.text := "";
    }

    /** The loop of `changeMtlID` over its row list. */
    method Propagate(rows: seq<MtlIDItem>, edited: MtlIDItem, ghost mats: set<Material>, ghost reach: set<MtlIDItem>)
      requires forall i :: 0 <= i < |rows| ==> rows[i].material.scene == scene && rows[i].material in mats
      requires forall i, x :: 0 <= i < |rows| && x in rows[i].material.mtlItem ==> x in reach
      modifies scene`materials, scene`undoLog, mats`mtlID, rows, reach
      ensures Finished(rows, Displayed(TextValue(old(edited.text))), old(scene.materials), old(scene.undoLog))
    {
      ghost var shown := Displayed(TextValue(edited.text));
      ghost var mats0, log0 := scene.materials, scene.undoLog;
      DisplayedIdempotent(TextValue(edited.text));
      assert MtlNames(rows)[..0] == [];
      ghost var bound := seq(|rows|, j requires 0 <= j < |rows| reads mats => rows[j].material.mtlItem);
      ghost var shows: set<MtlIDItem> := {};
      ghost var cached: set<Material> := {};
      var i := 0;
      while i < |rows|
        invariant 0 <= i <= |rows|
        invariant Progress(rows, i, edited, shown, mats0, log0, bound, shows, cached)
        invariant forall j, x :: 0 <= j < |rows| && x in bound[j] ==> x in reach
      {
        shows, cached := Advance(rows, i, edited, shown, mats0, log0, bound, shows, cached, mats);
        i := i + 1;
      }
      ProgressDone(rows, edited, shown, mats0, log0, bound, shows, cached);
    }

    /**
     * What an edit leaves: one undo event per row, the writes of `shown` to the rows'
     * materials, every row and every row bound to their materials showing `shown`, and
     * their materials caching what the writes left.
     */
    ghost predicate Finished(rows: seq<MtlIDItem>, shown: string, mats0: map<string, Option<int>>, log0: seq<UndoEvent>)
      reads scene, rows, set j | 0 <= j < |rows| :: rows[j].material,
            set j, x | 0 <= j < |rows| && x in rows[j].material.mtlItem :: x
    {
      var id := CoercedID(TextArg(shown));
      && scene.undoLog == log0 + Events(rows, |rows|)
      && scene.materials == WriteAll(mats0, MtlNames(rows), id)
      && (forall i :: 0 <= i < |rows| ==> rows[i].text == shown)
      && (forall i, x :: 0 <= i < |rows| && x in rows[i].material.mtlItem ==> x.text == shown)
      && (forall i :: 0 <= i < |rows| ==> rows[i].material.mtlID == CachedAfter(mats0, rows[i].material.fpnMtl, id))
    }

    /** The loop of `changeMtlID` run to the end has finished the edit. */
    lemma ProgressDone(rows: seq<MtlIDItem>, edited: MtlIDItem, shown: string,
                       mats0: map<string, Option<int>>, log0: seq<UndoEvent>, bound: seq<seq<MtlIDItem>>,
                       shows: set<MtlIDItem>, cached: set<Material>)
      requires Progress(rows, |rows|, edited, shown, mats0, log0, bound, shows, cached)
      ensures Finished(rows, shown, mats0, log0)
    {
      assert MtlNames(rows)[..|rows|] == MtlNames(rows);
    }

    /**
     * After the first `n` rows of an edit: their undo events are logged, their writes are
     * made, `edited` still reads as `shown`, the rows in `shows` (the first `n` rows and
     * the rows bound to their materials, `bound`) show `shown`, and the materials in
     * `cached` (theirs) cache what the writes left.
     */
    ghost predicate Progress(rows: seq<MtlIDItem>, n: nat, edited: MtlIDItem, shown: string,
                             mats0: map<string, Option<int>>, log0: seq<UndoEvent>, bound: seq<seq<MtlIDItem>>,
                             shows: set<MtlIDItem>, cached: set<Material>)
      reads scene, edited, shows, cached, set j | 0 <= j < |rows| :: rows[j].material
    {
      && n <= |rows| && |bound| == |rows|
      && scene.undoLog == log0 + Events(rows, n)
      && scene.materials == WriteAll(mats0, MtlNames(rows)[..n], CoercedID(TextArg(shown)))
      && Displayed(TextValue(edited.text)) == shown
      && (forall x :: x in shows ==> x.text == shown)
      && (forall m :: m in cached ==> m.mtlID == CachedAfter(mats0, m.fpnMtl, CoercedID(TextArg(shown))))
      && (forall j :: 0 <= j < n ==> rows[j] in shows && rows[j].material in cached)
      && (forall j :: 0 <= j < |rows| ==> rows[j].material.mtlItem == bound[j])
      && (forall j, x :: 0 <= j < n && x in bound[j] ==> x in shows)
    }

    /** One turn of the loop of `changeMtlID`: row `n` is edited with the text the edited cell shows. */
    method Advance(rows: seq<MtlIDItem>, n: nat, edited: MtlIDItem, ghost shown: string,
                   ghost mats0: map<string, Option<int>>, ghost log0: seq<UndoEvent>, ghost bound: seq<seq<MtlIDItem>>,
                   ghost shows: set<MtlIDItem>, ghost cached: set<Material>, ghost mats: set<Material>)
      returns (ghost shows': set<MtlIDItem>, ghost cached': set<Material>)
      requires n < |rows| && rows[n].material.scene == scene
      requires forall j :: 0 <= j < |rows| ==> rows[j].material in mats
      requires Progress(rows, n, edited, shown, mats0, log0, bound, shows, cached)
      modifies scene`materials, scene`undoLog, rows[n].material`mtlID, rows[n], rows[n].material.mtlItem
      ensures Progress(rows, n + 1, edited, shown, mats0, log0, bound, shows', cached')
    {
      ghost var id := CoercedID(TextArg(shown));
      ghost var names := MtlNames(rows)[..n + 1];
      assert names[n] == MtlNames(rows)[n] == rows[n].material.fpnMtl;
      ghost var before, log1 := scene.materials, scene.undoLog;
      WriteAllStep(mats0, MtlNames(rows), n, id);
      var text := edited.text;
      ghost var fans := EditStep(rows[n], ChunkFlag(rows, n), text, shown, shows, cached, edited, mats0, rows, bound);
      shows' := shows + {rows[n]} + set x | x in fans;
      cached' := cached + {rows[n].material};
      Covers(rows, n, bound, shows, cached, shows', cached');
      assert scene.materials == WriteOne(before, MtlNames(rows)[n], id);
      WrittenCache(mats0, names, id, rows[n].material.fpnMtl);
      LogStep(rows, n, log0, log1, scene.undoLog);
    }

    /**
     * `row.textChanged(text, chunkOpen)`, with `text` as read from the edited cell: one
     * undo event, one write, the row and the rows bound to its material show `shown`,
     * its material re-reads the stored ID, and what held before of the rows in `shows`
     * (they show `shown`), of the other materials in `cached` (they cache what the
     * writes of `mats0` left) and of the rows' materials (their rows are `bound`) still
     * holds.
     */
    method EditStep(row: MtlIDItem, chunkOpen: bool, text: string, ghost shown: string,
                    ghost shows: set<MtlIDItem>, ghost cached: set<Material>, ghost edited: MtlIDItem,
                    ghost mats0: map<string, Option<int>>, ghost rows: seq<MtlIDItem>, ghost bound: seq<seq<MtlIDItem>>)
      returns (ghost fans: seq<MtlIDItem>)
      requires row.material.scene == scene
      requires Displayed(TextValue(text)) == shown && Displayed(TextValue(edited.text)) == shown
      requires forall x :: x in shows ==> x.text == shown
      requires forall m :: m in cached ==> m.mtlID == CachedAfter(mats0, m.fpnMtl, CoercedID(TextArg(shown)))
      requires |bound| == |rows| && forall j :: 0 <= j < |rows| ==> rows[j].material.mtlItem == bound[j]
      modifies scene`materials, scene`undoLog, row.material`mtlID, row, row.material.mtlItem
      ensures scene.undoLog == old(scene.undoLog) + [EventOf(chunkOpen)]
      ensures row.text == shown
      ensures forall x :: x in row.material.mtlItem ==> x.text == shown
      ensures forall x :: x in shows ==> x.text == shown
      ensures Displayed(TextValue(edited.text)) == shown
      ensures forall m :: m in cached && m != row.material ==> m.mtlID == CachedAfter(mats0, m.fpnMtl, CoercedID(TextArg(shown)))
      ensures forall j :: 0 <= j < |rows| ==> rows[j].material.mtlItem == bound[j]
      ensures fans == old(row.material.mtlItem) && forall x :: x in fans ==> x.text == shown
      ensures scene.materials == WriteOne(old(scene.materials), row.material.fpnMtl, CoercedID(TextArg(shown)))
      ensures row.material.mtlID == StoredID(scene.materials, row.material.fpnMtl)
    {
      fans := row.material.mtlItem;
      row.TextChanged(TextValue(text), chunkOpen, true);
      DisplayedIdempotent(TextValue(text));
    }
  }

  /** A cell of the material view without a material ID: a mesh row or a material-name row. */
  class NameCell {
    var text: string

    constructor (text: string)
      ensures this.text == text
    {
      this.text := text;
    }
  }

  /**
   * As written, when the edited row is also selected, every row of the edit opens an
   * undo chunk and none closes one.
   */
  lemma EditNeverCloses<T>(selected: seq<T>, edited: T)
    requires edited in selected
    ensures var rows := EditRows(selected, edited, true);
            && Events(rows, |rows|) == seq(|rows|, _ => OpenChunk)
            && CloseChunk !in Events(rows, |rows|)
  {
    NoCloseWhenEditedSelected(selected, edited);
  }

  /** The fixed edit opens a chunk on every row but the last, and the last row closes it. */
  lemma FixedEditEvents<T>(selected: seq<T>, edited: T)
    ensures var rows := FixedEditRows(selected, edited);
            Events(rows, |rows|) == seq(|rows| - 1, _ => OpenChunk) + [CloseChunk]
  {
    FixedEditClosesOnce(selected, edited);
  }

  /**
   * The code as written closes the chunk exactly once, last, when the edited row is not
   * among the selected rows and no row is selected twice.
   */
  lemma EditClosesOnceWhenApart<T>(selected: seq<T>, edited: T)
    requires NoDup(selected) && edited !in selected
    ensures var rows := EditRows(selected, edited, true);
            Events(rows, |rows|) == seq(|rows| - 1, _ => OpenChunk) + [CloseChunk]
  {
    var rows := EditRows(selected, edited, true);
    assert NoDup(rows) by {
      forall i, j | 0 <= i < j < |rows| ensures rows[i] != rows[j] {
        if j == |selected| {
          assert rows[i] == selected[i];
        }
      }
    }
    forall i | 0 <= i < |rows| ensures ChunkFlag(rows, i) == (i < |rows| - 1) {
      FirstIndexOfDistinct(rows, i);
    }
  }

  /** A row of the matte view: the multimatte's node name and its three editable ID cells. */
  class MatteRow {
    const name: string
    var red: string
    var green: string
    var blue: string

    /** `MatteItem(matte)`: the node name and `str()` of each of its three IDs. */
    constructor (m: Matte)
      ensures name == m.node && red == IntToStr(m.red) && green == IntToStr(m.green) && blue == IntToStr(m.blue)
    {
      name := m.node;
      red := IntToStr(m.red);
      green := IntToStr(m.green);
      blue := IntToStr(m.blue);
    }
  }

  /** The matte view's model, whose `itemChanged` signal is wired to `changeMatteID`. */
  class MatteModel {
    const scene: Scene

    constructor (scene: Scene)
      ensures this.scene == scene
    {
      this.scene := scene;
    }

    /**
     * `changeMatteID(matte)`: the texts of the edited row's three ID cells are written
     * on the multimatte node it names, outside any undo chunk.
     */
    method ChangeMatteID(row: MatteRow)
      modifies scene`mattes, scene`undoLog
      ensures scene.undoLog == old(scene.undoLog)
      ensures FindMatte(old(scene.mattes), row.name).None? ==> scene.mattes == old(scene.mattes)
      ensures FindMatte(old(scene.mattes), row.name).Some? ==>
                var h := FindMatte(old(scene.mattes), row.name).value;
                scene.mattes == old(scene.mattes)[h := WithChannels(old(scene.mattes)[h], [row.red, row.green, row.blue])]
    {
      scene.SetMatteMaterialID(row.name, [row.red, row.green, row.blue], NoKey);
    }
  }

  /** A row written back as the view first showed it leaves its multimatte as it was. */
  lemma UneditedRowKeepsMatte(m: Matte)
    ensures WithChannels(m, [IntToStr(m.red), IntToStr(m.green), IntToStr(m.blue)]) == m
  {
    ParseIntOfIntToStr(m.red);
    ParseIntOfIntToStr(m.green);
    ParseIntOfIntToStr(m.blue);
  }

  /** A cell holding text that is not a number stops the writes there: it and the later channels keep their IDs. */
  lemma BadCellStopsWrites(m: Matte, texts: seq<string>, i: nat)
    requires i < 3 && Cell(texts, i).None?
    ensures i == 0 ==> WithChannels(m, texts) == m
    ensures i == 1 ==> WithChannels(m, texts) == if Cell(texts, 0).Some? then m.(red := Cell(texts, 0).value) else m
    ensures WithChannels(m, texts).blue == m.blue
  {
  }

  /** Adding row `n`, the rows bound to its material and its material keeps the first rows covered. */
  lemma Covers(rows: seq<MtlIDItem>, n: nat, bound: seq<seq<MtlIDItem>>, shows: set<MtlIDItem>, cached: set<Material>,
               shows': set<MtlIDItem>, cached': set<Material>)
    requires n < |rows| == |bound|
    requires forall j :: 0 <= j < n ==> rows[j] in shows && rows[j].material in cached
    requires forall j, x :: 0 <= j < n && x in bound[j] ==> x in shows
    requires shows' == shows + {rows[n]} + (set x | x in bound[n]) && cached' == cached + {rows[n].material}
    ensures forall j :: 0 <= j <= n ==> rows[j] in shows' && rows[j].material in cached'
    ensures forall j, x :: 0 <= j <= n && x in bound[j] ==> x in shows'
  {
  }

  /** Every row's material, and every row bound to it, is in the frame of an edit. */
  lemma Covered(rows: seq<MtlIDItem>)
    ensures forall i :: 0 <= i < |rows| ==> rows[i].material in MaterialsOf(rows)
    ensures forall i, x :: 0 <= i < |rows| && x in rows[i].material.mtlItem ==> x in Reached(rows)
  {
    forall i, x | 0 <= i < |rows| && x in rows[i].material.mtlItem ensures x in Reached(rows) {
      assert rows[i].material in MaterialsOf(rows);
    }
  }

  /** Logging row `n`'s event after the first `n` rows' events logs the first `n + 1`. */
  lemma LogStep<T>(rows: seq<T>, n: nat, log0: seq<UndoEvent>, log1: seq<UndoEvent>, log2: seq<UndoEvent>)
    requires n < |rows| && log1 == log0 + Events(rows, n) && log2 == log1 + [EventOf(ChunkFlag(rows, n))]
    ensures log2 == log0 + Events(rows, n + 1)
  {
    assert log2 == log0 + (Events(rows, n) + [EventOf(ChunkFlag(rows, n))]);
  }

  /** Writing one more name is one more `WriteOne`. */
  lemma WriteAllStep(mats0: map<string, Option<int>>, names: seq<string>, n: nat, id: int)
    requires n < |names|
    ensures WriteAll(mats0, names[..n + 1], id) == WriteOne(WriteAll(mats0, names[..n], id), names[n], id)
  {
    assert names[..n + 1][..n] == names[..n];
  }

  /** After a name is written, reading it back gives what `CachedAfter` says. */
  lemma WrittenCache(mats0: map<string, Option<int>>, names: seq<string>, id: int, name: string)
    requires name in names
    ensures StoredID(WriteAll(mats0, names, id), name) == CachedAfter(mats0, name, id)
  {
    WriteAllValue(mats0, names, id);
  }
}
