/**
 * The scene-side helpers of the panel: reading and allocating V-Ray material IDs,
 * building material multimattes three IDs at a time, and the undo-chunk decorator
 * that brackets every scene-changing call.
 *
 * The host scene is abstracted as a `Scene` object: the materials it holds (with their
 * `vrayMaterialId` attribute, if any), the multimatte render elements in creation
 * order, and the log of undo-chunk events.
 */
module Utilities {
  import opened Wrappers
  import opened PyText
  import opened Seqs

  /** The `chunkOpen` keyword a decorated call receives: `True`, `False`, or none at all. */
  datatype ChunkKey = OpenKey | CloseKey | NoKey

  /** What the decorator tells the host's undo queue. */
  datatype UndoEvent = OpenChunk | CloseChunk

  /** Events the decorator issues before the wrapped call: an open for `chunkOpen=True` only. */
  function Before(key: ChunkKey): seq<UndoEvent> {
    if key == OpenKey then [OpenChunk] else []
  }

  /** Events the decorator issues after the wrapped call, whether it returned or raised. */
  function After(key: ChunkKey): seq<UndoEvent> {
    if key == CloseKey then [CloseChunk] else []
  }

  /** Everything one decorated call adds to the undo log. */
  function Bracket(key: ChunkKey): seq<UndoEvent> {
    Before(key) + After(key)
  }

  /** A multimatte render element: node name, the material-ID switch, the three channel IDs and its name attribute. */
  datatype Matte = Matte(node: string, useMtlID: bool, red: int, green: int, blue: int, title: string)

  /** The argument `int()` is applied to when an ID is written. */
  datatype IdArg = IntArg(n: int) | TextArg(s: string)

  /** `int(newid)`, with `0` for the `ValueError` of text that is not a number. */
  function CoercedID(arg: IdArg): int {
    match arg
    case IntArg(n) => n
    case TextArg(s) => if ParseInt(s).Some? then ParseInt(s).value else 0
  }

  /** Text that is not an integer, including the empty text of a cleared cell, is written as 0; `str(n)` is written as `n`. */
  lemma CoercedIDOfText(s: string, n: int)
    ensures ParseInt(s) == None ==> CoercedID(TextArg(s)) == 0
    ensures CoercedID(TextArg("")) == 0
    ensures CoercedID(TextArg(IntToStr(n))) == n
  {
    ParseIntOfIntToStr(n);
  }

  /** The material IDs in use: those of every material that has the attribute. */
  function UsedIDs(mats: map<string, Option<int>>): set<int> {
    set o | o in mats.Values && o.Some? :: o.value
  }

  /** Giving a material without an ID the ID `v` adds `v` to the IDs in use and removes none. */
  lemma UsedIDsAfterSet(mats: map<string, Option<int>>, mtl: string, v: int)
    requires mtl in mats && mats[mtl].None?
    ensures UsedIDs(mats[mtl := Some(v)]) == UsedIDs(mats) + {v}
  {
    var after := mats[mtl := Some(v)];
    forall u ensures u in UsedIDs(after) <==> u in UsedIDs(mats) + {v} {
      if u in UsedIDs(after) {
        var o :| o in after.Values && o.Some? && o.value == u;
        var n :| n in after && after[n] == o;
        if n != mtl {
          assert mats[n] in mats.Values;
        }
      }
      if u in UsedIDs(mats) {
        var o :| o in mats.Values && o.Some? && o.value == u;
        var n :| n in mats && mats[n] == o;
        assert n != mtl && after[n] in after.Values;
      }
      if u == v {
        assert after[mtl] in after.Values;
      }
    }
    SameSet(UsedIDs(after), UsedIDs(mats) + {v});
  }

  /** `not i` for an ID read back from a material: no ID, or the "no ID" value 0. */
  predicate NeedsID(o: Option<int>) {
    o.None? || o.value == 0
  }

  /** The text after the last ':' and before the first '_' that follows it. */
  function ShortName(mtl: string): (r: string)
    ensures ':' !in r && '_' !in r
  {
    BeforeFirst(LastPiece(mtl, ':'), '_')
  }

  /** A namespace prefix does not change the short name: `ns:mtl` and `mtl` shorten alike. */
  lemma ShortNameDropsNamespace(ns: string, mtl: string)
    requires ':' !in ns
    ensures ShortName(ns + ":" + mtl) == ShortName(mtl)
  {
    LastPieceDropsPrefix(ns, ':', mtl);
  }

  function ShortNames(names: seq<string>): (r: seq<string>)
    ensures |r| == |names| && forall i :: 0 <= i < |r| ==> r[i] == ShortName(names[i])
  {
    seq(|names|, i requires 0 <= i < |names| => ShortName(names[i]))
  }

  /** `'_'.join(shorts) + '_matte'`. */
  function MatteName(shorts: seq<string>): string {
    Join(shorts, '_') + "_matte"
  }

  /** The matte name splits back on '_' into the materials' short names followed by "matte". */
  lemma {:induction false} MatteNameParts(names: seq<string>)
    requires |names| > 0
    ensures Split(MatteName(ShortNames(names)), '_') == ShortNames(names) + ["matte"]
  {
    var shorts := ShortNames(names);
    JoinSnoc(shorts, "matte", '_');
    assert MatteName(shorts) == Join(shorts + ["matte"], '_');
    SplitJoin(shorts + ["matte"], '_');
  }

  /** The handles of `n` nodes listed in order, as `getAllMultiMattes` returns them. */
  function Handles(n: nat): (hs: seq<nat>)
    ensures |hs| == n && forall i :: 0 <= i < n ==> hs[i] == i
  {
    seq(n, i => i)
  }

  /** Every name resolves to a material that has an ID attribute. */
  predicate HasIDs(ns: seq<string>, mats: map<string, Option<int>>) {
    forall i :: 0 <= i < |ns| ==> ns[i] in mats && mats[ns[i]].Some?
  }

  /** The IDs the materials carry, in the same order. */
  function IDsOf(ns: seq<string>, mats: map<string, Option<int>>): (ids: seq<int>)
    requires HasIDs(ns, mats)
    ensures |ids| == |ns| && forall i :: 0 <= i < |ns| ==> ids[i] == mats[ns[i]].value
  {
    seq(|ns|, i requires 0 <= i < |ns| => mats[ns[i]].value)
  }

  /** The names that `mayaMaterial` resolves, in their order. */
  function Kept(names: seq<string>, mats: map<string, Option<int>>): (k: seq<string>)
    ensures |k| <= |names|
    ensures forall n :: n in k <==> n in names && n in mats
  {
    if names == [] then []
    else
      var last := names[|names| - 1];
      Kept(names[..|names| - 1], mats) + (if last in mats then [last] else [])
  }

  /** The first material among `ns` that carries `id`: the one whose name stands for that ID. */
  function Rep(ns: seq<string>, mats: map<string, Option<int>>, id: int): (r: string)
    requires HasIDs(ns, mats) && id in IDsOf(ns, mats)
    ensures r in ns && r in mats && mats[r] == Some(id)
    ensures exists j :: 0 <= j < |ns| && ns[j] == r && forall i :: 0 <= i < j ==> mats[ns[i]] != Some(id)
  {
    var ids := IDsOf(ns, mats);
    var j := FirstIndex(ids, id);
    assert forall i :: 0 <= i < j ==> ids[i] == ids[..j][i];
    ns[j]
  }

  /** The IDs of one more material are the old IDs followed by its own. */
  lemma IDsOfSnoc(ns: seq<string>, n: string, mats: map<string, Option<int>>)
    requires HasIDs(ns, mats) && n in mats && mats[n].Some?
    ensures HasIDs(ns + [n], mats) && IDsOf(ns + [n], mats) == IDsOf(ns, mats) + [mats[n].value]
  {
    assert forall i :: 0 <= i < |ns| ==> (ns + [n])[i] == ns[i];
  }

  /** IDs and representatives depend only on the listed materials. */
  lemma IDsOfFrame(ns: seq<string>, m1: map<string, Option<int>>, m2: map<string, Option<int>>)
    requires HasIDs(ns, m1)
    requires forall i :: 0 <= i < |ns| ==> ns[i] in m2 && m2[ns[i]] == m1[ns[i]]
    ensures HasIDs(ns, m2) && IDsOf(ns, m2) == IDsOf(ns, m1)
    ensures forall x :: x in IDsOf(ns, m1) ==> Rep(ns, m2, x) == Rep(ns, m1, x)
  {
  }

  /** A material added at the end does not change the representative of an ID already present. */
  lemma RepSnoc(ns: seq<string>, n: string, mats: map<string, Option<int>>, x: int)
    requires HasIDs(ns, mats) && n in mats && mats[n].Some?
    requires x in IDsOf(ns, mats)
    ensures HasIDs(ns + [n], mats) && x in IDsOf(ns + [n], mats)
    ensures Rep(ns + [n], mats, x) == Rep(ns, mats, x)
  {
    IDsOfSnoc(ns, n, mats);
    FirstIndexInPrefix(IDsOf(ns, mats), mats[n].value, x);
    assert (ns + [n])[FirstIndex(IDsOf(ns, mats), x)] == ns[FirstIndex(IDsOf(ns, mats), x)];
  }

  /** A material whose ID is new is that ID's representative. */
  lemma RepOfNew(ns: seq<string>, n: string, mats: map<string, Option<int>>)
    requires HasIDs(ns, mats) && n in mats && mats[n].Some?
    requires mats[n].value !in IDsOf(ns, mats)
    ensures HasIDs(ns + [n], mats) && mats[n].value in IDsOf(ns + [n], mats)
    ensures Rep(ns + [n], mats, mats[n].value) == n
  {
    IDsOfSnoc(ns, n, mats);
    FirstIndexOfNew(IDsOf(ns, mats), mats[n].value);
  }

  /** The representatives of the given IDs, in the same order. */
  function RepsOf(ns: seq<string>, mats: map<string, Option<int>>, ids: seq<int>): (reps: seq<string>)
    requires HasIDs(ns, mats) && forall i :: 0 <= i < |ids| ==> ids[i] in IDsOf(ns, mats)
    ensures HasIDs(reps, mats) && IDsOf(reps, mats) == ids
  {
    seq(|ids|, i requires 0 <= i < |ids| => Rep(ns, mats, ids[i]))
  }

  /** The representatives of one more ID are the old ones followed by its own. */
  lemma RepsSnoc(ns: seq<string>, mats: map<string, Option<int>>, ids: seq<int>, x: int)
    requires FromNames(ns, mats, ids + [x])
    ensures FromNames(ns, mats, ids) && x in IDsOf(ns, mats)
    ensures RepsOf(ns, mats, ids + [x]) == RepsOf(ns, mats, ids) + [Rep(ns, mats, x)]
  {
    assert forall j :: 0 <= j < |ids| ==> ids[j] == (ids + [x])[j];
    assert (ids + [x])[|ids|] == x;
  }

  /** An ID that stays on its material stays in use. */
  lemma UsedIDStays(m1: map<string, Option<int>>, m2: map<string, Option<int>>, u: int)
    requires u in UsedIDs(m1) && u != 0
    requires forall n :: n in m1 && !NeedsID(m1[n]) ==> n in m2 && m2[n] == m1[n]
    ensures u in UsedIDs(m2)
  {
    var o :| o in m1.Values && o.Some? && o.value == u;
    var n :| n in m1 && m1[n] == o;
    assert m2[n] in m2.Values;
  }

  /**
   * How the materials `kept` so far stand against the scene `orig` they started from:
   * each has a non-zero ID; a material not among them, or one whose ID was already
   * good, still has its old ID; and the IDs given out are new and pairwise distinct.
   */
  predicate Allocated(orig: map<string, Option<int>>, cur: map<string, Option<int>>, kept: seq<string>) {
    && cur.Keys == orig.Keys
    && HasIDs(kept, cur)
    && (forall j :: 0 <= j < |kept| ==> cur[kept[j]].value != 0)
    && (forall n :: n in orig && (n !in kept || !NeedsID(orig[n])) ==> cur[n] == orig[n])
    && (forall n :: n in kept && NeedsID(orig[n]) ==> cur[n].value !in UsedIDs(orig))
    && (forall n1, n2 ::
          (n1 in kept && n2 in kept && n1 != n2 && NeedsID(orig[n1]) && NeedsID(orig[n2])) ==>
          cur[n1] != cur[n2])
  }

  /**
   * `mtlIDs` lists the IDs of `kept` once each, in order of first appearance, and
   * `dict` maps each of them to a list led by its representative.
   */
  predicate Grouping(cur: map<string, Option<int>>, kept: seq<string>, mtlIDs: seq<int>, dict: map<int, seq<string>>)
    requires HasIDs(kept, cur)
  {
    && mtlIDs == Dedup(IDsOf(kept, cur))
    && (forall j :: 0 <= j < |mtlIDs| ==> mtlIDs[j] in IDsOf(kept, cur))
    && (forall j :: 0 <= j < |mtlIDs| ==>
          mtlIDs[j] in dict && |dict[mtlIDs[j]]| > 0 && dict[mtlIDs[j]][0] == Rep(kept, cur, mtlIDs[j]))
  }

  /** Every material of `ns` has an ID, and every ID of `ids` is one of theirs. */
  predicate FromNames(ns: seq<string>, mats: map<string, Option<int>>, ids: seq<int>) {
    HasIDs(ns, mats) && forall j :: 0 <= j < |ids| ==> ids[j] in IDsOf(ns, mats)
  }

  /** One step of `makeMtlMatte`'s first loop: `name` has been given `id`, taking `before` to `after`. */
  lemma AllocatedStep(orig: map<string, Option<int>>, before: map<string, Option<int>>, after: map<string, Option<int>>,
                      kept: seq<string>, name: string, id: int)
    requires Allocated(orig, before, kept) && name in before && id != 0
    requires !NeedsID(before[name]) ==> id == before[name].value && after == before
    requires NeedsID(before[name]) ==> after == before[name := Some(id)] && id !in UsedIDs(before)
    ensures after[name] == Some(id)
    ensures Allocated(orig, after, kept + [name])
    ensures forall j :: 0 <= j < |kept| ==> after[kept[j]] == before[kept[j]]
  {
    var k2 := kept + [name];
    if NeedsID(before[name]) {
      assert name !in kept;
      assert before[name] == orig[name];
      forall j | 0 <= j < |kept| ensures after[kept[j]] == before[kept[j]] {
        assert kept[j] in kept;
      }
      forall n | n in k2 && NeedsID(orig[n]) ensures after[n].value !in UsedIDs(orig) {
        if n == name && id in UsedIDs(orig) {
          UsedIDStays(orig, before, id);
        }
      }
      forall n1, n2 | n1 in k2 && n2 in k2 && n1 != n2 && NeedsID(orig[n1]) && NeedsID(orig[n2])
        ensures after[n1] != after[n2]
      {
        if n1 == name {
          assert before[n2] in before.Values;
        } else if n2 == name {
          assert before[n1] in before.Values;
        }
      }
    }
    forall j | 0 <= j < |k2| ensures k2[j] in after && after[k2[j]].Some? && after[k2[j]].value != 0 {
      if j < |kept| {
        assert k2[j] == kept[j];
      }
    }
  }

  /** The grouping depends only on the IDs of the listed materials. */
  lemma GroupingFrame(before: map<string, Option<int>>, after: map<string, Option<int>>,
                      kept: seq<string>, mtlIDs: seq<int>, dict: map<int, seq<string>>)
    requires HasIDs(kept, before) && Grouping(before, kept, mtlIDs, dict)
    requires forall j :: 0 <= j < |kept| ==> kept[j] in after && after[kept[j]] == before[kept[j]]
    ensures HasIDs(kept, after) && Grouping(after, kept, mtlIDs, dict)
  {
    IDsOfFrame(kept, before, after);
  }

  /** A material whose ID is already listed is appended to that ID's list. */
  lemma GroupingSeen(mats: map<string, Option<int>>, kept: seq<string>, name: string,
                     mtlIDs: seq<int>, dict: map<int, seq<string>>)
    requires HasIDs(kept, mats) && Grouping(mats, kept, mtlIDs, dict)
    requires name in mats && mats[name].Some? && mats[name].value in mtlIDs
    ensures HasIDs(kept + [name], mats)
    ensures Grouping(mats, kept + [name], mtlIDs, dict[mats[name].value := dict[mats[name].value] + [name]])
  {
    var id := mats[name].value;
    var ids := IDsOf(kept, mats);
    IDsOfSnoc(kept, name, mats);
    DedupElements(ids);
    DedupSnoc(ids, id);
    var k2 := kept + [name];
    forall j | 0 <= j < |mtlIDs| ensures mtlIDs[j] in IDsOf(k2, mats) && Rep(k2, mats, mtlIDs[j]) == Rep(kept, mats, mtlIDs[j]) {
      RepSnoc(kept, name, mats, mtlIDs[j]);
    }
  }

  /** A material with a new ID starts that ID's list and is its representative. */
  lemma GroupingNew(mats: map<string, Option<int>>, kept: seq<string>, name: string,
                    mtlIDs: seq<int>, dict: map<int, seq<string>>)
    requires HasIDs(kept, mats) && Grouping(mats, kept, mtlIDs, dict)
    requires name in mats && mats[name].Some? && mats[name].value !in mtlIDs
    ensures HasIDs(kept + [name], mats)
    ensures Grouping(mats, kept + [name], mtlIDs + [mats[name].value], dict[mats[name].value := [name]])
  {
    var id := mats[name].value;
    var ids := IDsOf(kept, mats);
    IDsOfSnoc(kept, name, mats);
    DedupElements(ids);
    DedupSnoc(ids, id);
    var k2 := kept + [name];
    var m2, d2 := mtlIDs + [id], dict[id := [name]];
    assert m2 == Dedup(IDsOf(k2, mats));
    RepOfNew(kept, name, mats);
    forall j | 0 <= j < |m2|
      ensures m2[j] in IDsOf(k2, mats) && m2[j] in d2 && |d2[m2[j]]| > 0 && d2[m2[j]][0] == Rep(k2, mats, m2[j])
    {
      if j < |mtlIDs| {
        assert m2[j] == mtlIDs[j] != id;
        RepSnoc(kept, name, mats, mtlIDs[j]);
      }
    }
  }

  /** The node called `name`: the first matte with that node name, if any. */
  function FindMatte(ms: seq<Matte>, name: string): (r: Option<nat>)
    ensures r.Some? ==> r.value < |ms| && ms[r.value].node == name &&
                        forall j :: 0 <= j < r.value ==> ms[j].node != name
    ensures r.None? ==> forall j :: 0 <= j < |ms| ==> ms[j].node != name
  {
    if ms == [] then None
    else if ms[0].node == name then Some(0)
    else match FindMatte(ms[1..], name)
      case None => None
      case Some(i) => Some(i + 1)
  }

  /**
   * `setMatteMaterialID`'s writes on a matte: red, green and blue take `int()` of the
   * first, second and third text in turn; the first text that is missing or not a
   * number raises and stops the writes, leaving the later channels as they were.
   */
  function WithChannels(m: Matte, ids: seq<string>): (r: Matte)
    ensures r.node == m.node && r.title == m.title && r.useMtlID == m.useMtlID
  {
    Write(m, Cell(ids, 0), Cell(ids, 1), Cell(ids, 2))
  }

  /** `int(ids[i])`, or `None` for the `IndexError` or `ValueError` it raises. */
  function Cell(ids: seq<string>, i: nat): Option<int> {
    if i < |ids| then ParseInt(ids[i]) else None
  }

  /** Red, green and blue written in turn, stopping at the first value that failed. */
  function Write(m: Matte, red: Option<int>, green: Option<int>, blue: Option<int>): Matte {
    if red.None? then m
    else if green.None? then m.(red := red.value)
    else if blue.None? then m.(red := red.value, green := green.value)
    else m.(red := red.value, green := green.value, blue := blue.value)
  }

  /** What `matteToMtlID` reports for a matte: its three IDs, or `None` for one that does not use material IDs. */
  function Channels(m: Matte): Option<seq<int>> {
    if m.useMtlID then Some([m.red, m.green, m.blue]) else None
  }

  /** Writing the decimal texts of three IDs on a material matte reads back as those IDs. */
  lemma ChannelsRoundTrip(m: Matte, r: int, g: int, b: int)
    requires m.useMtlID
    ensures Channels(WithChannels(m, [IntToStr(r), IntToStr(g), IntToStr(b)])) == Some([r, g, b])
  {
    ParseIntOfIntToStr(r);
    ParseIntOfIntToStr(g);
    ParseIntOfIntToStr(b);
  }

  /** The materials of a mesh's shading engines, each with its ID (`None` when the attribute is absent). */
  type Shader = (string, Option<int>)

  /** The materials, in order, whose ID is `id`. */
  function NamesWith(shaders: seq<Shader>, id: Option<int>): (r: seq<string>)
    ensures forall n :: n in r <==> exists i :: 0 <= i < |shaders| && shaders[i] == (n, id)
    ensures (forall i :: 0 <= i < |shaders| ==> shaders[i].1 != id) ==> r == []
  {
    if shaders == [] then []
    else
      var p := shaders[..|shaders| - 1];
      var x := shaders[|shaders| - 1];
      assert forall i :: 0 <= i < |p| ==> p[i] == shaders[i];
      NamesWith(p, id) + (if x.1 == id then [x.0] else [])
  }

  /** Some one of the first `i` shaders carries `id`. */
  ghost predicate Met(shaders: seq<Shader>, i: nat, id: Option<int>)
    requires i <= |shaders|
  {
    exists j :: 0 <= j < i && shaders[j].1 == id
  }

  /** `matls` is the bucket dictionary of the first `i` shaders. */
  ghost predicate Grouped(shaders: seq<Shader>, i: nat, matls: map<Option<int>, seq<string>>)
    requires i <= |shaders|
  {
    && (forall id :: id in matls <==> Met(shaders, i, id))
    && (forall id :: id in matls ==> matls[id] == Dedup(NamesWith(shaders[..i], id)))
  }

  /**
   * The bucket dictionary of `materials_helper`: each ID met maps to the materials
   * carrying it, in the order met, each listed once.
   */
  method GroupByID(shaders: seq<Shader>) returns (matls: map<Option<int>, seq<string>>)
    ensures forall id :: id in matls <==> exists i :: 0 <= i < |shaders| && shaders[i].1 == id
    ensures forall id :: id in matls ==> matls[id] == Dedup(NamesWith(shaders, id))
  {
    matls := map[];
    for i := 0 to |shaders|
      invariant Grouped(shaders, i, matls)
    {
      matls := AddShader(shaders, i, matls);
    }
    GroupedAll(shaders, matls);
  }

  /** The bucket dictionary of every shader is the one the whole list asks for. */
  lemma GroupedAll(shaders: seq<Shader>, matls: map<Option<int>, seq<string>>)
    requires Grouped(shaders, |shaders|, matls)
    ensures forall id :: id in matls <==> exists i :: 0 <= i < |shaders| && shaders[i].1 == id
    ensures forall id :: id in matls ==> matls[id] == Dedup(NamesWith(shaders, id))
  {
    assert shaders[..|shaders|] == shaders;
  }

  /** The loop body of `GroupByID`: the shader's material joins its ID's bucket unless it is there already. */
  method AddShader(shaders: seq<Shader>, i: nat, matls: map<Option<int>, seq<string>>)
    returns (after: map<Option<int>, seq<string>>)
    requires i < |shaders| && Grouped(shaders, i, matls)
    ensures Grouped(shaders, i + 1, after)
  {
    var (material, id) := shaders[i];
    if id !in matls {
      after := matls[id := [material]];
    } else if material !in matls[id] {
      after := matls[id := matls[id] + [material]];
    } else {
      after := matls;
    }
    GroupStep(shaders, i, matls, after);
  }

  /** One more shader keeps the dictionary the bucket dictionary of the longer prefix. */
  lemma GroupStep(shaders: seq<Shader>, i: nat, matls: map<Option<int>, seq<string>>, after: map<Option<int>, seq<string>>)
    requires i < |shaders| && Grouped(shaders, i, matls)
    requires var (material, id) := shaders[i];
             after == if id !in matls then matls[id := [material]]
                      else if material !in matls[id] then matls[id := matls[id] + [material]]
                      else matls
    ensures Grouped(shaders, i + 1, after)
  {
    var (material, id) := shaders[i];
    BucketedIsAppendNew(matls, id, material, after);
    GroupNext(shaders, i, matls, after);
  }

  /** The three branches of the bucket update are one `AppendNew` on the ID's bucket. */
  lemma BucketedIsAppendNew(matls: map<Option<int>, seq<string>>, id: Option<int>, material: string,
                            after: map<Option<int>, seq<string>>)
    requires after == if id !in matls then matls[id := [material]]
                      else if material !in matls[id] then matls[id := matls[id] + [material]]
                      else matls
    ensures after == if id !in matls then matls[id := [material]] else matls[id := AppendNew(matls[id], material)]
  {
    if id in matls && material in matls[id] {
      SameMap(matls[id := AppendNew(matls[id], material)], matls);
    }
  }

  /** The `AppendNew` update keeps the dictionary the bucket dictionary of the longer prefix. */
  lemma GroupNext(shaders: seq<Shader>, i: nat, matls: map<Option<int>, seq<string>>, next: map<Option<int>, seq<string>>)
    requires i < |shaders| && Grouped(shaders, i, matls)
    requires next == if shaders[i].1 !in matls then matls[shaders[i].1 := [shaders[i].0]]
                     else matls[shaders[i].1 := AppendNew(matls[shaders[i].1], shaders[i].0)]
    ensures Grouped(shaders, i + 1, next)
  {
    GroupStepValues(shaders, i, matls, next);
    GroupStepKeys(shaders, i, matls, next.Keys);
  }

  /** The IDs met in one more shader: the ones met before and the new shader's. */
  lemma GroupStepKeys(shaders: seq<Shader>, i: nat, matls: map<Option<int>, seq<string>>, keys: set<Option<int>>)
    requires i < |shaders| && forall id :: id in matls <==> Met(shaders, i, id)
    requires keys == matls.Keys + {shaders[i].1}
    ensures forall id :: id in keys <==> Met(shaders, i + 1, id)
  {
    forall k ensures k in keys <==> Met(shaders, i + 1, k) {
      if k == shaders[i].1 {
        assert shaders[i].1 == k;
      }
    }
  }

  lemma GroupStepValues(shaders: seq<Shader>, i: nat, matls: map<Option<int>, seq<string>>,
                        next: map<Option<int>, seq<string>>)
    requires i < |shaders| && Grouped(shaders, i, matls)
    requires next == if shaders[i].1 !in matls then matls[shaders[i].1 := [shaders[i].0]]
                     else matls[shaders[i].1 := AppendNew(matls[shaders[i].1], shaders[i].0)]
    ensures forall k :: k in next ==> next[k] == Dedup(NamesWith(shaders[..i + 1], k))
  {
    var (material, id) := shaders[i];
    var p, q := shaders[..i], shaders[..i + 1];
    NamesWithSnoc(shaders, i);
    forall k | k in next ensures next[k] == Dedup(NamesWith(q, k)) {
      if k == id {
        DedupSnoc(NamesWith(p, id), material);
        if id !in matls {
          forall j | 0 <= j < |p| ensures p[j].1 != id {
            assert p[j] == shaders[j];
          }
          assert NamesWith(p, id) == [];
        }
      } else {
        assert NamesWith(q, k) == NamesWith(p, k);
      }
    }
  }

  lemma NamesWithSnoc(shaders: seq<Shader>, i: nat)
    requires i < |shaders|
    ensures forall k :: NamesWith(shaders[..i + 1], k) ==
              NamesWith(shaders[..i], k) + (if shaders[i].1 == k then [shaders[i].0] else [])
  {
    assert shaders[..i + 1][..i] == shaders[..i];
  }

  /** A matte that uses material IDs lists `x` when one of its channels holds it. */
  predicate Matches(m: Matte, x: Option<int>) {
    m.useMtlID && x.Some? && (x.value == m.green || x.value == m.red || x.value == m.blue)
  }

  function Listed(used: map<string, seq<Option<int>>>, name: string): seq<Option<int>> {
    if name in used then used[name] else []
  }

  /** One matte's pass over the IDs in `mtlToMatte`, on top of the dictionary built so far. */
  function AddMatches(acc: map<string, seq<Option<int>>>, m: Matte, ids: seq<Option<int>>): map<string, seq<Option<int>>>
  {
    if ids == [] then acc
    else
      var before := AddMatches(acc, m, ids[..|ids| - 1]);
      var x := ids[|ids| - 1];
      if Matches(m, x) then before[m.title := AppendNew(Listed(before, m.title), x)] else before
  }

  /** `mtlToMatte(ids)` over the multimattes `ms`, in order. */
  function UsedMattes(ms: seq<Matte>, ids: seq<Option<int>>): map<string, seq<Option<int>>>
  {
    if ms == [] then map[] else AddMatches(UsedMattes(ms[..|ms| - 1], ids), ms[|ms| - 1], ids)
  }

  /** Some matte among `ms` named `name` has `x` in one of its channels. */
  predicate MatchedBy(ms: seq<Matte>, name: string, x: Option<int>) {
    exists i :: 0 <= i < |ms| && ms[i].title == name && Matches(ms[i], x)
  }

  lemma {:induction false} NoMatches(acc: map<string, seq<Option<int>>>, m: Matte, ids: seq<Option<int>>)
    requires !m.useMtlID
    ensures AddMatches(acc, m, ids) == acc
  {
    if ids != [] {
      NoMatches(acc, m, ids[..|ids| - 1]);
    }
  }

  lemma {:induction false} AddMatchesContents(acc: map<string, seq<Option<int>>>, m: Matte, ids: seq<Option<int>>, name: string)
    requires NoDup(Listed(acc, name))
    ensures name in AddMatches(acc, m, ids) <==> name in acc || (m.title == name && exists j :: 0 <= j < |ids| && Matches(m, ids[j]))
    ensures NoDup(Listed(AddMatches(acc, m, ids), name))
    ensures forall x :: x in Listed(AddMatches(acc, m, ids), name) <==>
              x in Listed(acc, name) || (m.title == name && x in ids && Matches(m, x))
  {
    if ids != [] {
      var p := ids[..|ids| - 1];
      AddMatchesContents(acc, m, p, name);
      assert ids == p + [ids[|ids| - 1]];
    }
  }

  /**
   * `mtlToMatte`: a matte name is a key exactly when one of its material mattes holds
   * one of the given IDs, and its list holds exactly those IDs, each once.
   */
  lemma {:induction false} UsedMattesContents(ms: seq<Matte>, ids: seq<Option<int>>, name: string)
    ensures name in UsedMattes(ms, ids) <==> exists j :: 0 <= j < |ids| && MatchedBy(ms, name, ids[j])
    ensures NoDup(Listed(UsedMattes(ms, ids), name))
    ensures forall x :: x in Listed(UsedMattes(ms, ids), name) <==> x in ids && MatchedBy(ms, name, x)
  {
    if ms != [] {
      var p := ms[..|ms| - 1];
      var m := ms[|ms| - 1];
      UsedMattesContents(p, ids, name);
      AddMatchesContents(UsedMattes(p, ids), m, ids, name);
      forall x ensures MatchedBy(ms, name, x) <==> MatchedBy(p, name, x) || (m.title == name && Matches(m, x)) {
        if MatchedBy(ms, name, x) {
          var i :| 0 <= i < |ms| && ms[i].title == name && Matches(ms[i], x);
          if i < |p| {
            assert p[i] == ms[i];
          }
        }
        if MatchedBy(p, name, x) {
          var i :| 0 <= i < |p| && p[i].title == name && Matches(p[i], x);
          assert ms[i] == p[i];
        }
        if m.title == name && Matches(m, x) {
          assert ms[|ms| - 1] == m;
        }
      }
    }
  }

  class Scene {
    /** Material node name to its `vrayMaterialId`: `None` while the attribute has not been added. */
    var materials: map<string, Option<int>>
    /** The multimatte render elements; a matte is named by its position here. */
    var mattes: seq<Matte>
    /** The undo-chunk events issued so far. */
    var undoLog: seq<UndoEvent>
    /** The node `vrayAddRenderElement MultiMatteElement` creates, with the host's defaults. */
    const blank: Matte
    /** The host's rename of a node: the name it ends up with, or `None` when the host raises. */
    const rename: (string, string) -> Option<string>

    constructor (materials: map<string, Option<int>>, mattes: seq<Matte>, blank: Matte,
                 rename: (string, string) -> Option<string>)
      ensures this.materials == materials && this.mattes == mattes && undoLog == []
      ensures this.blank == blank && this.rename == rename
    {
      this.materials := materials;
      this.mattes := mattes;
      this.undoLog := [];
      this.blank := blank;
      this.rename := rename;
    }

    /** The decorator's entry: `pc.undoInfo(openChunk=True)` when `chunkOpen` is `True`. */
    method Begin(key: ChunkKey)
      modifies this`undoLog
      ensures undoLog == old(undoLog) + Before(key)
    {
      if key == OpenKey {
        undoLog := undoLog + [OpenChunk];
      }
    }

    /** The decorator's `finally`: `pc.undoInfo(closeChunk=True)` when `chunkOpen` is `False`. */
    method End(key: ChunkKey)
      modifies this`undoLog
      ensures undoLog == old(undoLog) + After(key)
    {
      if key == CloseKey {
        undoLog := undoLog + [CloseChunk];
      }
    }

    /** The loop over the scene's materials that gathers the IDs in use, and their `max()` when there is one. */
    method CollectIDs() returns (used: set<int>, top: Option<int>)
      ensures used == UsedIDs(materials)
      ensures top.None? <==> used == {}
      ensures top.Some? ==> top.value in used && forall u :: u in used ==> u <= top.value
    {
      used, top := {}, None;
      var seen: set<string> := {};
      while seen != materials.Keys
        invariant seen <= materials.Keys
        invariant forall u :: u in used ==> u in UsedIDs(materials)
        invariant forall n :: n in seen && materials[n].Some? ==> materials[n].value in used
        invariant top.None? <==> used == {}
        invariant top.Some? ==> top.value in used && forall u :: u in used ==> u <= top.value
        decreases materials.Keys - seen
      {
        SomeLeft(materials.Keys, seen);
        var n :| n in materials.Keys && n !in seen;
        if materials[n].Some? {
          var id := materials[n].value;
          assert materials[n] in materials.Values;
          used := used + {id};
          if top.None? || top.value < id {
            top := Some(id);
          }
        }
        seen := seen + {n};
      }
      forall u ensures u in used <==> u in UsedIDs(materials) {
        if u in UsedIDs(materials) {
          var o :| o in materials.Values && o.Some? && o.value == u;
          var n :| n in materials && materials[n] == o;
        }
      }
      SameSet(used, UsedIDs(materials));
    }

    /**
     * `getLowestUniqueID(includeZero)`: some ID from `start .. max(used) + 1` that no
     * material uses, where `start` is 1 unless 0 is allowed. `None` stands for the
     * exception raised when no material has an ID (`max` of an empty set) or when that
     * range is empty (`pop` of an empty set).
     */
    method LowestUniqueID(includeZero: bool) returns (r: Option<int>)
      ensures r.Some? <==> exists u :: u in UsedIDs(materials) && (if includeZero then 0 else 1) <= u + 1
      ensures r.Some? ==> r.value !in UsedIDs(materials) && (if includeZero then 0 else 1) <= r.value
      ensures r.Some? ==> exists u :: u in UsedIDs(materials) && r.value <= u + 1
    {
      var used, top := CollectIDs();
      if top.None? {
        return None;
      }
      var start := if includeZero then 0 else 1;
      if top.value + 2 <= start {
        return None;
      }
      // `set(range(start, top + 2)).difference(used).pop()`: any member of that set
      assert top.value + 1 !in used;
      var id :| start <= id < top.value + 2 && id !in used;
      r := Some(id);
    }

    /**
     * `getMaterialID(mtl, createNewID)` under the decorator. `None` is what the caller
     * gets for a name that is not a material (the error is swallowed), and for a
     * material without the attribute when no ID is to be created. With `createNewID`,
     * the attribute is added (default 0) and then set to a fresh ID.
     */
    method GetMaterialID(mtl: string, createNewID: bool, key: ChunkKey) returns (r: Option<int>)
      modifies this`materials, this`undoLog
      ensures undoLog == old(undoLog) + Bracket(key)
      ensures mtl !in old(materials) ==> r == None && materials == old(materials)
      ensures mtl in old(materials) && (old(materials)[mtl].Some? || !createNewID) ==>
                r == old(materials)[mtl] && materials == old(materials)
      ensures mtl in old(materials) && old(materials)[mtl].None? && createNewID ==>
                r.Some? && materials == old(materials)[mtl := r] &&
                r.value >= 1 && r.value !in UsedIDs(old(materials)) &&
                exists u :: u in UsedIDs(old(materials)) + {0} && r.value <= u + 1
    {
      Begin(key);
      if mtl !in materials {
        r := None;
      } else if materials[mtl].Some? || !createNewID {
        r := materials[mtl];
      } else {
        ghost var before := materials;
        materials := materials[mtl := Some(0)];
        var id := LowestUniqueID(false);
        assert 0 in UsedIDs(materials) by {
          assert materials[mtl] in materials.Values;
        }
        UsedIDsAfterSet(before, mtl, 0);
        materials := materials[mtl := Some(id.value)];
        r := Some(id.value);
      }
      End(key);
    }

    /**
     * `_setMaterialID(mtl, newid)` under the decorator: `int(newid)`, with 0 for text
     * that is not a number, is written on the material, adding the attribute if it is
     * missing; a name that is not a material changes nothing (the error is swallowed).
     */
    method SetMaterialID(mtl: string, newid: IdArg, key: ChunkKey)
      modifies this`materials, this`undoLog
      ensures undoLog == old(undoLog) + Bracket(key)
      ensures materials == if mtl in old(materials) then old(materials)[mtl := Some(CoercedID(newid))] else old(materials)
    {
      Begin(key);
      var id := CoercedID(newid);
      if mtl in materials {
        materials := materials[mtl := Some(id)];
      }
      End(key);
    }

    /** `setMaterialID(mtls, newid)` under the decorator: the same ID on every listed material. */
    method SetMaterialIDs(mtls: seq<string>, newid: IdArg, key: ChunkKey)
      modifies this`materials, this`undoLog
      ensures undoLog == old(undoLog) + Bracket(key)
      ensures materials.Keys == old(materials).Keys
      ensures forall n :: n in old(materials) ==>
                materials[n] == if n in mtls then Some(CoercedID(newid)) else old(materials)[n]
    {
      Begin(key);
      var i := 0;
      while i < |mtls|
        invariant 0 <= i <= |mtls|
        invariant undoLog == old(undoLog) + Before(key)
        invariant materials.Keys == old(materials).Keys
        invariant forall n :: n in old(materials) ==>
                    materials[n] == if n in mtls[..i] then Some(CoercedID(newid)) else old(materials)[n]
      {
        assert mtls[..i + 1] == mtls[..i] + [mtls[i]];
        SetMaterialID(mtls[i], newid, NoKey);
        i := i + 1;
      }
      assert mtls[..i] == mtls;
      End(key);
    }

    /** Whether the host accepts the name `_makeMtlMatte` asks for, given the materials' names. */
    predicate Renamed(names: seq<string>) {
      rename(blank.node, MatteName(ShortNames(names))).Some?
    }

    /**
     * The multimatte `_makeMtlMatte` leaves behind for the materials `names` carrying
     * `ids`: a fresh node with material IDs switched on, red from the first ID, green
     * and blue from the second and third when there are that many (the host's defaults
     * otherwise), named after the materials when the host accepts the rename.
     */
    function Built(ids: seq<int>, names: seq<string>): Matte
      requires |ids| > 0
    {
      var m := blank.(useMtlID := true, red := ids[0],
                      green := if |ids| > 1 then ids[1] else blank.green,
                      blue := if |ids| > 2 then ids[2] else blank.blue);
      var renamed := rename(blank.node, MatteName(ShortNames(names)));
      if renamed.Some? then m.(node := renamed.value, title := renamed.value) else m
    }

    /**
     * The loop of `_makeMtlMatte` over its names: each must be a material, and each gets
     * its ID read (or created). It stops at the first name that is not a material.
     */
    method ResolveIDs(names: seq<string>) returns (valid: bool, ids: seq<int>)
      modifies this`materials, this`undoLog
      ensures undoLog == old(undoLog)
      ensures materials.Keys == old(materials).Keys
      ensures forall n :: n in old(materials) && (n !in names || old(materials)[n].Some?) ==>
                materials[n] == old(materials)[n]
      ensures valid <==> forall i :: 0 <= i < |names| ==> names[i] in old(materials)
      ensures valid ==> HasIDs(names, materials) && ids == IDsOf(names, materials)
      ensures HasIDs(names, old(materials)) ==> materials == old(materials)
    {
      ids := [];
      var i := 0;
      while i < |names|
        invariant 0 <= i <= |names|
        invariant undoLog == old(undoLog)
        invariant materials.Keys == old(materials).Keys
        invariant forall n :: n in old(materials) && (n !in names[..i] || old(materials)[n].Some?) ==>
                    materials[n] == old(materials)[n]
        invariant forall j :: 0 <= j < i ==> names[j] in old(materials)
        invariant HasIDs(names[..i], materials) && ids == IDsOf(names[..i], materials)
      {
        if names[i] !in materials {
          return false, ids;
        }
        assert names[..i + 1] == names[..i] + [names[i]];
        var id := GetMaterialID(names[i], true, NoKey);
        ids := ids + [id.value];
        i := i + 1;
      }
      assert names[..i] == names;
      valid := true;
      if HasIDs(names, old(materials)) {
        forall n | n in old(materials) ensures materials[n] == old(materials)[n] {
          if n in names {
            var j :| 0 <= j < |names| && names[j] == n;
          }
        }
        SameMap(materials, old(materials));
      }
    }

    /**
     * The node-making part of `_makeMtlMatte`: the one handle in the new list of
     * multimattes that was not in the old one gets the IDs and is renamed after the
     * materials; the handle is returned unless the rename raised.
     */
    method AddMatte(ids: seq<int>, names: seq<string>) returns (r: Option<nat>)
      requires |ids| > 0
      modifies this`mattes
      ensures mattes == old(mattes) + [Built(ids, names)]
      ensures r == if Renamed(names) then Some(|old(mattes)|) else None
    {
      var prev := Handles(|mattes|);
      mattes := mattes + [blank];
      assert Handles(|mattes|) == prev + [|prev|];
      DifferenceOfExtension(prev, [|prev|]);
      var h := Difference(Handles(|mattes|), prev)[0];
      var m := mattes[h].(useMtlID := true, red := ids[0]);
      if |ids| > 1 {
        m := m.(green := ids[1]);
      }
      if |ids| > 2 {
        m := m.(blue := ids[2]);
      }
      mattes := mattes[h := m];
      var renamed := rename(m.node, MatteName(ShortNames(names)));
      if renamed.None? {
        r := None;
      } else {
        mattes := mattes[h := m.(node := renamed.value, title := renamed.value)];
        r := Some(h);
      }
    }

    /**
     * `_makeMtlMatte(mtlNames)` under the decorator. An empty list or a name that is not
     * a material is an error (result `None`, no matte; IDs already given to earlier
     * names stay). Otherwise every material gets an ID if it had none, one new matte is
     * appended, and its handle is the result unless the rename raised.
     */
    method MakeOneMatte(names: seq<string>, key: ChunkKey) returns (r: Option<nat>)
      modifies this`materials, this`mattes, this`undoLog
      ensures undoLog == old(undoLog) + Bracket(key)
      ensures materials.Keys == old(materials).Keys
      ensures forall n :: n in old(materials) && (n !in names || old(materials)[n].Some?) ==>
                materials[n] == old(materials)[n]
      ensures HasIDs(names, old(materials)) ==> materials == old(materials)
      ensures !(names != [] && forall i :: 0 <= i < |names| ==> names[i] in old(materials)) ==>
                r == None && mattes == old(mattes)
      ensures names != [] && (forall i :: 0 <= i < |names| ==> names[i] in old(materials)) ==>
                HasIDs(names, materials) &&
                mattes == old(mattes) + [Built(IDsOf(names, materials), names)] &&
                r == if Renamed(names) then Some(|old(mattes)|) else None
    {
      Begin(key);
      if names == [] {
        // `pc.error`: no material names
        r := None;
      } else {
        var valid, ids := ResolveIDs(names);
        if !valid {
          // `pc.error`: not a valid material
          r := None;
        } else {
          r := AddMatte(ids, names);
        }
      }
      End(key);
    }

    /**
     * One step of `makeMtlMatte`'s first loop for a material: its ID is read (created if
     * the attribute is missing), and when that is absent or 0 a fresh one is taken from
     * `getLowestUniqueID` and written.
     */
    method ResolveOne(name: string) returns (id: int)
      requires name in materials
      modifies this`materials, this`undoLog
      ensures undoLog == old(undoLog)
      ensures id != 0
      ensures !NeedsID(old(materials)[name]) ==> id == old(materials)[name].value && materials == old(materials)
      ensures NeedsID(old(materials)[name]) ==>
                materials == old(materials)[name := Some(id)] && id !in UsedIDs(old(materials))
    {
      var got := GetMaterialID(name, true, NoKey);
      id := got.value;
      if id == 0 {
        // `not i`: the material says 0
        assert materials[name] in materials.Values;
        assert 0 in UsedIDs(materials);
        var unused := LowestUniqueID(false);
        id := unused.value;
        SetMaterialID(name, IntArg(id), NoKey);
      }
    }


    /** The body of `makeMtlMatte`'s first loop for a name that is a material. */
    method GroupOne(name: string, ghost orig: map<string, Option<int>>, ghost kept: seq<string>,
                    mtlIDs: seq<int>, dict: map<int, seq<string>>)
      returns (mtlIDs': seq<int>, dict': map<int, seq<string>>)
      requires name in materials && Allocated(orig, materials, kept)
      requires Grouping(materials, kept, mtlIDs, dict)
      modifies this`materials, this`undoLog
      ensures undoLog == old(undoLog)
      ensures Allocated(orig, materials, kept + [name])
      ensures Grouping(materials, kept + [name], mtlIDs', dict')
    {
      ghost var before := materials;
      var id := ResolveOne(name);
      AllocatedStep(orig, before, materials, kept, name, id);
      GroupingFrame(before, materials, kept, mtlIDs, dict);
      if id in mtlIDs {
        GroupingSeen(materials, kept, name, mtlIDs, dict);
        mtlIDs', dict' := mtlIDs, dict[id := dict[id] + [name]];
      } else {
        GroupingNew(materials, kept, name, mtlIDs, dict);
        mtlIDs', dict' := mtlIDs + [id], dict[id := [name]];
      }
    }

    /**
     * The first loop of `makeMtlMatte`: names that are not materials are skipped; every
     * other material ends with a non-zero ID; `mtlIDs` lists each ID once, in the order
     * it was first met, and `mtlID_dict` maps it to the names that carry it, the first
     * of them leading. New IDs are written one at a time, so no two materials get the
     * same new ID and none gets an ID that was in use.
     */
    method GroupMaterials(mtlNames: seq<string>) returns (mtlIDs: seq<int>, dict: map<int, seq<string>>)
      modifies this`materials, this`undoLog
      ensures undoLog == old(undoLog)
      ensures Allocated(old(materials), materials, Kept(mtlNames, old(materials)))
      ensures Grouping(materials, Kept(mtlNames, old(materials)), mtlIDs, dict)
    {
      mtlIDs, dict := [], map[];
      ghost var kept: seq<string> := [];
      for i := 0 to |mtlNames|
        invariant undoLog == old(undoLog)
        invariant kept == Kept(mtlNames[..i], old(materials))
        invariant Allocated(old(materials), materials, kept)
        invariant Grouping(materials, kept, mtlIDs, dict)
      {
        kept, mtlIDs, dict := GroupAt(mtlNames, i, old(materials), kept, mtlIDs, dict);
      }
      assert mtlNames[..|mtlNames|] == mtlNames;
    }

    /** One turn of `makeMtlMatte`'s first loop: a name that is not a material is skipped. */
    method GroupAt(mtlNames: seq<string>, i: nat, ghost orig: map<string, Option<int>>, ghost kept: seq<string>,
                   mtlIDs: seq<int>, dict: map<int, seq<string>>)
      returns (ghost kept': seq<string>, mtlIDs': seq<int>, dict': map<int, seq<string>>)
      requires i < |mtlNames| && kept == Kept(mtlNames[..i], orig)
      requires Allocated(orig, materials, kept) && Grouping(materials, kept, mtlIDs, dict)
      modifies this`materials, this`undoLog
      ensures undoLog == old(undoLog)
      ensures kept' == Kept(mtlNames[..i + 1], orig)
      ensures Allocated(orig, materials, kept') && Grouping(materials, kept', mtlIDs', dict')
    {
      var name := mtlNames[i];
      assert mtlNames[..i + 1][..i] == mtlNames[..i];
      if name in materials {
        mtlIDs', dict' := GroupOne(name, orig, kept, mtlIDs, dict);
        kept' := kept + [name];
      } else {
        kept', mtlIDs', dict' := kept, mtlIDs, dict;
      }
    }

    /**
     * Matte `base + k` of `ms` is the one `_makeMtlMatte` makes for the `k`-th group of
     * three IDs, and `r` is what that call returned.
     */
    predicate MadeChunk(kept: seq<string>, mats: map<string, Option<int>>, ids: seq<int>, k: nat,
                        base: nat, ms: seq<Matte>, r: Option<nat>)
      requires FromNames(kept, mats, ids)
      requires k < ChunkCount(|ids|)
    {
      var reps := RepsOf(kept, mats, Chunk(ids, k));
      && base + k < |ms|
      && ms[base + k] == Built(Chunk(ids, k), reps)
      && r == if Renamed(reps) then Some(base + k) else None
    }

    /** One pass of the second loop of `makeMtlMatte`: the `k`-th group's multimatte. */
    method BuildOne(ghost kept: seq<string>, mtlIDs: seq<int>, dict: map<int, seq<string>>, k: nat, ghost base: nat)
      returns (r: Option<nat>)
      requires HasIDs(kept, materials) && Grouping(materials, kept, mtlIDs, dict)
      requires k < ChunkCount(|mtlIDs|) && base + k == |mattes|
      modifies this`materials, this`mattes, this`undoLog
      ensures materials == old(materials) && undoLog == old(undoLog)
      ensures |mattes| == |old(mattes)| + 1 && mattes == old(mattes) + [mattes[|old(mattes)|]]
      ensures MadeChunk(kept, materials, mtlIDs, k, base, mattes, r)
    {
      var mat3 := GroupReps(kept, mtlIDs, dict, k);
      r := MakeOneMatte(mat3, NoKey);
    }

    /** A group's matte stays where it was when more mattes are appended. */
    lemma MadeChunkKept(kept: seq<string>, mats: map<string, Option<int>>, ids: seq<int>, k: nat,
                        base: nat, ms: seq<Matte>, m: Matte, r: Option<nat>)
      requires FromNames(kept, mats, ids)
      requires k < ChunkCount(|ids|)
      requires MadeChunk(kept, mats, ids, k, base, ms, r)
      ensures MadeChunk(kept, mats, ids, k, base, ms + [m], r)
    {
      assert (ms + [m])[base + k] == ms[base + k];
    }

    /** The first `n` groups have their mattes, in order, from position `base` of `ms`. */
    ghost predicate MadeUpTo(kept: seq<string>, mats: map<string, Option<int>>, ids: seq<int>, n: nat,
                             base: nat, ms: seq<Matte>, created: seq<Option<nat>>)
      requires FromNames(kept, mats, ids)
      requires n <= ChunkCount(|ids|)
    {
      && |created| == n && |ms| == base + n
      && forall j :: 0 <= j < n ==> MadeChunk(kept, mats, ids, j, base, ms, created[j])
    }

    /** Appending group `n`'s matte and result extends what the first `n` groups made. */
    lemma MadeUpToSnoc(kept: seq<string>, mats: map<string, Option<int>>, ids: seq<int>, n: nat,
                       base: nat, ms: seq<Matte>, created: seq<Option<nat>>, m: Matte, r: Option<nat>)
      requires FromNames(kept, mats, ids)
      requires n < ChunkCount(|ids|) && MadeUpTo(kept, mats, ids, n, base, ms, created)
      requires MadeChunk(kept, mats, ids, n, base, ms + [m], r)
      ensures MadeUpTo(kept, mats, ids, n + 1, base, ms + [m], created + [r])
    {
      forall j | 0 <= j < n + 1 ensures MadeChunk(kept, mats, ids, j, base, ms + [m], (created + [r])[j]) {
        if j < n {
          MadeChunkKept(kept, mats, ids, j, base, ms, m, created[j]);
          assert (created + [r])[j] == created[j];
        }
      }
    }

    /** The inner loop of `makeMtlMatte`: the leading name of each ID of the `k`-th group. */
    method GroupReps(ghost kept: seq<string>, mtlIDs: seq<int>, dict: map<int, seq<string>>, k: nat)
      returns (mat3: seq<string>)
      requires HasIDs(kept, materials) && Grouping(materials, kept, mtlIDs, dict)
      requires k < ChunkCount(|mtlIDs|)
      ensures mat3 == RepsOf(kept, materials, Chunk(mtlIDs, k))
    {
      mat3 := [];
      var index := 3 * k;
      while index < Min(3 * k + 3, |mtlIDs|)
        invariant 3 * k <= index <= Min(3 * k + 3, |mtlIDs|)
        invariant mat3 == RepsOf(kept, materials, mtlIDs[3 * k..index])
      {
        SliceSnoc(mtlIDs, 3 * k, index);
        RepsSnoc(kept, materials, mtlIDs[3 * k..index], mtlIDs[index]);
        mat3 := mat3 + [dict[mtlIDs[index]][0]];
        index := index + 1;
      }
      assert mtlIDs[3 * k..index] == Chunk(mtlIDs, k);
    }

    /**
     * The second loop of `makeMtlMatte`: each group of three consecutive IDs in
     * `mtlIDs` becomes one call of `_makeMtlMatte` on their representatives, and the
     * results are collected in order.
     */
    method BuildMattes(ghost kept: seq<string>, mtlIDs: seq<int>, dict: map<int, seq<string>>)
      returns (created: seq<Option<nat>>)
      requires HasIDs(kept, materials) && Grouping(materials, kept, mtlIDs, dict)
      modifies this`materials, this`mattes, this`undoLog
      ensures materials == old(materials) && undoLog == old(undoLog)
      ensures |created| == ChunkCount(|mtlIDs|)
      ensures |mattes| == |old(mattes)| + |created| && mattes[..|old(mattes)|] == old(mattes)
      ensures forall k :: 0 <= k < |created| ==>
                MadeChunk(kept, materials, mtlIDs, k, |old(mattes)|, mattes, created[k])
    {
      created := [];
      ghost var mats, base := materials, |mattes|;
      var k := 0;
      while k < ChunkCount(|mtlIDs|)
        invariant 0 <= k <= ChunkCount(|mtlIDs|)
        invariant materials == mats && undoLog == old(undoLog)
        invariant base <= |mattes| && mattes[..base] == old(mattes)
        invariant MadeUpTo(kept, mats, mtlIDs, k, base, mattes, created)
      {
        ghost var prev := mattes;
        var r := BuildOne(kept, mtlIDs, dict, k, base);
        MadeUpToSnoc(kept, mats, mtlIDs, k, base, prev, created, mattes[|prev|], r);
        created := created + [r];
        k := k + 1;
      }
    }

    /**
     * `makeMtlMatte(mtlNames)` under the decorator: one multimatte per group of three
     * IDs, the IDs taken from the materials in order of first appearance, each named by
     * the first material that carries it. Every material named ends with a non-zero
     * ID, and the IDs it hands out are new and distinct.
     */
    method MakeMtlMatte(mtlNames: seq<string>, key: ChunkKey) returns (created: seq<Option<nat>>)
      modifies this`materials, this`mattes, this`undoLog
      ensures undoLog == old(undoLog) + Bracket(key)
      ensures Allocated(old(materials), materials, Kept(mtlNames, old(materials)))
      ensures var kept := Kept(mtlNames, old(materials));
              var ids := Dedup(IDsOf(kept, materials));
              && (forall j :: 0 <= j < |ids| ==> ids[j] in IDsOf(kept, materials))
              && |created| == ChunkCount(|ids|)
              && |mattes| == |old(mattes)| + |created| && mattes[..|old(mattes)|] == old(mattes)
              && forall k :: 0 <= k < |created| ==> MadeChunk(kept, materials, ids, k, |old(mattes)|, mattes, created[k])
    {
      Begin(key);
      ghost var kept := Kept(mtlNames, materials);
      var mtlIDs, dict := GroupMaterials(mtlNames);
      created := BuildMattes(kept, mtlIDs, dict);
      End(key);
    }

    /**
     * `renameMatte(oldName, newName)` under the decorator, for the matte `h`: when the
     * host renames the node, its name attribute follows and the new name is returned;
     * when the rename raises, nothing changes and the old name is returned.
     */
    method RenameMatte(h: nat, newName: string, key: ChunkKey) returns (r: string)
      requires h < |mattes|
      modifies this`mattes, this`undoLog
      ensures undoLog == old(undoLog) + Bracket(key)
      ensures rename(old(mattes)[h].node, newName).None? ==> r == old(mattes)[h].node && mattes == old(mattes)
      ensures rename(old(mattes)[h].node, newName).Some? ==>
                r == rename(old(mattes)[h].node, newName).value &&
                mattes == old(mattes)[h := old(mattes)[h].(node := r, title := r)]
    {
      Begin(key);
      var renamed := rename(mattes[h].node, newName);
      if renamed.None? {
        r := mattes[h].node;
      } else {
        r := renamed.value;
        mattes := mattes[h := mattes[h].(node := r, title := r)];
      }
      End(key);
    }

    /**
     * `setMatteMaterialID(matte, mtlID)` under the decorator: nothing for an empty list
     * or an unknown node; otherwise the channel writes of `WithChannels` on that node.
     */
    method SetMatteMaterialID(name: string, ids: seq<string>, key: ChunkKey)
      modifies this`mattes, this`undoLog
      ensures undoLog == old(undoLog) + Bracket(key)
      ensures ids == [] || FindMatte(old(mattes), name).None? ==> mattes == old(mattes)
      ensures ids != [] && FindMatte(old(mattes), name).Some? ==>
                var h := FindMatte(old(mattes), name).value;
                mattes == old(mattes)[h := WithChannels(old(mattes)[h], ids)]
    {
      Begin(key);
      if ids != [] {
        var found := FindMatte(mattes, name);
        if found.Some? {
          var h := found.value;
          var m := mattes[h];
          var red, green, blue := Cell(ids, 0), Cell(ids, 1), Cell(ids, 2);
          if red.Some? {
            m := m.(red := red.value);
            if green.Some? {
              m := m.(green := green.value);
              if blue.Some? {
                m := m.(blue := blue.value);
              }
            }
          }
          mattes := mattes[h := m];
        }
      }
      End(key);
    }

    /**
     * `matteToMtlID(matte)`: for each named node, its three IDs, or `None` when it does
     * not use material IDs. An unknown node raises (the result is `None`).
     */
    method MatteToMtlID(names: seq<string>) returns (r: Option<map<string, Option<seq<int>>>>)
      ensures r.Some? <==> forall i :: 0 <= i < |names| ==> FindMatte(mattes, names[i]).Some?
      ensures r.Some? ==> forall n :: n in r.value <==> n in names
      ensures r.Some? ==> forall n :: n in r.value ==>
                FindMatte(mattes, n).Some? && r.value[n] == Channels(mattes[FindMatte(mattes, n).value])
    {
      var found: map<string, Option<seq<int>>> := map[];
      var i := 0;
      while i < |names|
        invariant 0 <= i <= |names|
        invariant forall j :: 0 <= j < i ==> FindMatte(mattes, names[j]).Some?
        invariant forall n :: n in found <==> n in names[..i]
        invariant forall n :: n in found ==>
                    FindMatte(mattes, n).Some? && found[n] == Channels(mattes[FindMatte(mattes, n).value])
      {
        var h := FindMatte(mattes, names[i]);
        if h.None? {
          return None;
        }
        var m := mattes[h.value];
        found := found[names[i] := if m.useMtlID then Some([m.red, m.green, m.blue]) else None];
        assert names[..i + 1] == names[..i] + [names[i]];
        i := i + 1;
      }
      assert names[..i] == names;
      r := Some(found);
    }

    /**
     * `mtlToMatte(ids)`: for each multimatte that uses material IDs, the IDs among `ids`
     * it holds in a channel, gathered per matte name.
     */
    method MtlToMatte(ids: seq<Option<int>>) returns (used: map<string, seq<Option<int>>>)
      ensures used == UsedMattes(mattes, ids)
    {
      used := map[];
      var i := 0;
      while i < |mattes|
        invariant 0 <= i <= |mattes|
        invariant used == UsedMattes(mattes[..i], ids)
      {
        var m := mattes[i];
        ghost var start := used;
        if m.useMtlID {
          var j := 0;
          while j < |ids|
            invariant 0 <= j <= |ids|
            invariant used == AddMatches(start, m, ids[..j])
          {
            assert ids[..j + 1][..j] == ids[..j];
            var x := ids[j];
            assert AddMatches(start, m, ids[..j + 1]) ==
              if Matches(m, x) then used[m.title := AppendNew(Listed(used, m.title), x)] else used;
            if x.Some? && (x.value == m.green || x.value == m.red || x.value == m.blue) {
              if m.title !in used {
                assert AppendNew(Listed(used, m.title), x) == [x];
                used := used[m.title := [x]];
              } else if x !in used[m.title] {
                used := used[m.title := used[m.title] + [x]];
              } else {
                SameMap(used[m.title := used[m.title]], used);
              }
            }
            j := j + 1;
          }
          assert ids[..j] == ids;
        } else {
          assert AddMatches(start, m, ids) == start by { NoMatches(start, m, ids); }
        }
        assert mattes[..i + 1][..i] == mattes[..i];
        i := i + 1;
      }
      assert mattes[..i] == mattes;
    }
  }
}
