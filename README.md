# matteWorks panel, modelled in Dafny

matteWorks is a Maya panel for V-Ray material multimattes. It lists the selected
meshes with their materials and each material's `vrayMaterialId`. It lets the
artist edit those IDs, several rows at once. It builds material multimattes, three
material IDs per matte (red, green and blue), and lets the artist edit, rename or
delete the mattes.

This project models the panel's core on an abstract scene. The scene
(`Utilities.Scene`) has three parts:

- the materials, each with its ID, or `None` while the `vrayMaterialId` attribute
  has not been added;
- the multimatte render elements, in creation order, each with its node name,
  material-ID switch, three channel IDs and name attribute;
- the log of undo-chunk events the `undoChunk` decorator issues.

The modules follow the program:

- `Utilities` (`src/utilities.py`):
  - ID reading, writing and allocation (`getMaterialID`, `_setMaterialID`,
    `setMaterialID`, `getLowestUniqueID`);
  - batch matte creation (`makeMtlMatte`, `_makeMtlMatte`) with the matte name
    built from the materials' short names;
  - `renameMatte`, `setMatteMaterialID`, `matteToMtlID` and `mtlToMatte`;
  - the `undoChunk` bracket;
  - the bucket dictionary of `materials_helper`.
- `Seqs`: the list idioms the code relies on:
  - "append if not already in", which keeps the first occurrence of each element;
  - `range(0, n, 3)` groups;
  - `getNewlyCreatedMultiMattes`'s order-preserving difference;
  - `list.index`.
- `PyText`: the Python 2 string behaviour used: `isdigit`, `str(n)`, `int(s)`,
  `split`, `join`.
- `IdCells` (`src/model_item.py`):
  - how a value handed to an ID cell becomes its text (`processMtlID`,
    `textChanged`);
  - which `chunkOpen` flag each row of a multi-row edit gets.
- `Panel`:
  - the `Material` layer (`src/matteWorker.py`), with its cached ID and bound rows;
  - `MtlIDItem`;
  - `MeshItem` with its `mtlNameToID` map and `giveChild`.
- `Models`: the two item models' edit handlers, `MtlModel.changeMtlID` and
  `MatteModel.changeMatteID`.
- `Window`: the GUI's registry rules `populateMaterials`, `addSelection` and
  `deleteSelectedMatte`.

Objects whose fields the code updates in place are classes with `modifies`
clauses: `Scene`, `Material`, `MtlIDItem`, `MeshItem`, the shared `materials`
registry and the GUI. Loops are methods with loop invariants. Each is proved
against a specification function (`Dedup`, `Chunk`, `RepsOf`, `UsedMattes`,
`Displayed`, `Events`, `WriteAll`, …), and the promised properties are lemmas
about those functions.

## Model

| member | source | states |
|---|---|---|
| Utilities.Scene.Begin | src/utilities.py:26-30 | The decorator's entry logs an open only for `chunkOpen=True`. |
| Utilities.Scene.End | src/utilities.py:33-36 | The decorator's `finally` logs a close only for `chunkOpen=False`. |
| Utilities.CoercedIDOfText | src/utilities.py:399-402 | Text that `int()` rejects, including the empty text of a cleared cell, is written as 0; `str(n)` is written as `n`. |
| Utilities.UsedIDsAfterSet | src/utilities.py:435-440 | Giving an ID to a material that had none adds exactly that ID to the IDs in use. |
| Utilities.Scene.CollectIDs | src/utilities.py:218-227 | The loop gathers exactly the IDs the materials carry, and its maximum is one of them and bounds them all. |
| Utilities.Scene.LowestUniqueID | src/utilities.py:210-232 | Returns an ID that no material uses, at least `int(not includeZero)` and at most max+1. It fails (`None`) exactly when no material has an ID or the range is empty. |
| Utilities.Scene.GetMaterialID | src/utilities.py:416-442 | A name that is not a material gives `None` and changes nothing. A stored ID, or a missing one when none is to be created, is returned unchanged. Otherwise the attribute is added and set to a new ID of at least 1 that was not in use. The undo log gets the bracket. |
| Utilities.Scene.SetMaterialID | src/utilities.py:392-414 | The material gets `int(newid)`, or 0 for non-numeric text, added if missing. A name that is not a material changes nothing. |
| Utilities.Scene.SetMaterialIDs | src/utilities.py:382-390 | Every listed material that exists gets the same ID and every other material keeps its own. The whole call is one bracket. |
| Utilities.ShortName | src/utilities.py:296 | The short name has no ':' and no '_'. |
| Utilities.ShortNameDropsNamespace | src/utilities.py:296 | A namespace prefix `ns:` does not change the short name. |
| Utilities.MatteNameParts | src/utilities.py:296-321 | The matte name splits on '_' into the materials' short names followed by "matte". |
| Utilities.Kept | src/utilities.py:242-245 | The names that resolve to materials, and only those. |
| Utilities.Rep | src/utilities.py:251-268 | An ID's representative carries that ID and is the first listed material that does. |
| Utilities.RepsOf | src/utilities.py:266-268 | The representatives of a group of IDs carry exactly those IDs, in order. |
| Utilities.AllocatedStep | src/utilities.py:247-250 | One step of the first loop keeps every material non-zero, gives new IDs that were not in use, and never gives two materials the same new ID. |
| Utilities.GroupingSeen | src/utilities.py:251-252 | A material whose ID is already listed is appended to that ID's list, and `mtlIDs` stays the IDs in first-seen order. |
| Utilities.GroupingNew | src/utilities.py:253-255 | A material with a new ID appends that ID to `mtlIDs` and becomes its representative. |
| Utilities.GroupingFrame | src/utilities.py:247-255 | The grouping depends only on the IDs of the listed materials. |
| Utilities.Scene.ResolveOne | src/utilities.py:247-250 | A material ends with a non-zero ID. An absent or 0 ID is replaced by a fresh one that was not in use, and a good ID is kept. |
| Utilities.Scene.GroupOne | src/utilities.py:243-255 | One pass of the first loop of `makeMtlMatte` keeps the allocation and grouping invariants. |
| Utilities.Scene.GroupAt | src/utilities.py:241-255 | One name of the first loop: a name that is not a material is skipped, and the allocation and grouping invariants move on to the next prefix of the names. |
| Utilities.Scene.GroupMaterials | src/utilities.py:239-255 | Names that are not materials are skipped and every kept material has a non-zero ID. New IDs are distinct and were unused. `mtlIDs` is each ID once in first-seen order, and its dict entry is led by its first material. |
| Utilities.Scene.GroupReps | src/utilities.py:266-268 | `mat3` is the representatives of the IDs of group `k`. |
| Utilities.Scene.BuildOne | src/utilities.py:266-269 | Group `k` gets one matte appended and its result recorded. |
| Utilities.Scene.BuildMattes | src/utilities.py:262-271 | Exactly ceil(n/3) mattes are appended in order. Matte `k` is built from group `k`'s IDs and representatives, and the results are returned in creation order. |
| Utilities.Scene.ResolveIDs | src/utilities.py:289-301 | The loop is valid exactly when every name is a material. Its IDs are then those of the names in order, and materials that already had an ID keep it. |
| Utilities.Scene.AddMatte | src/utilities.py:304-323 | Exactly one matte is appended, with material IDs on, red from the first ID, green and blue only when there are that many IDs, and node and name attribute equal to what the rename returned. The handle is returned unless the rename raised. |
| Utilities.Scene.MakeOneMatte | src/utilities.py:273-325 | An empty list or a non-material is an error: no matte, result `None`. Otherwise every material has an ID and one matte built from them is appended. The undo log gets the bracket. |
| Utilities.Scene.MakeMtlMatte | src/utilities.py:234-271 | The allocation guarantees of the first loop, and one matte per group of three distinct IDs, in order. |
| Utilities.Scene.RenameMatte | src/utilities.py:453-466 | When the rename raises, the old name is returned and nothing changes. Otherwise the node and its name attribute take the new name, which is returned. |
| Utilities.FindMatte | src/utilities.py:449 | The matte found is the first with that node name, and `None` means there is none. |
| Utilities.WithChannels | src/utilities.py:448-451 | Writing a row's IDs changes only the three channels. |
| Utilities.Scene.SetMatteMaterialID | src/utilities.py:444-451 | An empty list or unknown node changes nothing. Otherwise only that matte's channels are written, stopping at the first text `int()` rejects. |
| Utilities.ChannelsRoundTrip | src/utilities.py:143-148 | IDs written as decimal text read back through `matteToMtlID` as those IDs. |
| Utilities.Scene.MatteToMtlID | src/utilities.py:134-151 | Defined exactly when every name is a node. The keys are then the names, each mapped to its three IDs or to `None` when the matte does not use material IDs. |
| Utilities.UsedMattesContents | src/utilities.py:113-132 | A matte name is a key exactly when one of its material mattes holds a given ID. Its list holds exactly those IDs, each once. |
| Utilities.NoMatches | src/utilities.py:119 | A matte that does not use material IDs adds nothing. |
| Utilities.AddMatchesContents | src/utilities.py:125-131 | One matte's pass adds exactly the given IDs it holds, each once. |
| Utilities.Scene.MtlToMatte | src/utilities.py:103-132 | The nested loops compute `UsedMattes` over the mattes in order. |
| Utilities.NamesWith | src/utilities.py:87-100 | The materials met with an ID are exactly those listed with it. |
| Utilities.GroupByID | src/utilities.py:96-100 | The keys are exactly the IDs met. Each maps to its materials in first-seen order, each once. |
| Utilities.AddShader | src/utilities.py:97-100 | One shader's turn of the loop: the buckets then hold exactly the IDs met so far, each with its materials once, in first-seen order. |
| Utilities.GroupNext | src/utilities.py:96-100 | One more shading engine keeps the dict the bucket dict of the longer prefix. |
| Utilities.BucketedIsAppendNew | src/utilities.py:96-100 | The three branches of the update are "append if not already in" on the ID's list. |
| Seqs.DedupElements | src/utilities.py:251-255 | The collapsed list holds every element exactly once and nothing else. |
| Seqs.DedupFirstSeenOrder | src/utilities.py:251-255 | The collapsed list keeps the order of first occurrence. |
| Seqs.DedupOfNoDup | src/utilities.py:251-255 | Collapsing a list without repeats changes nothing. |
| Seqs.FirstIndex | src/model_item.py:53 | `list.index` is the first position of the element. |
| Seqs.ChunkCount | src/utilities.py:265 | `range(0, n, 3)` has ceil(n/3) elements. |
| Seqs.Chunk | src/utilities.py:265-268 | Group `k` is positions `3k .. min(3k+3, n) - 1`: one to three elements, and exactly three except possibly the last group. |
| Seqs.Chunks | src/utilities.py:265-268 | There are ceil(n/3) groups, in order. |
| Seqs.ChunksCover | src/utilities.py:265-268 | The groups, concatenated, are the whole list. |
| Seqs.Difference | src/utilities.py:327-336 | The difference holds exactly the new elements not in the old list. |
| Seqs.DifferenceAppend | src/utilities.py:336 | The difference keeps the new list's order. |
| Seqs.DifferenceOfExtension | src/utilities.py:306-309 | After appending fresh elements, the difference is exactly what was appended. |
| PyText.NatToStrIsDecimal | src/model_item.py:143 | `str(n)` is a digit string that reads back as `n`, without a leading zero. |
| PyText.ParseIntOfDigits | src/model_item.py:149 | `int` of a digit string is the number it denotes. |
| PyText.ParseIntOfIntToStr | src/utilities.py:400 | `int(str(n)) == n`. |
| PyText.BeforeFirst | src/utilities.py:296 | The text before the first separator is a prefix without the separator. |
| PyText.Split | src/utilities.py:296 | `split` starts with the text before the first separator. |
| PyText.SplitPartsFree | src/utilities.py:296 | No piece of a split contains the separator. |
| PyText.SplitJoin | src/utilities.py:321 | Splitting a join of separator-free pieces gives the pieces back. |
| PyText.JoinSnoc | src/utilities.py:321 | Joining one more piece appends the separator and the piece. |
| PyText.LastPiece | src/utilities.py:296 | `split(sep)[-1]` has no separator, and is the whole text when there is none. |
| PyText.LastPieceDropsPrefix | src/utilities.py:296 | A separator-free leading piece and its separator do not change `split(sep)[-1]`. |
| IdCells.ProcessMtlID | src/model_item.py:142-143 | Empty exactly for 0, `None` or a non-int; otherwise the decimal text, which reads back as the ID. |
| IdCells.Displayed | src/model_item.py:147-150 | The cell ends up empty or showing a non-zero run of digits. |
| IdCells.DisplayedIdempotent | src/model_item.py:147-152 | Handing a cell its own text again changes nothing. |
| IdCells.DisplayedOfID | src/model_item.py:142-150 | A positive ID shows as its decimal text, which reads back as the ID. 0, a negative ID and `None` clear the cell. |
| IdCells.DisplayedOfText | src/model_item.py:149-150 | Text is kept exactly when it is empty or a non-zero run of digits. "0" and non-digit text are cleared. |
| IdCells.ChunkFlag | src/model_item.py:52-54 | A row without `chunkOpen=True` is one whose first position is the last. |
| IdCells.EditRows | src/model_item.py:40-45 | The selected ID rows then the edited row, or nothing when the edited cell is not an ID row. |
| IdCells.NoCloseWhenEditedSelected | src/model_item.py:46-54 | When the edited row is also selected, every row gets `chunkOpen=True`. |
| IdCells.FixedEditRows | src/model_item.py:46 | The de-duplicated rows: each selected row once and the edited row last. The commented-out `set()` fixes no order; putting the edited row last is this model's choice. |
| IdCells.Without | src/model_item.py:46 | Removes exactly the given element. |
| IdCells.FixedEditClosesOnce | src/model_item.py:46-54 | With de-duplicated rows, every row but the last opens and the last closes. |
| IdCells.FirstIndexOfDistinct | src/model_item.py:53 | In a list without repeats, `index` of an element is its position. |
| Panel.Registry.constructor | src/matteWorker.py:271 | The registry starts empty. |
| Panel.Material.constructor | src/matteWorker.py:40-44 | A new material has no bound rows and no cached ID. |
| Panel.Material.AddToMtlItemList | src/matteWorker.py:85-88 | The row is appended to the bound rows. |
| Panel.Material.ChangeID | src/matteWorker.py:55-64 | Without `looping` nothing changes. With it: one undo event as `chunkOpen` says, the text's `int()` (0 for non-numbers) is written, the cache re-reads it, and every bound row shows the requested text. |
| Panel.Material.Store | src/matteWorker.py:58-62 | The write, the re-read into the cache, and the fan-out to every bound row. |
| Panel.Material.ShowAll | src/matteWorker.py:61-62 | Every bound row shows the value. |
| Panel.Material.Refresh | src/matteWorker.py:46-53 | Dead rows are dropped and the others show the stored ID. When some row's text changes, the connected handler's one-row edit writes the ID back once: 0 over a missing or non-positive ID, a positive ID unchanged, with one closing undo event. Otherwise the scene is not written. The cache then equals the stored ID. |
| Panel.Material.UpdateMaterialItems | src/matteWorker.py:66-74 | Exactly the rows whose cell is gone are removed, the others keep their order, and each shows the cached ID. The scene is written back once exactly when some surviving row showed other text. |
| Panel.Material.DropDeadRows | src/matteWorker.py:67-73 | The loop over the copy removes exactly the rows whose cell is gone and keeps the others in order. |
| Panel.Material.EchoAll | src/matteWorker.py:74 | Every row shows the cached ID. The `itemChanged` edit runs exactly when some row's text changes, and only once, because the rows already show the written text afterwards. |
| Panel.Material.EchoOne | src/model_item.py:145-152 | One row is shown the cached ID. It counts as changed exactly when its text differs; then the one-row edit stores the text and every bound row shows it, and the stored ID still shows the same text. |
| Panel.RefreshWrite | src/matteWorker.py:58-60 | Writing back the text a row shows for the stored ID stores 0 over a missing or non-positive ID and leaves a positive ID as it is. |
| Panel.WriteBackID | src/model_item.py:142-150 | The text shown for an ID reads back as that ID when it is positive, and as 0 otherwise. |
| Panel.EchoSettles | src/model_item.py:147-150 | After the write-back the stored ID shows as the same text, so no further row changes. |
| Panel.EchoedTwice | src/matteWorker.py:74 | A write-back followed by no write-back, or the reverse, is one write-back. |
| Panel.AllShowEach | src/matteWorker.py:61-62 | When every row's text in the list is `d`, each bound row shows `d`. |
| Panel.Material.Hide | src/matteWorker.py:79-83 | Every bound row is hidden, with its text and cell unchanged, and the material leaves the registry. `found` is false exactly when it was not registered. |
| Panel.Keep | src/matteWorker.py:67-73 | The surviving rows are among the old ones. |
| Panel.PopFirst | src/matteWorker.py:73 | `pop(index(x))` removes one element. |
| Panel.PopFirstAfter | src/matteWorker.py:73 | The row popped is the one being visited. |
| Panel.KeepStep | src/matteWorker.py:67-73 | One turn of the loop keeps the list equal to the survivors so far followed by the unvisited rows. |
| Panel.MtlIDItem.constructor | src/model_item.py:134-140 | A new row shows `processMtlID(mtlID)` and is appended to its material's bound rows. |
| Panel.MtlIDItem.Show | src/model_item.py:147-150 | The cell shows the normalised value. |
| Panel.MtlIDItem.TextChanged | src/model_item.py:145-152 | The cell shows the normalised value. The material is told to store it exactly when `looping`; otherwise this method writes nothing and no other row changes. The `itemChanged` edit a changed text triggers is `Material.EchoAll`'s. |
| Panel.MtlIDItem.Hide | src/model_item.py:154-155 | The row is hidden. |
| Panel.MtlNameToID | src/model_item.py:96-100 | Every material listed in a bucket is a key, mapped to a bucket that lists it. |
| Panel.MeshItem.constructor | src/model_item.py:91-100 | The mesh row keeps the mesh name, shows its last namespace piece, and holds the material-to-ID map. |
| Panel.MeshItem.GiveChild | src/model_item.py:108-116 | It succeeds exactly when every material is registered, and then makes one row per material. Every row is bound to its registered material and shows its ID, and every material's rows only grow. |
| Panel.MeshItem.MakeRows | src/model_item.py:113-116 | The loop of `giveChild`, with the same guarantees. |
| Panel.MeshItem.AddRow | src/model_item.py:113-116 | One new row is registered on its material, and the rows made before stay bound. |
| Panel.NewRow | src/model_item.py:134-140 | The new row is bound to its material and shows its ID. It is appended to that material's rows, and every row bound before stays bound. |
| Models.Events | src/model_item.py:51-54 | One undo event per row, each as the row's flag says. |
| Models.WriteAllValue | src/model_item.py:51-54 | The writes of an edit give each written material the ID and leave the others alone. |
| Models.MtlNames | src/matteWorker.py:58 | The rows' material names, in order. |
| Models.MtlModel.constructor | src/model_item.py:35-37 | The model works on the scene. |
| Models.MtlModel.ChangeMtlID | src/model_item.py:39-56 | Each row's undo event as its flag says. Every row's material gets the edited text's ID. Every row, and every row bound to their materials, shows the edited text. Each material caches what was written. |
| Models.MtlModel.ChangeMtlIDOnce | src/model_item.py:46-54 | The same edit over the de-duplicated rows. Every row bound to an edited material then shows the new text. |
| Models.MtlModel.ChangeNameCell | src/model_item.py:40-55 | A non-ID cell updates no rows and is cleared. |
| Models.MtlModel.Propagate | src/model_item.py:51-54 | The loop over the rows finishes the edit. |
| Models.MtlModel.ProgressDone | src/model_item.py:51-54 | The loop's invariant at the end is the finished edit. |
| Models.MtlModel.Advance | src/model_item.py:51-54 | One turn of the loop extends the invariant by one row. |
| Models.MtlModel.EditStep | src/model_item.py:52-54 | `row.textChanged(text, chunkOpen)`: one event and one write. The row and its material's rows show the text, and the material re-reads the ID. |
| Models.EditNeverCloses | src/model_item.py:46-54 | When the edited row is selected, every event of the edit opens and none closes. |
| Models.FixedEditEvents | src/model_item.py:46-54 | The de-duplicated edit opens on every row but the last and closes on the last. |
| Models.EditClosesOnceWhenApart | src/model_item.py:51-54 | As written, the edit closes exactly once, last, when the edited row is not selected and no row repeats. |
| Models.MatteRow.constructor | src/model_item.py:75-86 | The matte row shows the node name and `str()` of each channel ID. |
| Models.MatteModel.constructor | src/model_item.py:23-25 | The model works on the scene. |
| Models.MatteModel.ChangeMatteID | src/model_item.py:27-31 | The row's three texts are written on the matte it names, outside any chunk. |
| Models.UneditedRowKeepsMatte | src/model_item.py:27-31 | Writing back a row as first shown leaves its matte unchanged. |
| Models.BadCellStopsWrites | src/utilities.py:448-451 | A cell that `int()` rejects stops the writes there. |
| Window.DeletableMattes | src/matteWorker.py:174-178 | The texts passed to delete are exactly the selected ones that are not digit strings. |
| Window.DeletableIsFilter | src/matteWorker.py:174-178 | The list is the filter of the selection, in order. |
| Window.Gui.constructor | src/matteWorker.py:267-271 | All registries start empty. |
| Window.Gui.PopulateMaterials | src/matteWorker.py:267-275 | A new `Material` exists for each listed name not yet registered. Registered materials are kept with their rows. |
| Window.Gui.AddSelection | src/matteWorker.py:137-151 | Only meshes without a row are scanned. It succeeds exactly when their materials are all registered, and the mesh dicts gain the scanned meshes and keep the others. Each new mesh row holds exactly the materials of its scan, with one ID row per material, bound to the registry's `Material` and showing its ID. The registered materials' row lists only grow. A failure leaves the dicts unchanged. |
| Window.Gui.ScanNew | src/matteWorker.py:141-144 | Exactly the selected meshes without a row are scanned. |
| Window.Gui.MakeMeshItems | src/matteWorker.py:146-148 | A new mesh row for each scanned mesh, or failure exactly when a material is unregistered. Each row made holds exactly the materials of its buckets, and its ID rows are bound to the registry and show their IDs. The materials' row lists only grow. |
| Window.Gui.MakeMeshItem | src/matteWorker.py:147-148 | One new mesh row whose map holds exactly the materials its buckets list, each under an ID that lists it. It succeeds exactly when all of them are registered, and then it has one ID row per material, bound to the registry's `Material` and showing its ID. The materials' row lists only grow, so the rows made before stay bound. |
| Window.Gui.Merge | src/matteWorker.py:150-151 | The two dict merges: new meshes added with the rows made for them, and the others kept. |

## Left out

- Host calls (pymel/Maya) are not modelled. Node resolution (`mayaMaterial`) is
  membership in the scene's materials. Render-element creation appends the host's
  default node, and `pc.rename` is a function given to the scene.
- `pc.delete` and `pc.select` are not modelled. `deleteSelectedMatte` is modelled
  only as the list it passes, and `deleteMattes` is left out for the same reason.
- `pc.warning` is not modelled.
- `undo()` and the host's undo stack are not modelled. Undo chunks are a log of
  open and close events.
- `materials_helper`'s walk over shading-engine connections is not modelled. Its
  result for a mesh is the `scan` function given to the GUI. Only its grouping into
  buckets is modelled (`GroupByID`).
- `getAllMaterials` is not modelled. Its result is the `listed` argument of
  `populateMaterials`.
- Iteration over Python sets and dicts is not modelled in the code's order. Loops
  over the scene's materials, over buckets and over meshes pick their next element
  arbitrarily; the contracts hold for every order.
- `Material.exists` always answers yes, so the `hide` branches of `refresh` and
  `changeID` never run. `Hide` is modelled on its own.
- Panel.MtlIDItem.Hide: the code calls an undefined global `model`. Hiding is
  modelled as a flag.
- Panel.Material.Hide: as written, the first bound row's `hide` raises `NameError`
  on that global `model`, so `container.pop` is reached only when no row is bound.
  The model hides every row and then pops, which is what the method's comment
  describes.
- A `Material`'s `mtlID` is unset until its first `refresh` or `changeID`. The
  model starts it at `None`.
- The `itemChanged` signal is modelled by where it is connected. `changeMtlID`
  runs with it disconnected, so its own text updates do not re-enter it.
  `updateMaterialItems` runs with it connected, and a row whose text changes runs
  the one-row edit (`Material.EchoOne`). The selection is taken as empty there,
  since the GUI's `refresh` clears it first. Qt emits the signal only when the text
  actually changes.
- Panel.MeshItem.GiveChild does not state that the rows it creates are new
  objects.
- Panel.MeshItem.constructor: `MeshItem.__init__` is split into the constructor
  and `GiveChild`.
- The `MtlNameItem` column is not modelled. A row carries the material name
  directly.
- Models.MtlModel.ChangeMtlID: `hasattr(x, "mtlName")` is modelled by type. The
  selected rows are `MtlIDItem`s, and the other cells are `NameCell`s.
- Python ints are unbounded and so are the model's.
- Qt plumbing is not modelled: views, selection models, headers,
  `createMaterialModel`, `updateMatteModel`, `removeSelection`, `refresh` of the
  GUI, and `makeMatte`.
- `createMatte`, `mtlNameFromId` and `mtlExists` are not part of this model, since
  the panel never calls them.
- Utilities.Scene.LowestUniqueID does not return the smallest unused ID, as the
  docstring at src/utilities.py:211-212 says, because the code returns
  `set.pop()` of the candidates (src/utilities.py:230-232). It promises only some
  unused ID in `start .. max + 1`.
- Utilities.Scene.CollectIDs reads the ID of every material in the scene. The code
  reads only each shading engine's first `surfaceShader`, so a material on no
  shading engine, or not first on one, is missed there and not in the model.
- Utilities.Scene.GetMaterialID: in the code, when no shading engine yields an ID
  (the material itself on none), `max()` of the empty set raises inside
  `getLowestUniqueID`. The attribute has by then been added at 0, and the decorator
  returns `None`. In the model the attribute just added at 0 is always read, so
  creating an ID never fails. That failure path is not modelled.
- Utilities.Scene.MatteToMtlID takes each entry as a multimatte node, which both
  `m + ".attr"` and `m.vray_usematid_multimatte` accept. The docstring asks for
  matte names. With a plain string, the attribute access at src/utilities.py:147
  raises `AttributeError` on the first name, and nothing catches it. The model
  does not give that failure.
- Utilities.Scene.MtlToMatte takes a list of material IDs. The docstring asks for
  the output of `materials`, a dict from mesh to IDs. Iterating that dict yields
  mesh names, which never equal an ID, so with that argument the code returns `{}`.
  The model does not cover that call.
- IdCells.Displayed, PyText.IsDigits and PyText.ParseInt: digits are ASCII only.
  Python 2's unicode `isdigit` also accepts other digits, such as full-width
  `１２` and the superscript `²`. `int(u'²')` raises `ValueError` in `textChanged`,
  which leaves `itemChanged` disconnected. Neither is modelled.

## Findings

| source | as written | input that shows it | evidently intended | confidence | as-written member | corrected member |
|---|---|---|---|---|---|---|
| src/model_item.py:46-54 | The row list is the selected ID rows plus the edited row, with the de-duplication commented out. Each row is flagged by `index(x) < len - 1`. | One selected ID row `r` that is also the edited row: the rows are `[r, r]`, both get `chunkOpen=True`, and the undo log gets two opens and no close. | Each row once (`set()` on the commented-out line, in no fixed order), so that every row but the last opens the chunk and the last closes it. The corrected member puts the edited row last; that order is this model's choice. | not executed | Models.EditNeverCloses | Models.FixedEditEvents |
