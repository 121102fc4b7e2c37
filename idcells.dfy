/**
 * The material-ID cells of the panel: how a value handed to a cell becomes the text it
 * shows, and which undo-chunk flag each row of a multi-row edit is given.
 */
module IdCells {
  import opened Wrappers
  import opened PyText
  import opened Seqs

  /** What `textChanged` and `processMtlID` may be handed: an int, `None`, or text. */
  datatype CellValue = IntValue(n: int) | NoneValue | TextValue(s: string)

  /** A stored material ID as the value a cell is given (`None` while the attribute is absent). */
  function IdValue(id: Option<int>): CellValue {
    if id.Some? then IntValue(id.value) else NoneValue
  }

  /** `processMtlID`: `str(id)` for a non-zero int, the empty text for 0, `None` or anything else. */
  function ProcessMtlID(v: CellValue): (r: string)
    ensures r == "" <==> !(v.IntValue? && v.n != 0)
    ensures v.IntValue? && v.n != 0 ==> ParseInt(r) == Some(v.n)
  {
    if v.IntValue? && v.n != 0 then
      ParseIntOfIntToStr(v.n);
      IntToStr(v.n)
    else ""
  }

  /** `text.isdigit() and int(text)` is truthy: digits only, and not all zeros. */
  predicate ShowsID(text: string) {
    IsDigits(text) && DigitsValue(text) != 0
  }

  /**
   * The text `textChanged` leaves in the cell: an int or `None` first goes through
   * `processMtlID`; text that is not a non-zero run of digits is cleared.
   */
  function Displayed(v: CellValue): (r: string)
    ensures r == "" || ShowsID(r)
  {
    var text := if v.TextValue? then v.s else ProcessMtlID(v);
    if ShowsID(text) then text else ""
  }

  /** Showing what a cell shows again changes nothing. */
  lemma DisplayedIdempotent(v: CellValue)
    ensures Displayed(TextValue(Displayed(v))) == Displayed(v)
  {
  }

  /** A positive ID is shown as its decimal text, which reads back as the ID; 0, a negative ID and `None` clear the cell. */
  lemma {:induction false} DisplayedOfID(id: Option<int>)
    ensures id.Some? && id.value > 0 ==> Displayed(IdValue(id)) == IntToStr(id.value)
    ensures id.Some? && id.value > 0 ==> ParseInt(Displayed(IdValue(id))) == Some(id.value)
    ensures id.None? || id.value <= 0 ==> Displayed(IdValue(id)) == ""
  {
    if id.Some? && id.value > 0 {
      NatToStrIsDecimal(id.value);
      ParseIntOfIntToStr(id.value);
    } else if id.Some? && id.value < 0 {
      assert IntToStr(id.value)[0] == '-';
    }
  }

  /** Text is kept exactly when it is a non-zero run of digits ("007" stays, "0", "" and "-3" are cleared). */
  lemma DisplayedOfText(s: string)
    ensures Displayed(TextValue(s)) == s <==> ShowsID(s) || s == ""
    ensures !ShowsID(s) ==> Displayed(TextValue(s)) == ""
  {
  }

  /**
   * The flag `changeMtlID` gives row `i` of its list: `chunkOpen=True` when the first
   * position of that row in the list is below the last position, the default `False`
   * otherwise.
   */
  function ChunkFlag<T(==)>(items: seq<T>, i: nat): (open: bool)
    requires i < |items|
    ensures !open ==> FirstIndex(items, items[i]) == |items| - 1
  {
    FirstIndex(items, items[i]) < |items| - 1
  }

  /**
   * The rows `changeMtlID` updates, in order: the selected ID rows, then the edited
   * row; nothing when the edited item is not an ID row.
   */
  function EditRows<T>(selected: seq<T>, edited: T, isIdRow: bool): (rows: seq<T>)
    ensures isIdRow ==> |rows| == |selected| + 1 && rows[|selected|] == edited && rows[..|selected|] == selected
    ensures !isIdRow ==> rows == []
  {
    if isIdRow then selected + [edited] else []
  }

  /**
   * As written, an edited row that is also selected appears twice, and both of its
   * entries get `chunkOpen=True` (its first position is not the last), so no row of
   * the edit ever closes the undo chunk.
   */
  lemma {:induction false} NoCloseWhenEditedSelected<T>(selected: seq<T>, edited: T)
    requires edited in selected
    ensures forall i :: 0 <= i < |EditRows(selected, edited, true)| ==> ChunkFlag(EditRows(selected, edited, true), i)
  {
    var rows := EditRows(selected, edited, true);
    forall i | 0 <= i < |rows| ensures ChunkFlag(rows, i) {
      if i == |selected| {
        FirstIndexInPrefix(selected, edited, edited);
        assert FirstIndex(selected, edited) < |selected|;
      } else {
        FirstIndexInPrefix(selected, edited, rows[i]);
      }
    }
  }

  /**
   * The edit as evidently intended (the de-duplication the code leaves commented out):
   * the edited row once, last, after the other selected rows, each of those once.
   */
  function FixedEditRows<T(==)>(selected: seq<T>, edited: T): (rows: seq<T>)
    ensures |rows| > 0 && rows[|rows| - 1] == edited
    ensures NoDup(rows)
    ensures forall k :: 0 <= k < |rows| ==> rows[k] in selected || rows[k] == edited
    ensures forall k :: 0 <= k < |selected| ==> selected[k] in rows
  {
    var others := Dedup(Without(selected, edited));
    DedupElements(Without(selected, edited));
    others + [edited]
  }

  /** The list with every occurrence of `x` removed. */
  function Without<T(==)>(s: seq<T>, x: T): (r: seq<T>)
    ensures forall k :: 0 <= k < |r| ==> r[k] in s && r[k] != x
    ensures forall k :: 0 <= k < |s| && s[k] != x ==> s[k] in r
  {
    if s == [] then [] else (if s[0] == x then [] else [s[0]]) + Without(s[1..], x)
  }

  /** With the fixed rows, every row but the last opens the chunk and the last one closes it. */
  lemma {:induction false} FixedEditClosesOnce<T>(selected: seq<T>, edited: T)
    ensures var rows := FixedEditRows(selected, edited);
            && !ChunkFlag(rows, |rows| - 1)
            && forall i :: 0 <= i < |rows| - 1 ==> ChunkFlag(rows, i)
  {
    var rows := FixedEditRows(selected, edited);
    forall i | 0 <= i < |rows| ensures FirstIndex(rows, rows[i]) == i {
      FirstIndexOfDistinct(rows, i);
    }
  }

  /** In a list without repeats, each element is first found at its own position. */
  lemma {:induction false} FirstIndexOfDistinct<T>(s: seq<T>, i: nat)
    requires NoDup(s) && i < |s|
    ensures FirstIndex(s, s[i]) == i
  {
    var k := FirstIndex(s, s[i]);
    forall j | 0 <= j < k ensures s[j] != s[i] {
      assert s[..k][j] == s[j];
    }
  }
}
