/** The clean-up of a Master Inventory export (`helpers/clean_mi_export.py`): find the row
    whose column A reads "Name", delete every row above it together with the images anchored
    there, and, on the DataFrame side, drop two leading empty data rows. */
module CleanExport {
  import opened Wrappers
  import opened Text
  import opened Cells

  /** `_row_is_empty`: every cell of the row, in columns `1..max_column`, is `None` or "". */
  method RowIsEmpty(ws: Sheet, row: int) returns (empty: bool)
    requires ws.Valid()
    ensures empty <==> forall c :: 1 <= c <= ws.maxCol ==> IsNoneOrEmpty(ws.Cell(row, c))
  {
    for c := 1 to ws.maxCol + 1
      invariant forall k :: 1 <= k < c ==> IsNoneOrEmpty(ws.Cell(row, k))
    {
      if !IsNoneOrEmpty(ws.Cell(row, c)) {
        return false;
      }
    }
    return true;
  }

  /** Whether `_strip_images_on_rows` keeps an image: when it has no anchor, when its anchor
      row cannot be read, or when its one-based anchor row lies below the rows stripped. */
  predicate KeepImage(a: Anchor, lastStripped: int) {
    match a
    case NoAnchor => true
    case BrokenAnchor => true
    case FromRow(row0) => row0 + 1 > lastStripped
  }

  /** The images kept, in their order. */
  function KeptImages(images: seq<Anchor>, lastStripped: int): (r: seq<Anchor>)
    ensures |r| <= |images|
    ensures forall a :: a in r ==> a in images && KeepImage(a, lastStripped)
  {
    if images == [] then []
    else
      var last := images[|images| - 1];
      KeptImages(images[..|images| - 1], lastStripped) + (if KeepImage(last, lastStripped) then [last] else [])
  }

  /** Every image that qualifies is kept, so stripping drops exactly the images anchored on
      rows `1..lastStripped`. */
  lemma {:induction false} KeptImagesComplete(images: seq<Anchor>, lastStripped: int)
    ensures forall a :: a in images && KeepImage(a, lastStripped) ==> a in KeptImages(images, lastStripped)
  {
    if images != [] {
      var init := images[..|images| - 1];
      KeptImagesComplete(init, lastStripped);
      forall a | a in images && KeepImage(a, lastStripped)
        ensures a in KeptImages(images, lastStripped)
      {
        if a != images[|images| - 1] {
          var i :| 0 <= i < |images| && images[i] == a;
          assert init[i] == a;
        }
      }
    }
  }

  /** Images that all qualify are all kept, in their order. */
  lemma {:induction false} KeptImagesAll(images: seq<Anchor>, lastStripped: int)
    requires forall i :: 0 <= i < |images| ==> KeepImage(images[i], lastStripped)
    ensures KeptImages(images, lastStripped) == images
  {
    if images != [] {
      var init := images[..|images| - 1];
      assert forall i :: 0 <= i < |init| ==> init[i] == images[i];
      KeptImagesAll(init, lastStripped);
      assert init + [images[|images| - 1]] == images;
    }
  }

  /** Stripping a second time with the same bound removes nothing more. */
  lemma KeptImagesIdempotent(images: seq<Anchor>, lastStripped: int)
    ensures KeptImages(KeptImages(images, lastStripped), lastStripped) == KeptImages(images, lastStripped)
  {
    var k := KeptImages(images, lastStripped);
    assert forall i :: 0 <= i < |k| ==> k[i] in k;
    KeptImagesAll(k, lastStripped);
  }

  /** `_strip_images_on_rows(ws, max_row_to_strip)`: the sheet keeps only the images that
      qualify; its cells are untouched. */
  method StripImagesOnRows(ws: Sheet, lastStripped: int)
    requires ws.Valid()
    modifies ws
    ensures ws.Valid()
    ensures ws.images == KeptImages(old(ws.images), lastStripped)
    ensures ws.cells == old(ws.cells) && ws.maxRow == old(ws.maxRow) && ws.maxCol == old(ws.maxCol)
  {
    var images := ws.images;
    if images == [] {
      return;
    }
    var keep := [];
    for i := 0 to |images|
      invariant keep == KeptImages(images[..i], lastStripped)
    {
      assert images[..i + 1][..i] == images[..i];
      if KeepImage(images[i], lastStripped) {
        keep := keep + [images[i]];
      }
    }
    assert images[..|images|] == images;
    ws.images := keep;
  }

  /** Column A holds the header "Name": a string that strips to it. */
  predicate IsNameHeader(v: Value) {
    v.Str? && Strip(v.s) == "Name"
  }

  /** The first row in `lo..hi` whose column A is the "Name" header. */
  function HeaderRowFrom(cells: map<(int, int), Value>, lo: int, hi: int): (r: Option<int>)
    ensures r.Some? ==>
      (lo <= r.value <= hi && IsNameHeader(CellOf(cells, r.value, 1))
       && forall k :: lo <= k < r.value ==> !IsNameHeader(CellOf(cells, k, 1)))
    ensures r.None? ==> forall k :: lo <= k <= hi ==> !IsNameHeader(CellOf(cells, k, 1))
    decreases hi - lo + 1
  {
    if lo > hi then None
    else if IsNameHeader(CellOf(cells, lo, 1)) then Some(lo)
    else HeaderRowFrom(cells, lo + 1, hi)
  }

  /** The header row `clean_mi_export` looks for: the first in `1..max_row`. */
  function HeaderRow(cells: map<(int, int), Value>, maxRow: int): Option<int> {
    HeaderRowFrom(cells, 1, maxRow)
  }

  /** The header scan of `clean_mi_export`. */
  method FindHeaderRow(ws: Sheet) returns (h: Option<int>)
    requires ws.Valid()
    ensures h == HeaderRow(ws.cells, ws.maxRow)
  {
    for row := 1 to ws.maxRow + 1
      invariant forall k :: 1 <= k < row ==> !IsNameHeader(CellOf(ws.cells, k, 1))
    {
      if IsNameHeader(ws.Cell(row, 1)) {
        return Some(row);
      }
    }
    return None;
  }

  /** A "Name" header in row 1 is the first one. */
  lemma HeaderAtTop(cells: map<(int, int), Value>, maxRow: int)
    requires 1 <= maxRow && IsNameHeader(CellOf(cells, 1, 1))
    ensures HeaderRow(cells, maxRow) == Some(1)
  {
  }

  /** The sheet `clean_mi_export` works on: the active sheet when no name is given, else the
      named sheet, and a `KeyError` when the workbook has no sheet of that name. */
  function SelectSheet(sheetNames: seq<string>, sheetName: string, active: string, fileName: string): (r: Result<string>)
    ensures r.Err? <==> sheetName != "" && sheetName !in sheetNames
    ensures r.Ok? ==> r.value == (if sheetName == "" then active else sheetName)
    ensures r.Err? ==> r.msg == "Sheet '" + sheetName + "' not found in workbook " + fileName
  {
    if sheetName == "" then Ok(active)
    else if sheetName !in sheetNames then Err("Sheet '" + sheetName + "' not found in workbook " + fileName)
    else Ok(sheetName)
  }

  /** `clean_mi_export` on the selected sheet: when the "Name" header sits below row 1, the
      images anchored above it are stripped and the rows above it deleted, so that the header
      becomes row 1; otherwise nothing changes. */
  method CleanSheet(ws: Sheet)
    requires ws.Valid()
    modifies ws
    ensures ws.Valid()
    ensures var h := HeaderRow(old(ws.cells), old(ws.maxRow));
      if h.Some? && h.value > 1 then
        ws.images == KeptImages(old(ws.images), h.value - 1)
        && ws.maxRow == old(ws.maxRow) - (h.value - 1) && ws.maxCol == old(ws.maxCol)
        && forall r, c :: 1 <= r && 1 <= c ==> ws.Cell(r, c) == CellOf(old(ws.cells), r + h.value - 1, c)
      else
        ws.cells == old(ws.cells) && ws.maxRow == old(ws.maxRow) && ws.maxCol == old(ws.maxCol)
        && ws.images == old(ws.images)
    ensures HeaderRow(old(ws.cells), old(ws.maxRow)).Some? ==> HeaderRow(ws.cells, ws.maxRow) == Some(1)
  {
    var h := FindHeaderRow(ws);
    if h.Some? && h.value > 1 {
      StripImagesOnRows(ws, h.value - 1);
      ws.DeleteTopRows(h.value - 1);
      assert ws.Cell(1, 1) == CellOf(old(ws.cells), h.value, 1);
      HeaderAtTop(ws.cells, ws.maxRow);
    } else if h.Some? {
      HeaderAtTop(ws.cells, ws.maxRow);
    }
  }

  /** Whether a DataFrame cell counts as empty: `None`, NaN or `pd.NA` (all `Blank` here) or
      the empty string. */
  predicate FrameCellEmpty(v: Value) {
    v == Blank || v == Str("")
  }

  predicate FrameRowEmpty(row: seq<Value>) {
    forall i :: 0 <= i < |row| ==> FrameCellEmpty(row[i])
  }

  /** A DataFrame: its column labels and its data rows. */
  datatype Frame = Frame(columns: seq<string>, rows: seq<seq<Value>>)

  /** `clean_master_inventory_export`: an empty frame comes back as it is; otherwise a copy,
      without its first two rows when there are at least two and both are entirely empty. */
  function CleanMasterInventory(df: Frame): (r: Frame)
    ensures r.columns == df.columns
    ensures r.rows == df.rows || (|df.rows| >= 2 && r.rows == df.rows[2..])
    ensures r.rows != df.rows <==>
      |df.columns| > 0 && |df.rows| >= 2 && FrameRowEmpty(df.rows[0]) && FrameRowEmpty(df.rows[1])
  {
    if |df.rows| == 0 || |df.columns| == 0 then df
    else if |df.rows| >= 2 && FrameRowEmpty(df.rows[0]) && FrameRowEmpty(df.rows[1]) then
      Frame(df.columns, df.rows[2..])
    else Frame(df.columns, df.rows)
  }
}
