/** The header layer of `add_forecast_to_inventory.py`: the first-occurrence header map of a
    worksheet row and the step that makes sure a sheet carries a list of required headers.
    Both work with whatever function turns a header cell into its key; the script uses
    `_lower_norm`, which `Inventory` supplies. */
module Headers {
  import opened Cells

  /** The cells of a worksheet with its `max_row` and `max_column`, as a value. */
  datatype Grid = Grid(cells: map<(int, int), Value>, maxRow: int, maxCol: int)

  function GridOf(ws: Sheet): Grid
    reads ws
  {
    Grid(ws.cells, ws.maxRow, ws.maxCol)
  }

  /** The extent is at least 1 and holds every cell. */
  predicate GridValid(g: Grid) {
    1 <= g.maxRow && 1 <= g.maxCol
    && forall p :: p in g.cells ==> 1 <= p.0 <= g.maxRow && 1 <= p.1 <= g.maxCol
  }

  /** `ws.cell(row=r, column=c).value = v` on a grid. */
  function Put(g: Grid, r: int, c: int, v: Value): Grid {
    Grid(g.cells[(r, c) := v], Max(g.maxRow, r), Max(g.maxCol, c))
  }

  /** `Put` sets the one cell and no other. */
  lemma PutCells(g: Grid, r: int, c: int, v: Value)
    ensures CellOf(Put(g, r, c, v).cells, r, c) == v
    ensures forall r', c' :: (r', c') != (r, c) ==> CellOf(Put(g, r, c, v).cells, r', c') == CellOf(g.cells, r', c')
  {
  }

  /** `_build_header_map` over columns `1..k` of row `row`, with header keys given by `norm`:
      each non-blank key goes to the first column carrying it. */
  function HeaderMap(norm: Value -> string, cells: map<(int, int), Value>, row: int, k: int): map<string, int>
    decreases if k > 0 then k else 0
  {
    if k <= 0 then map[] else AddFirst(HeaderMap(norm, cells, row, k - 1), norm(CellOf(cells, row, k)), k)
  }

  /** The key of a header name written into a cell. */
  function NameKey(norm: Value -> string, h: string): string {
    norm(Str(h))
  }

  /** `headers` sends each key it holds to a column `1..maxCol` whose header in `row` has that key. */
  predicate PointsAtHeaders(norm: Value -> string, headers: map<string, int>, cells: map<(int, int), Value>,
                            row: int, maxCol: int) {
    forall k :: k in headers ==> 1 <= headers[k] <= maxCol && norm(CellOf(cells, row, headers[k])) == k
  }

  /** Two keys a header map points at headers with share a column only if they are equal. */
  lemma PointsAtHeadersInjective(norm: Value -> string, headers: map<string, int>, cells: map<(int, int), Value>,
                                 row: int, maxCol: int, a: string, b: string)
    requires PointsAtHeaders(norm, headers, cells, row, maxCol)
    requires a in headers && b in headers && a != b
    ensures headers[a] != headers[b]
  {
  }

  /** The header map over columns `1..k` holds exactly the non-blank keys of those columns,
      each at the first column carrying it. */
  lemma {:induction false} HeaderMapSpec(norm: Value -> string, cells: map<(int, int), Value>, row: int, k: int)
    ensures forall s :: s in HeaderMap(norm, cells, row, k) <==>
      s != "" && exists c :: 1 <= c <= k && norm(CellOf(cells, row, c)) == s
    ensures forall s :: s in HeaderMap(norm, cells, row, k) ==>
      1 <= HeaderMap(norm, cells, row, k)[s] <= k && norm(CellOf(cells, row, HeaderMap(norm, cells, row, k)[s])) == s
      && forall c :: 1 <= c < HeaderMap(norm, cells, row, k)[s] ==> norm(CellOf(cells, row, c)) != s
    decreases if k > 0 then k else 0
  {
    if k > 0 {
      HeaderMapSpec(norm, cells, row, k - 1);
      var m := HeaderMap(norm, cells, row, k - 1);
      var m' := HeaderMap(norm, cells, row, k);
      var added := norm(CellOf(cells, row, k));
      forall s | s != "" && exists c :: 1 <= c <= k && norm(CellOf(cells, row, c)) == s
        ensures s in m'
      {
        var c :| 1 <= c <= k && norm(CellOf(cells, row, c)) == s;
        if c < k {
          assert s in m;
        }
      }
      forall s | s in m'
        ensures 1 <= m'[s] <= k && norm(CellOf(cells, row, m'[s])) == s
        ensures forall c :: 1 <= c < m'[s] ==> norm(CellOf(cells, row, c)) != s
      {
        if added != "" && added !in m {
          assert m' == m[added := k];
          if s != added {
            assert s in m && m'[s] == m[s];
          } else {
            assert forall c :: 1 <= c < k ==> norm(CellOf(cells, row, c)) != s;
          }
        } else {
          assert m' == m;
        }
      }
    }
  }

  /** The header map points each key it holds at a header with that key. */
  lemma HeaderMapPoints(norm: Value -> string, cells: map<(int, int), Value>, row: int, maxCol: int)
    ensures PointsAtHeaders(norm, HeaderMap(norm, cells, row, maxCol), cells, row, maxCol)
  {
    HeaderMapSpec(norm, cells, row, maxCol);
  }

  /** The header map holds the key of every non-blank header of the row. */
  lemma HeaderMapHas(norm: Value -> string, cells: map<(int, int), Value>, row: int, maxCol: int, c: int)
    requires 1 <= c <= maxCol && norm(CellOf(cells, row, c)) != ""
    ensures norm(CellOf(cells, row, c)) in HeaderMap(norm, cells, row, maxCol)
  {
    HeaderMapSpec(norm, cells, row, maxCol);
  }

  /** `_build_header_map`: one pass over columns `1..max_column` of the header row. */
  method BuildHeaderMap(ws: Sheet, headerRow: int, norm: Value -> string) returns (mapping: map<string, int>)
    requires ws.Valid()
    ensures mapping == HeaderMap(norm, ws.cells, headerRow, ws.maxCol)
  {
    mapping := map[];
    for col := 1 to ws.maxCol + 1
      invariant mapping == HeaderMap(norm, ws.cells, headerRow, col - 1)
    {
      var key := norm(ws.Cell(headerRow, col));
      mapping := AddFirst(mapping, key, col);
    }
  }

  /** The headers `hs` written into row 1 from column `col0` on. */
  function PutHeaders(g: Grid, col0: int, hs: seq<string>): Grid
    decreases |hs|
  {
    if hs == [] then g
    else Put(PutHeaders(g, col0, hs[..|hs| - 1]), 1, col0 + |hs| - 1, Str(hs[|hs| - 1]))
  }

  /** Writing headers from `col0` on fills columns `col0..col0 + |hs| - 1` of row 1, in order,
      and leaves every other cell alone. */
  lemma {:induction false} PutHeadersSpec(g: Grid, col0: int, hs: seq<string>)
    requires GridValid(g) && col0 >= 1
    ensures GridValid(PutHeaders(g, col0, hs))
    ensures PutHeaders(g, col0, hs).maxRow == g.maxRow
    ensures PutHeaders(g, col0, hs).maxCol == if hs == [] then g.maxCol else Max(g.maxCol, col0 + |hs| - 1)
    ensures forall r, c :: CellOf(PutHeaders(g, col0, hs).cells, r, c)
                          == (if r == 1 && col0 <= c < col0 + |hs| then Str(hs[c - col0]) else CellOf(g.cells, r, c))
    decreases |hs|
  {
    if hs != [] {
      var front := hs[..|hs| - 1];
      PutHeadersSpec(g, col0, front);
      var h := PutHeaders(g, col0, front);
      var last := col0 + |hs| - 1;
      PutCells(h, 1, last, Str(hs[|hs| - 1]));
      forall r, c
        ensures CellOf(PutHeaders(g, col0, hs).cells, r, c) ==
          (if r == 1 && col0 <= c < col0 + |hs| then Str(hs[c - col0]) else CellOf(g.cells, r, c))
      {
        if r == 1 && c == last {
        } else {
          assert CellOf(PutHeaders(g, col0, hs).cells, r, c) == CellOf(h.cells, r, c);
          if r == 1 && col0 <= c < last {
            assert front[c - col0] == hs[c - col0];
          }
        }
      }
    }
  }

  /** One header written by `PutHeaders`, and the extent it leaves. */
  lemma PutHeadersAt(g: Grid, col0: int, hs: seq<string>, j: int)
    requires GridValid(g) && col0 >= 1 && 0 <= j < |hs|
    ensures CellOf(PutHeaders(g, col0, hs).cells, 1, col0 + j) == Str(hs[j])
    ensures col0 + j <= PutHeaders(g, col0, hs).maxCol
  {
    PutHeadersSpec(g, col0, hs);
  }

  /** `PutHeaders` keeps the grid well formed and widens it to its last header. */
  lemma PutHeadersShape(g: Grid, col0: int, hs: seq<string>)
    requires GridValid(g) && col0 >= 1
    ensures var h := PutHeaders(g, col0, hs);
      GridValid(h) && h.maxRow == g.maxRow
      && h.maxCol == if hs == [] then g.maxCol else Max(g.maxCol, col0 + |hs| - 1)
  {
    PutHeadersSpec(g, col0, hs);
  }

  /** `PutHeaders` leaves the cells outside its columns of row 1 alone. */
  lemma PutHeadersOutside(g: Grid, col0: int, hs: seq<string>, r: int, c: int)
    requires GridValid(g) && col0 >= 1 && (r != 1 || c < col0)
    ensures CellOf(PutHeaders(g, col0, hs).cells, r, c) == CellOf(g.cells, r, c)
  {
    PutHeadersSpec(g, col0, hs);
  }

  /** The appending pass of `_ensure_headers` over the first `i` required headers, with header
      keys given by `norm`: the headers it writes, in order, and the header map after them. A
      header whose key is not in the map yet goes into the next column `next0 + |added|`; a
      blank key is no exception. */
  function AppendPass(norm: Value -> string, before: map<string, int>, next0: int, required: seq<string>, i: int)
    : (seq<string>, map<string, int>)
    requires 0 <= i <= |required|
  {
    if i == 0 then ([], before)
    else
      var (added, m) := AppendPass(norm, before, next0, required, i - 1);
      var k := NameKey(norm, required[i - 1]);
      if k in m then (added, m) else (added + [required[i - 1]], m[k := next0 + |added|])
  }

  /** The keys mapped before the pass keep their columns. */
  lemma {:induction false} PassKeeps(norm: Value -> string, before: map<string, int>, next0: int,
                                     required: seq<string>, i: int)
    requires 0 <= i <= |required|
    ensures var m := AppendPass(norm, before, next0, required, i).1;
      forall k :: k in before ==> k in m && m[k] == before[k]
  {
    if i > 0 {
      PassKeeps(norm, before, next0, required, i - 1);
    }
  }

  /** Every key of the first `i` required headers is mapped after them. */
  lemma {:induction false} PassMaps(norm: Value -> string, before: map<string, int>, next0: int,
                                    required: seq<string>, i: int)
    requires 0 <= i <= |required|
    ensures forall j :: 0 <= j < i ==> norm(Str(required[j])) in AppendPass(norm, before, next0, required, i).1
  {
    if i > 0 {
      PassMaps(norm, before, next0, required, i - 1);
    }
  }

  /** The key of the `t`-th header of `added` sits at column `next0 + t` of `m`. */
  predicate AddedAt(norm: Value -> string, added: seq<string>, m: map<string, int>, next0: int) {
    forall t :: 0 <= t < |added| ==> norm(Str(added[t])) in m && m[norm(Str(added[t]))] == next0 + t
  }

  /** The key of the `t`-th header written sits at column `next0 + t`. */
  lemma {:induction false} PassAddedAt(norm: Value -> string, before: map<string, int>, next0: int,
                                       required: seq<string>, i: int)
    requires 0 <= i <= |required|
    ensures AddedAt(norm, AppendPass(norm, before, next0, required, i).0, AppendPass(norm, before, next0, required, i).1, next0)
  {
    if i > 0 {
      PassAddedAt(norm, before, next0, required, i - 1);
      var (added, m) := AppendPass(norm, before, next0, required, i - 1);
      var k := norm(Str(required[i - 1]));
      if k !in m {
        var added' := added + [required[i - 1]];
        var m' := m[k := next0 + |added|];
        assert AppendPass(norm, before, next0, required, i) == (added', m');
        forall t | 0 <= t < |added'|
          ensures norm(Str(added'[t])) in m' && m'[norm(Str(added'[t]))] == next0 + t
        {
          if t < |added| {
            assert added'[t] == added[t];
            assert norm(Str(added[t])) in m;
          }
        }
      } else {
        assert AppendPass(norm, before, next0, required, i) == (added, m);
      }
    }
  }

  /** A key the pass maps was mapped before it or is the key of a header it wrote. */
  lemma {:induction false} PassOnly(norm: Value -> string, before: map<string, int>, next0: int,
                                    required: seq<string>, i: int, k: string)
    requires 0 <= i <= |required|
    requires k in AppendPass(norm, before, next0, required, i).1 && k !in before
    ensures exists t :: 0 <= t < |AppendPass(norm, before, next0, required, i).0|
                        && norm(Str(AppendPass(norm, before, next0, required, i).0[t])) == k
  {
    var (added, m) := AppendPass(norm, before, next0, required, i - 1);
    var h := required[i - 1];
    if k in m {
      PassOnly(norm, before, next0, required, i - 1, k);
      var t :| 0 <= t < |added| && norm(Str(added[t])) == k;
      assert AppendPass(norm, before, next0, required, i).0[t] == added[t];
    } else {
      assert AppendPass(norm, before, next0, required, i).0 == added + [h];
      assert norm(Str((added + [h])[|added|])) == k;
    }
  }

  /** `_ensure_headers` on a header row with no non-blank header: the headers go into columns
      `1..n` and the map is rebuilt from the new row. */
  function FillHeaders(norm: Value -> string, g: Grid, required: seq<string>): (Grid, map<string, int>) {
    var h := PutHeaders(g, 1, required);
    (h, HeaderMap(norm, h.cells, 1, h.maxCol))
  }

  /** The appending pass run on grid `g` from header map `found`: the headers it writes go
      after `max_column`. */
  function AppendOnto(norm: Value -> string, g: Grid, required: seq<string>, found: map<string, int>)
    : (Grid, map<string, int>)
  {
    var (added, m) := AppendPass(norm, found, g.maxCol + 1, required, |required|);
    (PutHeaders(g, g.maxCol + 1, added), m)
  }

  /** `_ensure_headers` on a header row that has headers: the new ones go after `max_column`. */
  function AppendHeaders(norm: Value -> string, g: Grid, required: seq<string>): (Grid, map<string, int>) {
    AppendOnto(norm, g, required, HeaderMap(norm, g.cells, 1, g.maxCol))
  }

  /** `_ensure_headers` on a grid: the new grid and the header map it returns. */
  function EnsuredHeaders(norm: Value -> string, g: Grid, required: seq<string>): (Grid, map<string, int>) {
    if |HeaderMap(norm, g.cells, 1, g.maxCol)| == 0 then FillHeaders(norm, g, required)
    else AppendHeaders(norm, g, required)
  }

  /** A header cell holding text `h` puts its key in the header map, unless that key is blank. */
  lemma HeaderMapHasText(norm: Value -> string, cells: map<(int, int), Value>, row: int, maxCol: int, c: int, h: string)
    requires 1 <= c <= maxCol && CellOf(cells, row, c) == Str(h) && norm(Str(h)) != ""
    ensures norm(Str(h)) in HeaderMap(norm, cells, row, maxCol)
  {
    HeaderMapHas(norm, cells, row, maxCol, c);
  }

  lemma FillHeaderKey(norm: Value -> string, g: Grid, required: seq<string>, i: int)
    requires GridValid(g) && 0 <= i < |required| && norm(Str(required[i])) != ""
    ensures norm(Str(required[i])) in FillHeaders(norm, g, required).1
  {
    var h := PutHeaders(g, 1, required);
    PutHeadersAt(g, 1, required, i);
    HeaderMapHasText(norm, h.cells, 1, h.maxCol, i + 1, required[i]);
  }

  lemma FillHeadersMapped(norm: Value -> string, g: Grid, required: seq<string>)
    requires GridValid(g)
    ensures var (h, m) := FillHeaders(norm, g, required);
      GridValid(h) && h.maxRow == g.maxRow && PointsAtHeaders(norm, m, h.cells, 1, h.maxCol)
      && forall i :: 0 <= i < |required| && norm(Str(required[i])) != "" ==> norm(Str(required[i])) in m
  {
    var h := PutHeaders(g, 1, required);
    PutHeadersSpec(g, 1, required);
    HeaderMapPoints(norm, h.cells, 1, h.maxCol);
    forall i | 0 <= i < |required| && norm(Str(required[i])) != ""
      ensures norm(Str(required[i])) in FillHeaders(norm, g, required).1
    {
      FillHeaderKey(norm, g, required, i);
    }
  }

  /** In the appending branch each mapped key points at a header cell with that key. */
  lemma AppendPointsAt(norm: Value -> string, g: Grid, required: seq<string>, k: string)
    requires GridValid(g) && k in AppendHeaders(norm, g, required).1
    ensures var (h, m) := AppendHeaders(norm, g, required);
      1 <= m[k] <= h.maxCol && norm(CellOf(h.cells, 1, m[k])) == k
  {
    var before := HeaderMap(norm, g.cells, 1, g.maxCol);
    var next0 := g.maxCol + 1;
    var (added, m) := AppendPass(norm, before, next0, required, |required|);
    PutHeadersShape(g, next0, added);
    if k in before {
      HeaderMapPoints(norm, g.cells, 1, g.maxCol);
      PassKeeps(norm, before, next0, required, |required|);
      PutHeadersOutside(g, next0, added, 1, before[k]);
    } else {
      PassOnly(norm, before, next0, required, |required|, k);
      var t :| 0 <= t < |added| && norm(Str(added[t])) == k;
      PassAddedAt(norm, before, next0, required, |required|);
      PutHeadersAt(g, next0, added, t);
    }
  }

  lemma AppendHeadersMapped(norm: Value -> string, g: Grid, required: seq<string>)
    requires GridValid(g)
    ensures var (h, m) := AppendHeaders(norm, g, required);
      GridValid(h) && h.maxRow == g.maxRow && PointsAtHeaders(norm, m, h.cells, 1, h.maxCol)
      && forall i :: 0 <= i < |required| ==> norm(Str(required[i])) in m
  {
    var before := HeaderMap(norm, g.cells, 1, g.maxCol);
    PutHeadersShape(g, g.maxCol + 1, AppendPass(norm, before, g.maxCol + 1, required, |required|).0);
    var (h, m) := AppendHeaders(norm, g, required);
    forall k | k in m
      ensures 1 <= m[k] <= h.maxCol && norm(CellOf(h.cells, 1, m[k])) == k
    {
      AppendPointsAt(norm, g, required, k);
    }
    PassMaps(norm, before, g.maxCol + 1, required, |required|);
  }

  /** Afterwards every required header with a non-blank key is mapped, each mapped key points at
      a header cell with that key, and no row is added. */
  lemma EnsuredHeadersMapped(norm: Value -> string, g: Grid, required: seq<string>)
    requires GridValid(g)
    ensures var (h, m) := EnsuredHeaders(norm, g, required);
      GridValid(h) && h.maxRow == g.maxRow && PointsAtHeaders(norm, m, h.cells, 1, h.maxCol)
      && forall i :: 0 <= i < |required| && norm(Str(required[i])) != "" ==> norm(Str(required[i])) in m
  {
    if |HeaderMap(norm, g.cells, 1, g.maxCol)| == 0 {
      FillHeadersMapped(norm, g, required);
    } else {
      AppendHeadersMapped(norm, g, required);
    }
  }

  /** On a header row without a single non-blank header, the required headers go into columns
      `1..n` in order and nothing else changes. */
  lemma EnsuredHeadersOnEmptyRow(norm: Value -> string, g: Grid, required: seq<string>)
    requires GridValid(g) && |HeaderMap(norm, g.cells, 1, g.maxCol)| == 0
    ensures forall c :: 1 <= c <= |required| ==>
      CellOf(EnsuredHeaders(norm, g, required).0.cells, 1, c) == Str(required[c - 1])
    ensures forall r, c :: (r != 1 || c < 1 || c > |required|) ==>
      CellOf(EnsuredHeaders(norm, g, required).0.cells, r, c) == CellOf(g.cells, r, c)
  {
    PutHeadersSpec(g, 1, required);
  }

  /** `_ensure_headers` writes only into the header row. */
  lemma EnsuredHeadersDataRows(norm: Value -> string, g: Grid, required: seq<string>, r: int, c: int)
    requires GridValid(g) && r != 1
    ensures CellOf(EnsuredHeaders(norm, g, required).0.cells, r, c) == CellOf(g.cells, r, c)
  {
    if |HeaderMap(norm, g.cells, 1, g.maxCol)| == 0 {
      PutHeadersOutside(g, 1, required, r, c);
    } else {
      AppendKeepsCells(norm, g, required, r, c);
    }
  }

  /** The headers the appending branch writes, in order. */
  function Missing(norm: Value -> string, g: Grid, required: seq<string>): seq<string> {
    AppendPass(norm, HeaderMap(norm, g.cells, 1, g.maxCol), g.maxCol + 1, required, |required|).0
  }

  /** A header the pass writes had a key the map did not hold before it. */
  lemma {:induction false} PassAddedFresh(norm: Value -> string, before: map<string, int>, next0: int,
                                          required: seq<string>, i: int, t: int)
    requires 0 <= i <= |required| && 0 <= t < |AppendPass(norm, before, next0, required, i).0|
    ensures norm(Str(AppendPass(norm, before, next0, required, i).0[t])) !in before
  {
    var (added, m) := AppendPass(norm, before, next0, required, i - 1);
    PassKeeps(norm, before, next0, required, i - 1);
    if t < |added| {
      PassAddedFresh(norm, before, next0, required, i - 1, t);
      assert AppendPass(norm, before, next0, required, i).0[t] == added[t];
    } else {
      assert AppendPass(norm, before, next0, required, i).0 == added + [required[i - 1]];
    }
  }

  /** Every header the appending branch writes is a required header whose key the row lacked. */
  lemma MissingWereMissing(norm: Value -> string, g: Grid, required: seq<string>, t: int)
    requires 0 <= t < |Missing(norm, g, required)|
    ensures norm(Str(Missing(norm, g, required)[t])) !in HeaderMap(norm, g.cells, 1, g.maxCol)
  {
    PassAddedFresh(norm, HeaderMap(norm, g.cells, 1, g.maxCol), g.maxCol + 1, required, |required|, t);
  }

  /** The appending branch leaves every existing cell, and every other row, as it was. */
  lemma AppendKeepsCells(norm: Value -> string, g: Grid, required: seq<string>, r: int, c: int)
    requires GridValid(g) && (r != 1 || c <= g.maxCol)
    ensures CellOf(AppendHeaders(norm, g, required).0.cells, r, c) == CellOf(g.cells, r, c)
  {
    PutHeadersOutside(g, g.maxCol + 1, Missing(norm, g, required), r, c);
  }

  /** It writes the missing headers, in order, into the columns right after `max_column`. */
  lemma AppendWritesMissing(norm: Value -> string, g: Grid, required: seq<string>, j: int)
    requires GridValid(g) && 0 <= j < |Missing(norm, g, required)|
    ensures CellOf(AppendHeaders(norm, g, required).0.cells, 1, g.maxCol + 1 + j) == Str(Missing(norm, g, required)[j])
  {
    PutHeadersAt(g, g.maxCol + 1, Missing(norm, g, required), j);
  }

  /** It widens the sheet by exactly one column per missing header. */
  lemma AppendWidth(norm: Value -> string, g: Grid, required: seq<string>)
    requires GridValid(g)
    ensures AppendHeaders(norm, g, required).0.maxCol == g.maxCol + |Missing(norm, g, required)|
  {
    PutHeadersShape(g, g.maxCol + 1, Missing(norm, g, required));
  }

  /** A header the row already had stays mapped to its column. */
  lemma AppendKeepsMapped(norm: Value -> string, g: Grid, required: seq<string>, k: string)
    requires k in HeaderMap(norm, g.cells, 1, g.maxCol)
    ensures k in AppendHeaders(norm, g, required).1
    ensures AppendHeaders(norm, g, required).1[k] == HeaderMap(norm, g.cells, 1, g.maxCol)[k]
  {
    PassKeeps(norm, HeaderMap(norm, g.cells, 1, g.maxCol), g.maxCol + 1, required, |required|);
  }

  /** One more header written by `PutHeaders`. */
  lemma PutHeadersSnoc(g: Grid, col0: int, hs: seq<string>, h: string, col: int)
    requires col == col0 + |hs|
    ensures PutHeaders(g, col0, hs + [h]) == Put(PutHeaders(g, col0, hs), 1, col, Str(h))
  {
    assert (hs + [h])[..|hs|] == hs;
  }

  /** One more step of the appending pass, from the state `(added, m)` it has reached. */
  lemma AppendPassStep(norm: Value -> string, found: map<string, int>, next0: int, required: seq<string>, i: int,
                       added: seq<string>, m: map<string, int>, col: int)
    requires 0 <= i < |required| && (added, m) == AppendPass(norm, found, next0, required, i)
    requires col == next0 + |added|
    ensures AppendPass(norm, found, next0, required, i + 1)
            == if NameKey(norm, required[i]) in m then (added, m)
               else (added + [required[i]], m[NameKey(norm, required[i]) := col])
  {
  }

  /** The first branch of `_ensure_headers`: the required headers go into columns `1..n` of row 1. */
  method FillHeaderRow(ws: Sheet, required: seq<string>)
    requires ws.Valid()
    modifies ws
    ensures ws.Valid() && ws.images == old(ws.images)
    ensures GridOf(ws) == PutHeaders(old(GridOf(ws)), 1, required)
  {
    ghost var g := GridOf(ws);
    for i := 0 to |required|
      invariant ws.Valid() && ws.images == old(ws.images)
      invariant GridOf(ws) == PutHeaders(g, 1, required[..i])
    {
      assert required[..i + 1][..i] == required[..i];
      ws.Write(1, i + 1, Str(required[i]));
    }
    assert required[..|required|] == required;
  }

  /** The state of the appending loop of `_ensure_headers` before required header `i`: the
      headers written so far, the map, the next free column and the sheet agree with the pass. */
  ghost predicate Appending(ws: Sheet, g: Grid, norm: Value -> string, found: map<string, int>, required: seq<string>,
                            i: int, added: seq<string>, headers: map<string, int>, nextCol: int)
    reads ws
  {
    ws.Valid() && 1 <= g.maxCol && 0 <= i <= |required|
    && (added, headers) == AppendPass(norm, found, g.maxCol + 1, required, i)
    && nextCol == g.maxCol + 1 + |added| && ws.maxCol == nextCol - 1
    && GridOf(ws) == PutHeaders(g, g.maxCol + 1, added)
  }

  /** The writing step of the appending loop: required header `i`, whose key is not mapped yet,
      goes into column `nextCol` and into the map, and `nextCol` moves on. */
  method AppendOne(ws: Sheet, ghost g: Grid, norm: Value -> string, ghost found: map<string, int>,
                   required: seq<string>, i: int, ghost added: seq<string>, headers: map<string, int>, nextCol: int)
    returns (ghost added': seq<string>, headers': map<string, int>, nextCol': int)
    requires Appending(ws, g, norm, found, required, i, added, headers, nextCol) && i < |required|
    requires NameKey(norm, required[i]) !in headers
    modifies ws
    ensures Appending(ws, g, norm, found, required, i + 1, added', headers', nextCol')
    ensures ws.images == old(ws.images)
  {
    AppendPassStep(norm, found, g.maxCol + 1, required, i, added, headers, nextCol);
    PutHeadersSnoc(g, g.maxCol + 1, added, required[i], nextCol);
    ghost var before := GridOf(ws);
    ws.Write(1, nextCol, Str(required[i]));
    assert GridOf(ws) == Put(before, 1, nextCol, Str(required[i]));
    added' := added + [required[i]];
    headers' := headers[NameKey(norm, required[i]) := nextCol];
    nextCol' := nextCol + 1;
    assert AppendPass(norm, found, g.maxCol + 1, required, i + 1) == (added', headers');
    assert GridOf(ws) == PutHeaders(g, g.maxCol + 1, added');
  }

  /** The skipping step: a required header whose key is mapped already changes nothing. */
  lemma SkipOne(ws: Sheet, g: Grid, norm: Value -> string, found: map<string, int>, required: seq<string>,
                i: int, added: seq<string>, headers: map<string, int>, nextCol: int)
    requires Appending(ws, g, norm, found, required, i, added, headers, nextCol) && i < |required|
    requires NameKey(norm, required[i]) in headers
    ensures Appending(ws, g, norm, found, required, i + 1, added, headers, nextCol)
  {
    AppendPassStep(norm, found, g.maxCol + 1, required, i, added, headers, nextCol);
  }

  /** The loop ends with the sheet and the map of the whole pass. */
  lemma AppendingDone(ws: Sheet, g: Grid, norm: Value -> string, found: map<string, int>, required: seq<string>,
                      added: seq<string>, headers: map<string, int>, nextCol: int)
    requires Appending(ws, g, norm, found, required, |required|, added, headers, nextCol)
    ensures (GridOf(ws), headers) == AppendOnto(norm, g, required, found)
  {
  }

  /** The second branch: each required header whose key is not mapped yet goes into the next
      column after `max_column` and into the map. */
  method AppendMissingHeaders(ws: Sheet, required: seq<string>, norm: Value -> string, found: map<string, int>)
    returns (headers: map<string, int>)
    requires ws.Valid()
    modifies ws
    ensures ws.Valid() && ws.images == old(ws.images)
    ensures (GridOf(ws), headers) == AppendOnto(norm, old(GridOf(ws)), required, found)
  {
    ghost var g := GridOf(ws);
    headers := found;
    var nextCol := ws.maxCol + 1;
    ghost var added: seq<string> := [];
    for i := 0 to |required|
      invariant Appending(ws, g, norm, found, required, i, added, headers, nextCol)
      invariant ws.images == old(ws.images)
    {
      var key := NameKey(norm, required[i]);
      if key !in headers {
        added, headers, nextCol := AppendOne(ws, g, norm, found, required, i, added, headers, nextCol);
      } else {
        SkipOne(ws, g, norm, found, required, i, added, headers, nextCol);
      }
    }
    AppendingDone(ws, g, norm, found, required, added, headers, nextCol);
  }

  /** `_ensure_headers`. */
  method EnsureHeaders(ws: Sheet, required: seq<string>, norm: Value -> string) returns (headers: map<string, int>)
    requires ws.Valid()
    modifies ws
    ensures ws.Valid() && ws.images == old(ws.images)
    ensures (GridOf(ws), headers) == EnsuredHeaders(norm, old(GridOf(ws)), required)
  {
    headers := BuildHeaderMap(ws, 1, norm);
    if |headers| == 0 {
      FillHeaderRow(ws, required);
      headers := BuildHeaderMap(ws, 1, norm);
    } else {
      headers := AppendMissingHeaders(ws, required, norm, headers);
    }
  }
}
