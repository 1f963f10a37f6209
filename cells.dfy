/** Spreadsheet cells and worksheets as the scripts see them through openpyxl: a cell value
    is one of the Python values openpyxl hands back, and a worksheet is the map from
    (row, column) to the cells it holds, with openpyxl's `max_row` and `max_column`. */
module Cells {
  import opened Wrappers
  import opened Text
  import opened Dates
  import opened DateText

  /** A cell value. `Number` is a Python float together with the text `str()` shows for it;
      `DateTime` is a `datetime` at midnight, `DateOnly` a `date`. */
  datatype Value =
    | Blank                           // None
    | Str(s: string)
    | Int(i: int)
    | Number(x: real, shown: string)
    | Bool(b: bool)
    | DateTime(date: Date)
    | DateOnly(date: Date)

  /** Python's `str(v)`. */
  function ToStr(v: Value): string {
    match v
    case Blank => "None"
    case Str(s) => s
    case Int(i) => IntStr(i)
    case Number(_, shown) => shown
    case Bool(b) => if b then "True" else "False"
    case DateTime(d) => IsoText(d) + " 00:00:00"
    case DateOnly(d) => IsoText(d)
  }

  /** Python's `float(v)`, or `None` where it raises. */
  function ToFloat(v: Value): Option<real> {
    match v
    case Blank => None
    case Str(s) => ParseDecimal(s)
    case Int(i) => Some(i as real)
    case Number(x, _) => Some(x)
    case Bool(b) => Some(if b then 1.0 else 0.0)
    case DateTime(_) => None
    case DateOnly(_) => None
  }

  /** Python truthiness of a cell value. */
  predicate Truthy(v: Value) {
    match v
    case Blank => false
    case Str(s) => s != ""
    case Int(i) => i != 0
    case Number(x, _) => x != 0.0
    case Bool(b) => b
    case DateTime(_) => true
    case DateOnly(_) => true
  }

  /** `v is None or v == ""`. */
  predicate IsNoneOrEmpty(v: Value) {
    v == Blank || v == Str("")
  }

  /** The first row `r` in `lo..hi` with `p(r)`: the row scans of the scripts
      (`for r in range(lo, hi + 1): if p(r): ...`). */
  function FirstRow(p: int -> bool, lo: int, hi: int): (r: Option<int>)
    ensures r.Some? ==> lo <= r.value <= hi && p(r.value) && forall k :: lo <= k < r.value ==> !p(k)
    ensures r.None? ==> forall k :: lo <= k <= hi ==> !p(k)
    decreases hi - lo + 1
  {
    if lo > hi then None
    else if p(lo) then Some(lo)
    else FirstRow(p, lo + 1, hi)
  }

  /** A first-occurrence index over positions `1..k` (rows or columns) whose keys `key`
      gives: each non-empty key to the first position carrying it. */
  function IndexUpTo(key: int -> string, k: int): map<string, int>
    decreases if k > 0 then k else 0
  {
    if k <= 0 then map[] else AddFirst(IndexUpTo(key, k - 1), key(k), k)
  }

  /** `if key and key not in mapping: mapping[key] = r`. */
  function AddFirst(m: map<string, int>, key: string, r: int): map<string, int> {
    if key != "" && key !in m then m[key := r] else m
  }

  /** The index holds exactly the non-empty keys of positions `1..k`, each at its first position. */
  lemma {:induction false} IndexUpToSpec(key: int -> string, k: int)
    ensures forall s :: s in IndexUpTo(key, k) <==> s != "" && exists r :: 1 <= r <= k && key(r) == s
    ensures forall s :: s in IndexUpTo(key, k) ==>
      1 <= IndexUpTo(key, k)[s] <= k && key(IndexUpTo(key, k)[s]) == s
      && forall r :: 1 <= r < IndexUpTo(key, k)[s] ==> key(r) != s
    decreases if k > 0 then k else 0
  {
    if k > 0 {
      IndexUpToSpec(key, k - 1);
      var m := IndexUpTo(key, k - 1);
      var m' := IndexUpTo(key, k);
      var added := key(k);
      forall s | s != "" && exists r :: 1 <= r <= k && key(r) == s
        ensures s in m'
      {
        var r :| 1 <= r <= k && key(r) == s;
        if r < k {
          assert s in m;
        }
      }
      forall s | s in m'
        ensures 1 <= m'[s] <= k && key(m'[s]) == s
        ensures forall r :: 1 <= r < m'[s] ==> key(r) != s
      {
        if added != "" && added !in m {
          assert m' == m[added := k];
          if s != added {
            assert s in m && m'[s] == m[s];
          } else {
            assert forall r :: 1 <= r < k ==> key(r) != s;
          }
        } else {
          assert m' == m;
        }
      }
    }
  }

  /** The index depends only on the keys of positions `1..k`. */
  lemma {:induction false} IndexSameKeys(a: int -> string, b: int -> string, k: int)
    requires forall r :: 1 <= r <= k ==> a(r) == b(r)
    ensures IndexUpTo(a, k) == IndexUpTo(b, k)
    decreases if k > 0 then k else 0
  {
    if k > 0 {
      IndexSameKeys(a, b, k - 1);
    }
  }

  /** Two distinct keys of an index sit at distinct positions. */
  lemma IndexRowsDistinct(key: int -> string, k: int, a: string, b: string)
    requires a in IndexUpTo(key, k) && b in IndexUpTo(key, k) && a != b
    ensures IndexUpTo(key, k)[a] != IndexUpTo(key, k)[b]
  {
    IndexUpToSpec(key, k);
  }

  /** Where an embedded image is anchored: no anchor (or one without `_from`), an anchor
      whose row cannot be read, or a zero-based anchor row. */
  datatype Anchor = NoAnchor | BrokenAnchor | FromRow(row0: int)

  function Max(a: int, b: int): int {
    if a >= b then a else b
  }

  /** The value at (r, c) of a cell map; a missing cell reads as `None`. */
  function CellOf(m: map<(int, int), Value>, r: int, c: int): Value {
    if (r, c) in m then m[(r, c)] else Blank
  }

  /** A worksheet: its cells, openpyxl's `max_row` / `max_column` (at least 1, and exactly
      the largest row and column holding a cell when there is one) and its images. */
  class Sheet {
    var cells: map<(int, int), Value>
    var maxRow: int
    var maxCol: int
    var images: seq<Anchor>

    ghost predicate Valid()
      reads this
    {
      1 <= maxRow && 1 <= maxCol
      && (forall p :: p in cells ==> 1 <= p.0 <= maxRow && 1 <= p.1 <= maxCol)
      && (maxRow == 1 || exists p :: p in cells && p.0 == maxRow)
      && (maxCol == 1 || exists p :: p in cells && p.1 == maxCol)
    }

    /** `ws.cell(row=r, column=c).value`. */
    function Cell(r: int, c: int): Value
      reads this
    {
      CellOf(cells, r, c)
    }

    /** A new, empty worksheet. */
    constructor Empty()
      ensures Valid()
      ensures cells == map[] && maxRow == 1 && maxCol == 1 && images == []
    {
      cells := map[];
      maxRow := 1;
      maxCol := 1;
      images := [];
    }

    /** `ws.cell(row=r, column=c).value = v`: the cell is created if needed and the sheet's
        extent grows to include it. */
    method Write(r: int, c: int, v: Value)
      requires Valid() && 1 <= r && 1 <= c
      modifies this
      ensures Valid()
      ensures cells == old(cells)[(r, c) := v]
      ensures maxRow == Max(old(maxRow), r) && maxCol == Max(old(maxCol), c)
      ensures images == old(images)
    {
      cells := cells[(r, c) := v];
      maxRow := Max(maxRow, r);
      maxCol := Max(maxCol, c);
      assert (r, c) in cells;
    }

    /** `ws.delete_rows(1, k)`: rows 1..k go, every later row moves up by `k`. openpyxl first
        materialises every cell of the moved rows, so the remaining block is full. */
    method DeleteTopRows(k: int)
      requires Valid() && k >= 1
      modifies this
      ensures Valid()
      ensures maxRow == (if old(maxRow) > k then old(maxRow) - k else 1)
      ensures maxCol == (if old(maxRow) > k then old(maxCol) else 1)
      ensures forall r, c :: 1 <= r && 1 <= c ==> Cell(r, c) == CellOf(old(cells), r + k, c)
      ensures images == old(images)
    {
      var before := cells;
      var rows := if maxRow > k then maxRow - k else 0;
      var keys := set r: int, c: int | 1 <= r <= rows && 1 <= c <= maxCol :: (r, c);
      cells := map p | p in keys :: CellOf(before, p.0 + k, p.1);
      if rows > 0 {
        assert (rows, 1) in keys;
        assert (1, maxCol) in keys;
        maxRow := rows;
      } else {
        maxRow := 1;
        maxCol := 1;
      }
      forall r, c | 1 <= r && 1 <= c
        ensures Cell(r, c) == CellOf(before, r + k, c)
      {
        if rows == 0 {
          assert (r + k, c) !in before;
        }
      }
    }
  }
}
