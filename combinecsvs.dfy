/** The sheet-name helpers of `combine_csvs.py`: Excel-safe sheet names, made unique against
    the names already used, and a case-insensitive column lookup. */
module CombineCsvs {
  import opened Wrappers
  import opened Text

  /** Excel's limit on the length of a sheet name. */
  const MaxSheetName := 31

  /** The characters Excel refuses in a sheet name: `: \ / ? * [ ]`. */
  predicate Forbidden(c: char) {
    c == ':' || c == '\\' || c == '/' || c == '?' || c == '*' || c == '[' || c == ']'
  }

  function Min(a: int, b: int): int {
    if a <= b then a else b
  }

  /** `sanitize_sheet_name`: every forbidden character becomes `_`, then the name is cut to 31
      characters. */
  function Sanitize(name: string): (r: string)
    ensures |r| == Min(|name|, MaxSheetName)
    ensures forall i :: 0 <= i < |r| ==> !Forbidden(r[i])
    ensures forall i :: 0 <= i < |r| ==> r[i] == name[i] || (Forbidden(name[i]) && r[i] == '_')
  {
    var cleaned := seq(|name|, i requires 0 <= i < |name| => if Forbidden(name[i]) then '_' else name[i]);
    cleaned[..Min(|name|, MaxSheetName)]
  }

  /** A name that is already short enough and free of forbidden characters is kept as it is. */
  lemma SanitizeKeepsSafe(name: string)
    requires |name| <= MaxSheetName && forall i :: 0 <= i < |name| ==> !Forbidden(name[i])
    ensures Sanitize(name) == name
  {
  }

  /** Sanitising twice is sanitising once. */
  lemma SanitizeIdempotent(name: string)
    ensures Sanitize(Sanitize(name)) == Sanitize(name)
  {
    SanitizeKeepsSafe(Sanitize(name));
  }

  /** Python's `s[:j]`: a negative `j` counts from the end, and the cut never goes past either
      end. */
  function SliceTo(s: string, j: int): (r: string)
    ensures |r| <= |s| && r == s[..|r|]
    ensures 0 <= j <= |s| ==> |r| == j
  {
    if j >= |s| then s else if j >= 0 then s[..j] else if |s| + j >= 0 then s[..|s| + j] else []
  }

  /** The `k`-th candidate `make_unique` tries: `base` with `_k` appended, `base` cut first when
      the whole would exceed 31 characters. */
  function Candidate(base: string, k: nat): string {
    var tail := "_" + NatStr(k);
    if |base| + |tail| > MaxSheetName then SliceTo(base, MaxSheetName - |tail|) + tail else base + tail
  }

  /** A candidate is a prefix of `base`, then `_`, then the decimal text of `k`. */
  lemma CandidateShape(base: string, k: nat)
    ensures var c := Candidate(base, k); var x := |c| - |NatStr(k)| - 1;
      0 <= x <= |base| && c[..x] == base[..x] && c[x] == '_' && c[x + 1..] == NatStr(k)
  {
  }

  /** While `_k` itself fits in 31 characters, a candidate made from a base of at most 31
      characters has at most 31; it is `base_k` itself whenever that fits. */
  lemma CandidateLength(base: string, k: nat)
    requires |base| <= MaxSheetName && |NatStr(k)| < MaxSheetName
    ensures |Candidate(base, k)| <= MaxSheetName
    ensures |base| + 1 + |NatStr(k)| <= MaxSheetName ==> Candidate(base, k) == base + "_" + NatStr(k)
  {
  }

  /** Different counters give different candidates, so the loop never tries a name twice. */
  lemma CandidateInjective(base: string, j: nat, k: nat)
    requires j != k
    ensures Candidate(base, j) != Candidate(base, k)
  {
    var cj, ck := Candidate(base, j), Candidate(base, k);
    var dj, dk := NatStr(j), NatStr(k);
    CandidateShape(base, j);
    CandidateShape(base, k);
    if cj == ck {
      if |dj| == |dk| {
        assert dj == cj[|cj| - |dj|..] == dk;
        NatStrInjective(j, k);
      }
    }
  }

  /** The candidates with a counter below `k`. */
  ghost function Tried(base: string, k: nat): set<string> {
    set j: nat | 1 <= j < k :: Candidate(base, j)
  }

  /** The names already given to sheets of the workbook being built. */
  class SheetNames {
    var existing: set<string>

    constructor ()
      ensures existing == {}
    {
      existing := {};
    }

    /** `make_unique`: `name` if it is free, otherwise the first free candidate `name_1`,
        `name_2`, ...; the name returned is added to the used names. */
    method MakeUnique(name: string) returns (r: string)
      modifies this
      ensures r !in old(existing) && existing == old(existing) + {r}
      ensures name !in old(existing) ==> r == name
      ensures name in old(existing) ==>
        exists k: nat :: 1 <= k && r == Candidate(name, k) && forall j: nat :: 1 <= j < k ==> Candidate(name, j) in old(existing)
    {
      var base := name;
      var suffix: nat := 1;
      r := name;
      while r in existing
        invariant existing == old(existing)
        invariant suffix >= 1
        invariant suffix == 1 ==> r == base
        invariant suffix > 1 ==> r == Candidate(base, suffix - 1) && base in existing
        invariant forall j: nat :: 1 <= j < suffix - 1 ==> Candidate(base, j) in existing
        decreases |existing - Tried(base, suffix)| + (if r in existing then 1 else 0)
      {
        var tail := "_" + NatStr(suffix);
        r := if |base| + |tail| > MaxSheetName then SliceTo(base, MaxSheetName - |tail|) + tail else base + tail;
        TriedMeasure(base, suffix, existing);
        suffix := suffix + 1;
      }
      if name in existing {
        var k := suffix - 1;
        assert 1 <= k && r == Candidate(name, k) && forall j: nat :: 1 <= j < k ==> Candidate(name, j) in existing;
      }
      existing := existing + {r};
    }
  }

  /** One more counter adds its candidate to the tried names, and that candidate is new. */
  lemma TriedGrows(base: string, k: nat)
    requires k >= 1
    ensures Tried(base, k + 1) == Tried(base, k) + {Candidate(base, k)}
    ensures Candidate(base, k) !in Tried(base, k)
  {
    forall j: nat | 1 <= j < k
      ensures Candidate(base, j) != Candidate(base, k)
    {
      CandidateInjective(base, j, k);
    }
  }

  /** Trying one more candidate leaves one fewer used name to try when it was used. */
  lemma TriedMeasure(base: string, k: nat, e: set<string>)
    requires k >= 1
    ensures Candidate(base, k) in e ==> |e - Tried(base, k + 1)| == |e - Tried(base, k)| - 1
    ensures Candidate(base, k) !in e ==> |e - Tried(base, k + 1)| == |e - Tried(base, k)|
  {
    TriedGrows(base, k);
    var c, t := Candidate(base, k), Tried(base, k);
    if c in e {
      assert e - (t + {c}) == (e - t) - {c};
    } else {
      assert e - (t + {c}) == e - t;
    }
  }

  /** `{c.lower(): c for c in columns}`: each lower-cased column name maps to the last column
      with that lower-case form. */
  function LowerMap(columns: seq<string>): (m: map<string, string>)
    ensures forall c :: c in m <==> exists i :: 0 <= i < |columns| && Lower(columns[i]) == c
  {
    if columns == [] then map[]
    else
      var init := columns[..|columns| - 1];
      var last := columns[|columns| - 1];
      var m0 := LowerMap(init);
      assert forall i :: 0 <= i < |init| ==> init[i] == columns[i];
      m0[Lower(last) := last]
  }

  /** The map holds, for each key, the last column whose lower-case form is that key. */
  lemma {:induction false} LowerMapLast(columns: seq<string>, i: int)
    requires 0 <= i < |columns|
    requires forall j :: i < j < |columns| ==> Lower(columns[j]) != Lower(columns[i])
    ensures LowerMap(columns)[Lower(columns[i])] == columns[i]
  {
    if i < |columns| - 1 {
      var init := columns[..|columns| - 1];
      assert init[i] == columns[i];
      forall j | i < j < |init|
        ensures Lower(init[j]) != Lower(init[i])
      {
        assert init[j] == columns[j];
      }
      LowerMapLast(init, i);
    }
  }

  /** `find_cols_case_insensitive`: the column whose lower-case form is the target's, or `None`. */
  function FindColumn(columns: seq<string>, target: string): Option<string> {
    var m := LowerMap(columns);
    if Lower(target) in m then Some(m[Lower(target)]) else None
  }

  /** The lookup finds a column exactly when one matches the target ignoring ASCII case, and
      then it is the last such column. */
  lemma FindColumnSpec(columns: seq<string>, target: string)
    ensures FindColumn(columns, target).None? <==> forall i :: 0 <= i < |columns| ==> Lower(columns[i]) != Lower(target)
    ensures forall i ::
      (0 <= i < |columns| && Lower(columns[i]) == Lower(target)
       && (forall j :: i < j < |columns| ==> Lower(columns[j]) != Lower(target)))
      ==> FindColumn(columns, target) == Some(columns[i])
  {
    forall i | 0 <= i < |columns| && Lower(columns[i]) == Lower(target)
      && (forall j :: i < j < |columns| ==> Lower(columns[j]) != Lower(target))
      ensures FindColumn(columns, target) == Some(columns[i])
    {
      LowerMapLast(columns, i);
    }
  }
}
