/** The `PIP_ONLY_BINARY` merge of `_pip_install` (`venv_setup_wizard.py`): the names already in
    the variable and the names a call insists on, de-duplicated, sorted and joined by commas. */
module OnlyBinary {
  import opened Text

  /** Python's `<` on `str`: lexicographic by code point, a proper prefix first. */
  predicate StrLt(a: string, b: string)
    decreases |a|
  {
    if b == [] then false
    else if a == [] then true
    else a[0] < b[0] || (a[0] == b[0] && StrLt(a[1..], b[1..]))
  }

  lemma {:induction false} StrLtIrreflexive(a: string)
    ensures !StrLt(a, a)
  {
    if a != [] {
      StrLtIrreflexive(a[1..]);
    }
  }

  lemma {:induction false} StrLtTransitive(a: string, b: string, c: string)
    requires StrLt(a, b) && StrLt(b, c)
    ensures StrLt(a, c)
    decreases |a|
  {
    if a != [] && a[0] == b[0] && b[0] == c[0] {
      StrLtTransitive(a[1..], b[1..], c[1..]);
    }
  }

  /** Any two different strings are ordered one way or the other. */
  lemma {:induction false} StrLtTotal(a: string, b: string)
    requires a != b
    ensures StrLt(a, b) || StrLt(b, a)
    decreases |a|
  {
    if a != [] && b != [] && a[0] == b[0] {
      assert a == [a[0]] + a[1..] && b == [b[0]] + b[1..];
      StrLtTotal(a[1..], b[1..]);
    }
  }

  /** Every name comes strictly before the ones after it, so none appears twice. */
  predicate StrictlySorted(xs: seq<string>) {
    forall i, j :: 0 <= i < j < |xs| ==> StrLt(xs[i], xs[j])
  }

  /** `x` placed into a strictly sorted list, unless the list already holds it. */
  function InsertUnique(x: string, xs: seq<string>): (r: seq<string>)
    ensures forall y :: y in r <==> y == x || y in xs
  {
    if xs == [] then [x]
    else if x == xs[0] then xs
    else if StrLt(x, xs[0]) then [x] + xs
    else [xs[0]] + InsertUnique(x, xs[1..])
  }

  lemma {:induction false} InsertUniqueSorted(x: string, xs: seq<string>)
    requires StrictlySorted(xs)
    ensures StrictlySorted(InsertUnique(x, xs))
  {
    if xs == [] || x == xs[0] {
    } else if StrLt(x, xs[0]) {
      var r := [x] + xs;
      forall i, j | 0 <= i < j < |r| ensures StrLt(r[i], r[j]) {
        if i == 0 && j > 1 {
          StrLtTransitive(x, xs[0], xs[j - 1]);
        }
      }
    } else {
      var rest := InsertUnique(x, xs[1..]);
      InsertUniqueSorted(x, xs[1..]);
      StrLtTotal(x, xs[0]);
      var r := [xs[0]] + rest;
      forall i, j | 0 <= i < j < |r| ensures StrLt(r[i], r[j]) {
        if i == 0 {
          assert r[j] in rest;
          if r[j] != x {
            var k :| 1 <= k < |xs| && xs[k] == r[j];
          }
        } else {
          assert r[i] == rest[i - 1] && r[j] == rest[j - 1];
        }
      }
    }
  }

  /** `sorted(set(xs))`: the names of `xs`, each once, in Python's string order. */
  function SortedSet(xs: seq<string>): seq<string> {
    if xs == [] then [] else InsertUnique(xs[|xs| - 1], SortedSet(xs[..|xs| - 1]))
  }

  /** The sorted set is strictly sorted and holds exactly the names of the list. */
  lemma {:induction false} SortedSetSpec(xs: seq<string>)
    ensures StrictlySorted(SortedSet(xs))
    ensures forall y :: y in SortedSet(xs) <==> y in xs
  {
    if xs != [] {
      var init := xs[..|xs| - 1];
      SortedSetSpec(init);
      InsertUniqueSorted(xs[|xs| - 1], SortedSet(init));
      assert xs == init + [xs[|xs| - 1]];
    }
  }

  /** Two strictly sorted lists with the same names are the same list, so the sorted set is
      the only list with the two properties of `SortedSetSpec`. */
  lemma {:induction false} SortedUnique(xs: seq<string>, ys: seq<string>)
    requires StrictlySorted(xs) && StrictlySorted(ys)
    requires forall y :: y in xs <==> y in ys
    ensures xs == ys
  {
    if xs != [] {
      assert xs[0] in ys;
    }
    if ys != [] {
      assert ys[0] in xs;
    }
    if xs != [] {
      if xs[0] != ys[0] {
        assert xs[0] in xs && ys[0] in ys;
        var j :| 0 <= j < |ys| && ys[j] == xs[0];
        var i :| 0 <= i < |xs| && xs[i] == ys[0];
        StrLtTransitive(xs[0], ys[0], xs[0]);
        StrLtIrreflexive(xs[0]);
      }
      forall y ensures y in xs[1..] <==> y in ys[1..] {
        RestMembers(xs, y);
        RestMembers(ys, y);
      }
      SortedUnique(xs[1..], ys[1..]);
      assert xs == [xs[0]] + xs[1..] && ys == [ys[0]] + ys[1..];
    }
  }

  /** The rest of a strictly sorted list holds its names other than the first. */
  lemma RestMembers(xs: seq<string>, y: string)
    requires xs != [] && StrictlySorted(xs)
    ensures y in xs[1..] <==> y in xs && y != xs[0]
  {
    if y in xs[1..] {
      var k :| 0 <= k < |xs[1..]| && xs[1..][k] == y;
      assert StrLt(xs[0], xs[k + 1]);
      StrLtIrreflexive(y);
    }
    if y in xs && y != xs[0] {
      var k :| 0 <= k < |xs| && xs[k] == y;
      assert xs[1..][k - 1] == y;
    }
  }

  /** `",".join(xs)`. */
  function JoinComma(xs: seq<string>): string {
    if xs == [] then "" else if |xs| == 1 then xs[0] else xs[0] + "," + JoinComma(xs[1..])
  }

  /** Joining names that hold no comma and splitting the result on commas gives them back. */
  lemma {:induction false} SplitJoin(xs: seq<string>)
    requires xs != [] && forall i :: 0 <= i < |xs| ==> ',' !in xs[i]
    ensures Split(JoinComma(xs), ',') == xs
  {
    if |xs| > 1 {
      SplitCons(xs[0], ',', JoinComma(xs[1..]));
      assert forall i :: 0 <= i < |xs[1..]| ==> xs[1..][i] == xs[i + 1];
      SplitJoin(xs[1..]);
      assert xs == [xs[0]] + xs[1..];
    }
  }

  /** The environment variable the merge reads and writes. */
  const OnlyBinaryKey: string := "PIP_ONLY_BINARY"

  /** The names already asked for: the variable's value (empty when unset) with commas and
      spaces stripped from both ends and split on commas, or none when nothing is left. */
  function CurrentNames(env: map<string, string>): (r: seq<string>)
    ensures forall i :: 0 <= i < |r| ==> ',' !in r[i]
  {
    var current := StripChars(if OnlyBinaryKey in env then env[OnlyBinaryKey] else "", {',', ' '});
    if current != "" then Split(current, ',') else []
  }

  /** The environment `_pip_install` hands to pip: unchanged when no wheel-only names are
      asked for; otherwise `PIP_ONLY_BINARY` is set to the comma-joined, sorted set of the
      current names and the requested ones, and no other variable changes. */
  method PipEnv(env: map<string, string>, onlyBinary: seq<string>) returns (r: map<string, string>)
    ensures onlyBinary == [] ==> r == env
    ensures onlyBinary != [] ==> r == env[OnlyBinaryKey := JoinComma(SortedSet(CurrentNames(env) + onlyBinary))]
  {
    r := env;
    if onlyBinary != [] {
      var current := StripChars(if OnlyBinaryKey in env then env[OnlyBinaryKey] else "", {',', ' '});
      var names := if current != "" then Split(current, ',') else [];
      var merged := JoinComma(SortedSet(names + onlyBinary));
      r := r[OnlyBinaryKey := merged];
    }
  }

  /** When the requested names hold no comma, the merged value splits back into a strictly
      sorted list holding exactly the current names and the requested ones, each once. */
  lemma MergedNames(env: map<string, string>, onlyBinary: seq<string>)
    requires onlyBinary != [] && forall i :: 0 <= i < |onlyBinary| ==> ',' !in onlyBinary[i]
    ensures var names := Split(JoinComma(SortedSet(CurrentNames(env) + onlyBinary)), ',');
      StrictlySorted(names)
      && forall y :: y in names <==> y in CurrentNames(env) || y in onlyBinary
  {
    var all := CurrentNames(env) + onlyBinary;
    var sorted := SortedSet(all);
    SortedSetSpec(all);
    assert onlyBinary[0] in all;
    forall i | 0 <= i < |sorted| ensures ',' !in sorted[i] {
      assert sorted[i] in all;
    }
    SplitJoin(sorted);
  }
}
