/** The package-list logic of `venv_setup_wizard.py`: the project name of a pip requirement,
    the "major.minor" form of a Python version, the order in which a GeoPandas stack is
    installed, the split of that order into two pip calls, and the `PIP_ONLY_BINARY` value
    the first call runs with. */
module VenvWizard {
  import opened Wrappers
  import opened Text

  // ---------------------------------------------------------------------------------------
  // `_pkg_name`

  /** The separators `_pkg_name` tries, in this order. */
  const Separators: seq<string> := ["==", ">=", "<=", "~=", "!=", ">", "<", "[", " "]

  /** The name cut at the first separator of `seps` that occurs in `s` at a positive index;
      `s` itself when none does. */
  function NameFrom(s: string, seps: seq<string>): string {
    if seps == [] then Lower(s)
    else
      var i := Find(s, seps[0]);
      if i > 0 then
        assert i < |s| by { assert OccursAt(s, seps[0], i); }
        Lower(Strip(s[..i]))
      else NameFrom(s, seps[1..])
  }

  /** `_pkg_name(spec)`: the lower-cased project name of a requirement such as
      `"Shapely>=2.0,<3"`. It is always a lower-cased prefix of the stripped spec (itself
      stripped when it is cut). */
  function PkgName(spec: string): string {
    NameFrom(Strip(spec), Separators)
  }

  /** The name is the whole text or a cut of it at a positive index, then lower-cased. */
  lemma {:induction false} NameFromPrefix(s: string, seps: seq<string>)
    ensures NameFrom(s, seps) == Lower(s) || exists j :: 0 < j < |s| && NameFrom(s, seps) == Lower(Strip(s[..j]))
  {
    if seps != [] {
      var i := Find(s, seps[0]);
      if i > 0 {
        assert OccursAt(s, seps[0], i);
      } else {
        NameFromPrefix(s, seps[1..]);
      }
    }
  }

  /** `_pkg_name` returns a lower-cased prefix of the stripped spec, itself stripped when the
      spec is cut at a separator. */
  lemma PkgNamePrefix(spec: string)
    ensures PkgName(spec) == Lower(Strip(spec))
      || exists j :: 0 < j < |Strip(spec)| && PkgName(spec) == Lower(Strip(Strip(spec)[..j]))
  {
    NameFromPrefix(Strip(spec), Separators);
  }

  /** The scan stops at the first separator of the list found at a positive index. */
  lemma {:induction false} NameFromFirst(s: string, seps: seq<string>, k: nat)
    requires k < |seps|
    requires forall t :: 0 <= t < k ==> Find(s, seps[t]) <= 0
    requires Find(s, seps[k]) > 0
    ensures 0 < Find(s, seps[k]) < |s|
    ensures NameFrom(s, seps) == Lower(Strip(s[..Find(s, seps[k])]))
  {
    assert OccursAt(s, seps[k], Find(s, seps[k]));
    if k > 0 {
      assert Find(s, seps[0]) <= 0;
      assert forall t :: 0 <= t < k - 1 ==> seps[1..][t] == seps[t + 1];
      NameFromFirst(s, seps[1..], k - 1);
    }
  }

  /** With no separator of the list at a positive index the whole text is the name. */
  lemma {:induction false} NameFromNone(s: string, seps: seq<string>)
    requires forall t :: 0 <= t < |seps| ==> Find(s, seps[t]) <= 0
    ensures NameFrom(s, seps) == Lower(s)
  {
    if seps != [] {
      assert Find(s, seps[0]) <= 0;
      assert forall t :: 0 <= t < |seps| - 1 ==> seps[1..][t] == seps[t + 1];
      NameFromNone(s, seps[1..]);
    }
  }

  /** The name is decided by the first separator IN THE LIST that occurs at a positive index,
      wherever it occurs: a separator earlier in the text does not win over it. */
  lemma PkgNameFirstSeparator(spec: string, k: nat)
    requires k < |Separators|
    requires forall t :: 0 <= t < k ==> Find(Strip(spec), Separators[t]) <= 0
    requires Find(Strip(spec), Separators[k]) > 0
    ensures 0 < Find(Strip(spec), Separators[k]) < |Strip(spec)|
    ensures PkgName(spec) == Lower(Strip(Strip(spec)[..Find(Strip(spec), Separators[k])]))
  {
    NameFromFirst(Strip(spec), Separators, k);
  }

  /** When no separator occurs at a positive index the whole stripped spec is the name. */
  lemma PkgNameNoSeparator(spec: string)
    requires forall t :: 0 <= t < |Separators| ==> Find(Strip(spec), Separators[t]) <= 0
    ensures PkgName(spec) == Lower(Strip(spec))
  {
    NameFromNone(Strip(spec), Separators);
  }

  /** An example of the list order deciding: `"a<b==c"` is cut at `==`, not at the earlier
      `<`. */
  lemma PkgNameListOrder()
    ensures PkgName("a<b==c") == "a<b"
  {
    var s := "a<b==c";
    assert Strip(s) == s;
    assert OccursAt(s, "==", 3);
    assert s[0] == 'a' && s[1] == '<' && s[2] == 'b';
    assert !OccursAt(s, "==", 0) && !OccursAt(s, "==", 1) && !OccursAt(s, "==", 2);
    assert Find(s, Separators[0]) == 3;
    PkgNameFirstSeparator(s, 0);
    assert s[..3] == "a<b";
    assert Strip("a<b") == "a<b";
    LowerKeepsLower("a<b");
  }

  // ---------------------------------------------------------------------------------------
  // `_normalize_minor`

  /** "a.b" with both parts ASCII digits: the form `_normalize_minor` aims for. */
  predicate IsMinorForm(v: string) {
    exists i :: 0 <= i < |v| && v[i] == '.' && IsDigits(v[..i]) && IsDigits(v[i + 1..])
  }

  /** `_normalize_minor(ver)` on the text of `ver` (`str(ver)`; `None` stays `None`): blank
      gives `None`; `"a.b..."` with numeric `a` and `b` gives `"a.b"`; a run of two or more
      digits gives its first digit, a dot and the rest; one digit `d` gives `"d.0"`; anything
      else comes back stripped. */
  function NormalizeMinor(ver: Option<string>): (r: Option<string>)
    ensures r.None? <==> ver.None? || Strip(ver.value) == ""
  {
    if ver.None? then None
    else
      var s := Strip(ver.value);
      if s == "" then None
      else
        var parts := Split(s, '.');
        if |parts| >= 2 && IsDigits(parts[0]) && IsDigits(parts[1]) then Some(parts[0] + "." + parts[1])
        else if IsDigits(s) && |s| >= 2 then Some([s[0]] + "." + s[1..])
        else if IsDigits(s) then Some(s + ".0")
        else Some(s)
  }

  /** Two digit runs around a dot: stripped already, and split at the dot into the two runs. */
  lemma DigitsAroundDot(a: string, b: string)
    requires IsDigits(a) && IsDigits(b)
    ensures Strip(a + "." + b) == a + "." + b && IsMinorForm(a + "." + b)
    ensures Split(a + "." + b, '.') == [a, b]
  {
    var v := a + "." + b;
    assert v[0] == a[0] && v[|v| - 1] == b[|b| - 1];
    assert v[..|a|] == a && v[|a| + 1..] == b && v[|a|] == '.';
    StripTrimmed(v);
    NoDotInDigits(a);
    NoDotInDigits(b);
    assert a + "." + b == a + ['.'] + b;
    SplitTwo(a, '.', b);
  }

  lemma NoDotInDigits(a: string)
    requires IsDigits(a)
    ensures '.' !in a
  {
    assert forall i :: 0 <= i < |a| ==> a[i] != '.';
  }

  /** The "a.b" form is a fixed point. */
  lemma MinorFormFixed(a: string, b: string)
    requires IsDigits(a) && IsDigits(b)
    ensures NormalizeMinor(Some(a + "." + b)) == Some(a + "." + b)
  {
    DigitsAroundDot(a, b);
  }

  /** A version with a numeric leading component, or made of digits alone, normalises to the
      "a.b" form. */
  lemma NormalizeMinorForm(ver: string)
    requires var s := Strip(ver); IsDigits(s) || (|Split(s, '.')| >= 2 && IsDigits(Split(s, '.')[0]) && IsDigits(Split(s, '.')[1]))
    ensures NormalizeMinor(Some(ver)).Some? && IsMinorForm(NormalizeMinor(Some(ver)).value)
  {
    var s := Strip(ver);
    var parts := Split(s, '.');
    if |parts| >= 2 && IsDigits(parts[0]) && IsDigits(parts[1]) {
      JoinedMinorForm(parts[0], parts[1]);
    } else if |s| >= 2 {
      assert IsDigits([s[0]]) && IsDigits(s[1..]);
      JoinedMinorForm([s[0]], s[1..]);
    } else {
      assert IsDigits("0");
      JoinedMinorForm(s, "0");
      assert s + ".0" == s + "." + "0";
    }
  }

  lemma JoinedMinorForm(a: string, b: string)
    requires IsDigits(a) && IsDigits(b)
    ensures IsMinorForm(a + "." + b)
  {
    DigitsAroundDot(a, b);
  }

  /** Normalising a normalised version changes nothing. */
  lemma NormalizeMinorIdempotent(ver: Option<string>)
    ensures NormalizeMinor(NormalizeMinor(ver)) == NormalizeMinor(ver)
  {
    if NormalizeMinor(ver).Some? {
      var s := Strip(ver.value);
      var parts := Split(s, '.');
      if |parts| >= 2 && IsDigits(parts[0]) && IsDigits(parts[1]) {
        MinorFormFixed(parts[0], parts[1]);
      } else if IsDigits(s) && |s| >= 2 {
        assert IsDigits([s[0]]) && IsDigits(s[1..]);
        MinorFormFixed([s[0]], s[1..]);
      } else if IsDigits(s) {
        assert IsDigits("0");
        MinorFormFixed(s, "0");
        assert s + ".0" == s + "." + "0";
      } else {
        StripIdempotent(ver.value);
      }
    }
  }

  // ---------------------------------------------------------------------------------------
  // `_with_geopandas_strategy`

  /** `{_pkg_name(p): p for p in packages}`: each name maps to the last spec
      with that name (`name` is `_pkg_name`). */
  function NameMap(name: string -> string, packages: seq<string>): (m: map<string, string>)
    ensures forall n :: n in m <==> exists i :: 0 <= i < |packages| && name(packages[i]) == n
    ensures forall n :: n in m ==> m[n] in packages && name(m[n]) == n
  {
    if packages == [] then map[]
    else
      var init := packages[..|packages| - 1];
      var last := packages[|packages| - 1];
      assert forall i :: 0 <= i < |init| ==> init[i] == packages[i];
      assert forall x :: x in init ==> x in packages;
      NameMap(name, init)[name(last) := last]
  }

  /** The map holds, for each name, the last spec with that name. */
  lemma {:induction false} NameMapLast(name: string -> string, packages: seq<string>, i: int)
    requires 0 <= i < |packages|
    requires forall j :: i < j < |packages| ==> name(packages[j]) != name(packages[i])
    ensures NameMap(name, packages)[name(packages[i])] == packages[i]
  {
    if i < |packages| - 1 {
      var init := packages[..|packages| - 1];
      assert init[i] == packages[i];
      forall j | i < j < |init|
        ensures name(init[j]) != name(init[i])
      {
        assert init[j] == packages[j];
      }
      NameMapLast(name, init, i);
    }
  }

  /** `DEFAULT_GEO_STACK`, in its order: the package and the default version range. */
  const GeoStack: seq<(string, string)> := [("shapely", ">=2.0,<3"), ("pyproj", ">=3.6,<4"), ("pyogrio", ">=0.10.0")]

  /** The names kept out of the remaining specs. */
  const GeoNames: set<string> := {"shapely", "pyproj", "pyogrio", "geopandas"}

  /** The spec installed for one prerequisite: the user's when a spec names it, otherwise the
      name followed by the default range. */
  function Prereq(names: map<string, string>, base: string, defaultSpec: string): string {
    if base in names then names[base] else base + defaultSpec
  }

  function Prereqs(names: map<string, string>): (r: seq<string>)
    ensures |r| == |GeoStack|
  {
    seq(|GeoStack|, i requires 0 <= i < |GeoStack| => Prereq(names, GeoStack[i].0, GeoStack[i].1))
  }

  /** The specs in their order whose name is (`inside`) or is not (`!inside`) in `names`. */
  function Keep(name: string -> string, xs: seq<string>, names: set<string>, inside: bool): (r: seq<string>)
    ensures |r| <= |xs|
  {
    if xs == [] then []
    else (if (name(xs[0]) in names) == inside then [xs[0]] else []) + Keep(name, xs[1..], names, inside)
  }

  /** The filter keeps exactly the specs whose name falls on the chosen side. */
  lemma {:induction false} KeepMembers(name: string -> string, xs: seq<string>, names: set<string>, inside: bool)
    ensures forall x :: x in Keep(name, xs, names, inside) <==> x in xs && (name(x) in names) == inside
  {
    if xs != [] {
      KeepMembers(name, xs[1..], names, inside);
      assert xs == [xs[0]] + xs[1..];
    }
  }

  /** `xs` is `ys` with some specs left out, the rest in their order. */
  predicate IsSubseq(xs: seq<string>, ys: seq<string>)
    decreases |ys|
  {
    if xs == [] then true
    else if ys == [] then false
    else (xs[0] == ys[0] && IsSubseq(xs[1..], ys[1..])) || IsSubseq(xs, ys[1..])
  }

  lemma {:induction false} KeepIsSubseq(name: string -> string, xs: seq<string>, names: set<string>, inside: bool)
    ensures IsSubseq(Keep(name, xs, names, inside), xs)
  {
    if xs != [] {
      KeepIsSubseq(name, xs[1..], names, inside);
      var k, rest := Keep(name, xs, names, inside), Keep(name, xs[1..], names, inside);
      if (name(xs[0]) in names) == inside {
        assert k == [xs[0]] + rest && k[1..] == rest;
      } else {
        assert k == rest;
      }
    }
  }

  /** A spec list filtered both ways holds every spec exactly as often as the list does. */
  lemma {:induction false} KeepPartition(name: string -> string, xs: seq<string>, names: set<string>)
    ensures multiset(Keep(name, xs, names, true)) + multiset(Keep(name, xs, names, false)) == multiset(xs)
  {
    if xs != [] {
      var rest := xs[1..];
      KeepPartition(name, rest, names);
      assert xs == [xs[0]] + rest;
      var kin, kout := Keep(name, rest, names, true), Keep(name, rest, names, false);
      if name(xs[0]) in names {
        assert Keep(name, xs, names, true) == [xs[0]] + kin;
        assert Keep(name, xs, names, false) == kout;
      } else {
        assert Keep(name, xs, names, true) == kin;
        assert Keep(name, xs, names, false) == [xs[0]] + kout;
      }
    }
  }

  /** The order `_with_geopandas_strategy` returns when a spec names geopandas. */
  function GeoOrder(packages: seq<string>): seq<string>
    requires "geopandas" in NameMap(PkgName, packages)
  {
    var names := NameMap(PkgName, packages);
    Prereqs(names) + [names["geopandas"]] + Keep(PkgName, packages, GeoNames, false)
  }

  /** What `_install_packages` installs, in order. */
  function Ordered(packages: seq<string>): seq<string> {
    if "geopandas" in NameMap(PkgName, packages) then GeoOrder(packages) else packages
  }

  /** `_with_geopandas_strategy`. */
  method WithGeopandasStrategy(packages: seq<string>) returns (r: seq<string>)
    ensures r == Ordered(packages)
  {
    var names := NameMap(PkgName, packages);
    if "geopandas" !in names {
      return packages;
    }
    var prereqs := PrereqSpecs(names);
    var gpSpec := names["geopandas"];
    var others := OtherSpecs(packages);
    r := prereqs + [gpSpec] + others;
  }

  /** The loop over `DEFAULT_GEO_STACK` that collects the prerequisite specs. */
  method PrereqSpecs(names: map<string, string>) returns (prereqs: seq<string>)
    ensures prereqs == Prereqs(names)
  {
    prereqs := [];
    for i := 0 to |GeoStack|
      invariant |prereqs| == i
      invariant forall t :: 0 <= t < i ==> prereqs[t] == Prereqs(names)[t]
    {
      prereqs := prereqs + [Prereq(names, GeoStack[i].0, GeoStack[i].1)];
    }
  }

  /** `[spec for spec in packages if _pkg_name(spec) not in excluded]`. */
  method OtherSpecs(packages: seq<string>) returns (others: seq<string>)
    ensures others == Keep(PkgName, packages, GeoNames, false)
  {
    others := [];
    for i := 0 to |packages|
      invariant others == Keep(PkgName, packages[..i], GeoNames, false)
    {
      KeepPrefix(PkgName, packages, i, GeoNames, false);
      if PkgName(packages[i]) !in GeoNames {
        others := others + [packages[i]];
      }
    }
    assert packages[..|packages|] == packages;
  }

  lemma KeepPrefix(name: string -> string, xs: seq<string>, i: int, names: set<string>, inside: bool)
    requires 0 <= i < |xs|
    ensures Keep(name, xs[..i + 1], names, inside) == Keep(name, xs[..i], names, inside) + (if (name(xs[i]) in names) == inside then [xs[i]] else [])
  {
    assert xs[..i + 1] == xs[..i] + [xs[i]];
    KeepSnoc(name, xs[..i], xs[i], names, inside);
  }

  /** Filtering a list extended by one spec extends the filtered list by that spec when it
      qualifies. */
  lemma {:induction false} KeepSnoc(name: string -> string, xs: seq<string>, x: string, names: set<string>, inside: bool)
    ensures Keep(name, xs + [x], names, inside) == Keep(name, xs, names, inside) + (if (name(x) in names) == inside then [x] else [])
  {
    if xs != [] {
      assert (xs + [x])[1..] == xs[1..] + [x];
      KeepSnoc(name, xs[1..], x, names, inside);
    } else {
      assert Keep(name, [x][1..], names, inside) == [];
    }
  }

  /** The default prerequisite specs name their own packages. */
  lemma DefaultSpecNames()
    ensures forall t :: 0 <= t < |GeoStack| ==> PkgName(GeoStack[t].0 + GeoStack[t].1) == GeoStack[t].0
  {
    DefaultSpecName0();
    DefaultSpecName1();
    DefaultSpecName2();
  }

  lemma DefaultSpecName0()
    ensures PkgName(GeoStack[0].0 + GeoStack[0].1) == GeoStack[0].0
  {
    DefaultSpecName(GeoStack[0].0, GeoStack[0].1);
  }

  lemma DefaultSpecName1()
    ensures PkgName(GeoStack[1].0 + GeoStack[1].1) == GeoStack[1].0
  {
    DefaultSpecName(GeoStack[1].0, GeoStack[1].1);
  }

  lemma DefaultSpecName2()
    ensures PkgName(GeoStack[2].0 + GeoStack[2].1) == GeoStack[2].0
  {
    DefaultSpecName(GeoStack[2].0, GeoStack[2].1);
  }

  /** A lower-case name of letters followed by a range starting `>=` with no second `=`: the
      name is cut at the `>=`. */
  lemma DefaultSpecName(base: string, range: string)
    requires |base| > 0 && forall i :: 0 <= i < |base| ==> 'a' <= base[i] <= 'z'
    requires |range| > 2 && range[0] == '>' && range[1] == '=' && forall i :: 2 <= i < |range| ==> range[i] != '='
    requires !IsSpace(range[|range| - 1])
    ensures PkgName(base + range) == base
  {
    var s := base + range;
    assert s[0] == base[0] && s[|s| - 1] == range[|range| - 1];
    StripTrimmed(s);
    forall j | 0 <= j < |s| && j != |base| + 1
      ensures s[j] != '='
    {
      if j < |base| {
        assert s[j] == base[j];
      } else {
        assert s[j] == range[j - |base|];
      }
    }
    forall j | 0 <= j
      ensures !OccursAt(s, "==", j)
    {
      if j + 2 <= |s| {
        assert s[j..j + 2][0] == s[j] && s[j..j + 2][1] == s[j + 1];
      }
    }
    assert OccursAt(s, ">=", |base|) by { assert s[|base|..|base| + 2] == range[..2]; }
    forall j | 0 <= j < |base|
      ensures !OccursAt(s, ">=", j)
    {
      assert s[j] == base[j];
      assert s[j..j + 2][0] == s[j];
    }
    assert Find(s, Separators[0]) == -1;
    assert Find(s, Separators[1]) == |base|;
    PkgNameFirstSeparator(s, 1);
    assert s[..|base|] == base;
    assert Strip(base) == base by {
      assert !IsSpace(base[0]) && !IsSpace(base[|base| - 1]);
      StripTrimmed(base);
    }
    LowerKeepsLower(base);
  }

  /** With geopandas among the specs: shapely, pyproj and pyogrio come first (the user's spec
      when there is one, else the default), then the geopandas spec, then every other spec in
      its original order; each of the first four names its package. */
  lemma GeoOrderHead(packages: seq<string>)
    requires "geopandas" in NameMap(PkgName, packages)
    ensures var r, names := Ordered(packages), NameMap(PkgName, packages);
      |r| >= 4
      && (forall t :: 0 <= t < 3 ==> PkgName(r[t]) == GeoStack[t].0)
      && (forall t :: 0 <= t < 3 && GeoStack[t].0 in names ==> r[t] == names[GeoStack[t].0])
      && r[3] == names["geopandas"] && PkgName(r[3]) == "geopandas"
  {
    DefaultSpecNames();
  }

  /** The four specs at the head of the order all name geospatial packages. */
  lemma GeoOrderHeadGeo(packages: seq<string>)
    requires "geopandas" in NameMap(PkgName, packages)
    ensures |Ordered(packages)| >= 4 && forall t :: 0 <= t < 4 ==> PkgName(Ordered(packages)[t]) in GeoNames
  {
    GeoOrderHead(packages);
    var r := Ordered(packages);
    forall t | 0 <= t < 4 ensures PkgName(r[t]) in GeoNames {
      if t < 3 {
        StackNameGeo(t);
      }
    }
  }

  /** Each prerequisite of the stack is a geospatial name. */
  lemma StackNameGeo(t: int)
    requires 0 <= t < 3
    ensures GeoStack[t].0 in GeoNames
  {
    if t == 0 {
      assert GeoStack[0].0 == "shapely";
    } else if t == 1 {
      assert GeoStack[1].0 == "pyproj";
    } else {
      assert GeoStack[2].0 == "pyogrio";
    }
  }

  lemma GeoOrderTail(packages: seq<string>)
    requires "geopandas" in NameMap(PkgName, packages)
    ensures var r := Ordered(packages);
      |r| >= 4 && r[4..] == Keep(PkgName, packages, GeoNames, false)
      && IsSubseq(r[4..], packages)
      && (forall x :: x in r[4..] <==> x in packages && PkgName(x) !in GeoNames)
  {
    var r := Ordered(packages);
    assert r[4..] == Keep(PkgName, packages, GeoNames, false);
    KeepIsSubseq(PkgName, packages, GeoNames, false);
    KeepMembers(PkgName, packages, GeoNames, false);
  }

  // ---------------------------------------------------------------------------------------
  // `_install_packages`

  /** One `pip install` call: the specs, and the names whose wheels it insists on. */
  datatype PipCall = PipCall(pkgs: seq<string>, onlyBinary: seq<string>)

  /** The geospatial names `_install_packages` looks for, in its order. */
  const GeoTargetOrder: seq<string> := ["pyogrio", "shapely", "pyproj", "geopandas"]

  /** Some spec of the list has this name. */
  predicate HasName(name: string -> string, xs: seq<string>, n: string) {
    exists i :: 0 <= i < |xs| && name(xs[i]) == n
  }

  /** The candidates, in their order, that some spec names. */
  function NamedOf(name: string -> string, cands: seq<string>, xs: seq<string>): seq<string> {
    if cands == [] then []
    else (if HasName(name, xs, cands[0]) then [cands[0]] else []) + NamedOf(name, cands[1..], xs)
  }

  /** The candidates kept are exactly those some spec names. */
  lemma {:induction false} NamedOfMembers(name: string -> string, cands: seq<string>, xs: seq<string>)
    ensures forall n :: n in NamedOf(name, cands, xs) <==> n in cands && HasName(name, xs, n)
  {
    if cands != [] {
      NamedOfMembers(name, cands[1..], xs);
      assert cands == [cands[0]] + cands[1..];
    }
  }

  /** `geo_targets`. */
  function GeoTargets(ordered: seq<string>): seq<string> {
    NamedOf(PkgName, GeoTargetOrder, ordered)
  }

  /** `[p for p in xs if p not in ys]`. */
  function NotIn(xs: seq<string>, ys: seq<string>): seq<string> {
    if xs == [] then [] else (if xs[0] in ys then [] else [xs[0]]) + NotIn(xs[1..], ys)
  }

  /** When membership in `ys` is decided by the name, removing `ys` is filtering by name. */
  lemma {:induction false} NotInIsKeep(name: string -> string, xs: seq<string>, ys: seq<string>, names: set<string>)
    requires forall x :: x in xs ==> (x in ys <==> name(x) in names)
    ensures NotIn(xs, ys) == Keep(name, xs, names, false)
  {
    if xs != [] {
      assert xs[0] in xs;
      assert forall x :: x in xs[1..] ==> x in xs;
      NotInIsKeep(name, xs[1..], ys, names);
    }
  }

  /** `_install_packages(venv_python, packages)`: the pip calls it makes, in order. Nothing is
      installed for an empty list; otherwise the geospatial segment of the install order goes
      first, wheels only, and then the rest, each call made only when it has specs. */
  function InstallPlan(packages: seq<string>): seq<PipCall> {
    if packages == [] then []
    else
      var ordered := Ordered(packages);
      var targets := GeoTargets(ordered);
      var segment := Keep(PkgName, ordered, set n | n in targets, true);
      var rest := NotIn(ordered, segment);
      (if segment != [] then [PipCall(segment, targets)] else [])
        + (if rest != [] then [PipCall(rest, [])] else [])
  }

  /** The specs of the install order that name one of its geospatial targets are exactly those
      that name a geospatial package. */
  lemma TargetsAreGeoNames(ordered: seq<string>)
    ensures forall x :: x in ordered ==> (PkgName(x) in (set n | n in GeoTargets(ordered)) <==> PkgName(x) in GeoNames)
  {
    NamedOfMembers(PkgName, GeoTargetOrder, ordered);
    forall x | x in ordered
      ensures PkgName(x) in (set n | n in GeoTargets(ordered)) <==> PkgName(x) in GeoNames
    {
      var i :| 0 <= i < |ordered| && ordered[i] == x;
      assert HasName(PkgName, ordered, PkgName(x));
    }
  }

  /** The geospatial segment and the rest: the first holds, in order, the specs naming a
      geospatial package, the second the others in order, and together they hold every spec of
      the install order exactly as often as it does. */
  lemma InstallSplit(packages: seq<string>)
    requires packages != []
    ensures var ordered := Ordered(packages);
      var segment := Keep(PkgName, ordered, set n | n in GeoTargets(ordered), true);
      var rest := NotIn(ordered, segment);
      segment == Keep(PkgName, ordered, GeoNames, true) && rest == Keep(PkgName, ordered, GeoNames, false)
      && IsSubseq(segment, ordered) && IsSubseq(rest, ordered)
      && multiset(segment) + multiset(rest) == multiset(ordered)
  {
    var ordered := Ordered(packages);
    var ts := set n | n in GeoTargets(ordered);
    TargetsAreGeoNames(ordered);
    KeepSameNames(PkgName, ordered, ts, GeoNames, true);
    var segment := Keep(PkgName, ordered, ts, true);
    KeepMembers(PkgName, ordered, GeoNames, true);
    NotInIsKeep(PkgName, ordered, segment, GeoNames);
    KeepIsSubseq(PkgName, ordered, GeoNames, true);
    KeepIsSubseq(PkgName, ordered, GeoNames, false);
    KeepPartition(PkgName, ordered, GeoNames);
  }

  /** Two name sets that agree on the names of the list filter it alike. */
  lemma {:induction false} KeepSameNames(name: string -> string, xs: seq<string>, a: set<string>, b: set<string>, inside: bool)
    requires forall x :: x in xs ==> (name(x) in a <==> name(x) in b)
    ensures Keep(name, xs, a, inside) == Keep(name, xs, b, inside)
  {
    if xs != [] {
      assert xs[0] in xs;
      assert forall x :: x in xs[1..] ==> x in xs;
      KeepSameNames(name, xs[1..], a, b, inside);
    }
  }

  lemma {:induction false} KeepAppend(name: string -> string, xs: seq<string>, ys: seq<string>, names: set<string>, inside: bool)
    ensures Keep(name, xs + ys, names, inside) == Keep(name, xs, names, inside) + Keep(name, ys, names, inside)
  {
    if xs != [] {
      assert (xs + ys)[1..] == xs[1..] + ys;
      KeepAppend(name, xs[1..], ys, names, inside);
    } else {
      assert xs + ys == ys;
    }
  }

  /** A list all of whose specs qualify is kept whole. */
  lemma {:induction false} KeepAll(name: string -> string, xs: seq<string>, names: set<string>, inside: bool)
    requires forall t :: 0 <= t < |xs| ==> (name(xs[t]) in names) == inside
    ensures Keep(name, xs, names, inside) == xs
  {
    if xs != [] {
      assert forall t :: 0 <= t < |xs[1..]| ==> xs[1..][t] == xs[t + 1];
      KeepAll(name, xs[1..], names, inside);
      assert xs == [xs[0]] + xs[1..];
    }
  }

  /** A list none of whose specs qualify is dropped whole. */
  lemma {:induction false} KeepNone(name: string -> string, xs: seq<string>, names: set<string>, inside: bool)
    requires forall t :: 0 <= t < |xs| ==> (name(xs[t]) in names) != inside
    ensures Keep(name, xs, names, inside) == []
  {
    if xs != [] {
      assert forall t :: 0 <= t < |xs[1..]| ==> xs[1..][t] == xs[t + 1];
      KeepNone(name, xs[1..], names, inside);
    }
  }

  /** With geopandas among the specs, the install order is its four geospatial specs and then
      the others, so filtering it by geospatial name splits it there. */
  lemma GeoSegment(packages: seq<string>)
    requires "geopandas" in NameMap(PkgName, packages)
    ensures var ordered, others := Ordered(packages), Keep(PkgName, packages, GeoNames, false);
      |ordered| >= 4 && ordered == ordered[..4] + others
      && Keep(PkgName, ordered, GeoNames, true) == ordered[..4]
      && Keep(PkgName, ordered, GeoNames, false) == others
  {
    var ordered := Ordered(packages);
    GeoOrderHeadGeo(packages);
    GeoOrderRest(packages);
    KeepSplit(PkgName, ordered, 4, GeoNames);
  }

  /** Past its head, the install order holds the specs that name no geospatial package. */
  lemma GeoOrderRest(packages: seq<string>)
    requires "geopandas" in NameMap(PkgName, packages)
    ensures var r := Ordered(packages);
      |r| >= 4 && r == r[..4] + Keep(PkgName, packages, GeoNames, false)
      && forall t :: 4 <= t < |r| ==> PkgName(r[t]) !in GeoNames
  {
    var names := NameMap(PkgName, packages);
    var rest := Keep(PkgName, packages, GeoNames, false);
    var r := Ordered(packages);
    var head := Prereqs(names) + [names["geopandas"]];
    assert r == head + rest;
    assert r[..4] == head;
    KeepMembers(PkgName, packages, GeoNames, false);
    forall t | 4 <= t < |r|
      ensures PkgName(r[t]) !in GeoNames
    {
      assert r[t] == rest[t - 4];
      assert rest[t - 4] in rest;
    }
  }

  /** A list whose first `k` specs qualify and whose others do not is split there by the
      filter. */
  lemma KeepSplit(name: string -> string, xs: seq<string>, k: int, names: set<string>)
    requires 0 <= k <= |xs|
    requires forall t :: 0 <= t < k ==> name(xs[t]) in names
    requires forall t :: k <= t < |xs| ==> name(xs[t]) !in names
    ensures Keep(name, xs, names, true) == xs[..k]
    ensures Keep(name, xs, names, false) == xs[k..]
  {
    var head, others := xs[..k], xs[k..];
    assert xs == head + others;
    assert forall t :: 0 <= t < |head| ==> head[t] == xs[t];
    assert forall t :: 0 <= t < |others| ==> others[t] == xs[k + t];
    KeepAll(name, head, names, true);
    KeepNone(name, head, names, false);
    KeepNone(name, others, names, true);
    KeepAll(name, others, names, false);
    KeepAppend(name, head, others, names, true);
    KeepAppend(name, head, others, names, false);
  }

  /** With geopandas among the specs, `_install_packages` makes one wheels-only call for the
      four geospatial specs, with all four names as its wheel list, and then one call for the
      other specs in their order, when there are any. */
  lemma InstallPlanWithGeopandas(packages: seq<string>)
    requires "geopandas" in NameMap(PkgName, packages)
    ensures var ordered, others := Ordered(packages), Keep(PkgName, packages, GeoNames, false);
      |ordered| >= 4
      && InstallPlan(packages) == [PipCall(ordered[..4], GeoTargetOrder)] + (if others != [] then [PipCall(others, [])] else [])
  {
    var ordered := Ordered(packages);
    assert packages != [];
    GeoSegment(packages);
    GeoOrderHead(packages);
    InstallSplit(packages);
    AllTargets(ordered);
  }

  /** An install order starting with the shapely, pyproj, pyogrio and geopandas specs has all
      four geospatial targets, in `_install_packages`' order. */
  lemma AllTargets(ordered: seq<string>)
    requires |ordered| >= 4 && forall t :: 0 <= t < 3 ==> PkgName(ordered[t]) == GeoStack[t].0
    requires PkgName(ordered[3]) == "geopandas"
    ensures GeoTargets(ordered) == GeoTargetOrder
  {
    forall k | 0 <= k < |GeoTargetOrder|
      ensures HasName(PkgName, ordered, GeoTargetOrder[k])
    {
      TargetNamed(ordered, k);
    }
    NamedOfAll(PkgName, GeoTargetOrder, ordered);
  }

  /** Each geospatial target is named by one of the first four specs. */
  lemma TargetNamed(ordered: seq<string>, k: int)
    requires |ordered| >= 4 && forall t :: 0 <= t < 3 ==> PkgName(ordered[t]) == GeoStack[t].0
    requires PkgName(ordered[3]) == "geopandas"
    requires 0 <= k < 4
    ensures HasName(PkgName, ordered, GeoTargetOrder[k])
  {
    if k == 0 {
      assert PkgName(ordered[2]) == GeoStack[2].0 == GeoTargetOrder[0];
    } else if k == 1 {
      assert PkgName(ordered[0]) == GeoStack[0].0 == GeoTargetOrder[1];
    } else if k == 2 {
      assert PkgName(ordered[1]) == GeoStack[1].0 == GeoTargetOrder[2];
    } else {
      assert PkgName(ordered[3]) == GeoTargetOrder[3];
    }
  }

  /** Candidates that are all named are all kept, in their order. */
  lemma {:induction false} NamedOfAll(name: string -> string, cands: seq<string>, xs: seq<string>)
    requires forall k :: 0 <= k < |cands| ==> HasName(name, xs, cands[k])
    ensures NamedOf(name, cands, xs) == cands
  {
    if cands != [] {
      assert forall k :: 0 <= k < |cands[1..]| ==> cands[1..][k] == cands[k + 1];
      NamedOfAll(name, cands[1..], xs);
      assert cands == [cands[0]] + cands[1..];
    }
  }
}
