/**
 * `create_name_mapping`: which identifiers of the function get which `_ouverture_v_<k>`
 * designator, and the reverse mapping back to the original names.
 */
module Renaming {
  import opened Wrappers
  import opened PyStrings
  import opened PyAst
  import opened PyDict
  import opened ImportPasses

  // ----------------------------------------------------------------------------------------
  // Imported names (the first loop of create_name_mapping, and get_imported_names)
  // ----------------------------------------------------------------------------------------

  /** The local name an import alias binds: `alias.asname if alias.asname else alias.name`. */
  function BoundName(a: Alias): string {
    if Truthy(a.asname) then a.asname.value else a.name
  }

  function BoundNames(names: seq<Alias>): set<string>
    decreases |names|
  {
    if names == [] then {} else BoundNames(names[..|names| - 1]) + {BoundName(names[|names| - 1])}
  }

  /** The names bound by the import statements among `nodes`; other nodes add nothing. */
  function ImportedNames(nodes: seq<Node>): set<string>
    decreases |nodes|
  {
    if nodes == [] then {}
    else
      var n := nodes[|nodes| - 1];
      ImportedNames(nodes[..|nodes| - 1]) + (if IsImport(n) then BoundNames(n.names) else {})
  }

  lemma {:induction false} BoundNamesMeaning(names: seq<Alias>, x: string)
    ensures x in BoundNames(names) <==> exists j :: 0 <= j < |names| && BoundName(names[j]) == x
    decreases |names|
  {
    if names != [] {
      var init := names[..|names| - 1];
      BoundNamesMeaning(init, x);
      assert forall j :: 0 <= j < |init| ==> init[j] == names[j];
    }
  }

  /** A name is imported exactly when some alias of some import statement binds it. */
  lemma {:induction false} ImportedNamesMeaning(nodes: seq<Node>, x: string)
    ensures x in ImportedNames(nodes) <==>
      exists i, j :: 0 <= i < |nodes| && IsImport(nodes[i]) && 0 <= j < |nodes[i].names| && BoundName(nodes[i].names[j]) == x
    decreases |nodes|
  {
    if nodes != [] {
      var init := nodes[..|nodes| - 1];
      var last := nodes[|nodes| - 1];
      ImportedNamesMeaning(init, x);
      assert forall i :: 0 <= i < |init| ==> init[i] == nodes[i];
      if IsImport(last) {
        BoundNamesMeaning(last.names, x);
        if x in BoundNames(last.names) {
          var j :| 0 <= j < |last.names| && BoundName(last.names[j]) == x;
          assert IsImport(nodes[|nodes| - 1]) && BoundName(nodes[|nodes| - 1].names[j]) == x;
        }
      }
      if exists i, j :: 0 <= i < |nodes| && IsImport(nodes[i]) && 0 <= j < |nodes[i].names| && BoundName(nodes[i].names[j]) == x {
        var i, j :| 0 <= i < |nodes| && IsImport(nodes[i]) && 0 <= j < |nodes[i].names| && BoundName(nodes[i].names[j]) == x;
        if i < |init| {
          assert IsImport(init[i]) && BoundName(init[i].names[j]) == x;
        } else {
          assert x in BoundNames(last.names);
        }
      }
    }
  }

  /** The loop that collects the names bound by the import statements among `nodes`. */
  method CollectImportedNames(nodes: seq<Node>) returns (imported: set<string>)
    ensures imported == ImportedNames(nodes)
  {
    imported := {};
    var i := 0;
    while i < |nodes|
      invariant 0 <= i <= |nodes|
      invariant imported == ImportedNames(nodes[..i])
    {
      var node := nodes[i];
      assert nodes[..i + 1][..i] == nodes[..i];
      if IsImport(node) {
        var j := 0;
        while j < |node.names|
          invariant 0 <= j <= |node.names|
          invariant imported == ImportedNames(nodes[..i]) + BoundNames(node.names[..j])
        {
          assert node.names[..j + 1][..j] == node.names[..j];
          imported := imported + {BoundName(node.names[j])};
          j := j + 1;
        }
        assert node.names[..j] == node.names;
      }
      i := i + 1;
    }
    assert nodes[..i] == nodes;
  }

  // ----------------------------------------------------------------------------------------
  // create_name_mapping
  // ----------------------------------------------------------------------------------------

  /** The identifiers of the `Name` and `arg` nodes among `nodes` that none of the three sets holds. */
  function CollectedNames(nodes: seq<Node>, imported: set<string>, builtins: set<string>, aliases: set<string>): set<string>
    decreases |nodes|
  {
    if nodes == [] then {}
    else
      var n := nodes[|nodes| - 1];
      var earlier := CollectedNames(nodes[..|nodes| - 1], imported, builtins, aliases);
      if n.Name? && n.id !in imported && n.id !in builtins && n.id !in aliases then earlier + {n.id}
      else if n.Arg? && n.arg !in imported && n.arg !in builtins && n.arg !in aliases then earlier + {n.arg}
      else earlier
  }

  /** The identifier a `Name` or `arg` node carries. */
  predicate Carries(n: Node, x: string) {
    (n.Name? && n.id == x) || (n.Arg? && n.arg == x)
  }

  lemma {:induction false} CollectedNamesMeaning(nodes: seq<Node>, imported: set<string>, builtins: set<string>, aliases: set<string>, x: string)
    ensures x in CollectedNames(nodes, imported, builtins, aliases) <==>
      x !in imported && x !in builtins && x !in aliases && exists i :: 0 <= i < |nodes| && Carries(nodes[i], x)
    decreases |nodes|
  {
    if nodes != [] {
      var init := nodes[..|nodes| - 1];
      CollectedNamesMeaning(init, imported, builtins, aliases, x);
      assert forall i :: 0 <= i < |init| ==> init[i] == nodes[i];
      if exists i :: 0 <= i < |nodes| && Carries(nodes[i], x) {
        var i :| 0 <= i < |nodes| && Carries(nodes[i], x);
        if i < |init| {
          assert Carries(init[i], x);
        }
      }
    }
  }

  /**
   * The identifiers `create_name_mapping` numbers from 1: those of the function's `Name` and
   * `arg` nodes that are not imported, not built in and not ouverture aliases, minus the
   * function's own name.
   */
  function RenamableNames(f: Node, imports: seq<Node>, aliases: set<string>, builtins: set<string>): set<string> {
    CollectedNames(Walk(f), ImportedNames(imports), builtins, aliases) - {if f.FunctionDef? then f.name else ""}
  }

  /** The designator `f'_ouverture_v_{k}'`. */
  function Designator(k: nat): string {
    "_ouverture_v_" + NatToString(k)
  }

  lemma DesignatorInjective(a: nat, b: nat)
    requires Designator(a) == Designator(b)
    ensures a == b
  {
    var p := "_ouverture_v_";
    assert NatToString(a) == Designator(a)[|p|..];
    assert NatToString(b) == Designator(b)[|p|..];
    NatToStringInjective(a, b);
  }

  /** A numbering scheme that gives distinct numbers distinct designators. */
  ghost predicate InjectiveScheme(des: nat -> string) {
    forall a: nat, b: nat :: des(a) == des(b) ==> a == b
  }

  lemma DesignatorsDistinct()
    ensures InjectiveScheme(Designator)
  {
    forall a: nat, b: nat | Designator(a) == Designator(b) ensures a == b {
      DesignatorInjective(a, b);
    }
  }

  predicate Distinct(names: seq<string>) {
    forall i, j :: 0 <= i < j < |names| ==> names[i] != names[j]
  }

  lemma StrictlySortedDistinct(names: seq<string>)
    requires StrictlySorted(names)
    ensures Distinct(names)
  {
    forall i, j | 0 <= i < j < |names| ensures names[i] != names[j] {
      StrLtIrreflexive(names[i]);
    }
  }

  /**
   * The forward mapping after the function name and then the names of `names`, in order,
   * have been numbered, `des` turning a number into its designator.
   */
  function ForwardMapping(fname: string, names: seq<string>, des: nat -> string): map<string, string>
    decreases |names|
  {
    if names == [] then map[fname := des(0)]
    else ForwardMapping(fname, names[..|names| - 1], des)[names[|names| - 1] := des(|names|)]
  }

  /** The reverse mapping after the function name and then the names of `names` have been numbered. */
  function ReverseMapping(fname: string, names: seq<string>, des: nat -> string): map<string, string>
    decreases |names|
  {
    if names == [] then map[des(0) := fname]
    else ReverseMapping(fname, names[..|names| - 1], des)[des(|names|) := names[|names| - 1]]
  }

  /** The two mappings for a function and its candidate names, numbered in sorted order by `des`. */
  function MappingOf(fname: string, candidates: set<string>, des: nat -> string): (map<string, string>, map<string, string>) {
    var names := SortedSet(candidates - {fname});
    (ForwardMapping(fname, names, des), ReverseMapping(fname, names, des))
  }

  /** The two dictionaries `create_name_mapping` returns for a function and its candidate names. */
  function NameMappingOf(fname: string, candidates: set<string>): (map<string, string>, map<string, string>) {
    MappingOf(fname, candidates, Designator)
  }

  /** With distinct names other than the function's, the `j`-th name is numbered `j + 1`. */
  lemma {:induction false} ForwardAt(fname: string, names: seq<string>, des: nat -> string)
    requires Distinct(names) && fname !in names
    ensures ForwardMapping(fname, names, des).Keys == {fname} + Elements(names)
    ensures ForwardMapping(fname, names, des)[fname] == des(0)
    ensures forall j :: 0 <= j < |names| ==> ForwardMapping(fname, names, des)[names[j]] == des(j + 1)
    decreases |names|
  {
    if names != [] {
      var init, last := names[..|names| - 1], names[|names| - 1];
      assert forall j :: 0 <= j < |init| ==> init[j] == names[j];
      assert names == init + [last];
      assert Distinct(init) && fname !in init;
      ForwardAt(fname, init, des);
      var before := ForwardMapping(fname, init, des);
      assert ForwardMapping(fname, names, des) == before[last := des(|names|)];
      assert Elements(names) == Elements(init) + {last};
      forall j | 0 <= j < |names| ensures ForwardMapping(fname, names, des)[names[j]] == des(j + 1) {
        if j < |init| {
          assert names[j] != last;
          assert before[init[j]] == des(j + 1);
        }
      }
    }
  }

  /** With an injective scheme, designator `j` leads back to the `j`-th numbered name. */
  lemma {:induction false} ReverseAt(fname: string, names: seq<string>, des: nat -> string)
    requires InjectiveScheme(des)
    ensures ReverseMapping(fname, names, des).Keys == set j | 0 <= j <= |names| :: des(j)
    ensures ReverseMapping(fname, names, des)[des(0)] == fname
    ensures forall j :: 0 <= j < |names| ==> ReverseMapping(fname, names, des)[des(j + 1)] == names[j]
    decreases |names|
  {
    if names != [] {
      var init := names[..|names| - 1];
      assert forall j :: 0 <= j < |init| ==> init[j] == names[j];
      ReverseAt(fname, init, des);
      var keys := set j | 0 <= j <= |names| :: des(j);
      var before := set j | 0 <= j <= |init| :: des(j);
      forall d | d in keys ensures d in before + {des(|names|)} {
        var j :| 0 <= j <= |names| && des(j) == d;
        if j < |names| { assert des(j) in before; }
      }
      assert keys == before + {des(|names|)};
    }
  }

  /**
   * `create_name_mapping`: the imported names, then the candidate identifiers in one walk of
   * the function, then a counter-driven loop over the sorted candidates.
   */
  method CreateNameMapping(f: Node, imports: seq<Node>, ouvertureAliases: set<string>, builtins: set<string>)
    returns (forward: map<string, string>, reverse: map<string, string>)
    requires f.FunctionDef?
    ensures (forward, reverse) == NameMappingOf(f.name, RenamableNames(f, imports, ouvertureAliases, builtins))
  {
    var importedNames := CollectImportedNames(imports);
    var allNames := CollectCandidates(Walk(f), importedNames, builtins, ouvertureAliases);
    allNames := allNames - {f.name};
    assert allNames == RenamableNames(f, imports, ouvertureAliases, builtins);
    assert allNames - {f.name} == allNames;
    forward, reverse := NumberNames(f.name, SortedSet(allNames));
  }

  /** The walk over the function's nodes gathering the identifiers of `Name` and `arg` nodes. */
  method CollectCandidates(nodes: seq<Node>, importedNames: set<string>, builtins: set<string>,
                           ouvertureAliases: set<string>)
    returns (allNames: set<string>)
    ensures allNames == CollectedNames(nodes, importedNames, builtins, ouvertureAliases)
  {
    allNames := {};
    var i := 0;
    while i < |nodes|
      invariant 0 <= i <= |nodes|
      invariant allNames == CollectedNames(nodes[..i], importedNames, builtins, ouvertureAliases)
    {
      var node := nodes[i];
      assert nodes[..i + 1][..i] == nodes[..i];
      if node.Name? && node.id !in importedNames && node.id !in builtins && node.id !in ouvertureAliases {
        allNames := allNames + {node.id};
      } else if node.Arg? && node.arg !in importedNames && node.arg !in builtins && node.arg !in ouvertureAliases {
        allNames := allNames + {node.arg};
      }
      i := i + 1;
    }
    assert nodes[..i] == nodes;
  }

  /** The counter-driven loop giving the function number 0 and the sorted names numbers from 1. */
  method NumberNames(fname: string, sorted: seq<string>) returns (forward: map<string, string>, reverse: map<string, string>)
    ensures forward == ForwardMapping(fname, sorted, Designator)
    ensures reverse == ReverseMapping(fname, sorted, Designator)
  {
    forward := map[fname := Designator(0)];
    reverse := map[Designator(0) := fname];
    var counter := 1;
    var i := 0;
    assert forward == ForwardMapping(fname, sorted[..0], Designator);
    assert reverse == ReverseMapping(fname, sorted[..0], Designator);
    while i < |sorted|
      invariant 0 <= i <= |sorted|
      invariant counter == i + 1
      invariant forward == ForwardMapping(fname, sorted[..i], Designator)
      invariant reverse == ReverseMapping(fname, sorted[..i], Designator)
    {
      assert sorted[..i + 1][..i] == sorted[..i];
      var normalized := Designator(counter);
      forward := forward[sorted[i] := normalized];
      reverse := reverse[normalized := sorted[i]];
      counter := counter + 1;
      i := i + 1;
    }
    assert sorted[..i] == sorted;
  }

  /** No two names share a designator. */
  lemma ForwardInjective(fname: string, names: seq<string>, des: nat -> string)
    requires InjectiveScheme(des) && Distinct(names) && fname !in names
    ensures var fwd := ForwardMapping(fname, names, des);
      forall x, y :: x in fwd && y in fwd && x != y ==> fwd[x] != fwd[y]
  {
    var fwd := ForwardMapping(fname, names, des);
    ForwardAt(fname, names, des);
    forall x, y | x in fwd && y in fwd && x != y ensures fwd[x] != fwd[y] {
      if x != fname && y != fname {
        var j :| 0 <= j < |names| && names[j] == x;
        var k :| 0 <= k < |names| && names[k] == y;
        assert fwd[x] == des(j + 1) && fwd[y] == des(k + 1);
      } else if x != fname {
        var j :| 0 <= j < |names| && names[j] == x;
        assert fwd[x] == des(j + 1);
      } else {
        var k :| 0 <= k < |names| && names[k] == y;
        assert fwd[y] == des(k + 1);
      }
    }
  }

  /** The reverse mapping is exactly the inverse of the forward one. */
  lemma MappingsInverse(fname: string, names: seq<string>, des: nat -> string)
    requires InjectiveScheme(des) && Distinct(names) && fname !in names
    ensures var fwd := ForwardMapping(fname, names, des); var rev := ReverseMapping(fname, names, des);
      && (forall x :: x in fwd ==> fwd[x] in rev && rev[fwd[x]] == x)
      && (forall d :: d in rev ==> rev[d] in fwd && fwd[rev[d]] == d)
  {
    var fwd, rev := ForwardMapping(fname, names, des), ReverseMapping(fname, names, des);
    ForwardAt(fname, names, des);
    ReverseAt(fname, names, des);
    forall x | x in fwd ensures fwd[x] in rev && rev[fwd[x]] == x {
      if x != fname {
        var j :| 0 <= j < |names| && names[j] == x;
        assert fwd[x] == des(j + 1);
        assert rev[des(j + 1)] == names[j];
      }
    }
    forall d | d in rev ensures rev[d] in fwd && fwd[rev[d]] == d {
      if d != des(0) {
        var k :| 0 <= k <= |names| && des(k) == d;
        assert k != 0;
        assert rev[des(k - 1 + 1)] == names[k - 1];
      }
    }
  }

  /**
   * Numbering in sorted order: the function's own name gets designator 0 and every other
   * candidate designator `1 + k`, `k` being how many other candidates sort before it; there
   * are no other keys.
   */
  lemma SortedNumbering(fname: string, candidates: set<string>, names: seq<string>, des: nat -> string)
    requires StrictlySorted(names) && Elements(names) == candidates - {fname}
    ensures var fwd := ForwardMapping(fname, names, des);
      && fwd.Keys == candidates + {fname}
      && fwd[fname] == des(0)
      && (forall x :: x in candidates && x != fname ==> fwd[x] == des(1 + Rank(x, candidates - {fname})))
  {
    StrictlySortedDistinct(names);
    assert fname !in names;
    ForwardAt(fname, names, des);
    forall x | x in candidates && x != fname
      ensures ForwardMapping(fname, names, des)[x] == des(1 + Rank(x, Elements(names)))
    {
      assert x in Elements(names);
      NumberedByRank(fname, names, des, x);
    }
  }

  lemma NumberedByRank(fname: string, names: seq<string>, des: nat -> string, x: string)
    requires StrictlySorted(names) && fname !in names && x in names
    ensures x in ForwardMapping(fname, names, des)
    ensures ForwardMapping(fname, names, des)[x] == des(1 + Rank(x, Elements(names)))
  {
    StrictlySortedDistinct(names);
    ForwardAt(fname, names, des);
    var j :| 0 <= j < |names| && names[j] == x;
    RankInSortedSet(names, j);
  }

  /**
   * What the two mappings mean: the numbering above; no two names share a designator; and
   * the reverse mapping is exactly the inverse of the forward one.
   */
  lemma MappingMeaning(fname: string, candidates: set<string>, des: nat -> string)
    requires InjectiveScheme(des)
    ensures var (fwd, rev) := MappingOf(fname, candidates, des);
      && fwd.Keys == candidates + {fname}
      && fwd[fname] == des(0)
      && (forall x :: x in candidates && x != fname ==> fwd[x] == des(1 + Rank(x, candidates - {fname})))
      && (forall x, y :: x in fwd && y in fwd && x != y ==> fwd[x] != fwd[y])
      && (forall x :: x in fwd ==> fwd[x] in rev && rev[fwd[x]] == x)
      && (forall d :: d in rev ==> rev[d] in fwd && fwd[rev[d]] == d)
  {
    var names := SortedSet(candidates - {fname});
    StrictlySortedDistinct(names);
    assert Elements(names) == candidates - {fname};
    SortedNumbering(fname, candidates, names, des);
    ForwardInjective(fname, names, des);
    MappingsInverse(fname, names, des);
  }

  /** The same facts for `create_name_mapping`'s own designators `_ouverture_v_<k>`. */
  lemma NameMappingMeaning(fname: string, candidates: set<string>)
    ensures var (fwd, rev) := NameMappingOf(fname, candidates);
      && fwd.Keys == candidates + {fname}
      && fwd[fname] == Designator(0)
      && (forall x :: x in candidates && x != fname ==> fwd[x] == Designator(1 + Rank(x, candidates - {fname})))
      && (forall x, y :: x in fwd && y in fwd && x != y ==> fwd[x] != fwd[y])
      && (forall x :: x in fwd ==> fwd[x] in rev && rev[fwd[x]] == x)
      && (forall d :: d in rev ==> rev[d] in fwd && fwd[rev[d]] == d)
  {
    DesignatorsDistinct();
    MappingMeaning(fname, candidates, Designator);
  }
}
