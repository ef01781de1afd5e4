/**
 * The name analyses over a whole module: `collect_names`, `get_imported_names` and
 * `check_unused_imports`.
 */
module NameAnalysis {
  import opened PyAst
  import opened Renaming

  /** What `collect_names` takes from one node of the walk. */
  function NamesOfNode(n: Node): set<string> {
    if n.Name? then {n.id}
    else if n.FunctionDef? then {n.name} + ArgNames(n.args)
    else {}
  }

  /** The `arg` names of a positional parameter list. */
  function ArgNames(args: seq<Node>): set<string>
    decreases |args|
  {
    if args == [] then {}
    else ArgNames(args[..|args| - 1]) + (if args[|args| - 1].Arg? then {args[|args| - 1].arg} else {})
  }

  lemma {:induction false} ArgNamesMeaning(args: seq<Node>, x: string)
    ensures x in ArgNames(args) <==> exists j :: 0 <= j < |args| && args[j].Arg? && args[j].arg == x
    decreases |args|
  {
    if args != [] {
      var init := args[..|args| - 1];
      ArgNamesMeaning(init, x);
      assert forall j :: 0 <= j < |init| ==> init[j] == args[j];
    }
  }

  function CollectedFrom(nodes: seq<Node>): set<string>
    decreases |nodes|
  {
    if nodes == [] then {} else CollectedFrom(nodes[..|nodes| - 1]) + NamesOfNode(nodes[|nodes| - 1])
  }

  lemma {:induction false} CollectedFromMeaning(nodes: seq<Node>, x: string)
    ensures x in CollectedFrom(nodes) <==> exists i :: 0 <= i < |nodes| && x in NamesOfNode(nodes[i])
    decreases |nodes|
  {
    if nodes != [] {
      var init := nodes[..|nodes| - 1];
      CollectedFromMeaning(init, x);
      assert forall i :: 0 <= i < |init| ==> init[i] == nodes[i];
    }
  }

  /**
   * `collect_names`: the loop over the walk of the tree, adding each `Name`'s identifier, and
   * each function definition's name and the names of its positional parameters.
   */
  method CollectNames(tree: Node) returns (names: set<string>)
    ensures names == CollectedFrom(Walk(tree))
  {
    names := {};
    var nodes := Walk(tree);
    var i := 0;
    while i < |nodes|
      invariant 0 <= i <= |nodes|
      invariant names == CollectedFrom(nodes[..i])
    {
      var node := nodes[i];
      assert nodes[..i + 1][..i] == nodes[..i];
      if node.Name? {
        names := names + {node.id};
      } else if node.FunctionDef? {
        names := names + {node.name};
        var j := 0;
        while j < |node.args|
          invariant 0 <= j <= |node.args|
          invariant names == CollectedFrom(nodes[..i]) + {node.name} + ArgNames(node.args[..j])
        {
          assert node.args[..j + 1][..j] == node.args[..j];
          var arg := node.args[j];
          if arg.Arg? {
            names := names + {arg.arg};
          }
          j := j + 1;
        }
        assert node.args[..j] == node.args;
      }
      i := i + 1;
    }
    assert nodes[..i] == nodes;
  }

  /**
   * What `collect_names` collects: exactly the `Name` identifiers, the function names and the
   * positional parameter names anywhere in the tree; parameters of other kinds (`*args`,
   * keyword-only, lambda parameters) are not collected unless they also occur as a `Name`.
   */
  lemma CollectNamesMeaning(tree: Node, x: string)
    ensures x in CollectedFrom(Walk(tree)) <==>
      exists i :: 0 <= i < |Walk(tree)| && var n := Walk(tree)[i];
        || (n.Name? && n.id == x)
        || (n.FunctionDef? && n.name == x)
        || (n.FunctionDef? && exists j :: 0 <= j < |n.args| && n.args[j].Arg? && n.args[j].arg == x)
  {
    var w := Walk(tree);
    CollectedFromMeaning(w, x);
    forall i | 0 <= i < |w| && w[i].FunctionDef? ensures x in NamesOfNode(w[i]) <==>
      x == w[i].name || exists j :: 0 <= j < |w[i].args| && w[i].args[j].Arg? && w[i].args[j].arg == x
    {
      ArgNamesMeaning(w[i].args, x);
    }
  }

  /** `get_imported_names`: the names bound by every import statement anywhere in the tree. */
  method GetImportedNames(tree: Node) returns (imported: set<string>)
    ensures imported == ImportedNames(Walk(tree))
    ensures forall x :: x in imported <==>
      exists i, j :: 0 <= i < |Walk(tree)| && IsImport(Walk(tree)[i]) && 0 <= j < |Walk(tree)[i].names|
        && BoundName(Walk(tree)[i].names[j]) == x
  {
    imported := CollectImportedNames(Walk(tree));
    forall x ensures x in imported <==>
      exists i, j :: 0 <= i < |Walk(tree)| && IsImport(Walk(tree)[i]) && 0 <= j < |Walk(tree)[i].names|
        && BoundName(Walk(tree)[i].names[j]) == x
    {
      ImportedNamesMeaning(Walk(tree), x);
    }
  }

  /** Some node outside the import statements is a `Name` reading `name`. */
  predicate UsedIn(nodes: seq<Node>, name: string) {
    exists i :: 0 <= i < |nodes| && !IsImport(nodes[i]) && nodes[i].Name? && nodes[i].id == name
  }

  /** The inner loop of `check_unused_imports`: a scan with an early exit. */
  method IsUsed(nodes: seq<Node>, name: string) returns (used: bool)
    ensures used <==> UsedIn(nodes, name)
  {
    used := false;
    var i := 0;
    while i < |nodes|
      invariant 0 <= i <= |nodes|
      invariant forall k :: 0 <= k < i ==> !(!IsImport(nodes[k]) && nodes[k].Name? && nodes[k].id == name)
    {
      var node := nodes[i];
      if IsImport(node) {
        i := i + 1;
        continue;
      }
      if node.Name? && node.id == name {
        used := true;
        return;
      }
      i := i + 1;
    }
  }

  /**
   * `check_unused_imports`: true exactly when every given imported name is read by some
   * `Name` outside the import statements. The third argument of the source function is
   * never read, and the order in which the set is visited does not change the answer.
   */
  method CheckUnusedImports(tree: Node, importedNames: set<string>, allNames: set<string>) returns (ok: bool)
    ensures ok <==> forall name :: name in importedNames ==> UsedIn(Walk(tree), name)
  {
    var nodes := Walk(tree);
    var remaining := importedNames;
    while remaining != {}
      invariant remaining <= importedNames
      invariant forall name :: name in importedNames - remaining ==> UsedIn(nodes, name)
      decreases |remaining|
    {
      var name :| name in remaining;
      var used := IsUsed(nodes, name);
      if !used {
        return false;
      }
      remaining := remaining - {name};
    }
    return true;
  }
}
