/**
 * `extract_docstring` and `normalize_ast`: the canonicalisation pipeline from a parsed module
 * to the two normalized modules (with and without the docstring), the docstring, the reverse
 * name mapping and the alias mapping. Rendering the modules back to text (`ast.unparse`) is
 * not part of this model; the trees are its result.
 */
module Pipeline {
  import opened Wrappers
  import opened PyAst
  import opened PyDict
  import opened ImportPasses
  import opened Renaming
  import opened Normalizer
  import opened CallReplacer

  // ----------------------------------------------------------------------------------------
  // extract_docstring
  // ----------------------------------------------------------------------------------------

  /** The first statement of the function body is a string constant: the docstring. */
  predicate HasDocstring(f: Node) {
    f.FunctionDef? && |f.body| > 0 && f.body[0].Expr? && f.body[0].value.Constant?
    && f.body[0].value.literal.StrValue?
  }

  /**
   * `extract_docstring`: the docstring as `ast.get_docstring` reports it (its text passed
   * through `clean`, the indentation clean-up), or "" when there is none; and a copy of the
   * function whose body lacks the docstring statement.
   */
  function ExtractDocstring(f: Node, clean: string -> string): (r: (string, Node))
    requires f.FunctionDef?
    ensures r.1.FunctionDef? && r.1.(body := f.body) == f
    ensures f.body == (if HasDocstring(f) then [f.body[0]] else []) + r.1.body
    ensures r.0 == if HasDocstring(f) then clean(f.body[0].value.literal.s) else ""
  {
    if HasDocstring(f) then
      assert f.body == [f.body[0]] + f.body[1..];
      (clean(f.body[0].value.literal.s), f.(body := f.body[1..]))
    else ("", f)
  }

  // ----------------------------------------------------------------------------------------
  // normalize_ast
  // ----------------------------------------------------------------------------------------

  /**
   * What the pipeline does to each of the two modules: calls through ouverture aliases are
   * replaced, identifiers renamed by the forward mapping, and positions cleared.
   */
  function Process(aliasMapping: Dict, forward: map<string, string>, n: Node, intoAnnotations: bool): Node {
    ClearPos(Normalize(forward, ReplaceCalls(aliasMapping, n), intoAnnotations))
  }

  function ProcessSeq(aliasMapping: Dict, forward: map<string, string>, ns: seq<Node>, intoAnnotations: bool): (r: seq<Node>)
    ensures |r| == |ns|
    ensures forall i :: 0 <= i < |ns| ==> r[i] == Process(aliasMapping, forward, ns[i], intoAnnotations)
  {
    ClearSeq(NormalizeSeq(forward, ReplaceSeq(aliasMapping, ns), intoAnnotations))
  }

  lemma ProcessSeqAppend(aliasMapping: Dict, forward: map<string, string>, a: seq<Node>, b: seq<Node>, intoAnnotations: bool)
    ensures ProcessSeq(aliasMapping, forward, a + b, intoAnnotations)
      == ProcessSeq(aliasMapping, forward, a, intoAnnotations) + ProcessSeq(aliasMapping, forward, b, intoAnnotations)
  {
  }

  /** The five results of `normalize_ast`, the two modules as trees. */
  datatype Normalized = Normalized(
    withDocstring: Node,
    withoutDocstring: Node,
    docstring: string,
    nameMapping: map<string, string>,
    aliasMapping: Dict)

  /**
   * `normalize_ast` after the function and its (sorted) imports have been extracted.
   * `intoAnnotations` says whether renaming descends into parameter annotations.
   */
  function NormalizeFunction(f: Node, imports: seq<Node>, clean: string -> string, builtins: set<string>,
                             intoAnnotations: bool): Normalized
    requires f.FunctionDef?
  {
    var docstring := ExtractDocstring(f, clean).0;
    var withoutDocstring := ExtractDocstring(f, clean).1;
    var newImports := RewrittenImports(imports);
    var aliasMapping := AliasMappingOf(imports);
    var mapping := NameMappingOf(f.name, RenamableNames(f, newImports, Values(aliasMapping), builtins));
    Normalized(
      Process(aliasMapping, mapping.0, Module(newImports + [f]), intoAnnotations),
      Process(aliasMapping, mapping.0, Module(newImports + [withoutDocstring]), intoAnnotations),
      docstring, mapping.1, aliasMapping)
  }

  /** `normalize_ast` on a parsed module: its outcome, or the error `extract_function_def` raises. */
  function NormalizeSpec(tree: Node, clean: string -> string, builtins: set<string>, intoAnnotations: bool)
    : Result<Normalized, ExtractError>
    requires tree.Module?
  {
    var extracted := ExtractSpec(SortedBody(tree.body));
    if extracted.Err? then Err(extracted.error)
    else
      assert extracted.value.0 == FirstFunctionDef(SortedBody(tree.body));
      Ok(NormalizeFunction(extracted.value.0, extracted.value.1, clean, builtins, intoAnnotations))
  }

  /** `normalize_ast`, step by step as the source runs it. */
  method NormalizeAst(tree: Node, clean: string -> string, builtins: set<string>, intoAnnotations: bool)
    returns (r: Result<Normalized, ExtractError>)
    requires tree.Module?
    ensures r == NormalizeSpec(tree, clean, builtins, intoAnnotations)
  {
    var sorted := SortImports(tree);
    var extracted := ExtractFunctionDef(sorted);
    if extracted.Err? {
      return Err(extracted.error);
    }
    var functionDef, imports := extracted.value.0, extracted.value.1;
    assert functionDef == FirstFunctionDef(SortedBody(tree.body));
    var docstring, functionWithoutDocstring := ExtractDocstring(functionDef, clean).0, ExtractDocstring(functionDef, clean).1;
    var newImports, aliasMapping := RewriteOuvertureImports(imports);
    var forward, reverse := CreateNameMapping(functionDef, newImports, Values(aliasMapping), builtins);
    var moduleWithDocstring := Module(newImports + [functionDef]);
    var moduleWithoutDocstring := Module(newImports + [functionWithoutDocstring]);
    moduleWithDocstring := Process(aliasMapping, forward, moduleWithDocstring, intoAnnotations);
    moduleWithoutDocstring := Process(aliasMapping, forward, moduleWithoutDocstring, intoAnnotations);
    r := Ok(Normalized(moduleWithDocstring, moduleWithoutDocstring, docstring, reverse, aliasMapping));
  }

  // ----------------------------------------------------------------------------------------
  // Properties of the pipeline
  // ----------------------------------------------------------------------------------------

  /**
   * `normalize_ast` fails exactly as `extract_function_def` does on the unsorted body: with
   * no function definition, or with two or more. Otherwise it normalizes the one function
   * there is, with the imports in sorted order.
   */
  lemma NormalizeErrors(tree: Node, clean: string -> string, builtins: set<string>, intoAnnotations: bool)
    requires tree.Module?
    ensures var r := NormalizeSpec(tree, clean, builtins, intoAnnotations);
      && (r.Err? && r.error == NoFunctionDef <==> forall i :: 0 <= i < |tree.body| ==> !tree.body[i].FunctionDef?)
      && (r.Err? && r.error == MultipleFunctionDefs <==>
          exists i, j :: 0 <= i < j < |tree.body| && tree.body[i].FunctionDef? && tree.body[j].FunctionDef?)
      && (r.Ok? ==> exists k :: (0 <= k < |tree.body| && tree.body[k].FunctionDef?
          && (forall j :: 0 <= j < |tree.body| && j != k ==> !tree.body[j].FunctionDef?)
          && r.value == NormalizeFunction(tree.body[k], SortByKey<ImportStmt>(FilterImports(tree.body), KeyOf),
                                          clean, builtins, intoAnnotations)))
  {
    var r := NormalizeSpec(tree, clean, builtins, intoAnnotations);
    var e := ExtractSpec(tree.body);
    SortKeepsExtraction(tree.body);
    ExtractSpecMeaning(tree.body);
    assert r.Err? <==> e.Err?;
    assert r.Err? ==> r.error == e.error;
    if e.Ok? {
      var k :| 0 <= k < |tree.body| && tree.body[k] == e.value.0
        && forall j :: 0 <= j < |tree.body| && j != k ==> !tree.body[j].FunctionDef?;
      assert r.value == NormalizeFunction(tree.body[k], SortByKey<ImportStmt>(FilterImports(tree.body), KeyOf),
                                          clean, builtins, intoAnnotations);
    }
  }

  /** The processed module is a module again, each statement processed on its own. */
  lemma ProcessModule(aliasMapping: Dict, forward: map<string, string>, body: seq<Node>, intoAnnotations: bool)
    ensures Process(aliasMapping, forward, Module(body), intoAnnotations)
      == Module(ProcessSeq(aliasMapping, forward, body, intoAnnotations))
  {
  }

  /**
   * A processed function definition: named by the forward mapping, with every part of it
   * processed and no position.
   */
  lemma ProcessFunctionDef(aliasMapping: Dict, forward: map<string, string>, f: Node, intoAnnotations: bool)
    requires f.FunctionDef?
    ensures Process(aliasMapping, forward, f, intoAnnotations) == FunctionDef(
      Rename(forward, f.name),
      ProcessSeq(aliasMapping, forward, f.args, intoAnnotations),
      ProcessSeq(aliasMapping, forward, f.otherArgs, intoAnnotations),
      ProcessSeq(aliasMapping, forward, f.body, intoAnnotations),
      ProcessSeq(aliasMapping, forward, f.extras, intoAnnotations),
      NoPos)
  {
  }

  /** Two modules that differ only in their last statement still do so once processed. */
  lemma ProcessedModulesShareImports(aliasMapping: Dict, forward: map<string, string>, imports: seq<Node>,
                                     a: Node, b: Node, intoAnnotations: bool)
    ensures var g := Process(aliasMapping, forward, Module(imports + [a]), intoAnnotations);
      var h := Process(aliasMapping, forward, Module(imports + [b]), intoAnnotations);
      && g.Module? && h.Module? && |g.body| == |h.body| == |imports| + 1
      && g.body[..|imports|] == h.body[..|imports|]
      && g.body[|imports|] == Process(aliasMapping, forward, a, intoAnnotations)
      && h.body[|imports|] == Process(aliasMapping, forward, b, intoAnnotations)
  {
    ProcessModule(aliasMapping, forward, imports + [a], intoAnnotations);
    ProcessModule(aliasMapping, forward, imports + [b], intoAnnotations);
    var g := ProcessSeq(aliasMapping, forward, imports + [a], intoAnnotations);
    var h := ProcessSeq(aliasMapping, forward, imports + [b], intoAnnotations);
    forall i | 0 <= i < |imports| ensures g[i] == h[i] {
      assert (imports + [a])[i] == (imports + [b])[i];
    }
    assert (imports + [a])[|imports|] == a && (imports + [b])[|imports|] == b;
  }

  /** The docstring statement, processed: the same string constant, without positions. */
  lemma ProcessDocstring(aliasMapping: Dict, forward: map<string, string>, f: Node, intoAnnotations: bool)
    requires HasDocstring(f)
    ensures Process(aliasMapping, forward, f.body[0], intoAnnotations) == Expr(Constant(f.body[0].value.literal, NoPos), NoPos)
  {
    var d := f.body[0];
    var c := d.value;
    assert ReplaceCalls(aliasMapping, c) == c && Normalize(forward, c, intoAnnotations) == c;
    assert ReplaceCalls(aliasMapping, d) == d;
    assert Normalize(forward, d, intoAnnotations) == d;
    assert ClearPos(c) == Constant(c.literal, NoPos);
    assert ClearPos(d) == Expr(ClearPos(c), NoPos);
  }

  /**
   * A function and its copy without the docstring, processed: they differ only in their
   * bodies, and the first body is the processed docstring statement followed by the second.
   */
  lemma ProcessedFunctionsDifferByDocstring(aliasMapping: Dict, forward: map<string, string>, f: Node, noDoc: Node,
                                            intoAnnotations: bool)
    requires f.FunctionDef? && noDoc.FunctionDef? && noDoc.(body := f.body) == f
    requires f.body == (if HasDocstring(f) then [f.body[0]] else []) + noDoc.body
    ensures var g, h := Process(aliasMapping, forward, f, intoAnnotations), Process(aliasMapping, forward, noDoc, intoAnnotations);
      && g.FunctionDef? && h.FunctionDef? && g.(body := h.body) == h
      && g.body == (if HasDocstring(f) then [Expr(Constant(f.body[0].value.literal, NoPos), NoPos)] else []) + h.body
  {
    ProcessFunctionDef(aliasMapping, forward, f, intoAnnotations);
    ProcessFunctionDef(aliasMapping, forward, noDoc, intoAnnotations);
    var docPart := if HasDocstring(f) then [f.body[0]] else [];
    ProcessSeqAppend(aliasMapping, forward, docPart, noDoc.body, intoAnnotations);
    if HasDocstring(f) {
      ProcessDocstring(aliasMapping, forward, f, intoAnnotations);
      assert ProcessSeq(aliasMapping, forward, docPart, intoAnnotations) == [Expr(Constant(f.body[0].value.literal, NoPos), NoPos)];
    } else {
      assert ProcessSeq(aliasMapping, forward, docPart, intoAnnotations) == [];
    }
  }

  /**
   * The two modules have the same statements except the last, the function; the two
   * functions differ only in their bodies, and the one with the docstring starts with the
   * docstring statement (without positions) followed by the other's body.
   */
  lemma RenderingsDifferByDocstring(f: Node, imports: seq<Node>, clean: string -> string, builtins: set<string>,
                                    intoAnnotations: bool)
    requires f.FunctionDef?
    ensures var r := NormalizeFunction(f, imports, clean, builtins, intoAnnotations);
      && r.withDocstring.Module? && r.withoutDocstring.Module?
      && |r.withDocstring.body| == |r.withoutDocstring.body| == |imports| + 1
      && r.withDocstring.body[..|imports|] == r.withoutDocstring.body[..|imports|]
      && var g, h := r.withDocstring.body[|imports|], r.withoutDocstring.body[|imports|];
      && g.FunctionDef? && h.FunctionDef? && g.(body := h.body) == h
      && g.body == (if HasDocstring(f) then [Expr(Constant(f.body[0].value.literal, NoPos), NoPos)] else []) + h.body
  {
    var noDoc := ExtractDocstring(f, clean).1;
    var newImports := RewrittenImports(imports);
    var aliasMapping := AliasMappingOf(imports);
    var forward := NameMappingOf(f.name, RenamableNames(f, newImports, Values(aliasMapping), builtins)).0;
    ProcessedModulesShareImports(aliasMapping, forward, newImports, f, noDoc, intoAnnotations);
    ProcessedFunctionsDifferByDocstring(aliasMapping, forward, f, noDoc, intoAnnotations);
  }

  /** Both modules come out with every position attribute of every node set to `None`. */
  lemma PositionsCleared(f: Node, imports: seq<Node>, clean: string -> string, builtins: set<string>,
                         intoAnnotations: bool)
    requires f.FunctionDef?
    ensures var r := NormalizeFunction(f, imports, clean, builtins, intoAnnotations);
      && (forall i :: 0 <= i < |Walk(r.withDocstring)| ==> OwnPosCleared(Walk(r.withDocstring)[i]))
      && (forall i :: 0 <= i < |Walk(r.withoutDocstring)| ==> OwnPosCleared(Walk(r.withoutDocstring)[i]))
  {
    var noDoc := ExtractDocstring(f, clean).1;
    var newImports := RewrittenImports(imports);
    var aliasMapping := AliasMappingOf(imports);
    var forward := NameMappingOf(f.name, RenamableNames(f, newImports, Values(aliasMapping), builtins)).0;
    ClearPosReachesEveryNode(Normalize(forward, ReplaceCalls(aliasMapping, Module(newImports + [f])), intoAnnotations));
    ClearPosReachesEveryNode(Normalize(forward, ReplaceCalls(aliasMapping, Module(newImports + [noDoc])), intoAnnotations));
  }

  /**
   * The normalized function is always `_ouverture_v_0`, in both modules, and the reverse
   * mapping gives its original name back.
   */
  lemma FunctionBecomesDesignatorZero(f: Node, imports: seq<Node>, clean: string -> string, builtins: set<string>,
                                      intoAnnotations: bool)
    requires f.FunctionDef?
    ensures var r := NormalizeFunction(f, imports, clean, builtins, intoAnnotations);
      && r.withDocstring.Module? && r.withoutDocstring.Module?
      && |r.withDocstring.body| == |r.withoutDocstring.body| == |imports| + 1
      && r.withDocstring.body[|imports|].FunctionDef? && r.withDocstring.body[|imports|].name == Designator(0)
      && r.withoutDocstring.body[|imports|].FunctionDef? && r.withoutDocstring.body[|imports|].name == Designator(0)
      && Designator(0) in r.nameMapping && r.nameMapping[Designator(0)] == f.name
  {
    var noDoc := ExtractDocstring(f, clean).1;
    var newImports := RewrittenImports(imports);
    var aliasMapping := AliasMappingOf(imports);
    var mapping := NameMappingOf(f.name, RenamableNames(f, newImports, Values(aliasMapping), builtins));
    NameMappingMeaning(f.name, RenamableNames(f, newImports, Values(aliasMapping), builtins));
    assert mapping.0[f.name] == Designator(0);
    assert mapping.1[Designator(0)] == f.name;
    ProcessModule(aliasMapping, mapping.0, newImports + [f], intoAnnotations);
    ProcessModule(aliasMapping, mapping.0, newImports + [noDoc], intoAnnotations);
    ProcessFunctionDef(aliasMapping, mapping.0, f, intoAnnotations);
    ProcessFunctionDef(aliasMapping, mapping.0, noDoc, intoAnnotations);
    assert (newImports + [f])[|imports|] == f;
    assert (newImports + [noDoc])[|imports|] == noDoc;
  }

  // ----------------------------------------------------------------------------------------
  // The docstring does not reach the hashed rendering
  // ----------------------------------------------------------------------------------------

  lemma {:induction false} CollectedNamesAppend(a: seq<Node>, b: seq<Node>, imported: set<string>,
                                                builtins: set<string>, aliases: set<string>)
    ensures CollectedNames(a + b, imported, builtins, aliases)
      == CollectedNames(a, imported, builtins, aliases) + CollectedNames(b, imported, builtins, aliases)
    decreases |b|
  {
    if b == [] {
      assert a + b == a;
    } else {
      var init := b[..|b| - 1];
      assert (a + b)[..|a + b| - 1] == a + init;
      assert (a + b)[|a + b| - 1] == b[|b| - 1];
      CollectedNamesAppend(a, init, imported, builtins, aliases);
    }
  }

  /** The walk of the docstring statement holds no `Name` and no `arg`. */
  lemma DocstringCarriesNoNames(f: Node, imported: set<string>, builtins: set<string>, aliases: set<string>)
    requires HasDocstring(f)
    ensures CollectedNames(WalkSeq([f.body[0]]), imported, builtins, aliases) == {}
  {
    var d := f.body[0];
    assert WalkSeq([d]) == Walk(d) + WalkSeq([]);
    assert Walk(d) == [d, d.value];
    var w := [d, d.value];
    assert w[..1] == [d] && [d][..0] == [];
    assert CollectedNames([d], imported, builtins, aliases) == CollectedNames([], imported, builtins, aliases);
    assert CollectedNames(w, imported, builtins, aliases) == CollectedNames([d], imported, builtins, aliases);
  }

  /** The names collected from a function: those of its parameters, of its body and of the rest. */
  lemma CollectedNamesFunctionDef(f: Node, imported: set<string>, builtins: set<string>, aliases: set<string>)
    requires f.FunctionDef?
    ensures CollectedNames(Walk(f), imported, builtins, aliases)
      == CollectedNames(WalkSeq(f.args + f.otherArgs), imported, builtins, aliases)
       + CollectedNames(WalkSeq(f.body), imported, builtins, aliases)
       + CollectedNames(WalkSeq(f.extras), imported, builtins, aliases)
  {
    var p := f.args + f.otherArgs;
    WalkFunctionDef(f);
    WalkSeqAppend(p, f.body);
    WalkSeqAppend(p + f.body, f.extras);
    CollectedNamesAppend([f], WalkSeq(p + f.body + f.extras), imported, builtins, aliases);
    assert [f][..0] == [];
    CollectedNamesAppend(WalkSeq(p) + WalkSeq(f.body), WalkSeq(f.extras), imported, builtins, aliases);
    CollectedNamesAppend(WalkSeq(p), WalkSeq(f.body), imported, builtins, aliases);
  }

  /** Dropping the docstring statement changes none of the names `create_name_mapping` collects. */
  lemma DroppingDocstringKeepsNames(f: Node, noDoc: Node, imported: set<string>, builtins: set<string>,
                                    aliases: set<string>)
    requires f.FunctionDef? && noDoc.FunctionDef? && noDoc.(body := f.body) == f
    requires f.body == (if HasDocstring(f) then [f.body[0]] else []) + noDoc.body
    ensures CollectedNames(Walk(f), imported, builtins, aliases) == CollectedNames(Walk(noDoc), imported, builtins, aliases)
  {
    var docPart := if HasDocstring(f) then [f.body[0]] else [];
    CollectedNamesFunctionDef(f, imported, builtins, aliases);
    CollectedNamesFunctionDef(noDoc, imported, builtins, aliases);
    WalkSeqAppend(docPart, noDoc.body);
    CollectedNamesAppend(WalkSeq(docPart), WalkSeq(noDoc.body), imported, builtins, aliases);
    if HasDocstring(f) {
      DocstringCarriesNoNames(f, imported, builtins, aliases);
    } else {
      assert WalkSeq(docPart) == [];
    }
  }

  /**
   * Two functions that differ only in their docstring (in the language it is written in, say)
   * get the same docstring-free module, the one that is hashed, and the same mappings.
   */
  lemma DocstringIndependence(f1: Node, f2: Node, imports: seq<Node>, clean: string -> string,
                              builtins: set<string>, intoAnnotations: bool)
    requires f1.FunctionDef? && f2.FunctionDef?
    requires ExtractDocstring(f1, clean).1 == ExtractDocstring(f2, clean).1
    ensures var r1 := NormalizeFunction(f1, imports, clean, builtins, intoAnnotations);
      var r2 := NormalizeFunction(f2, imports, clean, builtins, intoAnnotations);
      && r1.withoutDocstring == r2.withoutDocstring
      && r1.nameMapping == r2.nameMapping
      && r1.aliasMapping == r2.aliasMapping
  {
    var noDoc := ExtractDocstring(f1, clean).1;
    var newImports := RewrittenImports(imports);
    var aliases := Values(AliasMappingOf(imports));
    DroppingDocstringKeepsNames(f1, noDoc, ImportedNames(newImports), builtins, aliases);
    DroppingDocstringKeepsNames(f2, noDoc, ImportedNames(newImports), builtins, aliases);
    assert f1.name == noDoc.name == f2.name;
    assert RenamableNames(f1, newImports, aliases, builtins) == RenamableNames(f2, newImports, aliases, builtins);
    SameInputsSameNormalization(f1, f2, imports, clean, builtins, intoAnnotations);
  }

  /** `normalize_ast`'s hashed tree and mappings depend only on the docstring-free function and its names. */
  lemma SameInputsSameNormalization(f1: Node, f2: Node, imports: seq<Node>, clean: string -> string,
                                    builtins: set<string>, intoAnnotations: bool)
    requires f1.FunctionDef? && f2.FunctionDef? && f1.name == f2.name
    requires ExtractDocstring(f1, clean).1 == ExtractDocstring(f2, clean).1
    requires var newImports, aliases := RewrittenImports(imports), Values(AliasMappingOf(imports));
      RenamableNames(f1, newImports, aliases, builtins) == RenamableNames(f2, newImports, aliases, builtins)
    ensures var r1 := NormalizeFunction(f1, imports, clean, builtins, intoAnnotations);
      var r2 := NormalizeFunction(f2, imports, clean, builtins, intoAnnotations);
      && r1.withoutDocstring == r2.withoutDocstring
      && r1.nameMapping == r2.nameMapping
      && r1.aliasMapping == r2.aliasMapping
  {
  }

  /** Two bodies that differ only in one function definition have the same imports and count. */
  lemma {:induction false} BodiesDifferingInFunction(b1: seq<Node>, b2: seq<Node>, k: nat)
    requires |b1| == |b2| && k < |b1| && b1[k].FunctionDef? && b2[k].FunctionDef?
    requires forall i :: 0 <= i < |b1| && i != k ==> b1[i] == b2[i]
    ensures FilterImports(b1) == FilterImports(b2)
    ensures CountFunctionDefs(b1) == CountFunctionDefs(b2)
    decreases |b1|
  {
    var n := |b1|;
    if k == n - 1 {
      assert b1[..n - 1] == b2[..n - 1];
    } else {
      BodiesDifferingInFunction(b1[..n - 1], b2[..n - 1], k);
    }
  }

  /** With one function definition, `normalize_ast` normalizes it with the sorted imports. */
  lemma NormalizeSpecOk(t: Node, k: nat, clean: string -> string, builtins: set<string>, intoAnnotations: bool)
    requires t.Module? && k < |t.body| && t.body[k].FunctionDef? && CountFunctionDefs(t.body) == 1
    ensures NormalizeSpec(t, clean, builtins, intoAnnotations)
      == Ok(NormalizeFunction(t.body[k], SortByKey<ImportStmt>(FilterImports(t.body), KeyOf), clean, builtins, intoAnnotations))
  {
    SortKeepsExtraction(t.body);
    CountOne(t.body);
  }

  /** With none or several, it fails as `extract_function_def` does on the body. */
  lemma NormalizeSpecErr(t: Node, clean: string -> string, builtins: set<string>, intoAnnotations: bool)
    requires t.Module? && CountFunctionDefs(t.body) != 1
    ensures NormalizeSpec(t, clean, builtins, intoAnnotations) == Err(ExtractSpec(t.body).error)
  {
    SortKeepsExtraction(t.body);
  }

  /**
   * The same for whole modules: two files that differ only in the docstring of their function
   * fail alike, and otherwise give the same hashed module and the same mappings.
   */
  lemma ModuleDocstringIndependence(t1: Node, t2: Node, k: nat, clean: string -> string, builtins: set<string>,
                                    intoAnnotations: bool)
    requires t1.Module? && t2.Module? && |t1.body| == |t2.body| && k < |t1.body|
    requires t1.body[k].FunctionDef? && t2.body[k].FunctionDef?
    requires forall i :: 0 <= i < |t1.body| && i != k ==> t1.body[i] == t2.body[i]
    requires ExtractDocstring(t1.body[k], clean).1 == ExtractDocstring(t2.body[k], clean).1
    ensures var r1, r2 := NormalizeSpec(t1, clean, builtins, intoAnnotations), NormalizeSpec(t2, clean, builtins, intoAnnotations);
      && (r1.Err? <==> r2.Err?)
      && (r1.Err? ==> r1.error == r2.error)
      && (r1.Ok? ==> (r1.value.withoutDocstring == r2.value.withoutDocstring
                      && r1.value.nameMapping == r2.value.nameMapping
                      && r1.value.aliasMapping == r2.value.aliasMapping))
  {
    BodiesDifferingInFunction(t1.body, t2.body, k);
    if CountFunctionDefs(t1.body) == 1 {
      NormalizeSpecOk(t1, k, clean, builtins, intoAnnotations);
      NormalizeSpecOk(t2, k, clean, builtins, intoAnnotations);
      DocstringIndependence(t1.body[k], t2.body[k], SortByKey<ImportStmt>(FilterImports(t1.body), KeyOf),
                            clean, builtins, intoAnnotations);
    } else {
      NormalizeSpecErr(t1, clean, builtins, intoAnnotations);
      NormalizeSpecErr(t2, clean, builtins, intoAnnotations);
    }
  }
}
