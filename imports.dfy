/**
 * The three passes over a module's top-level statements: `sort_imports` (imports first, in
 * `import_key` order, everything else after in its original order), `extract_function_def`
 * (the single function and the imports, or an error) and `rewrite_ouverture_imports`
 * (`from ouverture import h as a` becomes `from couverture import h`, and `h -> a` is recorded).
 */
module ImportPasses {
  import opened Wrappers
  import opened PyStrings
  import opened PyAst
  import opened PyDict

  // ----------------------------------------------------------------------------------------
  // sort_imports
  // ----------------------------------------------------------------------------------------

  /** The `name` of each alias, in statement order. */
  function AliasNames(names: seq<Alias>): (r: seq<string>)
    ensures |r| == |names| && forall i :: 0 <= i < |names| ==> r[i] == names[i].name
  {
    seq(|names|, i requires 0 <= i < |names| => names[i].name)
  }

  /**
   * The value `import_key` returns: `('from', module, names)` for an `ImportFrom` and
   * `('import', names)` for an `Import`, the names sorted.
   */
  datatype ImportKey = FromKey(moduleName: string, names: seq<string>) | PlainKey(names: seq<string>)

  /** An `Import` or `ImportFrom` statement. */
  type ImportStmt = n: Node | IsImport(n) witness Import([], NoPos)

  /** `import_key`. */
  function KeyOf(n: ImportStmt): (k: ImportKey)
    ensures k.PlainKey? <==> n.Import?
  {
    if n.Import? then PlainKey(SortStrings(AliasNames(n.names)))
    else FromKey(if n.moduleName.Some? then n.moduleName.value else "", SortStrings(AliasNames(n.names)))
  }

  /** Python's `<` on tuples of strings: lexicographic, a proper prefix sorts first. */
  predicate NamesLt(a: seq<string>, b: seq<string>)
    decreases |a|
  {
    if a == [] then b != []
    else if b == [] then false
    else if a[0] != b[0] then StrLt(a[0], b[0])
    else NamesLt(a[1..], b[1..])
  }

  lemma {:induction false} NamesLtIrreflexive(a: seq<string>)
    ensures !NamesLt(a, a)
    decreases |a|
  {
    if a != [] {
      NamesLtIrreflexive(a[1..]);
    }
  }

  lemma {:induction false} NamesLtTransitive(a: seq<string>, b: seq<string>, c: seq<string>)
    requires NamesLt(a, b) && NamesLt(b, c)
    ensures NamesLt(a, c)
    decreases |a|
  {
    if a != [] && b != [] && c != [] {
      StrOrder();
      if a[0] == b[0] && b[0] == c[0] {
        NamesLtTransitive(a[1..], b[1..], c[1..]);
      }
    }
  }

  lemma {:induction false} NamesLtTrichotomy(a: seq<string>, b: seq<string>)
    ensures NamesLt(a, b) || a == b || NamesLt(b, a)
    decreases |a|
  {
    if a != [] && b != [] {
      StrOrder();
      if a[0] == b[0] {
        NamesLtTrichotomy(a[1..], b[1..]);
        if a[1..] == b[1..] {
          assert a == [a[0]] + a[1..] && b == [b[0]] + b[1..];
        }
      }
    }
  }

  /**
   * Python's `<` on two `import_key` values. The first components are `'from'` and
   * `'import'`, and `'from' < 'import'`, so every from-import key is below every import key.
   */
  predicate KeyLt(a: ImportKey, b: ImportKey) {
    match (a, b)
    case (FromKey(m1, n1), FromKey(m2, n2)) => StrLt(m1, m2) || (m1 == m2 && NamesLt(n1, n2))
    case (FromKey(_, _), PlainKey(_)) => StrLt("from", "import")
    case (PlainKey(_), FromKey(_, _)) => StrLt("import", "from")
    case (PlainKey(n1), PlainKey(n2)) => NamesLt(n1, n2)
  }

  predicate KeyLe(a: ImportKey, b: ImportKey) {
    a == b || KeyLt(a, b)
  }

  lemma KeyLtIrreflexive(a: ImportKey)
    ensures !KeyLt(a, a)
  {
    if a.FromKey? {
      StrLtIrreflexive(a.moduleName);
    }
    NamesLtIrreflexive(a.names);
  }

  lemma KeyLtTransitive(a: ImportKey, b: ImportKey, c: ImportKey)
    requires KeyLt(a, b) && KeyLt(b, c)
    ensures KeyLt(a, c)
  {
    assert StrLt("from", "import");
    StrLtAsymmetric("from", "import");
    if a.FromKey? && b.FromKey? && c.FromKey? {
      if StrLt(a.moduleName, b.moduleName) && StrLt(b.moduleName, c.moduleName) {
        StrLtTransitive(a.moduleName, b.moduleName, c.moduleName);
      } else if a.moduleName == b.moduleName == c.moduleName {
        NamesLtTransitive(a.names, b.names, c.names);
      }
    } else if a.PlainKey? && b.PlainKey? && c.PlainKey? {
      NamesLtTransitive(a.names, b.names, c.names);
    }
  }

  lemma KeyLtTrichotomy(a: ImportKey, b: ImportKey)
    ensures KeyLt(a, b) || a == b || KeyLt(b, a)
  {
    assert StrLt("from", "import");
    if a.FromKey? && b.FromKey? {
      StrLtTrichotomy(a.moduleName, b.moduleName);
    }
    NamesLtTrichotomy(a.names, b.names);
  }

  lemma KeyLeTransitive(a: ImportKey, b: ImportKey, c: ImportKey)
    requires KeyLe(a, b) && KeyLe(b, c)
    ensures KeyLe(a, c)
  {
    if a != b && b != c {
      KeyLtTransitive(a, b, c);
    }
  }

  /** Every from-import key sorts before every plain import key. */
  lemma FromBeforePlain(a: ImportKey, b: ImportKey)
    requires a.FromKey? && b.PlainKey?
    ensures KeyLt(a, b) && !KeyLe(b, a)
  {
    assert StrLt("from", "import");
    StrLtAsymmetric("from", "import");
  }

  /** The key order does not decrease along `s`. */
  predicate KeySorted<T>(s: seq<T>, key: T -> ImportKey) {
    forall i, j :: 0 <= i < j < |s| ==> KeyLe(key(s[i]), key(s[j]))
  }

  lemma ConsKeySorted<T>(x: T, s: seq<T>, key: T -> ImportKey)
    requires KeySorted(s, key)
    requires forall j :: 0 <= j < |s| ==> KeyLe(key(x), key(s[j]))
    ensures KeySorted([x] + s, key)
  {
    var r := [x] + s;
    forall i, j | 0 <= i < j < |r| ensures KeyLe(key(r[i]), key(r[j])) {
      assert r[j] == s[j - 1];
      if i > 0 {
        assert r[i] == s[i - 1];
      }
    }
  }

  /** Inserts `x` before the first element whose key is at least `x`'s key. */
  function InsertByKey<T>(x: T, s: seq<T>, key: T -> ImportKey): (r: seq<T>)
    requires KeySorted(s, key)
    ensures KeySorted(r, key)
    ensures multiset(r) == multiset(s) + multiset{x}
  {
    if s == [] || KeyLe(key(x), key(s[0])) then
      assert forall j :: 0 <= j < |s| ==> KeyLe(key(x), key(s[j])) by {
        forall j | 0 <= j < |s| ensures KeyLe(key(x), key(s[j])) {
          if j > 0 {
            KeyLeTransitive(key(x), key(s[0]), key(s[j]));
          }
        }
      }
      ConsKeySorted(x, s, key);
      [x] + s
    else
      var tail := s[1..];
      var rest := InsertByKey(x, tail, key);
      KeyLtTrichotomy(key(x), key(s[0]));
      assert s == [s[0]] + tail;
      assert forall k :: 0 <= k < |rest| ==> KeyLe(key(s[0]), key(rest[k])) by {
        forall k | 0 <= k < |rest| ensures KeyLe(key(s[0]), key(rest[k])) {
          assert rest[k] in multiset(rest);
          if rest[k] != x {
            assert rest[k] in multiset(tail);
            var j :| 0 <= j < |tail| && tail[j] == rest[k];
            assert s[j + 1] == rest[k];
          }
        }
      }
      ConsKeySorted(s[0], rest, key);
      [s[0]] + rest
  }

  /**
   * `list.sort(key=...)`: Python's stable sort, modelled as insertion sort. CPython
   * computes each key once, before sorting, so the key is a plain function of the element.
   */
  function SortByKey<T>(s: seq<T>, key: T -> ImportKey): (r: seq<T>)
    ensures KeySorted(r, key)
    ensures multiset(r) == multiset(s)
  {
    if s == [] then []
    else
      assert s == [s[0]] + s[1..];
      InsertByKey(s[0], SortByKey(s[1..], key), key)
  }

  /** The elements of `s` whose key is `k`, in their order in `s`. */
  function WithKey<T>(s: seq<T>, key: T -> ImportKey, k: ImportKey): seq<T> {
    if s == [] then []
    else (if key(s[0]) == k then [s[0]] else []) + WithKey(s[1..], key, k)
  }

  lemma {:induction false} WithKeyInsert<T>(x: T, s: seq<T>, key: T -> ImportKey, k: ImportKey)
    requires KeySorted(s, key)
    ensures WithKey(InsertByKey(x, s, key), key, k) == (if key(x) == k then [x] else []) + WithKey(s, key, k)
  {
    InsertByKeyUnfold(x, s, key);
    if s == [] || KeyLe(key(x), key(s[0])) {
      var r := [x] + s;
      assert InsertByKey(x, s, key) == r;
      WithKeyCons(x, s, key, k);
    } else {
      WithKeyInsert(x, s[1..], key, k);
      WithKeyPastSmaller(x, s[0], s[1..], InsertByKey(x, s[1..], key), key, k);
      assert s == [s[0]] + s[1..];
    }
  }

  /** Inserting `x` after an element with a different key leaves that element's share unchanged. */
  lemma WithKeyPastSmaller<T>(x: T, y: T, tail: seq<T>, rest: seq<T>, key: T -> ImportKey, k: ImportKey)
    requires !KeyLe(key(x), key(y))
    requires WithKey(rest, key, k) == (if key(x) == k then [x] else []) + WithKey(tail, key, k)
    ensures WithKey([y] + rest, key, k) == (if key(x) == k then [x] else []) + WithKey([y] + tail, key, k)
  {
    WithKeyCons(y, rest, key, k);
    WithKeyCons(y, tail, key, k);
    KeyLtTrichotomy(key(x), key(y));
    KeyLtIrreflexive(key(x));
    assert !(key(x) == k && key(y) == k);
  }

  /** One step of `InsertByKey`, without its proof. */
  lemma InsertByKeyUnfold<T>(x: T, s: seq<T>, key: T -> ImportKey)
    requires KeySorted(s, key)
    ensures s == [] || KeyLe(key(x), key(s[0])) ==> InsertByKey(x, s, key) == [x] + s
    ensures s != [] && !KeyLe(key(x), key(s[0])) ==>
      KeySorted(s[1..], key) && InsertByKey(x, s, key) == [s[0]] + InsertByKey(x, s[1..], key)
  {
  }

  lemma WithKeyCons<T>(y: T, s: seq<T>, key: T -> ImportKey, k: ImportKey)
    ensures WithKey([y] + s, key, k) == (if key(y) == k then [y] else []) + WithKey(s, key, k)
  {
    assert ([y] + s)[1..] == s;
  }

  /**
   * The sort is stable: the elements that share a key keep their relative order. With
   * `SortByKey`'s own contract (sorted by key, a permutation) this pins the result down.
   */
  lemma {:induction false} SortByKeyStable<T>(s: seq<T>, key: T -> ImportKey, k: ImportKey)
    ensures WithKey(SortByKey(s, key), key, k) == WithKey(s, key, k)
  {
    if s != [] {
      SortByKeyStable(s[1..], key, k);
      WithKeyInsert(s[0], SortByKey(s[1..], key), key, k);
    }
  }

  /** The import statements of `s`, in order. */
  function FilterImports(s: seq<Node>): (r: seq<ImportStmt>)
    decreases |s|
  {
    if s == [] then []
    else FilterImports(s[..|s| - 1]) + (if IsImport(s[|s| - 1]) then [s[|s| - 1]] else [])
  }

  /** The statements of `s` that are not imports, in order. */
  function FilterOthers(s: seq<Node>): (r: seq<Node>)
    ensures forall i :: 0 <= i < |r| ==> !IsImport(r[i])
    decreases |s|
  {
    if s == [] then []
    else FilterOthers(s[..|s| - 1]) + (if IsImport(s[|s| - 1]) then [] else [s[|s| - 1]])
  }

  lemma {:induction false} FilterPartition(s: seq<Node>)
    ensures multiset(FilterImports(s)) + multiset(FilterOthers(s)) == multiset(s)
    decreases |s|
  {
    if s != [] {
      FilterPartition(s[..|s| - 1]);
      assert s == s[..|s| - 1] + [s[|s| - 1]];
    }
  }

  /** The new `tree.body` that `sort_imports` builds: the sorted imports, then the rest. */
  function SortedBody(body: seq<Node>): seq<Node> {
    SortByKey<ImportStmt>(FilterImports(body), KeyOf) + FilterOthers(body)
  }

  /** `sort_imports`: splits the body in one pass, sorts the imports, and puts them first. */
  method SortImports(tree: Node) returns (sorted: Node)
    requires tree.Module?
    ensures sorted == Module(SortedBody(tree.body))
  {
    var imports: seq<ImportStmt> := [];
    var otherNodes: seq<Node> := [];
    var i := 0;
    while i < |tree.body|
      invariant 0 <= i <= |tree.body|
      invariant imports == FilterImports(tree.body[..i])
      invariant otherNodes == FilterOthers(tree.body[..i])
    {
      var node := tree.body[i];
      assert tree.body[..i + 1][..i] == tree.body[..i];
      if IsImport(node) {
        imports := imports + [node];
      } else {
        otherNodes := otherNodes + [node];
      }
      i := i + 1;
    }
    assert tree.body[..i] == tree.body;
    imports := SortByKey<ImportStmt>(imports, KeyOf);
    sorted := Module(imports + otherNodes);
  }

  /**
   * What `sort_imports` promises about the new body: it is a permutation of the old one;
   * the imports form a prefix, sorted by key, stable among equal keys, with every
   * from-import before every plain import; the other statements follow in their old order.
   */
  lemma SortedBodyMeaning(body: seq<Node>)
    ensures multiset(SortedBody(body)) == multiset(body)
    ensures forall i :: 0 <= i < |SortedBody(body)| ==>
      (IsImport(SortedBody(body)[i]) <==> i < |FilterImports(body)|)
    ensures var imports := SortByKey<ImportStmt>(FilterImports(body), KeyOf);
      && SortedBody(body) == imports + FilterOthers(body)
      && KeySorted(imports, KeyOf)
      && (forall k :: WithKey(imports, KeyOf, k) == WithKey(FilterImports(body), KeyOf, k))
      && (forall i, j :: 0 <= i < j < |imports| && imports[i].Import? ==> imports[j].Import?)
  {
    FilterPartition(body);
    SortedBodyPrefix(body);
    var imports := FilterImports(body);
    forall k ensures WithKey(SortByKey<ImportStmt>(imports, KeyOf), KeyOf, k) == WithKey(imports, KeyOf, k) {
      SortByKeyStable(imports, KeyOf, k);
    }
    SortedPlainAfterFrom(SortByKey<ImportStmt>(imports, KeyOf));
  }

  /** The imports of the new body are exactly its first `|FilterImports(body)|` statements. */
  lemma SortedBodyPrefix(body: seq<Node>)
    ensures forall i :: 0 <= i < |SortedBody(body)| ==>
      (IsImport(SortedBody(body)[i]) <==> i < |FilterImports(body)|)
  {
    var imports := FilterImports(body);
    SortByKeyLength(imports, KeyOf);
    ImportsThenOthers(SortByKey<ImportStmt>(imports, KeyOf), FilterOthers(body));
  }

  lemma SortByKeyLength<T>(s: seq<T>, key: T -> ImportKey)
    ensures |SortByKey(s, key)| == |s|
  {
    assert |multiset(SortByKey(s, key))| == |multiset(s)|;
  }

  lemma ImportsThenOthers(imports: seq<ImportStmt>, others: seq<Node>)
    requires forall i :: 0 <= i < |others| ==> !IsImport(others[i])
    ensures forall i :: 0 <= i < |imports + others| ==> (IsImport((imports + others)[i]) <==> i < |imports|)
  {
    var r := imports + others;
    forall i | 0 <= i < |r| ensures IsImport(r[i]) <==> i < |imports| {
      if i < |imports| {
        assert r[i] == imports[i];
      } else {
        assert r[i] == others[i - |imports|];
      }
    }
  }

  /** In a key-sorted run of imports, every plain import comes after every from-import. */
  lemma SortedPlainAfterFrom(sortedImports: seq<ImportStmt>)
    requires KeySorted(sortedImports, KeyOf)
    ensures forall i, j :: 0 <= i < j < |sortedImports| && sortedImports[i].Import? ==> sortedImports[j].Import?
  {
    forall i, j | 0 <= i < j < |sortedImports| && sortedImports[i].Import? ensures sortedImports[j].Import? {
      assert KeyLe(KeyOf(sortedImports[i]), KeyOf(sortedImports[j]));
      if sortedImports[j].ImportFrom? {
        FromBeforePlain(KeyOf(sortedImports[j]), KeyOf(sortedImports[i]));
      }
    }
  }

  // ----------------------------------------------------------------------------------------
  // extract_function_def
  // ----------------------------------------------------------------------------------------

  /** The two `ValueError`s `extract_function_def` raises. */
  datatype ExtractError =
    | MultipleFunctionDefs  // "Only one function definition is allowed per file"
    | NoFunctionDef         // "No function definition found in file"

  /** The number of top-level `FunctionDef` statements in `s`. */
  function CountFunctionDefs(s: seq<Node>): nat
    decreases |s|
  {
    if s == [] then 0
    else CountFunctionDefs(s[..|s| - 1]) + (if s[|s| - 1].FunctionDef? then 1 else 0)
  }

  /** The first top-level `FunctionDef` of `s`. */
  function FirstFunctionDef(s: seq<Node>): (f: Node)
    requires CountFunctionDefs(s) > 0
    ensures f.FunctionDef?
    decreases |s|
  {
    if CountFunctionDefs(s[..|s| - 1]) > 0 then FirstFunctionDef(s[..|s| - 1]) else s[|s| - 1]
  }

  /** The outcome of `extract_function_def` on a module with this body. */
  function ExtractSpec(body: seq<Node>): Result<(Node, seq<Node>), ExtractError> {
    var n := CountFunctionDefs(body);
    if n == 0 then Err(NoFunctionDef)
    else if n > 1 then Err(MultipleFunctionDefs)
    else Ok((FirstFunctionDef(body), FilterImports(body)))
  }

  lemma {:induction false} CountPrefix(s: seq<Node>, i: nat)
    requires i <= |s|
    ensures CountFunctionDefs(s[..i]) <= CountFunctionDefs(s)
    decreases |s| - i
  {
    if i < |s| {
      assert s[..i + 1][..i] == s[..i];
      CountPrefix(s, i + 1);
    } else {
      assert s[..i] == s;
    }
  }

  /** `extract_function_def`: one pass over the body, failing on a second function. */
  method ExtractFunctionDef(tree: Node) returns (r: Result<(Node, seq<Node>), ExtractError>)
    requires tree.Module?
    ensures r == ExtractSpec(tree.body)
  {
    var body := tree.body;
    var imports: seq<ImportStmt> := [];
    var functionDef: Option<Node> := None;
    var i := 0;
    while i < |body|
      invariant 0 <= i <= |body|
      invariant imports == FilterImports(body[..i])
      invariant CountFunctionDefs(body[..i]) <= 1
      invariant functionDef.None? <==> CountFunctionDefs(body[..i]) == 0
      invariant functionDef.Some? ==> functionDef.value == FirstFunctionDef(body[..i])
    {
      var node := body[i];
      assert body[..i + 1][..i] == body[..i];
      if IsImport(node) {
        imports := imports + [node];
      } else if node.FunctionDef? {
        if functionDef.Some? {
          CountPrefix(body, i + 1);
          return Err(MultipleFunctionDefs);
        }
        functionDef := Some(node);
      }
      i := i + 1;
    }
    assert body[..i] == body;
    if functionDef.None? {
      return Err(NoFunctionDef);
    }
    return Ok((functionDef.value, imports));
  }

  lemma {:induction false} CountZero(s: seq<Node>)
    ensures CountFunctionDefs(s) == 0 <==> forall i :: 0 <= i < |s| ==> !s[i].FunctionDef?
    decreases |s|
  {
    if s != [] {
      CountZero(s[..|s| - 1]);
      assert forall i :: 0 <= i < |s| - 1 ==> s[..|s| - 1][i] == s[i];
    }
  }

  lemma {:induction false} CountOne(s: seq<Node>)
    requires CountFunctionDefs(s) == 1
    ensures exists k :: (0 <= k < |s| && s[k] == FirstFunctionDef(s)
      && forall j :: 0 <= j < |s| && j != k ==> !s[j].FunctionDef?)
    decreases |s|
  {
    var init := s[..|s| - 1];
    assert forall i :: 0 <= i < |init| ==> init[i] == s[i];
    if CountFunctionDefs(init) == 1 {
      CountOne(init);
      var k :| 0 <= k < |init| && init[k] == FirstFunctionDef(init)
        && forall j :: 0 <= j < |init| && j != k ==> !init[j].FunctionDef?;
      assert s[k] == FirstFunctionDef(s);
    } else {
      CountZero(init);
      assert s[|s| - 1] == FirstFunctionDef(s);
    }
  }

  lemma {:induction false} CountTwo(s: seq<Node>, i: nat, j: nat)
    requires i < j < |s| && s[i].FunctionDef? && s[j].FunctionDef?
    ensures CountFunctionDefs(s) >= 2
    decreases |s|
  {
    var init := s[..|s| - 1];
    if j < |s| - 1 {
      assert init[i] == s[i] && init[j] == s[j];
      CountTwo(init, i, j);
    } else {
      assert init[i] == s[i];
      CountZero(init);
    }
  }

  /**
   * `extract_function_def` succeeds exactly when the body holds one `FunctionDef`, which it
   * returns together with the import statements in order; with none it reports
   * `NoFunctionDef`, with two or more `MultipleFunctionDefs`.
   */
  lemma ExtractSpecMeaning(body: seq<Node>)
    ensures ExtractSpec(body).Err? && ExtractSpec(body).error == NoFunctionDef
      <==> forall i :: 0 <= i < |body| ==> !body[i].FunctionDef?
    ensures ExtractSpec(body).Err? && ExtractSpec(body).error == MultipleFunctionDefs
      <==> exists i, j :: 0 <= i < j < |body| && body[i].FunctionDef? && body[j].FunctionDef?
    ensures ExtractSpec(body).Ok? ==>
      && ExtractSpec(body).value.0.FunctionDef?
      && ExtractSpec(body).value.1 == FilterImports(body)
      && exists k :: (0 <= k < |body| && body[k] == ExtractSpec(body).value.0
         && forall j :: 0 <= j < |body| && j != k ==> !body[j].FunctionDef?)
  {
    CountZero(body);
    if exists i, j :: 0 <= i < j < |body| && body[i].FunctionDef? && body[j].FunctionDef? {
      var i, j :| 0 <= i < j < |body| && body[i].FunctionDef? && body[j].FunctionDef?;
      CountTwo(body, i, j);
    }
    if CountFunctionDefs(body) == 1 {
      CountOne(body);
      var k :| 0 <= k < |body| && body[k] == FirstFunctionDef(body)
        && forall j :: 0 <= j < |body| && j != k ==> !body[j].FunctionDef?;
      assert !exists i, j :: 0 <= i < j < |body| && body[i].FunctionDef? && body[j].FunctionDef?;
    }
    if CountFunctionDefs(body) > 1 {
      assert !forall i :: 0 <= i < |body| ==> !body[i].FunctionDef?;
      var i :| 0 <= i < |body| && body[i].FunctionDef?;
      // A second definition exists: otherwise body[i] would be the only one and the count 1.
      assert exists j :: 0 <= j < |body| && j != i && body[j].FunctionDef? by {
        if forall j :: 0 <= j < |body| && j != i ==> !body[j].FunctionDef? {
          CountExactlyOne(body, i);
        }
      }
      var j :| 0 <= j < |body| && j != i && body[j].FunctionDef?;
      if i < j {
        assert 0 <= i < j < |body| && body[i].FunctionDef? && body[j].FunctionDef?;
      } else {
        assert 0 <= j < i < |body| && body[j].FunctionDef? && body[i].FunctionDef?;
      }
    }
  }

  lemma {:induction false} CountExactlyOne(s: seq<Node>, k: nat)
    requires k < |s| && s[k].FunctionDef?
    requires forall j :: 0 <= j < |s| && j != k ==> !s[j].FunctionDef?
    ensures CountFunctionDefs(s) == 1
    decreases |s|
  {
    var init := s[..|s| - 1];
    if k < |s| - 1 {
      assert init[k] == s[k];
      assert forall j :: 0 <= j < |init| && j != k ==> init[j] == s[j];
      CountExactlyOne(init, k);
    } else {
      assert forall j :: 0 <= j < |init| ==> init[j] == s[j];
      CountZero(init);
    }
  }

  lemma {:induction false} CountAppend(a: seq<Node>, b: seq<Node>)
    ensures CountFunctionDefs(a + b) == CountFunctionDefs(a) + CountFunctionDefs(b)
    decreases |b|
  {
    if b == [] {
      assert a + b == a;
    } else {
      var init := b[..|b| - 1];
      assert (a + b)[..|a + b| - 1] == a + init;
      assert (a + b)[|a + b| - 1] == b[|b| - 1];
      CountAppend(a, init);
    }
  }

  lemma {:induction false} FirstAfterPrefix(a: seq<Node>, b: seq<Node>)
    requires CountFunctionDefs(a) > 0
    ensures CountFunctionDefs(a + b) == CountFunctionDefs(a) + CountFunctionDefs(b)
      && FirstFunctionDef(a + b) == FirstFunctionDef(a)
    decreases |b|
  {
    CountAppend(a, b);
    if b == [] {
      assert a + b == a;
    } else {
      var init := b[..|b| - 1];
      assert (a + b)[..|a + b| - 1] == a + init;
      CountAppend(a, init);
      FirstAfterPrefix(a, init);
    }
  }

  lemma {:induction false} FirstAfterNone(a: seq<Node>, b: seq<Node>)
    requires CountFunctionDefs(a) == 0 && CountFunctionDefs(b) > 0
    ensures CountFunctionDefs(a + b) == CountFunctionDefs(b) && FirstFunctionDef(a + b) == FirstFunctionDef(b)
    decreases |b|
  {
    CountAppend(a, b);
    var init := b[..|b| - 1];
    assert (a + b)[..|a + b| - 1] == a + init;
    assert (a + b)[|a + b| - 1] == b[|b| - 1];
    CountAppend(a, init);
    if CountFunctionDefs(init) > 0 {
      FirstAfterNone(a, init);
    }
  }

  lemma {:induction false} FilterImportsAppend(a: seq<Node>, b: seq<Node>)
    ensures FilterImports(a + b) == FilterImports(a) + FilterImports(b)
    decreases |b|
  {
    if b == [] {
      assert a + b == a;
    } else {
      var init := b[..|b| - 1];
      assert (a + b)[..|a + b| - 1] == a + init;
      assert (a + b)[|a + b| - 1] == b[|b| - 1];
      FilterImportsAppend(a, init);
    }
  }

  lemma {:induction false} ImportsOnly(s: seq<ImportStmt>)
    ensures FilterImports(s) == s && CountFunctionDefs(s) == 0
    decreases |s|
  {
    if s != [] {
      ImportsOnly(s[..|s| - 1]);
    }
  }

  lemma {:induction false} OthersHaveNoImports(s: seq<Node>)
    ensures FilterImports(FilterOthers(s)) == []
    decreases |s|
  {
    if s != [] {
      var init, x := s[..|s| - 1], s[|s| - 1];
      OthersHaveNoImports(init);
      if !IsImport(x) {
        var prefix := FilterOthers(init);
        var r := prefix + [x];
        assert FilterOthers(s) == r;
        assert r[..|r| - 1] == prefix && r[|r| - 1] == x;
      } else {
        assert FilterOthers(s) == FilterOthers(init) + [];
        assert FilterOthers(init) + [] == FilterOthers(init);
      }
    }
  }

  lemma {:induction false} OthersKeepCount(s: seq<Node>)
    ensures CountFunctionDefs(FilterOthers(s)) == CountFunctionDefs(s)
    decreases |s|
  {
    if s != [] {
      var init, x := s[..|s| - 1], s[|s| - 1];
      OthersKeepCount(init);
      if !IsImport(x) {
        var prefix := FilterOthers(init);
        var r := prefix + [x];
        assert FilterOthers(s) == r;
        assert r[..|r| - 1] == prefix && r[|r| - 1] == x;
      } else {
        assert FilterOthers(s) == FilterOthers(init) + [];
        assert FilterOthers(init) + [] == FilterOthers(init);
      }
    }
  }

  lemma {:induction false} OthersKeepFirst(s: seq<Node>)
    requires CountFunctionDefs(s) > 0
    ensures CountFunctionDefs(FilterOthers(s)) > 0 && FirstFunctionDef(FilterOthers(s)) == FirstFunctionDef(s)
    decreases |s|
  {
    var init, x := s[..|s| - 1], s[|s| - 1];
    OthersKeepCount(s);
    OthersKeepCount(init);
    var prefix := FilterOthers(init);
    if IsImport(x) {
      assert FilterOthers(s) == prefix;
      OthersKeepFirst(init);
    } else {
      var r := prefix + [x];
      assert FilterOthers(s) == r;
      assert r[..|r| - 1] == prefix && r[|r| - 1] == x;
      if CountFunctionDefs(init) > 0 {
        OthersKeepFirst(init);
      }
    }
  }

  /**
   * `normalize_ast` sorts before it extracts. Sorting changes neither the outcome of
   * `extract_function_def` nor the function it picks; only the imports come back sorted.
   */
  lemma SortKeepsExtraction(body: seq<Node>)
    ensures ExtractSpec(SortedBody(body)).Err? <==> ExtractSpec(body).Err?
    ensures ExtractSpec(body).Err? ==> ExtractSpec(SortedBody(body)).error == ExtractSpec(body).error
    ensures ExtractSpec(body).Ok? ==>
      && ExtractSpec(SortedBody(body)).value.0 == ExtractSpec(body).value.0
      && ExtractSpec(SortedBody(body)).value.1 == SortByKey<ImportStmt>(FilterImports(body), KeyOf)
  {
    SortedBodyCount(body);
    SortedBodyImports(body);
    if CountFunctionDefs(body) > 0 {
      SortedBodyFirst(body);
    }
  }

  lemma SortedBodyCount(body: seq<Node>)
    ensures CountFunctionDefs(SortedBody(body)) == CountFunctionDefs(body)
  {
    var imports := SortByKey<ImportStmt>(FilterImports(body), KeyOf);
    ImportsOnly(imports);
    CountAppend(imports, FilterOthers(body));
    OthersKeepCount(body);
  }

  lemma SortedBodyImports(body: seq<Node>)
    ensures FilterImports(SortedBody(body)) == SortByKey<ImportStmt>(FilterImports(body), KeyOf)
  {
    var imports := SortByKey<ImportStmt>(FilterImports(body), KeyOf);
    ImportsOnly(imports);
    OthersHaveNoImports(body);
    FilterImportsAppend(imports, FilterOthers(body));
  }

  lemma SortedBodyFirst(body: seq<Node>)
    requires CountFunctionDefs(body) > 0
    ensures CountFunctionDefs(SortedBody(body)) > 0
    ensures FirstFunctionDef(SortedBody(body)) == FirstFunctionDef(body)
  {
    var imports := SortByKey<ImportStmt>(FilterImports(body), KeyOf);
    ImportsOnly(imports);
    OthersKeepFirst(body);
    FirstAfterNone(imports, FilterOthers(body));
  }

  // ----------------------------------------------------------------------------------------
  // rewrite_ouverture_imports
  // ----------------------------------------------------------------------------------------

  predicate IsOuvertureImport(n: Node) {
    n.ImportFrom? && n.moduleName == Some("ouverture")
  }

  /** Python truthiness of an `asname`: present and not empty. */
  predicate Truthy(asname: Option<string>) {
    asname.Some? && asname.value != ""
  }

  /** The aliases of a rewritten import: the same names, each without its `asname`. */
  function StripAliases(names: seq<Alias>): (r: seq<Alias>)
    ensures |r| == |names|
    ensures forall j :: 0 <= j < |names| ==> r[j] == Alias(names[j].name, None, NoPos)
    decreases |names|
  {
    if names == [] then [] else StripAliases(names[..|names| - 1]) + [Alias(names[|names| - 1].name, None, NoPos)]
  }

  /** The statement `rewrite_ouverture_imports` emits for `n`. */
  function RewriteImport(n: Node): Node {
    if IsOuvertureImport(n) then ImportFrom(Some("couverture"), StripAliases(n.names), 0, NoPos) else n
  }

  function RewrittenImports(imports: seq<Node>): (r: seq<Node>)
    ensures |r| == |imports|
    ensures forall i :: 0 <= i < |imports| ==> r[i] == RewriteImport(imports[i])
    decreases |imports|
  {
    if imports == [] then [] else RewrittenImports(imports[..|imports| - 1]) + [RewriteImport(imports[|imports| - 1])]
  }

  /** The `(name, asname)` assignments one ouverture import makes to the alias mapping. */
  function NamePairs(names: seq<Alias>): seq<(string, string)>
    decreases |names|
  {
    if names == [] then []
    else
      var a := names[|names| - 1];
      NamePairs(names[..|names| - 1]) + (if Truthy(a.asname) then [(a.name, a.asname.value)] else [])
  }

  /** All assignments to the alias mapping, in the order the loop makes them. */
  function AliasPairs(imports: seq<Node>): seq<(string, string)>
    decreases |imports|
  {
    if imports == [] then []
    else
      var imp := imports[|imports| - 1];
      AliasPairs(imports[..|imports| - 1]) + (if IsOuvertureImport(imp) then NamePairs(imp.names) else [])
  }

  /** The `alias_mapping` that `rewrite_ouverture_imports` returns. */
  function AliasMappingOf(imports: seq<Node>): Dict {
    PutAll(AliasPairs(imports))
  }

  lemma PutAllSnoc(ps: seq<(string, string)>, p: (string, string))
    ensures PutAll(ps + [p]) == Put(PutAll(ps), p.0, p.1)
  {
    assert (ps + [p])[..|ps|] == ps;
  }

  lemma AliasStep(earlier: seq<(string, string)>, names: seq<Alias>, j: nat)
    requires j < |names|
    ensures PutAll(earlier + NamePairs(names[..j + 1])) ==
      var a := names[j];
      if Truthy(a.asname) then Put(PutAll(earlier + NamePairs(names[..j])), a.name, a.asname.value)
      else PutAll(earlier + NamePairs(names[..j]))
  {
    var a := names[j];
    var before := NamePairs(names[..j]);
    NamePairsStep(names, j);
    if Truthy(a.asname) {
      var p := (a.name, a.asname.value);
      assert earlier + (before + [p]) == (earlier + before) + [p];
      PutAllSnoc(earlier + before, p);
    } else {
      assert before + [] == before;
    }
  }

  lemma NamePairsStep(names: seq<Alias>, j: nat)
    requires j < |names|
    ensures NamePairs(names[..j + 1]) ==
      NamePairs(names[..j]) + (if Truthy(names[j].asname) then [(names[j].name, names[j].asname.value)] else [])
  {
    assert names[..j + 1][..j] == names[..j];
  }

  lemma StripStep(names: seq<Alias>, j: nat)
    requires j < |names|
    ensures StripAliases(names[..j + 1]) == StripAliases(names[..j]) + [Alias(names[j].name, None, NoPos)]
  {
    assert names[..j + 1][..j] == names[..j];
  }

  /**
   * The inner loop of `rewrite_ouverture_imports` over one ouverture import's aliases.
   * `earlier` is the sequence of assignments that built `aliasMapping` so far.
   */
  method RewriteAliases(names: seq<Alias>, aliasMapping: Dict, ghost earlier: seq<(string, string)>)
    returns (newNames: seq<Alias>, newMapping: Dict)
    requires aliasMapping == PutAll(earlier)
    ensures newNames == StripAliases(names)
    ensures newMapping == PutAll(earlier + NamePairs(names))
  {
    newNames := [];
    newMapping := aliasMapping;
    var j := 0;
    assert earlier + NamePairs(names[..0]) == earlier;
    while j < |names|
      invariant 0 <= j <= |names|
      invariant newNames == StripAliases(names[..j])
      invariant newMapping == PutAll(earlier + NamePairs(names[..j]))
    {
      var alias := names[j];
      AliasStep(earlier, names, j);
      StripStep(names, j);
      if Truthy(alias.asname) {
        newMapping := Put(newMapping, alias.name, alias.asname.value);
      }
      newNames := newNames + [Alias(alias.name, None, NoPos)];
      j := j + 1;
    }
    assert names[..j] == names;
  }

  lemma ImportStep(imports: seq<Node>, i: nat)
    requires i < |imports|
    ensures RewrittenImports(imports[..i + 1]) == RewrittenImports(imports[..i]) + [RewriteImport(imports[i])]
    ensures AliasPairs(imports[..i + 1]) ==
      AliasPairs(imports[..i]) + (if IsOuvertureImport(imports[i]) then NamePairs(imports[i].names) else [])
  {
    assert imports[..i + 1][..i] == imports[..i];
  }

  /** `rewrite_ouverture_imports`: one pass over the imports. */
  method RewriteOuvertureImports(imports: seq<Node>) returns (newImports: seq<Node>, aliasMapping: Dict)
    ensures newImports == RewrittenImports(imports)
    ensures aliasMapping == AliasMappingOf(imports)
  {
    newImports := [];
    aliasMapping := [];
    var i := 0;
    while i < |imports|
      invariant 0 <= i <= |imports|
      invariant newImports == RewrittenImports(imports[..i])
      invariant aliasMapping == PutAll(AliasPairs(imports[..i]))
    {
      var imp := imports[i];
      ImportStep(imports, i);
      if IsOuvertureImport(imp) {
        var newNames;
        newNames, aliasMapping := RewriteAliases(imp.names, aliasMapping, AliasPairs(imports[..i]));
        newImports := newImports + [ImportFrom(Some("couverture"), newNames, 0, NoPos)];
      } else {
        assert AliasPairs(imports[..i]) + [] == AliasPairs(imports[..i]);
        newImports := newImports + [imp];
      }
      i := i + 1;
    }
    assert imports[..i] == imports;
  }

  /**
   * Each rewritten statement: an ouverture import becomes a level-0 `from couverture import`
   * of the same names in the same order, with no aliases; any other import is kept as is.
   */
  lemma RewrittenImportsMeaning(imports: seq<Node>)
    ensures |RewrittenImports(imports)| == |imports|
    ensures forall i :: 0 <= i < |imports| && !IsOuvertureImport(imports[i]) ==> RewrittenImports(imports)[i] == imports[i]
    ensures forall i :: 0 <= i < |imports| && IsOuvertureImport(imports[i]) ==>
      var m := RewrittenImports(imports)[i];
      && m.ImportFrom? && m.moduleName == Some("couverture") && m.level == 0
      && AliasNames(m.names) == AliasNames(imports[i].names)
      && forall j :: 0 <= j < |m.names| ==> m.names[j].asname.None?
  {
  }

  /** Whether alias `j` of statement `i` is a truthy-aliased name of an ouverture import. */
  predicate AliasedAt(imports: seq<Node>, i: int, j: int) {
    && 0 <= i < |imports| && IsOuvertureImport(imports[i])
    && 0 <= j < |imports[i].names| && Truthy(imports[i].names[j].asname)
  }

  lemma {:induction false} NamePairsMembers(names: seq<Alias>, p: (string, string))
    ensures p in NamePairs(names) <==>
      exists j :: 0 <= j < |names| && Truthy(names[j].asname) && p == (names[j].name, names[j].asname.value)
    decreases |names|
  {
    if names != [] {
      var init := names[..|names| - 1];
      NamePairsMembers(init, p);
      assert forall j :: 0 <= j < |init| ==> init[j] == names[j];
    }
  }

  lemma AliasPairsMembers(imports: seq<Node>, p: (string, string))
    ensures p in AliasPairs(imports) <==>
      exists i, j :: AliasedAt(imports, i, j) && p == (imports[i].names[j].name, imports[i].names[j].asname.value)
  {
    if p in AliasPairs(imports) {
      AliasPairsSound(imports, p);
    }
    if exists i, j :: AliasedAt(imports, i, j) && p == (imports[i].names[j].name, imports[i].names[j].asname.value) {
      var i, j :| AliasedAt(imports, i, j) && p == (imports[i].names[j].name, imports[i].names[j].asname.value);
      AliasPairsComplete(imports, i, j);
    }
  }

  lemma {:induction false} AliasPairsSound(imports: seq<Node>, p: (string, string))
    requires p in AliasPairs(imports)
    ensures exists i, j :: AliasedAt(imports, i, j) && p == (imports[i].names[j].name, imports[i].names[j].asname.value)
    decreases |imports|
  {
    var init, last := imports[..|imports| - 1], imports[|imports| - 1];
    if p in AliasPairs(init) {
      AliasPairsSound(init, p);
      var i, j :| AliasedAt(init, i, j) && p == (init[i].names[j].name, init[i].names[j].asname.value);
      assert init[i] == imports[i];
      assert AliasedAt(imports, i, j);
    } else {
      assert IsOuvertureImport(last) && p in NamePairs(last.names);
      NamePairsMembers(last.names, p);
      var j :| 0 <= j < |last.names| && Truthy(last.names[j].asname) && p == (last.names[j].name, last.names[j].asname.value);
      assert AliasedAt(imports, |imports| - 1, j);
    }
  }

  lemma {:induction false} AliasPairsComplete(imports: seq<Node>, i: nat, j: nat)
    requires AliasedAt(imports, i, j)
    ensures (imports[i].names[j].name, imports[i].names[j].asname.value) in AliasPairs(imports)
    decreases |imports|
  {
    var init, last := imports[..|imports| - 1], imports[|imports| - 1];
    var p := (imports[i].names[j].name, imports[i].names[j].asname.value);
    if i < |init| {
      assert init[i] == imports[i];
      assert AliasedAt(init, i, j);
      AliasPairsComplete(init, i, j);
    } else {
      NamePairsMembers(last.names, p);
    }
  }

  /**
   * The alias mapping holds hash `h` exactly when some ouverture import aliases `h` with a
   * non-empty name, and then maps it to an alias one of those imports gives it, the last one
   * in statement order.
   */
  lemma AliasMappingMeaning(imports: seq<Node>, h: string)
    ensures h in Keys(AliasMappingOf(imports)) <==>
      exists i, j :: AliasedAt(imports, i, j) && imports[i].names[j].name == h
    ensures Lookup(AliasMappingOf(imports), h).Some? ==>
      var a := Lookup(AliasMappingOf(imports), h).value;
      && (exists i, j :: AliasedAt(imports, i, j) && imports[i].names[j].name == h && imports[i].names[j].asname.value == a)
      && LastAssigns(AliasPairs(imports), h, a)
  {
    var ps := AliasPairs(imports);
    PutAllKeys(ps);
    if h in Keys(AliasMappingOf(imports)) {
      var p :| 0 <= p < |ps| && ps[p].0 == h;
      AliasPairsMembers(imports, ps[p]);
    }
    if exists i, j :: AliasedAt(imports, i, j) && imports[i].names[j].name == h {
      var i, j :| AliasedAt(imports, i, j) && imports[i].names[j].name == h;
      AliasPairsMembers(imports, (h, imports[i].names[j].asname.value));
      var p :| 0 <= p < |ps| && ps[p] == (h, imports[i].names[j].asname.value);
    }
    if Lookup(AliasMappingOf(imports), h).Some? {
      var a := Lookup(AliasMappingOf(imports), h).value;
      PutAllLastWins(ps, h);
      var p :| 0 <= p < |ps| && ps[p] == (h, a) && forall q :: p < q < |ps| ==> ps[q].0 != h;
      AliasPairsMembers(imports, (h, a));
    }
  }
}
