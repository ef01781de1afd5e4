# ouverture canonicaliser and ASTON encoder, in Dafny

ouverture is a function pool for Python. It keeps one file per function, addressed by a hash of its
canonical form. The same function lands in the same place in three cases:
- it has another docstring (in any human language);
- its local names are renamed consistently, in a way that keeps their sorted order;
- an ouverture import is written under another fresh alias.

This holds for `ASTNormalizer` as written and for the corrected pass that also renames inside
parameter annotations. As written, the pass does not rename the names inside annotations, so there
a renaming of local names must leave those names alone.

Local names are numbered by their rank in sorted order. So a renaming that changes that order gives
another hash; `Invariance.OrderChangingRenamingChangesHash` shows one. This project models the
canonicaliser and the pool's bookkeeping in `ouverture.py`, and the content-addressed ASTON encoder
in `aston.py`.

The model covers these steps of `ouverture.py`:

- `sort_imports`: moves the imports to the front, ordered by the key `import_key`.
- `extract_function_def`: keeps the imports and exactly one function definition, or fails.
- `extract_docstring`: splits off the docstring.
- `rewrite_ouverture_imports`: turns `from ouverture import h as a` into `from couverture import h` and records `h -> a`.
- `create_name_mapping`: numbers the function `_ouverture_v_0` and every other local name by its sorted rank.
- `replace_ouverture_calls`: replaces an alias `a` by `h._ouverture_v_0`.
- `ASTNormalizer`: applies the renaming.
- `clear_locations`: erases the positions.
- `normalize_ast`: ties all of the above together.
- `collect_names`, `get_imported_names`, `check_unused_imports`: the name analyses.
- `save_function`: the record path and how a record is merged.
- `add_function`: checks the `path@lang` argument, hashes the rendering without the docstring and stores the rendering with it.

`ast_to_aston` turns a tree into its content hash and a post-order list of quads `(hash, field, index, value)`. In these quads every child appears only by its hash.

Files, one module each:

| file | module | what it holds |
|---|---|---|
| wrappers.dfy | Wrappers | `Option`, `Result` |
| strings.dfy | PyStrings | Python's string order, `sorted`, the decimal counter in `_ouverture_v_N`, `rsplit('@', 1)` |
| dict.dfy | PyDict | a `dict[str, str]` as its entries in insertion order |
| ast.dfy | PyAst | the syntax-tree datatype, `ast.walk` (pre-order), `clear_locations` |
| imports.dfy | ImportPasses | `sort_imports`, `extract_function_def`, `rewrite_ouverture_imports` |
| renaming.dfy | Renaming | `create_name_mapping` |
| names.dfy | NameAnalysis | `collect_names`, `get_imported_names`, `check_unused_imports` |
| normalizer.dfy | Normalizer | `ASTNormalizer` |
| calls.dfy | CallReplacer | `replace_ouverture_calls` |
| pipeline.dfy | Pipeline | `extract_docstring`, `normalize_ast` |
| pool.dfy | ObjectPool | `save_function` (a class over a map of files), `add_function` |
| invariance.dfy | Invariance | what renaming a function's names or its aliases leaves unchanged, from one tree up to the hash; two concrete functions that show the limits |
| aston.dfy | Aston | `ast_to_aston` as a method, and the function `Encode` that specifies it |
| aston_props.dfy | AstonProperties | what the quads and the hash mean |

**Loops and specification functions.** Each loop of the source is a `while` loop in a method. Each such
method is proved equal to a specification function, and the lemmas are stated about that function.

**Parameters for what the model cannot see.** The model takes these as parameters:
- `clean`: the docstring clean-up of `ast.get_docstring`;
- `unparse`: `ast.unparse`;
- `sha256`: the hex SHA-256 digest of the UTF-8 encoding;
- `parse`: `ast.parse`, failing with `None`;
- `H`: in ASTON, `json.dumps(..., sort_keys=True)` followed by SHA-256, as one function of the canonical object;
- `builtins`: `PYTHON_BUILTINS`.

**Two flags choose between the code as written and the corrected code (see Findings).**
- `intoAnnotations`: `false` is `ASTNormalizer` as written, `true` also renames inside parameter annotations.
- `reprUnhandled`: `false` is `ast_to_aston` as written, `true` keeps unhandled field values by their repr.

The pipeline and invariance lemmas hold for both values of each flag.

## Model

| member | source | states |
|---|---|---|
| PyStrings.StrOrder | ouverture.py:174 | Python's string comparison is a strict total order: irreflexive, asymmetric, transitive, trichotomous |
| PyStrings.SortStrings | ouverture.py:103 | `sorted` of a list of names is ordered and is a permutation of its input |
| PyStrings.SortedSet | ouverture.py:174 | `sorted(all_names)` is strictly increasing and has exactly the elements of the set |
| PyStrings.StrictlySortedUnique | ouverture.py:174 | two strictly sorted lists with the same elements are equal, so the numbering depends only on the set |
| PyStrings.RankInSortedSet | ouverture.py:174-178 | the `k`-th name of the sorted set has exactly `k` smaller names in the set |
| PyStrings.DecimalRoundTrip | ouverture.py:175 | the decimal digits of the counter read back to the counter |
| PyStrings.NatToStringInjective | ouverture.py:175 | distinct counters give distinct decimal texts |
| PyStrings.RSplitOnce | ouverture.py:371 | `rsplit('@', 1)` gives `before + "@" + after == s` with no `@` in `after` |
| PyStrings.RSplitOnceUnique | ouverture.py:371 | any split of `s` at an `@` with none after it is the one `rsplit` returns |
| PyDict.Lookup | ouverture.py:224-225 | looking up a key fails exactly when the key is absent |
| PyDict.Put | ouverture.py:200 | after `d[k] = v` the keys are the old ones plus `k`, `d[k]` is `v`, and keys stay distinct |
| PyDict.LookupPutOther | ouverture.py:200 | assigning one key leaves every other key's value unchanged |
| PyDict.PutPlacement | ouverture.py:200 | `d[k] = v` appends `(k, v)` when `k` is new; otherwise the entries stay in place and only `k`'s value changes |
| PyDict.PutAllKeyOrder | ouverture.py:197-200 | after a sequence of assignments the keys are listed in the order of their first assignment |
| PyDict.PutAllKeys | ouverture.py:197-200 | a sequence of assignments has exactly the assigned keys |
| PyDict.PutAllLastWins | ouverture.py:197-200 | the value of a key is the one its last assignment wrote |
| PyDict.FirstKeyWithValue | ouverture.py:224-225 | the search over `alias_mapping.items()` finds nothing exactly when no value matches, else the first entry in insertion order whose value matches |
| PyAst.ClearPosReachesEveryNode | ouverture.py:238-248 | `clear_locations` visits every node of `ast.walk`: each node has all four position attributes `None` and is otherwise unchanged |
| PyAst.ClearPosIdempotent | ouverture.py:238-248 | clearing positions twice is clearing them once |
| PyAst.WalkClearPos | ouverture.py:240 | walking the cleared tree meets the cleared nodes of the original walk, in order |
| ImportPasses.KeyOf | ouverture.py:101-106 | the key is the plain-import form exactly for `import` statements |
| ImportPasses.KeyLtTrichotomy | ouverture.py:101-108 | any two import keys are equal or one is smaller, so the sort order is total |
| ImportPasses.KeyLtTransitive | ouverture.py:101-108 | the tuple order on import keys is transitive |
| ImportPasses.KeyLtIrreflexive | ouverture.py:101-108 | no import key is smaller than itself |
| ImportPasses.FromBeforePlain | ouverture.py:103-106 | every `from` import sorts before every plain `import`, since `'from' < 'import'` |
| ImportPasses.SortByKey | ouverture.py:108 | `imports.sort(key=import_key)` is ordered by the key and is a permutation |
| ImportPasses.SortByKeyStable | ouverture.py:108 | the sort is stable: imports with equal keys keep their relative order |
| ImportPasses.FilterPartition | ouverture.py:94-98 | imports and other statements are together a permutation of the body |
| ImportPasses.SortImports | ouverture.py:89-111 | the method's loop builds the sorted imports followed by the other statements in their order |
| ImportPasses.SortedBodyMeaning | ouverture.py:89-111 | the new body is a permutation of the old one, its imports come first (all `from` imports before plain ones), sorted and stable, and the other statements keep their order |
| ImportPasses.ExtractFunctionDef | ouverture.py:114-130 | the method's loop returns the single function definition and the imports, or the error for none or for a second definition |
| ImportPasses.ExtractSpecMeaning | ouverture.py:114-130 | "no function definition" exactly when the body has none, "only one allowed" exactly when it has two; on success the function is the unique definition and the imports are the body's imports in order |
| ImportPasses.SortKeepsExtraction | ouverture.py:278-281 | sorting first changes neither whether extraction fails, nor its error, nor the function found; only the imports come out sorted |
| ImportPasses.StripAliases | ouverture.py:196-202 | the rewritten import names keep every name, in order, with no `as` part |
| ImportPasses.RewriteOuvertureImports | ouverture.py:183-213 | the method's loops return the rewritten imports and the alias mapping |
| ImportPasses.RewrittenImportsMeaning | ouverture.py:192-211 | one output per import; other imports are kept as they are; `from ouverture` imports become `from couverture` at level 0 with the same names and no aliases |
| ImportPasses.AliasMappingMeaning | ouverture.py:192-200 | a hash is a key of the alias mapping exactly when it was imported from `ouverture` with a non-empty alias; its value is such an alias, the last one written |
| Renaming.CollectImportedNames | ouverture.py:144-151 | the method's loop collects the names the imports bind |
| Renaming.ImportedNamesMeaning | ouverture.py:144-151 | a name is imported exactly when some alias of some import binds it, by `asname` if present, else by `name` |
| Renaming.CollectedNamesMeaning | ouverture.py:163-168 | a name is a rename candidate exactly when a `Name` or `arg` of the function carries it and it is not imported, built-in or an ouverture alias |
| Renaming.DesignatorInjective | ouverture.py:175 | distinct counters give distinct `_ouverture_v_N` names |
| Renaming.CreateNameMapping | ouverture.py:133-180 | the method's loop builds the forward and reverse mappings of the specification |
| Renaming.NameMappingMeaning | ouverture.py:153-180 | forward maps exactly the function name and the candidates; the function gets `_ouverture_v_0`; every other name gets `1 +` its rank among the sorted candidates; forward is injective; reverse is its inverse both ways |
| NameAnalysis.CollectNames | ouverture.py:43-55 | the method's loop over the walk collects the names of the specification |
| NameAnalysis.CollectNamesMeaning | ouverture.py:43-55 | a name is collected exactly when some walked node is a `Name` with that id, or a function definition with that name or a positional parameter of that name |
| NameAnalysis.GetImportedNames | ouverture.py:58-70 | the set is exactly the names bound by the aliases of walked `import` and `from` nodes |
| NameAnalysis.IsUsed | ouverture.py:77-83 | the inner loop answers whether some walked node other than an import is a `Name` with that id |
| NameAnalysis.CheckUnusedImports | ouverture.py:73-86 | the result is true exactly when every imported name is used as a `Name` outside the imports |
| Normalizer.NormalizeKeepsSkeleton | ouverture.py:20-40 | the pass changes nothing but the renamable identifiers |
| Normalizer.RenamesEveryIdentifier | ouverture.py:20-40 | with the annotation fix, the walk of the result matches the original node for node: same shape, and each identifier replaced by its image |
| Normalizer.IdentsRenamed | ouverture.py:20-40 | with the annotation fix, the identifiers of the result are exactly the renamed identifiers; when no designator is itself a key, no key of the mapping is left |
| Normalizer.AsWrittenKeepsAnnotationNames | ouverture.py:31-34 | as written, in `x: Foo` with `Foo` mapped, `Foo` stays in the annotation; the fix renames it |
| CallReplacer.ReplacesAliasName | ouverture.py:222-232 | a `Name` whose id is an alias becomes `h._ouverture_v_0` for the first hash in insertion order with that alias, keeping its context; any other `Name` is unchanged |
| CallReplacer.ReplaceCallsIds | ouverture.py:216-235 | the ids of the `Name` nodes after replacement are the old ids with each alias replaced by its hash; parameter and function names are untouched |
| CallReplacer.NoAliasRemains | ouverture.py:216-235 | when no hash is also an alias, no alias is left as a `Name` |
| CallReplacer.NoAliasUsedIdentity | ouverture.py:216-235 | a tree that uses no alias is returned unchanged |
| Pipeline.ExtractDocstring | ouverture.py:251-269 | the copy is the function with the docstring statement, if any, removed and with nothing else changed; the docstring is the cleaned text, or `""` |
| Pipeline.NormalizeAst | ouverture.py:272-318 | the method's loop over both modules gives the specification's result |
| Pipeline.NormalizeErrors | ouverture.py:278-281 | `normalize_ast` fails with "no function" or "only one allowed" exactly on those bodies; otherwise it is the normalization of the unique function with the sorted imports |
| Pipeline.ProcessedModulesShareImports | ouverture.py:296-309 | both modules are processed identically: the same processed imports, followed by the processed function |
| Pipeline.ProcessDocstring | ouverture.py:299-309 | the processing passes leave a docstring statement unchanged except for its positions |
| Pipeline.RenderingsDifferByDocstring | ouverture.py:295-316 | the two normalized modules differ only by the docstring statement at the head of the function body |
| Pipeline.PositionsCleared | ouverture.py:308 | after `clear_locations`, every node of both normalized modules has its positions cleared |
| Pipeline.FunctionBecomesDesignatorZero | ouverture.py:157-159 | in both modules the function is named `_ouverture_v_0`, and the name mapping maps that back to the original name |
| Pipeline.DroppingDocstringKeepsNames | ouverture.py:284-293 | the rename candidates of the function with its docstring are those of the function without it |
| Pipeline.DocstringIndependence | ouverture.py:284-318 | two functions equal up to their docstrings get the same docstring-free module, name mapping and alias mapping |
| Pipeline.ModuleDocstringIndependence | ouverture.py:272-318 | two source modules that differ only in the docstring of their function fail alike or give the same docstring-free module, name mapping and alias mapping |
| ObjectPool.RecordPath | ouverture.py:330-335 | the record path has the length of the objects directory, the hash, one `/` and `.json` |
| ObjectPool.RecordPathRoundTrip | ouverture.py:330-335 | the hash can be read back from `objects/<hash[:2]>/<hash[2:]>.json` |
| ObjectPool.RecordPathInjective | ouverture.py:330-335 | different hashes go to different files |
| ObjectPool.MergeRecord | ouverture.py:337-354 | a new record has version 0, the hash, the code and one entry per map for `lang`; an existing record keeps its version, hash and code, and only its entries for `lang` are overwritten |
| ObjectPool.MergeIdempotent | ouverture.py:337-354 | saving the same function twice in one language gives the record of saving it once |
| ObjectPool.MergeTwoLanguages | ouverture.py:337-354 | saving in two languages in either order gives the same per-language maps; the stored code is that of the first save |
| ObjectPool.ObjectStore.SaveFunction | ouverture.py:326-357 | writes the merged record at the record path of the hash, and changes no other file |
| ObjectPool.ParseTargetMeaning | ouverture.py:367-376 | "missing suffix" exactly when there is no `@`; success gives `path + "@" + lang` with a 3-character `lang` and no `@` in it; a bad code is the text after the last `@` |
| ObjectPool.ParseTargetRoundTrip | ouverture.py:371-376 | `path@lang` splits back into `path` and `lang` (the path may contain `@`), or is rejected for the length of `lang` |
| ObjectPool.AddFunction | ouverture.py:364-404 | validates, reads, parses and normalizes; on error the pool is unchanged; on success the hash is that of the rendering without the docstring and the record stores the rendering with it |
| ObjectPool.ValidatesBeforeReading | ouverture.py:367-383 | a malformed argument is rejected whatever the files and the parser, before any file is read |
| ObjectPool.SameLogicSameHash | ouverture.py:395-404 | two files that differ only in the docstring, added in any two languages, fail alike or get the same hash and name mapping |
| Invariance.Simulation | ouverture.py:299-306 | for either pass: when every identifier of a tree commutes with a renaming (and, for the pass as written, so do the names inside annotations, which it leaves alone), renaming first and then replacing calls and normalizing under the new mappings gives the tree the original gives under the old ones |
| Invariance.CollectedNamesRenamed | ouverture.py:163-168 | the names collected from a renamed function are the renamed collected names, as long as no name crosses the imported, built-in or alias exclusions |
| Invariance.SortedSetRenamed | ouverture.py:174 | a renaming that keeps the order of a set's names turns `sorted` of the set into `sorted` of the renamed set |
| Invariance.RenamedMappings | ouverture.py:153-180 | under an injective, order-keeping renaming, each renamed name gets the designator its original had, and the reverse mapping lists the renamed names under the same designators |
| Invariance.RenamingInvariance | ouverture.py:284-318 | for either pass, renaming a function's own names freshly and in order (as written, leaving names inside annotations alone) leaves both normalized modules, the docstring and the alias mapping unchanged; the name mapping has the same designators, each leading to the renamed name |
| Invariance.ModuleRenamingInvariance | ouverture.py:272-318 | for either pass, a file and its copy with the function so renamed fail alike, with the same error, or give the same modules, docstring and alias mapping, and name mappings related by the renaming |
| Invariance.RenamedSameHash | ouverture.py:364-404 | for either pass, `add_function` accepts both files or neither; when accepted they get the same hash, with name mappings related by the renaming |
| Invariance.PutAllMapValues | ouverture.py:197-200 | renaming the values of the assignments renames the values of the dictionary they build, keys and order unchanged |
| Invariance.AliasMappingRenamed | ouverture.py:192-200 | writing an ouverture alias `a` as `b` in the imports lists `b` where `alias_mapping` listed `a`, and changes nothing else in it |
| Invariance.FirstKeyRenamed | ouverture.py:224-225 | with `b` not yet an alias, the call replacer finds for the renamed name the hash it found for the original |
| Invariance.SortAliasRenamed | ouverture.py:101-108 | renaming an alias does not change the sort key, so sorting and renaming commute |
| Invariance.AliasRenamingInvariance | ouverture.py:284-318 | for either pass, writing an ouverture alias as a fresh name, in its import and at every use, leaves both modules, the docstring and the name mapping unchanged; `alias_mapping` lists the new alias |
| Invariance.ModuleAliasRenamingInvariance | ouverture.py:272-318 | for either pass, a file and its copy with the alias so renamed fail alike, with the same error, or give the same modules, docstring and name mapping |
| Invariance.AliasRenamedSameHash | ouverture.py:364-404 | for either pass, `add_function` accepts both files or neither; when accepted they get the same hash and the same name mapping |
| Invariance.OrderChangingRenamingChangesHash | ouverture.py:174-178 | for either pass, as written or corrected, swapping `a` and `b` in `def f(b, a): return b - a` is a fresh renaming that does not keep the order, and the docstring-free module changes: the first parameter becomes `_ouverture_v_1` instead of `_ouverture_v_2` |
| Invariance.AnnotationKeptAsWritten | ouverture.py:31-34 | as written, `normalize_ast` on `def f(x: Foo): return x` records `_ouverture_v_1` for `Foo`, yet the parameter reads `_ouverture_v_2: Foo`; with the fix it reads `_ouverture_v_2: _ouverture_v_1` |
| Aston.AstToAston | aston.py:21-79 | the method's loops over fields and list items return exactly the hash and quads of `Encode` |
| Aston.FieldToAston | aston.py:38-62 | one pass of the field loop gives the field's child quads and what it adds to the object and to `field_data` |
| Aston.NodeTuples | aston.py:68-77 | the node's own quads are the `_type` quad followed by the quads of `field_data` in order |
| Aston.AppendDatum | aston.py:71-76 | a scalar entry adds one quad, a list entry one quad per element |
| Aston.AppendIndexed | aston.py:75-76 | the list loop adds one quad per element with its position as index |
| Aston.DatumQuads | aston.py:71-76 | a scalar yields one quad with index `None`; a list yields one quad per element, indexed 0 to n-1 |
| AstonProperties.PostOrderLayout | aston.py:48-78 | a node's quads are its children's encodings in order, then its own group; the group starts with `(hash, '_type', None, typename)` and every quad in it carries the node's hash |
| AstonProperties.ChildQuadsAreEncodings | aston.py:48-62 | the quads before a node's group are exactly its children's full encodings, one after the other |
| AstonProperties.OneTypeQuadPerNode | aston.py:21-79 | the encoding of a tree holds exactly one `_type` quad per node |
| AstonProperties.FieldQuads | aston.py:38-76 | a field's quads in its node's group: one with index `None` for an atom; one holding the child's hash for a child; one per list element, indexed by position, an AST element by its hash and any other raw; for an unhandled value, none as written and, when corrected, one holding its repr tagged as a repr |
| AstonProperties.CanonicalEntries | aston.py:33-66 | the hash is `H` of the object. The object maps `_type` to the type name and each kept field to its value, with children by hash and lists as arrays. A dropped field has no entry |
| AstonProperties.EmptyListHashedNotEmitted | aston.py:45-76 | an empty list yields no quads but appears as `[]` in the hashed object |
| AstonProperties.ChildrenOnlyByHash | aston.py:45-66 | a child enters its parent only through its hash: replacing children, held directly or as list elements, by subtrees with the same hashes changes neither the parent's hash nor its own quads |
| AstonProperties.UnhandledInvisibleAsWritten | aston.py:38-62 | as written, nodes that differ only in fields of unhandled type get the same hash and quads |
| AstonProperties.BytesConstantsCollideAsWritten | aston.py:38-62 | as written, `Constant(b'a')` and `Constant(b'b')` are different and get the same hash and quads |
| AstonProperties.DifferentDatumDifferentHash | aston.py:38-66 | with a collision-free hash, two nodes whose same-named field contributes different data to the hashed object (or is kept by one and dropped by the other) get different hashes |
| AstonProperties.UnhandledHashedWhenCorrected | aston.py:38-66 | corrected, with a collision-free hash, a field holding an unhandled value hashes apart from the same field holding another unhandled value or any handled value, a `str` spelling the same repr included |
| AstonProperties.BytesConstantsDistinctWhenCorrected | aston.py:38-66 | corrected, `Constant(b'a')` and `Constant(b'b')` get different hashes |
| AstonProperties.BytesAndStrDistinctWhenCorrected | aston.py:38-66 | corrected, `Constant(b'a')` and `Constant("b'a'")` get different hashes |

## Left out

- The command line is not modelled: `main` in both files, argparse, the messages on the console, and `sys.exit`. The model keeps only what they decide, as `Result` errors.
- File reading and writing, and directory creation, are not modelled; the pool is a map from paths to records. A record already on disk is assumed well formed, and JSON key order and UTF-8 decoding of files are not modelled.
- These library calls are parameters and are not modelled themselves: `ast.parse`, `ast.unparse`, the clean-up inside `ast.get_docstring`, `hashlib.sha256`, and `json.dumps`.
- `H` in the ASTON model stands for the JSON text and its hash together. Injectivity of `H` is a hypothesis, used only by the corrected-encoder lemmas.
- `PYTHON_BUILTINS` is a parameter, since it depends on the running interpreter.
- `ast.fix_missing_locations` is not modelled. It runs after positions are cleared, and `unparse` does not read positions.
- `copy.deepcopy` is not needed: the model works on values.
- The passes are modelled on values, not by in-place mutation:
  - `ASTNormalizer`, `replace_ouverture_calls`, `clear_locations`, `sort_imports`' assignment to `tree.body`.
  - The model therefore does not capture aliasing.
  - In Python the same import nodes are shared by both modules of `normalize_ast`, and are processed twice. The renaming of an import node is the identity, and clearing positions is idempotent (`PyAst.ClearPosIdempotent`). So the shared processing gives the same result as the model's separate copies.
- `ast.walk` visits breadth-first; the model walks in pre-order. Every consumer in the core only builds a set, tests for existence, or visits every node, so the order does not matter.
- The syntax tree keeps only the node kinds the core tells apart; every other kind is `Other`, with its children. Positional-only, `*args` and keyword-only parameters sit in the `otherArgs` of a `FunctionDef`; decorators and the return annotation sit in its `extras`.
- ASTON values: a float is an opaque scalar, with no numeric reasoning. Child hashes and string scalars are both `Str`, as in the source. The corrected encoder keeps an unhandled value as a `Repr` atom, set apart from `Str`; how a fixed encoder would spell that tag in JSON is a design choice the model does not fix.
- The ASTON lemmas assume Python's guarantees about field names: distinct and never `_type` (`DistinctNames`, `NoTypeField`). Without them, Python's `dict` would overwrite a repeated field's entry in place, where `Encode` appends it to `field_data` again.
- The `lang` argument of `normalize_ast` is not used by its body (ouverture.py:272-318), so `NormalizeAst` does not take it.
- There is no ASTON decoder, and therefore no round trip. The encoder loses information: for example, an empty list yields no quads, and a child hash cannot be told apart from a string.
- Async functions are not modelled: `extract_function_def` recognises only `FunctionDef` (ouverture.py:122).
- Normalizer.RenamesEveryIdentifier: stated for the corrected pass only, like `Normalizer.IdentsRenamed`; for the pass as written, `Normalizer.AsWrittenKeepsAnnotationNames` gives the counterexample (first finding below).
- Invariance.RenamingInvariance: holds only for renamings that keep the sorted order of the numbered names. `create_name_mapping` numbers names by their rank in `sorted(all_names)` (ouverture.py:174-178), so another order gives other designators (`Invariance.OrderChangingRenamingChangesHash`). For the pass as written it also needs the renaming to leave every name inside a parameter annotation alone (`Invariance.AnnotationsUntouched`), because that pass does not rename annotations (ouverture.py:31-34).
- Invariance.ModuleRenamingInvariance: the same order and annotation conditions, for whole files.
- Invariance.RenamedSameHash: the same order and annotation conditions, at the pool.
- Pipeline.ModuleDocstringIndependence: covers another docstring only; other names and other aliases are covered by `Invariance.ModuleRenamingInvariance` (names in the same sorted order) and `Invariance.ModuleAliasRenamingInvariance` (a fresh alias). A renaming that changes the sorted order changes the module, as `Invariance.OrderChangingRenamingChangesHash` shows.
- ObjectPool.SameLogicSameHash: covers another docstring only; other names and aliases are covered by `Invariance.RenamedSameHash` and `Invariance.AliasRenamedSameHash`, under the same conditions. So "same logic, same hash" holds across docstrings, order-keeping renamings and fresh aliases, not across every renaming.
- Invariance.AliasRenamingInvariance: only for a new alias that is fresh (not an alias yet and not an identifier of the function) and an old alias that the function does not bind as a parameter or its own name. The same conditions apply to Invariance.ModuleAliasRenamingInvariance and Invariance.AliasRenamedSameHash; all three hold for both passes.

## Findings

| source | as written | input that shows it | evidently intended | confidence | as-written member | corrected member |
|---|---|---|---|---|---|---|
| ouverture.py:31-34 | `visit_arg` renames the parameter and returns without visiting its annotation, but `create_name_mapping` collects the names inside annotations (ouverture.py:164-168) | `def f(x: Foo): return x` with `Foo` neither imported nor built-in: `Foo` gets `_ouverture_v_1` in the mapping but stays `Foo` in the annotation | every collected name is renamed everywhere it occurs, including annotations | medium, not executed | Invariance.AnnotationKeptAsWritten | Normalizer.IdentsRenamed |
| aston.py:38-62 | the field loop has no `else` branch, so a field holding `bytes`, `Ellipsis` or a `complex` number is left out of the hashed object and of the quads | `Constant(value=b'a')` and `Constant(value=b'b')`, or `1j` and `2j`, get the same hash and the same quads | every field takes part in the hash, so a field holding an unhandled value hashes apart from the same field holding any other value | medium, not executed | AstonProperties.BytesConstantsCollideAsWritten | AstonProperties.UnhandledHashedWhenCorrected |
