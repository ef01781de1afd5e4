/**
 * The function pool: `save_function`'s record merge and object path, and the decisions of
 * `add_function` (the `path@lang` check, which rendering is hashed and which is stored).
 * The file system is a map from paths to contents; parsing, rendering, hashing and the
 * docstring clean-up are parameters.
 */
module ObjectPool {
  import opened Wrappers
  import opened PyStrings
  import opened PyAst
  import opened PyDict
  import opened ImportPasses
  import opened Pipeline

  // ----------------------------------------------------------------------------------------
  // save_function
  // ----------------------------------------------------------------------------------------

  /** The JSON object stored per hash, with its three per-language maps. */
  datatype Record = Record(
    version: int,
    hash: string,
    normalizedCode: string,
    docstrings: map<string, string>,
    nameMappings: map<string, map<string, string>>,
    aliasMappings: map<string, Dict>)

  const ObjectsDir: string := ".ouverture/objects/"
  const JsonSuffix: string := ".json"

  /** `.ouverture/objects/<hash[:2]>/<hash[2:]>.json`. */
  function RecordPath(hash: string): (p: string)
    ensures |p| == |ObjectsDir| + |hash| + 1 + |JsonSuffix|
  {
    ObjectsDir + Take(hash, 2) + "/" + Drop(hash, 2) + JsonSuffix
  }

  /** The hash a record path was made from: the path with its fixed parts and the `/` removed. */
  function HashOfPath(p: string): string {
    if |p| < |ObjectsDir| + 1 + |JsonSuffix| then ""
    else
      var middle := p[|ObjectsDir|..|p| - |JsonSuffix|];
      var k := if |middle| - 1 < 2 then |middle| - 1 else 2;
      middle[..k] + middle[k + 1..]
  }

  /** The path determines the hash: every hash, of any length, gets its own file. */
  lemma RecordPathRoundTrip(hash: string)
    ensures HashOfPath(RecordPath(hash)) == hash
  {
    var p := RecordPath(hash);
    var middle := Take(hash, 2) + "/" + Drop(hash, 2);
    assert p == ObjectsDir + middle + JsonSuffix;
    assert p[|ObjectsDir|..|p| - |JsonSuffix|] == middle;
    var k := if |hash| < 2 then |hash| else 2;
    assert Take(hash, 2) == hash[..k] && Drop(hash, 2) == hash[k..];
    assert middle[..k] == hash[..k] && middle[k + 1..] == hash[k..];
    assert hash[..k] + hash[k..] == hash;
  }

  lemma RecordPathInjective(h1: string, h2: string)
    requires RecordPath(h1) == RecordPath(h2)
    ensures h1 == h2
  {
    RecordPathRoundTrip(h1);
    RecordPathRoundTrip(h2);
  }

  /** The record `save_function` creates when the file does not exist yet. */
  function NewRecord(hash: string, normalizedCode: string): Record {
    Record(0, hash, normalizedCode, map[], map[], map[])
  }

  /** `a` is `b` with `lang` set to `v`: every other language keeps its entry, and no other appears. */
  predicate SetsOnly<V(==)>(a: map<string, V>, b: map<string, V>, lang: string, v: V) {
    && a.Keys == b.Keys + {lang}
    && a[lang] == v
    && forall l :: l in b && l != lang ==> a[l] == b[l]
  }

  /** The record after `save_function`: the loaded or new record with the entries for `lang` set. */
  function MergeRecord(existing: Option<Record>, hash: string, lang: string, normalizedCode: string, docstring: string,
                       nameMapping: map<string, string>, aliasMapping: Dict): (r: Record)
    ensures existing.None? ==>
      && r.version == 0 && r.hash == hash && r.normalizedCode == normalizedCode
      && r.docstrings == map[lang := docstring]
      && r.nameMappings == map[lang := nameMapping]
      && r.aliasMappings == map[lang := aliasMapping]
    ensures existing.Some? ==>
      && r.version == existing.value.version && r.hash == existing.value.hash
      && r.normalizedCode == existing.value.normalizedCode
      && SetsOnly(r.docstrings, existing.value.docstrings, lang, docstring)
      && SetsOnly(r.nameMappings, existing.value.nameMappings, lang, nameMapping)
      && SetsOnly(r.aliasMappings, existing.value.aliasMappings, lang, aliasMapping)
  {
    var data := if existing.Some? then existing.value else NewRecord(hash, normalizedCode);
    data.(docstrings := data.docstrings[lang := docstring],
          nameMappings := data.nameMappings[lang := nameMapping],
          aliasMappings := data.aliasMappings[lang := aliasMapping])
  }

  /** Saving the same function in the same language again leaves the record as it was. */
  lemma MergeIdempotent(existing: Option<Record>, hash: string, lang: string, normalizedCode: string, docstring: string,
                        nameMapping: map<string, string>, aliasMapping: Dict)
    ensures var once := MergeRecord(existing, hash, lang, normalizedCode, docstring, nameMapping, aliasMapping);
      MergeRecord(Some(once), hash, lang, normalizedCode, docstring, nameMapping, aliasMapping) == once
  {
    var once := MergeRecord(existing, hash, lang, normalizedCode, docstring, nameMapping, aliasMapping);
    assert once.docstrings[lang := docstring] == once.docstrings;
    assert once.nameMappings[lang := nameMapping] == once.nameMappings;
    assert once.aliasMappings[lang := aliasMapping] == once.aliasMappings;
  }

  /**
   * Two languages saved one after the other: both languages' entries are kept, in either
   * order; but the stored code is the one saved first.
   */
  lemma MergeTwoLanguages(hash: string, lang1: string, code1: string, doc1: string, names1: map<string, string>,
                          aliases1: Dict, lang2: string, code2: string, doc2: string, names2: map<string, string>,
                          aliases2: Dict)
    requires lang1 != lang2
    ensures var r12 := MergeRecord(Some(MergeRecord(None, hash, lang1, code1, doc1, names1, aliases1)),
                                   hash, lang2, code2, doc2, names2, aliases2);
      var r21 := MergeRecord(Some(MergeRecord(None, hash, lang2, code2, doc2, names2, aliases2)),
                             hash, lang1, code1, doc1, names1, aliases1);
      && r12.docstrings == r21.docstrings == map[lang1 := doc1, lang2 := doc2]
      && r12.nameMappings == r21.nameMappings == map[lang1 := names1, lang2 := names2]
      && r12.aliasMappings == r21.aliasMappings == map[lang1 := aliases1, lang2 := aliases2]
      && r12.normalizedCode == code1 && r21.normalizedCode == code2
      && r12.version == r21.version == 0
  {
    assert map[lang1 := doc1][lang2 := doc2] == map[lang2 := doc2][lang1 := doc1];
    assert map[lang1 := names1][lang2 := names2] == map[lang2 := names2][lang1 := names1];
    assert map[lang1 := aliases1][lang2 := aliases2] == map[lang2 := aliases2][lang1 := aliases1];
  }

  /** The object directory: the record stored under each path. */
  class ObjectStore {
    var files: map<string, Record>

    constructor ()
      ensures files == map[]
    {
      files := map[];
    }

    /** The record on disk at `path`, if the file exists. */
    function Load(path: string): Option<Record>
      reads this
    {
      if path in files then Some(files[path]) else None
    }

    /** `save_function`: load or create the record, set the entries for `lang`, write it back. */
    method SaveFunction(hash: string, lang: string, normalizedCode: string, docstring: string,
                        nameMapping: map<string, string>, aliasMapping: Dict) returns (path: string)
      modifies this
      ensures path == RecordPath(hash)
      ensures files == old(files)[path := MergeRecord(old(Load(path)), hash, lang, normalizedCode, docstring,
                                                      nameMapping, aliasMapping)]
    {
      path := ObjectsDir + Take(hash, 2) + "/" + Drop(hash, 2) + JsonSuffix;
      var data: Record;
      if path in files {
        data := files[path];
      } else {
        data := NewRecord(hash, normalizedCode);
      }
      data := data.(docstrings := data.docstrings[lang := docstring]);
      data := data.(nameMappings := data.nameMappings[lang := nameMapping]);
      data := data.(aliasMappings := data.aliasMappings[lang := aliasMapping]);
      files := files[path := data];
    }
  }

  // ----------------------------------------------------------------------------------------
  // add_function
  // ----------------------------------------------------------------------------------------

  /** The ways `add_function` stops with an error message and exit status 1. */
  datatype AddError =
    | MissingLanguageSuffix           // no `@` in the argument
    | BadLanguageCode(lang: string)   // the part after the last `@` is not 3 characters long
    | FileNotFound(path: string)
    | SyntaxError(path: string)       // `ast.parse` rejected the file
    | NormalizeFailed(error: ExtractError)

  /** The `path@lang` argument split at its last `@`, with a language code of 3 characters. */
  function ParseTarget(s: string): Result<(string, string), AddError> {
    if '@' !in s then Err(MissingLanguageSuffix)
    else
      var parts := RSplitOnce(s, '@');
      if |parts.1| != 3 then Err(BadLanguageCode(parts.1)) else Ok(parts)
  }

  /**
   * What the argument validation accepts: exactly the arguments `path + "@" + lang` with a 3-character
   * `lang` free of `@` (`path` may contain `@`), split back into those two parts; an argument
   * without `@` is the missing-suffix error, any other the bad-code error with the code read.
   */
  lemma ParseTargetMeaning(s: string)
    ensures ParseTarget(s) == Err(MissingLanguageSuffix) <==> '@' !in s
    ensures ParseTarget(s).Ok? ==>
      var (path, lang) := ParseTarget(s).value;
      s == path + "@" + lang && '@' !in lang && |lang| == 3
    ensures ParseTarget(s).Err? && ParseTarget(s).error.BadLanguageCode? ==>
      var lang := ParseTarget(s).error.lang;
      '@' in s && '@' !in lang && |lang| != 3 && s[|s| - |lang|..] == lang && s[|s| - |lang| - 1] == '@'
  {
    if '@' in s {
      var parts := RSplitOnce(s, '@');
      assert s == parts.0 + "@" + parts.1;
      assert s[|s| - |parts.1|..] == parts.1;
    }
  }

  lemma ParseTargetRoundTrip(path: string, lang: string)
    requires '@' !in lang
    ensures ParseTarget(path + "@" + lang) == if |lang| == 3 then Ok((path, lang)) else Err(BadLanguageCode(lang))
  {
    RSplitOnceUnique(path + "@" + lang, '@', path, lang);
  }

  /** What `add_function` hands to `save_function` on success. */
  datatype Addition = Addition(
    hash: string,
    lang: string,
    normalizedCode: string,
    docstring: string,
    nameMapping: map<string, string>,
    aliasMapping: Dict)

  /**
   * The decisions of `add_function`: validate the argument, read and parse the file, normalize
   * it, hash the rendering without the docstring and keep the one with it for storing.
   * `sources` is the readable files, `parse` gives the module body of a source text or fails,
   * `unparse` renders a tree, `sha256` is the hex digest of the UTF-8 encoding of a text.
   */
  function AddDecision(target: string, sources: map<string, string>, parse: string -> Option<seq<Node>>,
                       unparse: Node -> string, sha256: string -> string, clean: string -> string,
                       builtins: set<string>, intoAnnotations: bool): Result<Addition, AddError>
  {
    var parsed := ParseTarget(target);
    if parsed.Err? then Err(parsed.error)
    else
      var path, lang := parsed.value.0, parsed.value.1;
      if path !in sources then Err(FileNotFound(path))
      else
        var body := parse(sources[path]);
        if body.None? then Err(SyntaxError(path))
        else
          var result := NormalizeSpec(Module(body.value), clean, builtins, intoAnnotations);
          if result.Err? then Err(NormalizeFailed(result.error))
          else
            var n := result.value;
            Ok(Addition(sha256(unparse(n.withoutDocstring)), lang, unparse(n.withDocstring), n.docstring,
                        n.nameMapping, n.aliasMapping))
  }

  /** `add_function`: the decisions above, then `save_function` on success. */
  method AddFunction(store: ObjectStore, target: string, sources: map<string, string>,
                     parse: string -> Option<seq<Node>>, unparse: Node -> string, sha256: string -> string,
                     clean: string -> string, builtins: set<string>, intoAnnotations: bool)
    returns (r: Result<Addition, AddError>)
    modifies store
    ensures r == AddDecision(target, sources, parse, unparse, sha256, clean, builtins, intoAnnotations)
    ensures r.Err? ==> store.files == old(store.files)
    ensures r.Ok? ==> var a := r.value;
      store.files == old(store.files)[RecordPath(a.hash) := MergeRecord(old(store.Load(RecordPath(a.hash))), a.hash,
        a.lang, a.normalizedCode, a.docstring, a.nameMapping, a.aliasMapping)]
  {
    if '@' !in target {
      return Err(MissingLanguageSuffix);
    }
    var parts := RSplitOnce(target, '@');
    var path, lang := parts.0, parts.1;
    if |lang| != 3 {
      return Err(BadLanguageCode(lang));
    }
    if path !in sources {
      return Err(FileNotFound(path));
    }
    var body := parse(sources[path]);
    if body.None? {
      return Err(SyntaxError(path));
    }
    var normalized := NormalizeAst(Module(body.value), clean, builtins, intoAnnotations);
    if normalized.Err? {
      return Err(NormalizeFailed(normalized.error));
    }
    var n := normalized.value;
    var hash := sha256(unparse(n.withoutDocstring));
    r := Ok(Addition(hash, lang, unparse(n.withDocstring), n.docstring, n.nameMapping, n.aliasMapping));
    var _ := store.SaveFunction(hash, lang, unparse(n.withDocstring), n.docstring, n.nameMapping, n.aliasMapping);
  }

  /**
   * The argument is checked before any file is looked at: a bad argument gives the same
   * error whatever the files, the parser and the rest are.
   */
  lemma ValidatesBeforeReading(target: string, sources1: map<string, string>, sources2: map<string, string>,
                               parse1: string -> Option<seq<Node>>, parse2: string -> Option<seq<Node>>,
                               unparse: Node -> string, sha256: string -> string, clean: string -> string,
                               builtins: set<string>, intoAnnotations: bool)
    requires ParseTarget(target).Err?
    ensures AddDecision(target, sources1, parse1, unparse, sha256, clean, builtins, intoAnnotations)
         == AddDecision(target, sources2, parse2, unparse, sha256, clean, builtins, intoAnnotations)
         == Err(ParseTarget(target).error)
  {
  }

  /**
   * The deduplication claim for docstrings: two files holding the same function with
   * different docstrings, added under two languages, are accepted alike and, when accepted,
   * get the same hash (so the same record) with their own docstrings.
   */
  lemma SameLogicSameHash(path1: string, lang1: string, path2: string, lang2: string, sources: map<string, string>,
                          parse: string -> Option<seq<Node>>, unparse: Node -> string, sha256: string -> string,
                          clean: string -> string, builtins: set<string>, intoAnnotations: bool, k: nat)
    requires '@' !in lang1 && '@' !in lang2 && |lang1| == 3 && |lang2| == 3
    requires path1 in sources && path2 in sources
    requires parse(sources[path1]).Some? && parse(sources[path2]).Some?
    requires var b1, b2 := parse(sources[path1]).value, parse(sources[path2]).value;
      && |b1| == |b2| && k < |b1| && b1[k].FunctionDef? && b2[k].FunctionDef?
      && (forall i :: 0 <= i < |b1| && i != k ==> b1[i] == b2[i])
      && ExtractDocstring(b1[k], clean).1 == ExtractDocstring(b2[k], clean).1
    ensures var a1 := AddDecision(path1 + "@" + lang1, sources, parse, unparse, sha256, clean, builtins, intoAnnotations);
      var a2 := AddDecision(path2 + "@" + lang2, sources, parse, unparse, sha256, clean, builtins, intoAnnotations);
      && (a1.Ok? <==> a2.Ok?)
      && (a1.Ok? ==> (a1.value.hash == a2.value.hash && a1.value.lang == lang1 && a2.value.lang == lang2
                      && a1.value.nameMapping == a2.value.nameMapping))
  {
    AddDecisionOfParsed(path1, lang1, sources, parse, unparse, sha256, clean, builtins, intoAnnotations);
    AddDecisionOfParsed(path2, lang2, sources, parse, unparse, sha256, clean, builtins, intoAnnotations);
    var t1, t2 := Module(parse(sources[path1]).value), Module(parse(sources[path2]).value);
    ModuleDocstringIndependence(t1, t2, k, clean, builtins, intoAnnotations);
  }

  /** With a well-formed target naming a parsable file, the decision is that of the normalization. */
  lemma AddDecisionOfParsed(path: string, lang: string, sources: map<string, string>,
                            parse: string -> Option<seq<Node>>, unparse: Node -> string, sha256: string -> string,
                            clean: string -> string, builtins: set<string>, intoAnnotations: bool)
    requires '@' !in lang && |lang| == 3 && path in sources && parse(sources[path]).Some?
    ensures var a := AddDecision(path + "@" + lang, sources, parse, unparse, sha256, clean, builtins, intoAnnotations);
      var r := NormalizeSpec(Module(parse(sources[path]).value), clean, builtins, intoAnnotations);
      && (a.Ok? <==> r.Ok?)
      && (a.Ok? ==> (a.value.hash == sha256(unparse(r.value.withoutDocstring)) && a.value.lang == lang
                     && a.value.nameMapping == r.value.nameMapping))
  {
    ParseTargetRoundTrip(path, lang);
  }
}
