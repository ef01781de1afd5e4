/**
 * What the canonical form does not depend on: the names the author chose. Two functions that
 * differ by a renaming of their local identifiers that keeps the sorted order of those names,
 * or by the local name of an ouverture import, normalize to the same modules. A renaming that
 * changes the sorted order can change the hash: the designators are handed out by rank.
 *
 * The author's renaming is expressed with the renaming pass itself as `Normalize(·, ·, true)`,
 * applied everywhere, annotations included; the normalization under study is either pass,
 * as written or corrected, chosen by `into`.
 */
module Invariance {
  import opened Wrappers
  import opened PyStrings
  import opened PyAst
  import opened PyDict
  import opened ImportPasses
  import opened Renaming
  import opened Normalizer
  import opened CallReplacer
  import opened Pipeline
  import opened ObjectPool

  // ----------------------------------------------------------------------------------------
  // Renaming first and normalizing with one mapping, against normalizing with another
  // ----------------------------------------------------------------------------------------

  /**
   * A `Name` reading `x`, renamed by `rho`, meets the same alias decision under `am2` as the
   * original under `am1`, and then the same final identifier (or the same hash).
   */
  predicate NameCommutes(rho: map<string, string>, f1: map<string, string>, f2: map<string, string>,
                         am1: Dict, am2: Dict, x: string) {
    var h := FirstKeyWithValue(am1, x);
    && FirstKeyWithValue(am2, Rename(rho, x)) == h
    && (h.None? ==> Rename(f2, Rename(rho, x)) == Rename(f1, x))
    && (h.Some? ==> Rename(f2, h.value) == Rename(f1, h.value))
  }

  /** A parameter or function name `x`, renamed by `rho` and then by `f2`, ends as `f1` names it. */
  predicate BinderCommutes(rho: map<string, string>, f1: map<string, string>, f2: map<string, string>, x: string) {
    Rename(f2, Rename(rho, x)) == Rename(f1, x)
  }

  /** Every identifier of the walk `ws` commutes. */
  predicate CommuteOn(rho: map<string, string>, f1: map<string, string>, f2: map<string, string>,
                      am1: Dict, am2: Dict, ws: seq<Node>) {
    && (forall x :: x in NameIds(ws) ==> NameCommutes(rho, f1, f2, am1, am2, x))
    && (forall x :: x in BinderNames(ws) ==> BinderCommutes(rho, f1, f2, x))
  }

  lemma CommuteSplit(rho: map<string, string>, f1: map<string, string>, f2: map<string, string>,
                     am1: Dict, am2: Dict, a: seq<Node>, b: seq<Node>)
    requires CommuteOn(rho, f1, f2, am1, am2, a + b)
    ensures CommuteOn(rho, f1, f2, am1, am2, a) && CommuteOn(rho, f1, f2, am1, am2, b)
  {
    NameIdsAppend(a, b);
  }

  /**
   * Every parameter annotation of the walk `ws`, which the pass as written leaves alone,
   * meets the same alias decisions once renamed by `rho` and keeps its other names.
   */
  predicate AnnotationsCommute(rho: map<string, string>, am1: Dict, am2: Dict, ws: seq<Node>) {
    forall i :: 0 <= i < |ws| && ws[i].Arg? ==> CommuteOn(rho, map[], map[], am1, am2, WalkSeq(ws[i].annotation))
  }

  /** What the simulation needs of a walk: its identifiers commute, and so do its annotations when the pass skips them. */
  predicate CommuteFor(rho: map<string, string>, f1: map<string, string>, f2: map<string, string>,
                       am1: Dict, am2: Dict, ws: seq<Node>, into: bool) {
    CommuteOn(rho, f1, f2, am1, am2, ws) && (into || AnnotationsCommute(rho, am1, am2, ws))
  }

  lemma CommuteForSplit(rho: map<string, string>, f1: map<string, string>, f2: map<string, string>,
                        am1: Dict, am2: Dict, a: seq<Node>, b: seq<Node>, into: bool)
    requires CommuteFor(rho, f1, f2, am1, am2, a + b, into)
    ensures CommuteFor(rho, f1, f2, am1, am2, a, into) && CommuteFor(rho, f1, f2, am1, am2, b, into)
  {
    CommuteSplit(rho, f1, f2, am1, am2, a, b);
    if !into {
      forall i | 0 <= i < |a| && a[i].Arg?
        ensures CommuteOn(rho, map[], map[], am1, am2, WalkSeq(a[i].annotation))
      {
        assert (a + b)[i] == a[i];
      }
      forall i | 0 <= i < |b| && b[i].Arg?
        ensures CommuteOn(rho, map[], map[], am1, am2, WalkSeq(b[i].annotation))
      {
        assert (a + b)[|a| + i] == b[i];
      }
    }
  }

  /** Renaming by the empty map changes nothing. */
  lemma {:induction false} NormalizeEmpty(n: Node)
    ensures Normalize(map[], n, true) == n
    decreases n, 1
  {
    match n
    case Module(body) => NormalizeSeqEmpty(body);
    case FunctionDef(_, args, otherArgs, body, extras, _) =>
      NormalizeSeqEmpty(args);
      NormalizeSeqEmpty(otherArgs);
      NormalizeSeqEmpty(body);
      NormalizeSeqEmpty(extras);
    case Import(_, _) =>
    case ImportFrom(_, _, _, _) =>
    case Name(_, _, _) =>
    case Arg(_, annotation, _) => NormalizeSeqEmpty(annotation);
    case Expr(value, _) => NormalizeEmpty(value);
    case Constant(_, _) =>
    case Attribute(value, _, _, _) => NormalizeEmpty(value);
    case Other(_, children, _) => NormalizeSeqEmpty(children);
  }

  lemma {:induction false} NormalizeSeqEmpty(ns: seq<Node>)
    ensures NormalizeSeq(map[], ns, true) == ns
    decreases ns, 0
  {
    forall i | 0 <= i < |ns| ensures NormalizeSeq(map[], ns, true)[i] == ns[i] {
      NormalizeEmpty(ns[i]);
    }
  }

  /** A walk holds the walk of each of its nodes. */
  lemma {:induction false} WalkClosed(n: Node, m: Node)
    requires m in Walk(n)
    ensures forall x :: x in Walk(m) ==> x in Walk(n)
    decreases n, 1
  {
    if m != n {
      match n
      case Module(body) => WalkSeqClosed(body, m);
      case FunctionDef(_, args, otherArgs, body, extras, _) =>
        var a, b, c, d := WalkSeq(args), WalkSeq(otherArgs), WalkSeq(body), WalkSeq(extras);
        assert Walk(n) == [n] + a + b + c + d;
        if m in a {
          WalkSeqClosed(args, m);
        } else if m in b {
          WalkSeqClosed(otherArgs, m);
        } else if m in c {
          WalkSeqClosed(body, m);
        } else {
          WalkSeqClosed(extras, m);
        }
      case Import(_, _) =>
      case ImportFrom(_, _, _, _) =>
      case Name(_, _, _) =>
      case Arg(_, annotation, _) => WalkSeqClosed(annotation, m);
      case Expr(value, _) => WalkClosed(value, m);
      case Constant(_, _) =>
      case Attribute(value, _, _, _) => WalkClosed(value, m);
      case Other(_, children, _) => WalkSeqClosed(children, m);
    }
  }

  lemma {:induction false} WalkSeqClosed(ns: seq<Node>, m: Node)
    requires m in WalkSeq(ns)
    ensures forall x :: x in Walk(m) ==> x in WalkSeq(ns)
    decreases ns, 0
  {
    assert ns != [];
    assert WalkSeq(ns) == Walk(ns[0]) + WalkSeq(ns[1..]);
    if m in Walk(ns[0]) {
      WalkClosed(ns[0], m);
    } else {
      WalkSeqClosed(ns[1..], m);
    }
  }

  /** The names of a walk whose nodes all occur in another are names of that other walk. */
  lemma SubWalkNames(a: seq<Node>, b: seq<Node>)
    requires forall m :: m in a ==> m in b
    ensures Idents(a) <= Idents(b) && BinderNames(a) <= BinderNames(b)
  {
    forall x | x in Idents(a) ensures x in Idents(b) {
      var i :| 0 <= i < |a| && Ident(a[i]).Some? && Ident(a[i]).value == x;
      assert a[i] in b;
      var j :| 0 <= j < |b| && b[j] == a[i];
    }
    forall x | x in BinderNames(a) ensures x in BinderNames(b) {
      var i :| 0 <= i < |a| && (a[i].Arg? || a[i].FunctionDef?) && (if a[i].Arg? then a[i].arg else a[i].name) == x;
      assert a[i] in b;
      var j :| 0 <= j < |b| && b[j] == a[i];
    }
  }

  /**
   * When every identifier commutes, renaming by `rho` and then replacing calls under `am2`
   * and normalizing by `f2` gives the tree that replacing under `am1` and normalizing by `f1`
   * gives for the original. This holds for either pass; the one that skips annotations needs
   * the annotations to commute without a mapping.
   */
  lemma {:induction false} Simulation(rho: map<string, string>, f1: map<string, string>, f2: map<string, string>,
                                      am1: Dict, am2: Dict, n: Node, into: bool)
    requires CommuteFor(rho, f1, f2, am1, am2, Walk(n), into)
    ensures Normalize(f2, ReplaceCalls(am2, Normalize(rho, n, true)), into) == Normalize(f1, ReplaceCalls(am1, n), into)
    decreases n, 1
  {
    match n
    case Module(_) => SimulationChildren(rho, f1, f2, am1, am2, n, into);
    case FunctionDef(_, _, _, _, _, _) => SimulationFunctionDef(rho, f1, f2, am1, am2, n, into);
    case Import(_, _) =>
    case ImportFrom(_, _, _, _) =>
    case Name(_, _, _) => SimulationName(rho, f1, f2, am1, am2, n, into);
    case Arg(_, _, _) => SimulationArg(rho, f1, f2, am1, am2, n, into);
    case Expr(_, _) => SimulationExpr(rho, f1, f2, am1, am2, n, into);
    case Constant(_, _) =>
    case Attribute(_, _, _, _) => SimulationAttribute(rho, f1, f2, am1, am2, n, into);
    case Other(_, _, _) => SimulationChildren(rho, f1, f2, am1, am2, n, into);
  }

  lemma {:induction false} SimulationChildren(rho: map<string, string>, f1: map<string, string>, f2: map<string, string>,
                                              am1: Dict, am2: Dict, n: Node, into: bool)
    requires (n.Module? || n.Other?) && CommuteFor(rho, f1, f2, am1, am2, Walk(n), into)
    ensures Normalize(f2, ReplaceCalls(am2, Normalize(rho, n, true)), into) == Normalize(f1, ReplaceCalls(am1, n), into)
    decreases n, 0
  {
    var children := if n.Module? then n.body else n.children;
    CommuteForSplit(rho, f1, f2, am1, am2, [n], WalkSeq(children), into);
    SimulationSeq(rho, f1, f2, am1, am2, children, into);
  }

  lemma {:induction false} SimulationExpr(rho: map<string, string>, f1: map<string, string>, f2: map<string, string>,
                                           am1: Dict, am2: Dict, n: Node, into: bool)
    requires n.Expr? && CommuteFor(rho, f1, f2, am1, am2, Walk(n), into)
    ensures Normalize(f2, ReplaceCalls(am2, Normalize(rho, n, true)), into) == Normalize(f1, ReplaceCalls(am1, n), into)
    decreases n, 0
  {
    CommuteForSplit(rho, f1, f2, am1, am2, [n], Walk(n.value), into);
    Simulation(rho, f1, f2, am1, am2, n.value, into);
  }

  lemma {:induction false} SimulationAttribute(rho: map<string, string>, f1: map<string, string>, f2: map<string, string>,
                                           am1: Dict, am2: Dict, n: Node, into: bool)
    requires n.Attribute? && CommuteFor(rho, f1, f2, am1, am2, Walk(n), into)
    ensures Normalize(f2, ReplaceCalls(am2, Normalize(rho, n, true)), into) == Normalize(f1, ReplaceCalls(am1, n), into)
    decreases n, 0
  {
    CommuteForSplit(rho, f1, f2, am1, am2, [n], Walk(n.value), into);
    Simulation(rho, f1, f2, am1, am2, n.value, into);
  }

  lemma SimulationName(rho: map<string, string>, f1: map<string, string>, f2: map<string, string>,
                        am1: Dict, am2: Dict, n: Node, into: bool)
    requires n.Name? && CommuteFor(rho, f1, f2, am1, am2, Walk(n), into)
    ensures Normalize(f2, ReplaceCalls(am2, Normalize(rho, n, true)), into) == Normalize(f1, ReplaceCalls(am1, n), into)
  {
    NameIdsSingle(n);
    assert NameCommutes(rho, f1, f2, am1, am2, n.id);
  }

  lemma {:induction false} SimulationArg(rho: map<string, string>, f1: map<string, string>, f2: map<string, string>,
                                         am1: Dict, am2: Dict, n: Node, into: bool)
    requires n.Arg? && CommuteFor(rho, f1, f2, am1, am2, Walk(n), into)
    ensures Normalize(f2, ReplaceCalls(am2, Normalize(rho, n, true)), into) == Normalize(f1, ReplaceCalls(am1, n), into)
    decreases n, 0
  {
    CommuteForSplit(rho, f1, f2, am1, am2, [n], WalkSeq(n.annotation), into);
    NameIdsSingle(n);
    assert BinderCommutes(rho, f1, f2, n.arg);
    if into {
      SimulationSeq(rho, f1, f2, am1, am2, n.annotation, true);
    } else {
      assert Walk(n)[0] == n;
      SimulationSeq(rho, map[], map[], am1, am2, n.annotation, true);
      NormalizeSeqEmpty(ReplaceSeq(am2, NormalizeSeq(rho, n.annotation, true)));
      NormalizeSeqEmpty(ReplaceSeq(am1, n.annotation));
    }
  }

  lemma {:induction false} SimulationFunctionDef(rho: map<string, string>, f1: map<string, string>, f2: map<string, string>,
                                                 am1: Dict, am2: Dict, n: Node, into: bool)
    requires n.FunctionDef? && CommuteFor(rho, f1, f2, am1, am2, Walk(n), into)
    ensures Normalize(f2, ReplaceCalls(am2, Normalize(rho, n, true)), into) == Normalize(f1, ReplaceCalls(am1, n), into)
    decreases n, 0
  {
    var a, b, c, d := WalkSeq(n.args), WalkSeq(n.otherArgs), WalkSeq(n.body), WalkSeq(n.extras);
    assert Walk(n) == [n] + a + b + c + d;
    CommuteForSplit(rho, f1, f2, am1, am2, [n] + a + b + c, d, into);
    CommuteForSplit(rho, f1, f2, am1, am2, [n] + a + b, c, into);
    CommuteForSplit(rho, f1, f2, am1, am2, [n] + a, b, into);
    CommuteForSplit(rho, f1, f2, am1, am2, [n], a, into);
    NameIdsSingle(n);
    assert BinderCommutes(rho, f1, f2, n.name);
    SimulationSeq(rho, f1, f2, am1, am2, n.args, into);
    SimulationSeq(rho, f1, f2, am1, am2, n.otherArgs, into);
    SimulationSeq(rho, f1, f2, am1, am2, n.body, into);
    SimulationSeq(rho, f1, f2, am1, am2, n.extras, into);
  }

  lemma {:induction false} SimulationSeq(rho: map<string, string>, f1: map<string, string>, f2: map<string, string>,
                                         am1: Dict, am2: Dict, ns: seq<Node>, into: bool)
    requires CommuteFor(rho, f1, f2, am1, am2, WalkSeq(ns), into)
    ensures NormalizeSeq(f2, ReplaceSeq(am2, NormalizeSeq(rho, ns, true)), into) == NormalizeSeq(f1, ReplaceSeq(am1, ns), into)
    decreases ns
  {
    if ns != [] {
      CommuteForSplit(rho, f1, f2, am1, am2, Walk(ns[0]), WalkSeq(ns[1..]), into);
      Simulation(rho, f1, f2, am1, am2, ns[0], into);
      SimulationSeq(rho, f1, f2, am1, am2, ns[1..], into);
      var l := NormalizeSeq(f2, ReplaceSeq(am2, NormalizeSeq(rho, ns, true)), into);
      var r := NormalizeSeq(f1, ReplaceSeq(am1, ns), into);
      var l' := NormalizeSeq(f2, ReplaceSeq(am2, NormalizeSeq(rho, ns[1..], true)), into);
      forall i | 0 <= i < |ns| ensures l[i] == r[i] {
        if i > 0 {
          assert ns[1..][i - 1] == ns[i];
          assert l[i] == l'[i - 1];
        }
      }
    }
  }

  // ----------------------------------------------------------------------------------------
  // The names create_name_mapping sees, under a renaming
  // ----------------------------------------------------------------------------------------

  /** The image of a set of names under the renaming. */
  function RenamedSet(rho: map<string, string>, s: set<string>): set<string> {
    set x | x in s :: Rename(rho, x)
  }

  /** Each name of a list renamed, in place. */
  function RenameAll(rho: map<string, string>, names: seq<string>): (r: seq<string>)
    ensures |r| == |names| && forall i :: 0 <= i < |names| ==> r[i] == Rename(rho, names[i])
  {
    seq(|names|, i requires 0 <= i < |names| => Rename(rho, names[i]))
  }

  /** The renaming tells the names of `s` apart. */
  predicate InjectiveOn(rho: map<string, string>, s: set<string>) {
    forall x, y :: x in s && y in s && Rename(rho, x) == Rename(rho, y) ==> x == y
  }

  lemma IdentsSnoc(ws: seq<Node>)
    requires ws != []
    ensures Idents(ws) == Idents(ws[..|ws| - 1]) + Idents([ws[|ws| - 1]])
  {
    var init, last := ws[..|ws| - 1], ws[|ws| - 1];
    forall x | x in Idents(ws) ensures x in Idents(init) + Idents([last]) {
      var i :| 0 <= i < |ws| && Ident(ws[i]).Some? && Ident(ws[i]).value == x;
      if i < |init| { assert init[i] == ws[i]; } else { assert [last][0] == ws[i]; }
    }
    forall x | x in Idents(init) ensures x in Idents(ws) {
      var i :| 0 <= i < |init| && Ident(init[i]).Some? && Ident(init[i]).value == x;
      assert ws[i] == init[i];
    }
    forall x | x in Idents([last]) ensures x in Idents(ws) {
      assert Ident(ws[|ws| - 1]) == Ident([last][0]);
    }
  }

  /** The identifiers of a walk are those of its `Name` nodes and those of its binders. */
  lemma IdentsSplit(ws: seq<Node>)
    ensures Idents(ws) == NameIds(ws) + BinderNames(ws)
  {
    forall x | x in Idents(ws) ensures x in NameIds(ws) + BinderNames(ws) {
      var i :| 0 <= i < |ws| && Ident(ws[i]).Some? && Ident(ws[i]).value == x;
    }
    forall x | x in NameIds(ws) ensures x in Idents(ws) {
      var i :| 0 <= i < |ws| && ws[i].Name? && ws[i].id == x;
      assert Ident(ws[i]).value == x;
    }
    forall x | x in BinderNames(ws) ensures x in Idents(ws) {
      var i :| 0 <= i < |ws| && (ws[i].Arg? || ws[i].FunctionDef?) && (if ws[i].Arg? then ws[i].arg else ws[i].name) == x;
      assert Ident(ws[i]).value == x;
    }
  }

  /** The names `create_name_mapping` collects are identifiers of the walk. */
  lemma CollectedAreIdents(ws: seq<Node>, imported: set<string>, builtins: set<string>, aliases: set<string>)
    ensures CollectedNames(ws, imported, builtins, aliases) <= Idents(ws)
  {
    forall x | x in CollectedNames(ws, imported, builtins, aliases) ensures x in Idents(ws) {
      CollectedNamesMeaning(ws, imported, builtins, aliases, x);
      var i :| 0 <= i < |ws| && Carries(ws[i], x);
      assert Ident(ws[i]).value == x;
    }
  }

  /** Every identifier of the walk is excluded before the renaming exactly when it is after. */
  predicate ExclusionKept(rho: map<string, string>, ids: set<string>, imported: set<string>, builtins: set<string>,
                          aliases1: set<string>, aliases2: set<string>) {
    forall x :: x in ids ==> (x in imported || x in builtins || x in aliases1
                              <==> Rename(rho, x) in imported || Rename(rho, x) in builtins || Rename(rho, x) in aliases2)
  }

  /** What `create_name_mapping` collects from one node. */
  function CollectedOne(n: Node, imported: set<string>, builtins: set<string>, aliases: set<string>): set<string> {
    if n.Name? && n.id !in imported && n.id !in builtins && n.id !in aliases then {n.id}
    else if n.Arg? && n.arg !in imported && n.arg !in builtins && n.arg !in aliases then {n.arg}
    else {}
  }

  lemma CollectedSnoc(ws: seq<Node>, imported: set<string>, builtins: set<string>, aliases: set<string>)
    requires ws != []
    ensures CollectedNames(ws, imported, builtins, aliases)
      == CollectedNames(ws[..|ws| - 1], imported, builtins, aliases) + CollectedOne(ws[|ws| - 1], imported, builtins, aliases)
  {
  }

  /** One node renamed: it contributes the renamed name, if any. */
  lemma CollectedOneRenamed(rho: map<string, string>, n: Node, imported: set<string>, builtins: set<string>,
                            aliases1: set<string>, aliases2: set<string>)
    requires Ident(n).Some? ==> ExclusionKept(rho, {Ident(n).value}, imported, builtins, aliases1, aliases2)
    ensures CollectedOne(Normalize(rho, n, true), imported, builtins, aliases2)
      == RenamedSet(rho, CollectedOne(n, imported, builtins, aliases1))
  {
    if n.Name? {
      assert n.id in {Ident(n).value};
    } else if n.Arg? {
      assert n.arg in {Ident(n).value};
    }
  }

  lemma RenamedSetUnion(rho: map<string, string>, a: set<string>, b: set<string>)
    ensures RenamedSet(rho, a + b) == RenamedSet(rho, a) + RenamedSet(rho, b)
  {
  }

  /**
   * The names collected from a renamed walk are the renamed names collected from the walk,
   * as long as the renaming keeps every identifier on its side of the exclusions.
   */
  lemma {:induction false} CollectedNamesRenamed(rho: map<string, string>, ws: seq<Node>, imported: set<string>,
                                                 builtins: set<string>, aliases1: set<string>, aliases2: set<string>)
    requires ExclusionKept(rho, Idents(ws), imported, builtins, aliases1, aliases2)
    ensures CollectedNames(NormalizeSeq(rho, ws, true), imported, builtins, aliases2)
      == RenamedSet(rho, CollectedNames(ws, imported, builtins, aliases1))
    decreases |ws|
  {
    if ws != [] {
      var init, last := ws[..|ws| - 1], ws[|ws| - 1];
      var rs := NormalizeSeq(rho, ws, true);
      assert rs[..|rs| - 1] == NormalizeSeq(rho, init, true);
      assert rs[|rs| - 1] == Normalize(rho, last, true);
      IdentsSnoc(ws);
      assert Ident([last][0]) == Ident(last);
      CollectedNamesRenamed(rho, init, imported, builtins, aliases1, aliases2);
      CollectedOneRenamed(rho, last, imported, builtins, aliases1, aliases2);
      CollectedSnoc(ws, imported, builtins, aliases1);
      CollectedSnoc(rs, imported, builtins, aliases2);
      RenamedSetUnion(rho, CollectedNames(init, imported, builtins, aliases1), CollectedOne(last, imported, builtins, aliases1));
    }
  }

  /** A renaming that keeps the order of the names of `s` turns `sorted(s)` into the sorted renamed names. */
  lemma SortedSetRenamed(rho: map<string, string>, s: set<string>)
    requires forall x, y :: x in s && y in s && StrLt(x, y) ==> StrLt(Rename(rho, x), Rename(rho, y))
    ensures SortedSet(RenamedSet(rho, s)) == RenameAll(rho, SortedSet(s))
  {
    var l := SortedSet(s);
    var r := RenameAll(rho, l);
    forall i, j | 0 <= i < j < |r| ensures StrLt(r[i], r[j]) {
      assert l[i] in s && l[j] in s;
    }
    forall x ensures x in r <==> x in RenamedSet(rho, s) {
      if x in RenamedSet(rho, s) {
        var y :| y in s && Rename(rho, y) == x;
        var i :| 0 <= i < |l| && l[i] == y;
        assert r[i] == x;
      }
    }
    StrictlySortedUnique(SortedSet(RenamedSet(rho, s)), r);
  }

  /**
   * Numbering the renamed names in the same order gives every renamed name the designator
   * its original had, and the reverse mapping the renamed originals.
   */
  lemma ForwardRenamed(fname: string, names: seq<string>, des: nat -> string, rho: map<string, string>)
    requires Distinct(names) && fname !in names && InjectiveOn(rho, Elements(names) + {fname})
    ensures var f1, f2 := ForwardMapping(fname, names, des), ForwardMapping(Rename(rho, fname), RenameAll(rho, names), des);
      && f2.Keys == RenamedSet(rho, f1.Keys)
      && forall x :: x in f1 ==> Rename(rho, x) in f2 && f2[Rename(rho, x)] == f1[x]
  {
    RenamedListDistinct(fname, names, rho);
    ForwardRenamedKeys(fname, names, des, rho);
    ForwardRenamedValues(fname, names, des, rho);
  }

  lemma RenamedListDistinct(fname: string, names: seq<string>, rho: map<string, string>)
    requires Distinct(names) && fname !in names && InjectiveOn(rho, Elements(names) + {fname})
    ensures Distinct(RenameAll(rho, names)) && Rename(rho, fname) !in RenameAll(rho, names)
  {
    var names2 := RenameAll(rho, names);
    forall i, j | 0 <= i < j < |names2| ensures names2[i] != names2[j] {
      assert names[i] in Elements(names) && names[j] in Elements(names);
    }
    forall i | 0 <= i < |names2| ensures names2[i] != Rename(rho, fname) {
      assert names[i] in Elements(names);
    }
  }

  lemma ForwardRenamedKeys(fname: string, names: seq<string>, des: nat -> string, rho: map<string, string>)
    requires Distinct(names) && fname !in names
    requires Distinct(RenameAll(rho, names)) && Rename(rho, fname) !in RenameAll(rho, names)
    ensures ForwardMapping(Rename(rho, fname), RenameAll(rho, names), des).Keys
      == RenamedSet(rho, ForwardMapping(fname, names, des).Keys)
  {
    ForwardAt(fname, names, des);
    ForwardAt(Rename(rho, fname), RenameAll(rho, names), des);
    ElementsRenamed(rho, names);
  }

  lemma ElementsRenamed(rho: map<string, string>, names: seq<string>)
    ensures Elements(RenameAll(rho, names)) == RenamedSet(rho, Elements(names))
  {
    var names2 := RenameAll(rho, names);
    forall y | y in Elements(names2) ensures y in RenamedSet(rho, Elements(names)) {
      var i :| 0 <= i < |names2| && names2[i] == y;
      assert names[i] in Elements(names);
    }
    forall x | x in Elements(names) ensures Rename(rho, x) in Elements(names2) {
      var i :| 0 <= i < |names| && names[i] == x;
      assert names2[i] == Rename(rho, x);
    }
  }

  lemma ForwardRenamedValues(fname: string, names: seq<string>, des: nat -> string, rho: map<string, string>)
    requires Distinct(names) && fname !in names
    requires Distinct(RenameAll(rho, names)) && Rename(rho, fname) !in RenameAll(rho, names)
    ensures var f1, f2 := ForwardMapping(fname, names, des), ForwardMapping(Rename(rho, fname), RenameAll(rho, names), des);
      forall x :: x in f1 ==> Rename(rho, x) in f2 && f2[Rename(rho, x)] == f1[x]
  {
    var names2 := RenameAll(rho, names);
    ForwardAt(fname, names, des);
    ForwardAt(Rename(rho, fname), names2, des);
    var f1, f2 := ForwardMapping(fname, names, des), ForwardMapping(Rename(rho, fname), names2, des);
    forall x | x in f1 ensures Rename(rho, x) in f2 && f2[Rename(rho, x)] == f1[x] {
      if x != fname {
        var i :| 0 <= i < |names| && names[i] == x;
        assert names2[i] == Rename(rho, x);
      }
    }
  }

  lemma ReverseRenamed(fname: string, names: seq<string>, des: nat -> string, rho: map<string, string>)
    requires InjectiveScheme(des)
    ensures var r1, r2 := ReverseMapping(fname, names, des), ReverseMapping(Rename(rho, fname), RenameAll(rho, names), des);
      && r2.Keys == r1.Keys
      && forall d :: d in r1 ==> r2[d] == Rename(rho, r1[d])
  {
    var names2 := RenameAll(rho, names);
    ReverseAt(fname, names, des);
    ReverseAt(Rename(rho, fname), names2, des);
    var r1, r2 := ReverseMapping(fname, names, des), ReverseMapping(Rename(rho, fname), names2, des);
    forall d | d in r1 ensures r2[d] == Rename(rho, r1[d]) {
      var j :| 0 <= j <= |names| && des(j) == d;
      if j > 0 {
        assert r1[des(j - 1 + 1)] == names[j - 1];
        assert r2[des(j - 1 + 1)] == names2[j - 1];
      }
    }
  }

  // ----------------------------------------------------------------------------------------
  // Renaming the function's own identifiers
  // ----------------------------------------------------------------------------------------

  /** The names a renaming must neither touch nor produce: imported, built-in, aliases and hashes. */
  function Reserved(imports: seq<Node>, builtins: set<string>): set<string> {
    var am := AliasMappingOf(imports);
    ImportedNames(RewrittenImports(imports)) + builtins + Values(am) + Keys(am)
  }

  /**
   * A renaming of the function's name and of the names `create_name_mapping` numbers that
   * stays clear of the reserved names and tells the function's identifiers apart, so the new
   * names are fresh: a consistent renaming of the author's own names.
   */
  predicate FreshRenaming(rho: map<string, string>, f: Node, imports: seq<Node>, builtins: set<string>) {
    var candidates := RenamableNames(f, RewrittenImports(imports), Values(AliasMappingOf(imports)), builtins);
    var reserved := Reserved(imports, builtins);
    && f.FunctionDef?
    && (forall y :: y in rho ==> (y in candidates || y == f.name) && y !in reserved && rho[y] !in reserved)
    && InjectiveOn(rho, Idents(Walk(f)))
  }

  /** A fresh renaming that also keeps the sorted order of the numbered names. */
  predicate OrderPreservingRenaming(rho: map<string, string>, f: Node, imports: seq<Node>, builtins: set<string>) {
    var candidates := RenamableNames(f, RewrittenImports(imports), Values(AliasMappingOf(imports)), builtins);
    && FreshRenaming(rho, f, imports, builtins)
    && (forall x, y :: x in candidates && y in candidates && StrLt(x, y) ==> StrLt(Rename(rho, x), Rename(rho, y)))
  }

  /**
   * No identifier inside a parameter annotation is renamed. The pass as written does not
   * rename annotations, so a renaming that reached into them would change the normal form.
   */
  predicate AnnotationsUntouched(rho: map<string, string>, ws: seq<Node>) {
    forall i :: 0 <= i < |ws| && ws[i].Arg? ==> forall x :: x in Idents(WalkSeq(ws[i].annotation)) ==> x !in rho
  }

  lemma UntouchedAnnotationsCommute(rho: map<string, string>, am: Dict, ws: seq<Node>)
    requires AnnotationsUntouched(rho, ws)
    ensures AnnotationsCommute(rho, am, am, ws)
  {
    forall i | 0 <= i < |ws| && ws[i].Arg? ensures CommuteOn(rho, map[], map[], am, am, WalkSeq(ws[i].annotation)) {
      IdentsSplit(WalkSeq(ws[i].annotation));
    }
  }

  lemma FunctionNameIsIdent(f: Node)
    requires f.FunctionDef?
    ensures f.name in Idents(Walk(f))
  {
    assert Walk(f)[0] == f && Ident(f) == Some(f.name);
  }

  /** The numbered names of the renamed function are the renamed numbered names. */
  lemma RenamedCandidates(rho: map<string, string>, f: Node, imports: seq<Node>, builtins: set<string>)
    requires FreshRenaming(rho, f, imports, builtins)
    ensures var newImports, aliases := RewrittenImports(imports), Values(AliasMappingOf(imports));
      RenamableNames(Normalize(rho, f, true), newImports, aliases, builtins)
        == RenamedSet(rho, RenamableNames(f, newImports, aliases, builtins))
  {
    var newImports, aliases := RewrittenImports(imports), Values(AliasMappingOf(imports));
    var imported := ImportedNames(newImports);
    var ids := Idents(Walk(f));
    WalkNormalize(rho, f);
    FreshKeepsExclusion(rho, f, imports, builtins);
    CollectedNamesRenamed(rho, Walk(f), imported, builtins, aliases, aliases);
    var all := CollectedNames(Walk(f), imported, builtins, aliases);
    CollectedAreIdents(Walk(f), imported, builtins, aliases);
    FunctionNameIsIdent(f);
    assert RenamedSet(rho, all) - {Rename(rho, f.name)} == RenamedSet(rho, all - {f.name});
  }

  /** A fresh renaming never moves a name into or out of the excluded names. */
  lemma FreshKeepsExclusion(rho: map<string, string>, f: Node, imports: seq<Node>, builtins: set<string>)
    requires FreshRenaming(rho, f, imports, builtins)
    ensures var aliases := Values(AliasMappingOf(imports));
      ExclusionKept(rho, Idents(Walk(f)), ImportedNames(RewrittenImports(imports)), builtins, aliases, aliases)
  {
  }

  /** The mappings for the renamed function: each renamed name gets its original's designator. */
  lemma RenamedMappings(rho: map<string, string>, fname: string, candidates: set<string>)
    requires fname !in candidates && InjectiveOn(rho, candidates + {fname})
    requires forall x, y :: x in candidates && y in candidates && StrLt(x, y) ==> StrLt(Rename(rho, x), Rename(rho, y))
    ensures var f1, f2 := NameMappingOf(fname, candidates).0, NameMappingOf(Rename(rho, fname), RenamedSet(rho, candidates)).0;
      && f2.Keys == RenamedSet(rho, f1.Keys)
      && (forall x :: x in f1 ==> Rename(rho, x) in f2 && f2[Rename(rho, x)] == f1[x])
    ensures var r1, r2 := NameMappingOf(fname, candidates).1, NameMappingOf(Rename(rho, fname), RenamedSet(rho, candidates)).1;
      && r2.Keys == r1.Keys
      && (forall d :: d in r1 ==> r2[d] == Rename(rho, r1[d]))
  {
    var names := NumberedList(rho, fname, candidates);
    RenamedForwardMapping(rho, fname, names);
    RenamedReverseMapping(rho, fname, names);
  }

  lemma RenamedForwardMapping(rho: map<string, string>, fname: string, names: seq<string>)
    requires Distinct(names) && fname !in names && InjectiveOn(rho, Elements(names) + {fname})
    ensures var f1, f2 := ForwardMapping(fname, names, Designator), ForwardMapping(Rename(rho, fname), RenameAll(rho, names), Designator);
      && f2.Keys == RenamedSet(rho, f1.Keys)
      && (forall x :: x in f1 ==> Rename(rho, x) in f2 && f2[Rename(rho, x)] == f1[x])
  {
    ForwardRenamed(fname, names, Designator, rho);
  }

  lemma RenamedReverseMapping(rho: map<string, string>, fname: string, names: seq<string>)
    ensures var r1, r2 := ReverseMapping(fname, names, Designator), ReverseMapping(Rename(rho, fname), RenameAll(rho, names), Designator);
      && r2.Keys == r1.Keys
      && (forall d :: d in r1 ==> r2[d] == Rename(rho, r1[d]))
  {
    DesignatorsDistinct();
    ReverseRenamed(fname, names, Designator, rho);
  }

  /** The sorted list both mappings number, the second one renamed. */
  lemma NumberedList(rho: map<string, string>, fname: string, candidates: set<string>) returns (names: seq<string>)
    requires fname !in candidates && InjectiveOn(rho, candidates + {fname})
    requires forall x, y :: x in candidates && y in candidates && StrLt(x, y) ==> StrLt(Rename(rho, x), Rename(rho, y))
    ensures Distinct(names) && Elements(names) == candidates && fname !in names
    ensures NameMappingOf(fname, candidates) == (ForwardMapping(fname, names, Designator), ReverseMapping(fname, names, Designator))
    ensures NameMappingOf(Rename(rho, fname), RenamedSet(rho, candidates))
      == (ForwardMapping(Rename(rho, fname), RenameAll(rho, names), Designator),
          ReverseMapping(Rename(rho, fname), RenameAll(rho, names), Designator))
  {
    names := SortedSet(candidates);
    RenamedNumbering(rho, fname, candidates);
    StrictlySortedDistinct(names);
    assert Elements(names) == candidates;
    MappingOfNames(fname, candidates, names);
    MappingOfNames(Rename(rho, fname), RenamedSet(rho, candidates), RenameAll(rho, names));
  }

  lemma MappingOfNames(fname: string, candidates: set<string>, names: seq<string>)
    requires SortedSet(candidates - {fname}) == names
    ensures NameMappingOf(fname, candidates) == (ForwardMapping(fname, names, Designator), ReverseMapping(fname, names, Designator))
  {
  }

  /** Both mappings number the same list of names, the second renamed. */
  lemma RenamedNumbering(rho: map<string, string>, fname: string, candidates: set<string>)
    requires fname !in candidates && InjectiveOn(rho, candidates + {fname})
    requires forall x, y :: x in candidates && y in candidates && StrLt(x, y) ==> StrLt(Rename(rho, x), Rename(rho, y))
    ensures SortedSet(candidates - {fname}) == SortedSet(candidates)
    ensures SortedSet(RenamedSet(rho, candidates) - {Rename(rho, fname)}) == RenameAll(rho, SortedSet(candidates))
  {
    assert candidates - {fname} == candidates;
    assert RenamedSet(rho, candidates) - {Rename(rho, fname)} == RenamedSet(rho, candidates);
    SortedSetRenamed(rho, candidates);
  }

  /**
   * A renaming of mapped names only, clear of the aliases and hashes, under which the second
   * mapping gives each renamed name what the first gave the original: every identifier
   * commutes.
   */
  lemma RenamingCommutes(rho: map<string, string>, f1: map<string, string>, f2: map<string, string>,
                         am: Dict, ids: set<string>, reserved: set<string>)
    requires f1.Keys <= ids && Values(am) <= reserved && Keys(am) <= reserved
    requires forall y :: y in rho ==> y in f1 && y !in reserved && rho[y] !in reserved
    requires InjectiveOn(rho, ids)
    requires f2.Keys == RenamedSet(rho, f1.Keys)
    requires forall x :: x in f1 ==> Rename(rho, x) in f2 && f2[Rename(rho, x)] == f1[x]
    ensures forall x :: x in ids ==> BinderCommutes(rho, f1, f2, x) && NameCommutes(rho, f1, f2, am, am, x)
  {
    forall x | x in ids ensures BinderCommutes(rho, f1, f2, x) && NameCommutes(rho, f1, f2, am, am, x) {
      if x !in f1 {
        assert x !in rho && x !in f2;
      }
      var h := FirstKeyWithValue(am, x);
      if x in rho {
        assert FirstKeyWithValue(am, Rename(rho, x)).None?;
      }
      if h.Some? {
        var i :| 0 <= i < |am| && am[i] == (h.value, x) && forall j :: 0 <= j < i ==> am[j].1 != x;
        assert h.value in Keys(am);
        KeptName(rho, f1, f2, h.value, reserved);
      }
    }
  }

  /** A reserved name is mapped alike by both mappings. */
  lemma KeptName(rho: map<string, string>, f1: map<string, string>, f2: map<string, string>, z: string,
                 reserved: set<string>)
    requires z in reserved
    requires forall y :: y in rho ==> y in f1 && y !in reserved && rho[y] !in reserved
    requires f2.Keys == RenamedSet(rho, f1.Keys)
    requires forall x :: x in f1 ==> Rename(rho, x) in f2 && f2[Rename(rho, x)] == f1[x]
    ensures Rename(f2, z) == Rename(f1, z)
  {
    assert z !in rho;
    assert z !in f1 ==> z !in f2;
  }

  /** Import statements are processed alike whatever the mapping, so equal functions give equal modules. */
  lemma ModulesAlike(am1: Dict, am2: Dict, f1: map<string, string>, f2: map<string, string>, imports: seq<Node>,
                     a: Node, b: Node, into: bool)
    requires forall i :: 0 <= i < |imports| ==> IsImport(imports[i])
    requires Process(am2, f2, b, into) == Process(am1, f1, a, into)
    ensures Process(am2, f2, Module(imports + [b]), into) == Process(am1, f1, Module(imports + [a]), into)
  {
    ProcessModule(am1, f1, imports + [a], into);
    ProcessModule(am2, f2, imports + [b], into);
    var p1, p2 := ProcessSeq(am1, f1, imports + [a], into), ProcessSeq(am2, f2, imports + [b], into);
    forall i | 0 <= i < |p1| ensures p1[i] == p2[i] {
      if i < |imports| {
        assert (imports + [a])[i] == imports[i] == (imports + [b])[i];
      } else {
        assert (imports + [a])[i] == a && (imports + [b])[i] == b;
      }
    }
  }

  lemma RewrittenAreImports(imports: seq<Node>)
    requires forall i :: 0 <= i < |imports| ==> IsImport(imports[i])
    ensures forall i :: 0 <= i < |RewrittenImports(imports)| ==> IsImport(RewrittenImports(imports)[i])
  {
  }

  /** Renaming keeps the docstring statement and its text. */
  lemma DocstringRenamed(rho: map<string, string>, f: Node, clean: string -> string)
    requires f.FunctionDef?
    ensures HasDocstring(Normalize(rho, f, true)) == HasDocstring(f)
    ensures ExtractDocstring(Normalize(rho, f, true), clean).0 == ExtractDocstring(f, clean).0
  {
    var g := Normalize(rho, f, true);
    assert g.body == NormalizeSeq(rho, f.body, true);
    if |f.body| > 0 {
      var b := f.body[0];
      assert g.body[0] == Normalize(rho, b, true);
      if b.Expr? {
        assert g.body[0].value == Normalize(rho, b.value, true);
      }
    }
  }

  /** Two functions processed alike, less the same number of leading statements, are still alike. */
  lemma StripSame(w: Node, h1: Node, h2: Node, p1: seq<Node>, p2: seq<Node>)
    requires w.FunctionDef? && h1.FunctionDef? && h2.FunctionDef? && w.(body := h1.body) == h1 && w.(body := h2.body) == h2
    requires w.body == p1 + h1.body && w.body == p2 + h2.body && |p1| == |p2|
    ensures h1 == h2
  {
    assert h1.body == w.body[|p1|..] == h2.body;
  }

  /**
   * Two functions with the same docstring whose processed forms agree, each under its own
   * mappings, next to imports that rewrite alike, give the same modules and docstring.
   */
  lemma AssembleModules(f: Node, g: Node, imports1: seq<Node>, imports2: seq<Node>, clean: string -> string,
                        builtins: set<string>, into: bool)
    requires f.FunctionDef? && g.FunctionDef? && forall i :: 0 <= i < |imports1| ==> IsImport(imports1[i])
    requires RewrittenImports(imports2) == RewrittenImports(imports1)
    requires HasDocstring(f) == HasDocstring(g) && ExtractDocstring(g, clean).0 == ExtractDocstring(f, clean).0
    requires var newImports, am1, am2 := RewrittenImports(imports1), AliasMappingOf(imports1), AliasMappingOf(imports2);
      var f1 := NameMappingOf(f.name, RenamableNames(f, newImports, Values(am1), builtins)).0;
      var f2 := NameMappingOf(g.name, RenamableNames(g, newImports, Values(am2), builtins)).0;
      Process(am2, f2, g, into) == Process(am1, f1, f, into)
    ensures var r1 := NormalizeFunction(f, imports1, clean, builtins, into);
      var r2 := NormalizeFunction(g, imports2, clean, builtins, into);
      && r2.withoutDocstring == r1.withoutDocstring
      && r2.withDocstring == r1.withDocstring
      && r2.docstring == r1.docstring
  {
    var newImports, am1, am2 := RewrittenImports(imports1), AliasMappingOf(imports1), AliasMappingOf(imports2);
    var f1 := NameMappingOf(f.name, RenamableNames(f, newImports, Values(am1), builtins)).0;
    var f2 := NameMappingOf(g.name, RenamableNames(g, newImports, Values(am2), builtins)).0;
    var noDoc1, noDoc2 := ExtractDocstring(f, clean).1, ExtractDocstring(g, clean).1;
    RewrittenAreImports(imports1);
    ModulesAlike(am1, am2, f1, f2, newImports, f, g, into);
    ProcessedFunctionsDifferByDocstring(am1, f1, f, noDoc1, into);
    ProcessedFunctionsDifferByDocstring(am2, f2, g, noDoc2, into);
    var w := Process(am1, f1, f, into);
    StripSame(w, Process(am1, f1, noDoc1, into), Process(am2, f2, noDoc2, into),
              if HasDocstring(f) then [Expr(Constant(f.body[0].value.literal, NoPos), NoPos)] else [],
              if HasDocstring(g) then [Expr(Constant(g.body[0].value.literal, NoPos), NoPos)] else []);
    ModulesAlike(am1, am2, f1, f2, newImports, noDoc1, noDoc2, into);
  }

  /**
   * Renaming the function and the names it numbers, in a way that keeps their sorted order
   * and stays clear of imported, built-in, alias and hash names, changes neither normalized
   * module (so neither the hash nor the stored code) nor the docstring or alias mapping; the
   * reverse name mapping lists the new names under the same designators.
   */
  lemma RenamingInvariance(f: Node, imports: seq<Node>, clean: string -> string, builtins: set<string>,
                           rho: map<string, string>, into: bool)
    requires f.FunctionDef? && forall i :: 0 <= i < |imports| ==> IsImport(imports[i])
    requires OrderPreservingRenaming(rho, f, imports, builtins)
    requires into || AnnotationsUntouched(rho, Walk(f))
    ensures var r1 := NormalizeFunction(f, imports, clean, builtins, into);
      var r2 := NormalizeFunction(Normalize(rho, f, true), imports, clean, builtins, into);
      && r2.withoutDocstring == r1.withoutDocstring
      && r2.withDocstring == r1.withDocstring
      && r2.docstring == r1.docstring
      && r2.aliasMapping == r1.aliasMapping
      && r2.nameMapping.Keys == r1.nameMapping.Keys
      && (forall d :: d in r1.nameMapping ==> r2.nameMapping[d] == Rename(rho, r1.nameMapping[d]))
  {
    var g := Normalize(rho, f, true);
    RenamedFunctionProcessed(rho, f, imports, builtins, into);
    DocstringRenamed(rho, f, clean);
    AssembleModules(f, g, imports, imports, clean, builtins, into);
  }

  /** The renamed function, processed under its own mappings, is the original processed; the reverse mappings correspond. */
  lemma RenamedFunctionProcessed(rho: map<string, string>, f: Node, imports: seq<Node>, builtins: set<string>, into: bool)
    requires OrderPreservingRenaming(rho, f, imports, builtins)
    requires into || AnnotationsUntouched(rho, Walk(f))
    ensures var g := Normalize(rho, f, true);
      var newImports, am := RewrittenImports(imports), AliasMappingOf(imports);
      var m1 := NameMappingOf(f.name, RenamableNames(f, newImports, Values(am), builtins));
      var m2 := NameMappingOf(g.name, RenamableNames(g, newImports, Values(am), builtins));
      && Process(am, m2.0, g, into) == Process(am, m1.0, f, into)
      && m2.1.Keys == m1.1.Keys
      && (forall d :: d in m1.1 ==> m2.1[d] == Rename(rho, m1.1[d]))
  {
    var g := Normalize(rho, f, true);
    var newImports, am := RewrittenImports(imports), AliasMappingOf(imports);
    var c1 := RenamableNames(f, newImports, Values(am), builtins);
    var ids := Idents(Walk(f));
    RenamedCandidates(rho, f, imports, builtins);
    assert g.name == Rename(rho, f.name);
    CollectedAreIdents(Walk(f), ImportedNames(newImports), builtins, Values(am));
    FunctionNameIsIdent(f);
    assert c1 + {f.name} <= ids;
    RenamedMappings(rho, f.name, c1);
    NameMappingMeaning(f.name, c1);
    ProcessRenamed(rho, NameMappingOf(f.name, c1).0, NameMappingOf(g.name, RenamedSet(rho, c1)).0, am, f,
                   Reserved(imports, builtins), into);
  }

  /** Under mappings related by `rho`, the renamed function processes to what the original does. */
  lemma ProcessRenamed(rho: map<string, string>, f1: map<string, string>, f2: map<string, string>,
                       am: Dict, f: Node, reserved: set<string>, into: bool)
    requires f1.Keys <= Idents(Walk(f)) && Values(am) <= reserved && Keys(am) <= reserved
    requires into || AnnotationsUntouched(rho, Walk(f))
    requires forall y :: y in rho ==> y in f1 && y !in reserved && rho[y] !in reserved
    requires InjectiveOn(rho, Idents(Walk(f)))
    requires f2.Keys == RenamedSet(rho, f1.Keys)
    requires forall x :: x in f1 ==> Rename(rho, x) in f2 && f2[Rename(rho, x)] == f1[x]
    ensures Process(am, f2, Normalize(rho, f, true), into) == Process(am, f1, f, into)
  {
    RenamingCommutes(rho, f1, f2, am, Idents(Walk(f)), reserved);
    IdentsSplit(Walk(f));
    assert CommuteOn(rho, f1, f2, am, am, Walk(f));
    if !into {
      UntouchedAnnotationsCommute(rho, am, Walk(f));
    }
    Simulation(rho, f1, f2, am, am, f, into);
  }

  // ----------------------------------------------------------------------------------------
  // Renaming an ouverture alias
  // ----------------------------------------------------------------------------------------

  /** The dictionary (or list of pairs) with every value renamed by `sigma`. */
  function MapValues(d: Dict, sigma: map<string, string>): (r: Dict)
    ensures |r| == |d| && forall i :: 0 <= i < |d| ==> r[i] == (d[i].0, Rename(sigma, d[i].1))
  {
    seq(|d|, i requires 0 <= i < |d| => (d[i].0, Rename(sigma, d[i].1)))
  }

  lemma MapValuesAppend(a: Dict, b: Dict, sigma: map<string, string>)
    ensures MapValues(a + b, sigma) == MapValues(a, sigma) + MapValues(b, sigma)
  {
  }

  lemma ValuesMapped(d: Dict, sigma: map<string, string>)
    ensures Values(MapValues(d, sigma)) == RenamedSet(sigma, Values(d))
  {
    var m := MapValues(d, sigma);
    forall y | y in Values(m) ensures y in RenamedSet(sigma, Values(d)) {
      var i :| 0 <= i < |m| && m[i].1 == y;
      assert d[i].1 in Values(d);
    }
    forall x | x in Values(d) ensures Rename(sigma, x) in Values(m) {
      var i :| 0 <= i < |d| && d[i].1 == x;
      assert m[i].1 == Rename(sigma, x);
    }
  }

  /** Assigning a renamed value to the renamed dictionary renames the assigned dictionary. */
  lemma {:induction false} PutMapValues(d: Dict, k: string, v: string, sigma: map<string, string>)
    ensures Put(MapValues(d, sigma), k, Rename(sigma, v)) == MapValues(Put(d, k, v), sigma)
    decreases |d|
  {
    if d != [] {
      var m := MapValues(d, sigma);
      assert m[1..] == MapValues(d[1..], sigma);
      if d[0].0 == k {
        assert MapValues(Put(d, k, v), sigma) == [(k, Rename(sigma, v))] + m[1..];
      } else {
        PutMapValues(d[1..], k, v, sigma);
        assert MapValues(Put(d, k, v), sigma) == [m[0]] + MapValues(Put(d[1..], k, v), sigma);
      }
    }
  }

  lemma {:induction false} PutAllMapValues(ps: Dict, sigma: map<string, string>)
    ensures PutAll(MapValues(ps, sigma)) == MapValues(PutAll(ps), sigma)
    decreases |ps|
  {
    if ps != [] {
      var m := MapValues(ps, sigma);
      assert m[..|m| - 1] == MapValues(ps[..|ps| - 1], sigma);
      PutAllMapValues(ps[..|ps| - 1], sigma);
      PutMapValues(PutAll(ps[..|ps| - 1]), ps[|ps| - 1].0, ps[|ps| - 1].1, sigma);
    }
  }

  /** `import … as a` becomes `import … as b`; every other alias stays. */
  function RenameAsname(x: Alias, a: string, b: string): Alias {
    if x.asname == Some(a) then x.(asname := Some(b)) else x
  }

  function RenameAsnames(names: seq<Alias>, a: string, b: string): (r: seq<Alias>)
    ensures |r| == |names| && forall j :: 0 <= j < |names| ==> r[j] == RenameAsname(names[j], a, b)
  {
    seq(|names|, j requires 0 <= j < |names| => RenameAsname(names[j], a, b))
  }

  /** The imports with the ouverture alias `a` written `b` instead. */
  function RenameAliasImport(n: Node, a: string, b: string): Node {
    if IsOuvertureImport(n) then n.(names := RenameAsnames(n.names, a, b)) else n
  }

  function RenameAliasImports(imports: seq<Node>, a: string, b: string): (r: seq<Node>)
    ensures |r| == |imports| && forall i :: 0 <= i < |imports| ==> r[i] == RenameAliasImport(imports[i], a, b)
  {
    seq(|imports|, i requires 0 <= i < |imports| => RenameAliasImport(imports[i], a, b))
  }

  lemma {:induction false} NamePairsRenamed(names: seq<Alias>, a: string, b: string)
    requires a != "" && b != ""
    ensures NamePairs(RenameAsnames(names, a, b)) == MapValues(NamePairs(names), map[a := b])
    decreases |names|
  {
    if names != [] {
      var init, x := names[..|names| - 1], names[|names| - 1];
      var r := RenameAsnames(names, a, b);
      assert r[..|r| - 1] == RenameAsnames(init, a, b);
      NamePairsRenamed(init, a, b);
      var last := if Truthy(x.asname) then [(x.name, x.asname.value)] else [];
      MapValuesAppend(NamePairs(init), last, map[a := b]);
    }
  }

  lemma {:induction false} AliasPairsRenamed(imports: seq<Node>, a: string, b: string)
    requires a != "" && b != ""
    ensures AliasPairs(RenameAliasImports(imports, a, b)) == MapValues(AliasPairs(imports), map[a := b])
    decreases |imports|
  {
    if imports != [] {
      var init, imp := imports[..|imports| - 1], imports[|imports| - 1];
      var r := RenameAliasImports(imports, a, b);
      assert r[..|r| - 1] == RenameAliasImports(init, a, b);
      AliasPairsRenamed(init, a, b);
      var last := if IsOuvertureImport(imp) then NamePairs(imp.names) else [];
      if IsOuvertureImport(imp) {
        NamePairsRenamed(imp.names, a, b);
      }
      MapValuesAppend(AliasPairs(init), last, map[a := b]);
    }
  }

  /** Renaming the alias renames the values of `alias_mapping`, in place. */
  lemma AliasMappingRenamed(imports: seq<Node>, a: string, b: string)
    requires a != "" && b != ""
    ensures AliasMappingOf(RenameAliasImports(imports, a, b)) == MapValues(AliasMappingOf(imports), map[a := b])
  {
    AliasPairsRenamed(imports, a, b);
    PutAllMapValues(AliasPairs(imports), map[a := b]);
  }

  /** The rewritten imports drop every `asname`, so they do not see the renaming. */
  lemma RewrittenAliasRenamed(imports: seq<Node>, a: string, b: string)
    ensures RewrittenImports(RenameAliasImports(imports, a, b)) == RewrittenImports(imports)
  {
    var r := RenameAliasImports(imports, a, b);
    var l1, l2 := RewrittenImports(r), RewrittenImports(imports);
    forall i | 0 <= i < |imports| ensures l1[i] == l2[i] {
      RewriteAliasRenamed(imports[i], a, b);
    }
  }

  lemma RewriteAliasRenamed(n: Node, a: string, b: string)
    ensures RewriteImport(RenameAliasImport(n, a, b)) == RewriteImport(n)
  {
    if IsOuvertureImport(n) {
      var s1, s2 := StripAliases(RenameAsnames(n.names, a, b)), StripAliases(n.names);
      assert |s1| == |s2| && forall j :: 0 <= j < |s1| ==> s1[j] == s2[j];
    }
  }

  lemma {:induction false} PutValues(d: Dict, k: string, v: string)
    ensures Values(Put(d, k, v)) <= Values(d) + {v}
    decreases |d|
  {
    if d != [] {
      assert d == [d[0]] + d[1..];
      ValuesCons(d[0], d[1..]);
      if d[0].0 == k {
        ValuesCons((k, v), d[1..]);
      } else {
        PutValues(d[1..], k, v);
        ValuesCons(d[0], Put(d[1..], k, v));
      }
    }
  }

  lemma {:induction false} PutAllValues(ps: Dict)
    ensures Values(PutAll(ps)) <= Values(ps)
    decreases |ps|
  {
    if ps != [] {
      var init, last := ps[..|ps| - 1], ps[|ps| - 1];
      PutAllValues(init);
      PutValues(PutAll(init), last.0, last.1);
      LastValue(ps);
    }
  }

  lemma LastValue(ps: Dict)
    requires ps != []
    ensures Values(ps) == Values(ps[..|ps| - 1]) + {ps[|ps| - 1].1}
  {
    assert ps == ps[..|ps| - 1] + [ps[|ps| - 1]];
    ValuesAppend(ps[..|ps| - 1], [ps[|ps| - 1]]);
    assert Values([ps[|ps| - 1]]) == {ps[|ps| - 1].1} by {
      assert [ps[|ps| - 1]][0].1 == ps[|ps| - 1].1;
    }
  }

  lemma ValuesAppend(a: Dict, b: Dict)
    ensures Values(a + b) == Values(a) + Values(b)
  {
    var r := a + b;
    forall y | y in Values(r) ensures y in Values(a) + Values(b) {
      var i :| 0 <= i < |r| && r[i].1 == y;
      if i < |a| { assert a[i].1 == y; } else { assert b[i - |a|].1 == y; }
    }
    forall y | y in Values(a) + Values(b) ensures y in Values(r) {
      if y in Values(a) {
        var i :| 0 <= i < |a| && a[i].1 == y;
        assert r[i].1 == y;
      } else {
        var i :| 0 <= i < |b| && b[i].1 == y;
        assert r[|a| + i].1 == y;
      }
    }
  }

  lemma {:induction false} NamePairValues(names: seq<Alias>)
    ensures "" !in Values(NamePairs(names))
    decreases |names|
  {
    if names != [] {
      var x := names[|names| - 1];
      NamePairValues(names[..|names| - 1]);
      ValuesAppend(NamePairs(names[..|names| - 1]), if Truthy(x.asname) then [(x.name, x.asname.value)] else []);
    }
  }

  lemma {:induction false} AliasPairValues(imports: seq<Node>)
    ensures "" !in Values(AliasPairs(imports))
    decreases |imports|
  {
    if imports != [] {
      var imp := imports[|imports| - 1];
      AliasPairValues(imports[..|imports| - 1]);
      if IsOuvertureImport(imp) {
        NamePairValues(imp.names);
      }
      ValuesAppend(AliasPairs(imports[..|imports| - 1]), if IsOuvertureImport(imp) then NamePairs(imp.names) else []);
    }
  }

  /** Only a truthy `asname` enters `alias_mapping`, so no alias is empty. */
  lemma AliasesNotEmpty(imports: seq<Node>)
    ensures "" !in Values(AliasMappingOf(imports))
  {
    AliasPairValues(imports);
    PutAllValues(AliasPairs(imports));
  }

  /** With `b` no alias yet and `x` not `b`, the renamed alias is found where the original was. */
  lemma {:induction false} FirstKeyRenamed(d: Dict, a: string, b: string, x: string)
    requires b !in Values(d) && x != b
    ensures FirstKeyWithValue(MapValues(d, map[a := b]), Rename(map[a := b], x)) == FirstKeyWithValue(d, x)
    decreases |d|
  {
    if d != [] {
      var m := MapValues(d, map[a := b]);
      assert d == [d[0]] + d[1..];
      ValuesCons(d[0], d[1..]);
      assert m[1..] == MapValues(d[1..], map[a := b]);
      assert m[0].1 == Rename(map[a := b], x) <==> d[0].1 == x;
      FirstKeyRenamed(d[1..], a, b, x);
    }
  }

  /** The alias renamed: the function keeps its name and `create_name_mapping` sees the same names. */
  lemma AliasRenamedCandidates(f: Node, imports: seq<Node>, builtins: set<string>, a: string, b: string)
    requires f.FunctionDef?
    requires a in Values(AliasMappingOf(imports)) && b !in Values(AliasMappingOf(imports))
    requires a !in BinderNames(Walk(f)) && b !in Idents(Walk(f))
    ensures var sigma, newImports, aliases := map[a := b], RewrittenImports(imports), Values(AliasMappingOf(imports));
      && Normalize(sigma, f, true).name == f.name
      && RenamableNames(Normalize(sigma, f, true), newImports, RenamedSet(sigma, aliases), builtins)
        == RenamableNames(f, newImports, aliases, builtins)
  {
    var sigma, newImports, aliases := map[a := b], RewrittenImports(imports), Values(AliasMappingOf(imports));
    var imported, ids := ImportedNames(newImports), Idents(Walk(f));
    assert Walk(f)[0] == f;
    WalkNormalize(sigma, f);
    forall x | x in ids
      ensures x in imported || x in builtins || x in aliases
          <==> Rename(sigma, x) in imported || Rename(sigma, x) in builtins || Rename(sigma, x) in RenamedSet(sigma, aliases)
    {
      if x == a {
        assert Rename(sigma, x) in RenamedSet(sigma, aliases);
      } else {
        if x in RenamedSet(sigma, aliases) {
          var y :| y in aliases && Rename(sigma, y) == x;
          assert y != a;
        }
        if x in aliases {
          assert Rename(sigma, x) in RenamedSet(sigma, aliases);
        }
      }
    }
    assert ExclusionKept(sigma, ids, imported, builtins, aliases, RenamedSet(sigma, aliases));
    CollectedNamesRenamed(sigma, Walk(f), imported, builtins, aliases, RenamedSet(sigma, aliases));
    var c := CollectedNames(Walk(f), imported, builtins, aliases);
    CollectedNamesMeaning(Walk(f), imported, builtins, aliases, a);
    assert RenamedSet(sigma, c) == c;
  }

  /** Every identifier commutes with the alias renaming, one mapping serving both sides. */
  lemma AliasCommutes(ws: seq<Node>, fwd: map<string, string>, am: Dict, a: string, b: string)
    requires a in Values(am) && b !in Values(am)
    requires a !in BinderNames(ws) && b !in Idents(ws)
    ensures CommuteOn(map[a := b], fwd, fwd, am, MapValues(am, map[a := b]), ws)
  {
    var sigma := map[a := b];
    IdentsSplit(ws);
    forall x | x in NameIds(ws) ensures NameCommutes(sigma, fwd, fwd, am, MapValues(am, sigma), x) {
      FirstKeyRenamed(am, a, b, x);
    }
  }

  /** The annotations, which the pass as written leaves alone, commute with the alias renaming too. */
  lemma AliasAnnotationsCommute(f: Node, am: Dict, a: string, b: string)
    requires a in Values(am) && b !in Values(am)
    requires a !in BinderNames(Walk(f)) && b !in Idents(Walk(f))
    ensures AnnotationsCommute(map[a := b], am, MapValues(am, map[a := b]), Walk(f))
  {
    var ws := Walk(f);
    forall i | 0 <= i < |ws| && ws[i].Arg?
      ensures CommuteOn(map[a := b], map[], map[], am, MapValues(am, map[a := b]), WalkSeq(ws[i].annotation))
    {
      var inner := WalkSeq(ws[i].annotation);
      WalkClosed(f, ws[i]);
      assert Walk(ws[i]) == [ws[i]] + inner;
      forall m | m in inner ensures m in ws {
        assert m in Walk(ws[i]);
      }
      SubWalkNames(inner, ws);
      AliasCommutes(inner, map[], am, a, b);
    }
  }

  /** Processing the function with the alias renamed, under the renamed imports, changes nothing. */
  lemma AliasRenamedProcessed(f: Node, imports: seq<Node>, builtins: set<string>, a: string, b: string, into: bool)
    requires f.FunctionDef?
    requires a in Values(AliasMappingOf(imports)) && a !in BinderNames(Walk(f))
    requires b != "" && b !in Values(AliasMappingOf(imports)) && b !in Idents(Walk(f))
    ensures var sigma, imports2 := map[a := b], RenameAliasImports(imports, a, b);
      var g, newImports, am1, am2 := Normalize(sigma, f, true), RewrittenImports(imports), AliasMappingOf(imports), AliasMappingOf(imports2);
      var m1 := NameMappingOf(f.name, RenamableNames(f, newImports, Values(am1), builtins));
      var m2 := NameMappingOf(g.name, RenamableNames(g, RewrittenImports(imports2), Values(am2), builtins));
      && RewrittenImports(imports2) == newImports
      && am2 == MapValues(am1, sigma)
      && m2 == m1
      && Process(am2, m2.0, g, into) == Process(am1, m1.0, f, into)
  {
    var sigma, imports2 := map[a := b], RenameAliasImports(imports, a, b);
    var am1 := AliasMappingOf(imports);
    AliasesNotEmpty(imports);
    AliasMappingRenamed(imports, a, b);
    RewrittenAliasRenamed(imports, a, b);
    ValuesMapped(am1, sigma);
    AliasRenamedCandidates(f, imports, builtins, a, b);
    var fwd := NameMappingOf(f.name, RenamableNames(f, RewrittenImports(imports), Values(am1), builtins)).0;
    AliasCommutes(Walk(f), fwd, am1, a, b);
    if !into {
      AliasAnnotationsCommute(f, am1, a, b);
    }
    Simulation(sigma, fwd, fwd, am1, MapValues(am1, sigma), f, into);
  }

  /**
   * Writing an ouverture alias `a` as a fresh `b` (in the import and at every use) changes
   * neither normalized module, nor the docstring, nor the name mapping; `alias_mapping`
   * lists `b` where it listed `a`.
   */
  lemma AliasRenamingInvariance(f: Node, imports: seq<Node>, clean: string -> string, builtins: set<string>,
                                a: string, b: string, into: bool)
    requires f.FunctionDef? && forall i :: 0 <= i < |imports| ==> IsImport(imports[i])
    requires a in Values(AliasMappingOf(imports)) && a !in BinderNames(Walk(f))
    requires b != "" && b !in Values(AliasMappingOf(imports)) && b !in Idents(Walk(f))
    ensures var r1 := NormalizeFunction(f, imports, clean, builtins, into);
      var r2 := NormalizeFunction(Normalize(map[a := b], f, true), RenameAliasImports(imports, a, b), clean, builtins, into);
      && r2.withoutDocstring == r1.withoutDocstring
      && r2.withDocstring == r1.withDocstring
      && r2.docstring == r1.docstring
      && r2.nameMapping == r1.nameMapping
      && r2.aliasMapping == MapValues(r1.aliasMapping, map[a := b])
  {
    var g := Normalize(map[a := b], f, true);
    AliasRenamedProcessed(f, imports, builtins, a, b, into);
    DocstringRenamed(map[a := b], f, clean);
    AssembleModules(f, g, imports, RenameAliasImports(imports, a, b), clean, builtins, into);
  }

  // ----------------------------------------------------------------------------------------
  // Whole files and the pool
  // ----------------------------------------------------------------------------------------

  /**
   * A file whose function is renamed in a way that keeps the sorted order of its names fails
   * alike or normalizes to the same modules, docstring and alias mapping, the reverse name
   * mapping listing the new names under the same designators.
   */
  lemma ModuleRenamingInvariance(t1: Node, k: nat, clean: string -> string, builtins: set<string>,
                                 rho: map<string, string>, into: bool)
    requires t1.Module? && k < |t1.body| && t1.body[k].FunctionDef?
    requires OrderPreservingRenaming(rho, t1.body[k], SortByKey<ImportStmt>(FilterImports(t1.body), KeyOf), builtins)
    requires into || AnnotationsUntouched(rho, Walk(t1.body[k]))
    ensures var t2 := Module(t1.body[k := Normalize(rho, t1.body[k], true)]);
      var r1, r2 := NormalizeSpec(t1, clean, builtins, into), NormalizeSpec(t2, clean, builtins, into);
      && (r1.Err? <==> r2.Err?)
      && (r1.Err? ==> r1.error == r2.error)
      && (r1.Ok? ==> (&& r2.value.withoutDocstring == r1.value.withoutDocstring
                      && r2.value.withDocstring == r1.value.withDocstring
                      && r2.value.docstring == r1.value.docstring
                      && r2.value.aliasMapping == r1.value.aliasMapping
                      && r2.value.nameMapping.Keys == r1.value.nameMapping.Keys
                      && (forall d :: d in r1.value.nameMapping ==>
                            r2.value.nameMapping[d] == Rename(rho, r1.value.nameMapping[d]))))
  {
    var t2 := Module(t1.body[k := Normalize(rho, t1.body[k], true)]);
    assert Normalize(rho, t1.body[k], true).FunctionDef?;
    BodiesDifferingInFunction(t1.body, t2.body, k);
    if CountFunctionDefs(t1.body) == 1 {
      ModuleRenamingOk(t1, k, clean, builtins, rho, into);
    } else {
      FailingAlike(t1, t2, clean, builtins, into);
    }
  }

  /** The succeeding case: both files normalize their function with the same sorted imports. */
  lemma ModuleRenamingOk(t1: Node, k: nat, clean: string -> string, builtins: set<string>, rho: map<string, string>,
                          into: bool)
    requires t1.Module? && k < |t1.body| && t1.body[k].FunctionDef? && CountFunctionDefs(t1.body) == 1
    requires OrderPreservingRenaming(rho, t1.body[k], SortByKey<ImportStmt>(FilterImports(t1.body), KeyOf), builtins)
    requires into || AnnotationsUntouched(rho, Walk(t1.body[k]))
    ensures var t2 := Module(t1.body[k := Normalize(rho, t1.body[k], true)]);
      var s1, s2 := NormalizeSpec(t1, clean, builtins, into), NormalizeSpec(t2, clean, builtins, into);
      && s1.Ok? && s2.Ok?
      && s2.value.withoutDocstring == s1.value.withoutDocstring
      && s2.value.withDocstring == s1.value.withDocstring
      && s2.value.docstring == s1.value.docstring
      && s2.value.aliasMapping == s1.value.aliasMapping
      && s2.value.nameMapping.Keys == s1.value.nameMapping.Keys
      && (forall d :: d in s1.value.nameMapping ==> s2.value.nameMapping[d] == Rename(rho, s1.value.nameMapping[d]))
  {
    var f, imports := t1.body[k], SortByKey<ImportStmt>(FilterImports(t1.body), KeyOf);
    RenamingInvariance(f, imports, clean, builtins, rho, into);
    LiftToSpecs(t1, k, clean, builtins, rho, into);
  }

  /** What holds of the two functions' normalizations holds of the two files'. */
  lemma LiftToSpecs(t1: Node, k: nat, clean: string -> string, builtins: set<string>, rho: map<string, string>,
                     into: bool)
    requires t1.Module? && k < |t1.body| && t1.body[k].FunctionDef? && CountFunctionDefs(t1.body) == 1
    requires var f, imports := t1.body[k], SortByKey<ImportStmt>(FilterImports(t1.body), KeyOf);
      var r1 := NormalizeFunction(f, imports, clean, builtins, into);
      var r2 := NormalizeFunction(Normalize(rho, f, true), imports, clean, builtins, into);
      && r2.withoutDocstring == r1.withoutDocstring
      && r2.withDocstring == r1.withDocstring
      && r2.docstring == r1.docstring
      && r2.aliasMapping == r1.aliasMapping
      && r2.nameMapping.Keys == r1.nameMapping.Keys
      && (forall d :: d in r1.nameMapping ==> r2.nameMapping[d] == Rename(rho, r1.nameMapping[d]))
    ensures var t2 := Module(t1.body[k := Normalize(rho, t1.body[k], true)]);
      var s1, s2 := NormalizeSpec(t1, clean, builtins, into), NormalizeSpec(t2, clean, builtins, into);
      && s1.Ok? && s2.Ok?
      && s2.value.withoutDocstring == s1.value.withoutDocstring
      && s2.value.withDocstring == s1.value.withDocstring
      && s2.value.docstring == s1.value.docstring
      && s2.value.aliasMapping == s1.value.aliasMapping
      && s2.value.nameMapping.Keys == s1.value.nameMapping.Keys
      && (forall d :: d in s1.value.nameMapping ==> s2.value.nameMapping[d] == Rename(rho, s1.value.nameMapping[d]))
  {
    var f, imports := t1.body[k], SortByKey<ImportStmt>(FilterImports(t1.body), KeyOf);
    var g := Normalize(rho, f, true);
    SpecsOfRenamed(t1, k, clean, builtins, rho, into);
    RenamedResultsAlike(rho, NormalizeFunction(f, imports, clean, builtins, into), NormalizeFunction(g, imports, clean, builtins, into),
                        NormalizeSpec(t1, clean, builtins, into),
                        NormalizeSpec(Module(t1.body[k := g]), clean, builtins, into));
  }

  /** Both files normalize their own function with the same sorted imports. */
  lemma SpecsOfRenamed(t1: Node, k: nat, clean: string -> string, builtins: set<string>, rho: map<string, string>,
                        into: bool)
    requires t1.Module? && k < |t1.body| && t1.body[k].FunctionDef? && CountFunctionDefs(t1.body) == 1
    ensures var f, imports := t1.body[k], SortByKey<ImportStmt>(FilterImports(t1.body), KeyOf);
      var g := Normalize(rho, f, true);
      && NormalizeSpec(t1, clean, builtins, into) == Ok(NormalizeFunction(f, imports, clean, builtins, into))
      && NormalizeSpec(Module(t1.body[k := g]), clean, builtins, into) == Ok(NormalizeFunction(g, imports, clean, builtins, into))
  {
    var t2 := Module(t1.body[k := Normalize(rho, t1.body[k], true)]);
    assert Normalize(rho, t1.body[k], true).FunctionDef?;
    BodiesDifferingInFunction(t1.body, t2.body, k);
    NormalizeSpecOk(t1, k, clean, builtins, into);
    NormalizeSpecOk(t2, k, clean, builtins, into);
  }

  /** Two files with the same number of functions, other than one, fail alike. */
  lemma FailingAlike(t1: Node, t2: Node, clean: string -> string, builtins: set<string>, intoAnnotations: bool)
    requires t1.Module? && t2.Module? && CountFunctionDefs(t1.body) == CountFunctionDefs(t2.body) != 1
    ensures NormalizeSpec(t1, clean, builtins, intoAnnotations).Err?
    ensures NormalizeSpec(t2, clean, builtins, intoAnnotations) == NormalizeSpec(t1, clean, builtins, intoAnnotations)
  {
    NormalizeSpecErr(t1, clean, builtins, intoAnnotations);
    NormalizeSpecErr(t2, clean, builtins, intoAnnotations);
  }

  lemma RenamedResultsAlike(rho: map<string, string>, r1: Normalized, r2: Normalized,
                            s1: Result<Normalized, ExtractError>, s2: Result<Normalized, ExtractError>)
    requires s1 == Ok(r1) && s2 == Ok(r2)
    requires && r2.withoutDocstring == r1.withoutDocstring
             && r2.withDocstring == r1.withDocstring
             && r2.docstring == r1.docstring
             && r2.aliasMapping == r1.aliasMapping
             && r2.nameMapping.Keys == r1.nameMapping.Keys
             && (forall d :: d in r1.nameMapping ==> r2.nameMapping[d] == Rename(rho, r1.nameMapping[d]))
    ensures && s2.value.withoutDocstring == s1.value.withoutDocstring
            && s2.value.withDocstring == s1.value.withDocstring
            && s2.value.docstring == s1.value.docstring
            && s2.value.aliasMapping == s1.value.aliasMapping
            && s2.value.nameMapping.Keys == s1.value.nameMapping.Keys
            && (forall d :: d in s1.value.nameMapping ==> s2.value.nameMapping[d] == Rename(rho, s1.value.nameMapping[d]))
  {
  }

  /**
   * `add_function` on a file and on a copy whose function is renamed in order: both are
   * accepted or both refused, and when accepted they get the same hash (so the same record),
   * the reverse name mapping listing the new names.
   */
  lemma RenamedSameHash(path1: string, lang1: string, path2: string, lang2: string, sources: map<string, string>,
                        parse: string -> Option<seq<Node>>, unparse: Node -> string, sha256: string -> string,
                        clean: string -> string, builtins: set<string>, k: nat, rho: map<string, string>,
                        into: bool)
    requires '@' !in lang1 && '@' !in lang2 && |lang1| == 3 && |lang2| == 3
    requires path1 in sources && path2 in sources
    requires parse(sources[path1]).Some? && parse(sources[path2]).Some?
    requires var b1, b2 := parse(sources[path1]).value, parse(sources[path2]).value;
      && k < |b1| && b1[k].FunctionDef? && b2 == b1[k := Normalize(rho, b1[k], true)]
      && OrderPreservingRenaming(rho, b1[k], SortByKey<ImportStmt>(FilterImports(b1), KeyOf), builtins)
      && (into || AnnotationsUntouched(rho, Walk(b1[k])))
    ensures var a1 := AddDecision(path1 + "@" + lang1, sources, parse, unparse, sha256, clean, builtins, into);
      var a2 := AddDecision(path2 + "@" + lang2, sources, parse, unparse, sha256, clean, builtins, into);
      && (a1.Ok? <==> a2.Ok?)
      && (a1.Ok? ==> (&& a1.value.hash == a2.value.hash
                      && a2.value.nameMapping.Keys == a1.value.nameMapping.Keys
                      && (forall d :: d in a1.value.nameMapping ==>
                            a2.value.nameMapping[d] == Rename(rho, a1.value.nameMapping[d]))))
  {
    AddDecisionOfParsed(path1, lang1, sources, parse, unparse, sha256, clean, builtins, into);
    AddDecisionOfParsed(path2, lang2, sources, parse, unparse, sha256, clean, builtins, into);
    ModuleRenamingInvariance(Module(parse(sources[path1]).value), k, clean, builtins, rho, into);
  }

  // ----------------------------------------------------------------------------------------
  // Renaming an alias across a whole file
  // ----------------------------------------------------------------------------------------

  function RenameAliasStmts(s: seq<ImportStmt>, a: string, b: string): (r: seq<ImportStmt>)
    ensures |r| == |s| && forall i :: 0 <= i < |s| ==> r[i] == RenameAliasImport(s[i], a, b)
  {
    seq(|s|, i requires 0 <= i < |s| => RenameAliasImport(s[i], a, b))
  }

  /** `import_key` reads the imported names, not their `asname`s. */
  lemma KeyOfAliasRenamed(x: ImportStmt, a: string, b: string)
    ensures KeyOf(RenameAliasImport(x, a, b)) == KeyOf(x)
  {
    if IsOuvertureImport(x) {
      assert AliasNames(RenameAsnames(x.names, a, b)) == AliasNames(x.names);
    }
  }

  lemma SortedAliasRenamed(s: seq<ImportStmt>, a: string, b: string)
    requires KeySorted(s, KeyOf)
    ensures KeySorted(RenameAliasStmts(s, a, b), KeyOf)
  {
    var r := RenameAliasStmts(s, a, b);
    forall i, j | 0 <= i < j < |r| ensures KeyLe(KeyOf(r[i]), KeyOf(r[j])) {
      KeyOfAliasRenamed(s[i], a, b);
      KeyOfAliasRenamed(s[j], a, b);
    }
  }

  /** Inserting the renamed statement among the renamed statements renames the insertion. */
  lemma {:induction false} InsertAliasRenamed(x: ImportStmt, s: seq<ImportStmt>, a: string, b: string)
    requires KeySorted(s, KeyOf) && KeySorted(RenameAliasStmts(s, a, b), KeyOf)
    ensures InsertByKey<ImportStmt>(RenameAliasImport(x, a, b), RenameAliasStmts(s, a, b), KeyOf)
      == RenameAliasStmts(InsertByKey<ImportStmt>(x, s, KeyOf), a, b)
    decreases |s|
  {
    var r, x' := RenameAliasStmts(s, a, b), RenameAliasImport(x, a, b);
    KeyOfAliasRenamed(x, a, b);
    InsertByKeyUnfold<ImportStmt>(x, s, KeyOf);
    InsertByKeyUnfold<ImportStmt>(x', r, KeyOf);
    if s != [] {
      KeyOfAliasRenamed(s[0], a, b);
    }
    if s != [] && !KeyLe(KeyOf(x), KeyOf(s[0])) {
      assert r[1..] == RenameAliasStmts(s[1..], a, b) && r[0] == RenameAliasImport(s[0], a, b);
      SortedAliasRenamed(s[1..], a, b);
      InsertAliasRenamed(x, s[1..], a, b);
      InsertAliasStep(x, s, a, b);
    } else {
      RenameAliasCons(x, s, a, b);
    }
  }

  lemma InsertAliasStep(x: ImportStmt, s: seq<ImportStmt>, a: string, b: string)
    requires s != [] && KeySorted(s, KeyOf) && KeySorted(RenameAliasStmts(s, a, b), KeyOf)
    requires !KeyLe(KeyOf(x), KeyOf(s[0])) && KeySorted(s[1..], KeyOf) && KeySorted(RenameAliasStmts(s[1..], a, b), KeyOf)
    requires InsertByKey<ImportStmt>(RenameAliasImport(x, a, b), RenameAliasStmts(s[1..], a, b), KeyOf)
      == RenameAliasStmts(InsertByKey<ImportStmt>(x, s[1..], KeyOf), a, b)
    ensures [RenameAliasImport(s[0], a, b)] + InsertByKey<ImportStmt>(RenameAliasImport(x, a, b), RenameAliasStmts(s[1..], a, b), KeyOf)
      == RenameAliasStmts([s[0]] + InsertByKey<ImportStmt>(x, s[1..], KeyOf), a, b)
  {
    RenameAliasCons(s[0], InsertByKey<ImportStmt>(x, s[1..], KeyOf), a, b);
  }

  lemma RenameAliasCons(x: ImportStmt, s: seq<ImportStmt>, a: string, b: string)
    ensures RenameAliasStmts([x] + s, a, b) == [RenameAliasImport(x, a, b)] + RenameAliasStmts(s, a, b)
  {
  }

  /** Sorting the imports commutes with renaming an alias. */
  lemma {:induction false} SortAliasRenamed(s: seq<ImportStmt>, a: string, b: string)
    ensures SortByKey<ImportStmt>(RenameAliasStmts(s, a, b), KeyOf) == RenameAliasStmts(SortByKey<ImportStmt>(s, KeyOf), a, b)
    decreases |s|
  {
    if s != [] {
      var r := RenameAliasStmts(s, a, b);
      assert r[1..] == RenameAliasStmts(s[1..], a, b);
      SortAliasRenamed(s[1..], a, b);
      var sorted := SortByKey<ImportStmt>(s[1..], KeyOf);
      SortedAliasRenamed(sorted, a, b);
      InsertAliasRenamed(s[0], sorted, a, b);
    }
  }

  lemma {:induction false} FilterAliasRenamed(body: seq<Node>, a: string, b: string)
    ensures FilterImports(RenameAliasImports(body, a, b)) == RenameAliasStmts(FilterImports(body), a, b)
    decreases |body|
  {
    if body != [] {
      var init, last := body[..|body| - 1], body[|body| - 1];
      var r := RenameAliasImports(body, a, b);
      assert r[..|r| - 1] == RenameAliasImports(init, a, b);
      FilterAliasRenamed(init, a, b);
      var tail: seq<ImportStmt> := if IsImport(last) then [last] else [];
      assert RenameAliasStmts(FilterImports(init) + tail, a, b)
        == RenameAliasStmts(FilterImports(init), a, b) + RenameAliasStmts(tail, a, b);
    }
  }

  lemma {:induction false} CountAliasRenamed(body: seq<Node>, a: string, b: string)
    ensures CountFunctionDefs(RenameAliasImports(body, a, b)) == CountFunctionDefs(body)
    decreases |body|
  {
    if body != [] {
      var r := RenameAliasImports(body, a, b);
      assert r[..|r| - 1] == RenameAliasImports(body[..|body| - 1], a, b);
      CountAliasRenamed(body[..|body| - 1], a, b);
    }
  }

  /**
   * A file whose ouverture alias `a` is written as a fresh `b`, in its import and at every use
   * in the function, fails alike or normalizes to the same modules, docstring and name mapping;
   * `alias_mapping` lists `b` where it listed `a`.
   */
  lemma ModuleAliasRenamingInvariance(t1: Node, k: nat, clean: string -> string, builtins: set<string>,
                                      a: string, b: string, into: bool)
    requires t1.Module? && k < |t1.body| && t1.body[k].FunctionDef?
    requires var f, am := t1.body[k], AliasMappingOf(SortByKey<ImportStmt>(FilterImports(t1.body), KeyOf));
      && a in Values(am) && a !in BinderNames(Walk(f))
      && b != "" && b !in Values(am) && b !in Idents(Walk(f))
    ensures var t2 := Module(RenameAliasImports(t1.body, a, b)[k := Normalize(map[a := b], t1.body[k], true)]);
      var r1, r2 := NormalizeSpec(t1, clean, builtins, into), NormalizeSpec(t2, clean, builtins, into);
      && (r1.Err? <==> r2.Err?)
      && (r1.Err? ==> r1.error == r2.error)
      && (r1.Ok? ==> (&& r2.value.withoutDocstring == r1.value.withoutDocstring
                      && r2.value.withDocstring == r1.value.withDocstring
                      && r2.value.docstring == r1.value.docstring
                      && r2.value.nameMapping == r1.value.nameMapping
                      && r2.value.aliasMapping == MapValues(r1.value.aliasMapping, map[a := b])))
  {
    var u := RenameAliasImports(t1.body, a, b);
    var t2 := Module(u[k := Normalize(map[a := b], t1.body[k], true)]);
    assert u[k] == t1.body[k];
    assert t2.body[k].FunctionDef?;
    BodiesDifferingInFunction(u, t2.body, k);
    CountAliasRenamed(t1.body, a, b);
    if CountFunctionDefs(t1.body) == 1 {
      ModuleAliasOk(t1, k, clean, builtins, a, b, into);
    } else {
      FailingAlike(t1, t2, clean, builtins, into);
    }
  }

  lemma ModuleAliasOk(t1: Node, k: nat, clean: string -> string, builtins: set<string>, a: string, b: string,
                       into: bool)
    requires t1.Module? && k < |t1.body| && t1.body[k].FunctionDef? && CountFunctionDefs(t1.body) == 1
    requires var f, am := t1.body[k], AliasMappingOf(SortByKey<ImportStmt>(FilterImports(t1.body), KeyOf));
      && a in Values(am) && a !in BinderNames(Walk(f))
      && b != "" && b !in Values(am) && b !in Idents(Walk(f))
    ensures var t2 := Module(RenameAliasImports(t1.body, a, b)[k := Normalize(map[a := b], t1.body[k], true)]);
      var s1, s2 := NormalizeSpec(t1, clean, builtins, into), NormalizeSpec(t2, clean, builtins, into);
      && s1.Ok? && s2.Ok?
      && s2.value.withoutDocstring == s1.value.withoutDocstring
      && s2.value.withDocstring == s1.value.withDocstring
      && s2.value.docstring == s1.value.docstring
      && s2.value.nameMapping == s1.value.nameMapping
      && s2.value.aliasMapping == MapValues(s1.value.aliasMapping, map[a := b])
  {
    var f, imports := t1.body[k], SortByKey<ImportStmt>(FilterImports(t1.body), KeyOf);
    AliasImportsAreImports(imports);
    AliasRenamingInvariance(f, imports, clean, builtins, a, b, into);
    LiftAliasToSpecs(t1, k, clean, builtins, a, b, into);
  }

  lemma AliasImportsAreImports(imports: seq<ImportStmt>)
    ensures forall i :: 0 <= i < |imports| ==> IsImport(imports[i])
  {
  }

  lemma LiftAliasToSpecs(t1: Node, k: nat, clean: string -> string, builtins: set<string>, a: string, b: string,
                          into: bool)
    requires t1.Module? && k < |t1.body| && t1.body[k].FunctionDef? && CountFunctionDefs(t1.body) == 1
    requires var f, imports := t1.body[k], SortByKey<ImportStmt>(FilterImports(t1.body), KeyOf);
      var r1 := NormalizeFunction(f, imports, clean, builtins, into);
      var r2 := NormalizeFunction(Normalize(map[a := b], f, true), RenameAliasImports(imports, a, b), clean, builtins, into);
      && r2.withoutDocstring == r1.withoutDocstring
      && r2.withDocstring == r1.withDocstring
      && r2.docstring == r1.docstring
      && r2.nameMapping == r1.nameMapping
      && r2.aliasMapping == MapValues(r1.aliasMapping, map[a := b])
    ensures var t2 := Module(RenameAliasImports(t1.body, a, b)[k := Normalize(map[a := b], t1.body[k], true)]);
      var s1, s2 := NormalizeSpec(t1, clean, builtins, into), NormalizeSpec(t2, clean, builtins, into);
      && s1.Ok? && s2.Ok?
      && s2.value.withoutDocstring == s1.value.withoutDocstring
      && s2.value.withDocstring == s1.value.withDocstring
      && s2.value.docstring == s1.value.docstring
      && s2.value.nameMapping == s1.value.nameMapping
      && s2.value.aliasMapping == MapValues(s1.value.aliasMapping, map[a := b])
  {
    SpecsOfAliasRenamed(t1, k, clean, builtins, a, b, into);
  }

  /** The renamed file normalizes its function with the sorted imports, renamed. */
  lemma SpecsOfAliasRenamed(t1: Node, k: nat, clean: string -> string, builtins: set<string>, a: string, b: string,
                             into: bool)
    requires t1.Module? && k < |t1.body| && t1.body[k].FunctionDef? && CountFunctionDefs(t1.body) == 1
    ensures var f, imports := t1.body[k], SortByKey<ImportStmt>(FilterImports(t1.body), KeyOf);
      var g := Normalize(map[a := b], f, true);
      && NormalizeSpec(t1, clean, builtins, into) == Ok(NormalizeFunction(f, imports, clean, builtins, into))
      && NormalizeSpec(Module(RenameAliasImports(t1.body, a, b)[k := g]), clean, builtins, into)
        == Ok(NormalizeFunction(g, RenameAliasImports(imports, a, b), clean, builtins, into))
  {
    var f, filtered := t1.body[k], FilterImports(t1.body);
    var u := RenameAliasImports(t1.body, a, b);
    var t2 := Module(u[k := Normalize(map[a := b], f, true)]);
    assert u[k] == f;
    assert t2.body[k].FunctionDef?;
    BodiesDifferingInFunction(u, t2.body, k);
    CountAliasRenamed(t1.body, a, b);
    FilterAliasRenamed(t1.body, a, b);
    SortAliasRenamed(filtered, a, b);
    var sorted := SortByKey<ImportStmt>(filtered, KeyOf);
    assert RenameAliasStmts(sorted, a, b) == RenameAliasImports(sorted, a, b);
    NormalizeSpecOk(t1, k, clean, builtins, into);
    NormalizeSpecOk(t2, k, clean, builtins, into);
  }

  /**
   * `add_function` on a file and on a copy whose ouverture alias is written as a fresh name:
   * both are accepted or both refused, and when accepted they get the same hash and the same
   * name mapping.
   */
  lemma AliasRenamedSameHash(path1: string, lang1: string, path2: string, lang2: string, sources: map<string, string>,
                             parse: string -> Option<seq<Node>>, unparse: Node -> string, sha256: string -> string,
                             clean: string -> string, builtins: set<string>, k: nat, a: string, b: string,
                             into: bool)
    requires '@' !in lang1 && '@' !in lang2 && |lang1| == 3 && |lang2| == 3
    requires path1 in sources && path2 in sources
    requires parse(sources[path1]).Some? && parse(sources[path2]).Some?
    requires var b1, b2 := parse(sources[path1]).value, parse(sources[path2]).value;
      var am := AliasMappingOf(SortByKey<ImportStmt>(FilterImports(b1), KeyOf));
      && k < |b1| && b1[k].FunctionDef?
      && b2 == RenameAliasImports(b1, a, b)[k := Normalize(map[a := b], b1[k], true)]
      && a in Values(am) && a !in BinderNames(Walk(b1[k]))
      && b != "" && b !in Values(am) && b !in Idents(Walk(b1[k]))
    ensures var a1 := AddDecision(path1 + "@" + lang1, sources, parse, unparse, sha256, clean, builtins, into);
      var a2 := AddDecision(path2 + "@" + lang2, sources, parse, unparse, sha256, clean, builtins, into);
      && (a1.Ok? <==> a2.Ok?)
      && (a1.Ok? ==> a1.value.hash == a2.value.hash && a1.value.nameMapping == a2.value.nameMapping)
  {
    AddDecisionOfParsed(path1, lang1, sources, parse, unparse, sha256, clean, builtins, into);
    AddDecisionOfParsed(path2, lang2, sources, parse, unparse, sha256, clean, builtins, into);
    ModuleAliasRenamingInvariance(Module(parse(sources[path1]).value), k, clean, builtins, a, b, into);
  }

  // ----------------------------------------------------------------------------------------
  // A renaming that changes the order
  // ----------------------------------------------------------------------------------------

  /** `def f(x, y): return x - y` */
  function Subtraction(x: string, y: string): Node {
    var sub := Other("BinOp", [Name(x, Load, NoPos), Other("Sub", [], None), Name(y, Load, NoPos)], Some(NoPos));
    FunctionDef("f", [Arg(x, [], NoPos), Arg(y, [], NoPos)], [], [Other("Return", [sub], Some(NoPos))], [], NoPos)
  }

  /** `def f(b, a): return b - a` */
  function SwapExample(): Node {
    Subtraction("b", "a")
  }

  /** `a` and `b` swapped. */
  const Swap: map<string, string> := map["a" := "b", "b" := "a"]

  lemma SwapRenames()
    ensures Normalize(Swap, SwapExample(), true) == Subtraction("a", "b")
  {
    var f, g := SwapExample(), Subtraction("a", "b");
    assert Rename(Swap, "a") == "b" && Rename(Swap, "b") == "a" && Rename(Swap, "f") == "f";
    var sub, sub' := f.body[0].children[0], g.body[0].children[0];
    assert NormalizeSeq(Swap, sub.children, true) == sub'.children by {
      assert Normalize(Swap, sub.children[0], true) == sub'.children[0];
      assert Normalize(Swap, sub.children[1], true) == sub'.children[1];
      assert Normalize(Swap, sub.children[2], true) == sub'.children[2];
    }
    assert NormalizeSeq(Swap, f.body, true) == g.body by {
      assert NormalizeSeq(Swap, f.body[0].children, true) == [sub'];
    }
    assert NormalizeSeq(Swap, f.args, true) == g.args by {
      assert Normalize(Swap, f.args[0], true) == g.args[0];
      assert Normalize(Swap, f.args[1], true) == g.args[1];
    }
    assert NormalizeSeq(Swap, [], true) == [];
  }

  /** The walk of `def f(x, y): return x - y`, node by node. */
  lemma SubtractionWalk(x: string, y: string)
    ensures var t := Subtraction(x, y);
      var sub := t.body[0].children[0];
      Walk(t) == [t, t.args[0], t.args[1], t.body[0], sub, sub.children[0], sub.children[1], sub.children[2]]
  {
    var t := Subtraction(x, y);
    var ret := t.body[0];
    ReturnWalk(x, y);
    assert WalkSeq(t.body) == Walk(ret);
    assert WalkSeq(t.args[1..]) == [t.args[1]];
    assert WalkSeq(t.args) == [t.args[0], t.args[1]];
  }

  lemma ReturnWalk(x: string, y: string)
    ensures var ret := Subtraction(x, y).body[0];
      var sub := ret.children[0];
      Walk(ret) == [ret, sub, sub.children[0], sub.children[1], sub.children[2]]
  {
    var ret := Subtraction(x, y).body[0];
    var sub := ret.children[0];
    assert WalkSeq(sub.children[2..]) == [sub.children[2]];
    assert WalkSeq(sub.children[1..]) == [sub.children[1], sub.children[2]] by {
      assert sub.children[1..][1..] == sub.children[2..];
    }
    assert WalkSeq(sub.children) == [sub.children[0], sub.children[1], sub.children[2]];
    assert WalkSeq(ret.children) == Walk(sub);
  }

  /** Its numbered names are the two parameters. */
  lemma SubtractionCandidates(x: string, y: string, builtins: set<string>)
    requires x != "f" && y != "f" && x !in builtins && y !in builtins
    ensures RenamableNames(Subtraction(x, y), [], {}, builtins) == {x, y}
    ensures Idents(Walk(Subtraction(x, y))) == {"f", x, y}
  {
    var t := Subtraction(x, y);
    SubtractionWalk(x, y);
    var w := Walk(t);
    assert ImportedNames([]) == {};
    forall z ensures z in CollectedNames(w, {}, builtins, {}) <==> z == x || z == y {
      CollectedNamesMeaning(w, {}, builtins, {}, z);
      if z == x { assert Carries(w[1], z); }
      if z == y { assert Carries(w[2], z); }
    }
    assert Idents(w) == {"f", x, y} by {
      assert Ident(w[0]) == Some("f") && Ident(w[1]) == Some(x) && Ident(w[2]) == Some(y);
      forall z | z in Idents(w) ensures z in {"f", x, y} {
        var i :| 0 <= i < |w| && Ident(w[i]).Some? && Ident(w[i]).value == z;
      }
    }
  }

  /** `sorted({'a', 'b'})` numbers `a` first. */
  lemma SwapNumbering()
    ensures NameMappingOf("f", {"a", "b"}).0 == ForwardMapping("f", ["a", "b"], Designator)
    ensures ForwardMapping("f", ["a", "b"], Designator)["a"] == Designator(1)
    ensures ForwardMapping("f", ["a", "b"], Designator)["b"] == Designator(2)
  {
    SortedAB();
    MappingOfNames("f", {"a", "b"}, ["a", "b"]);
    ForwardAB();
  }

  lemma SortedAB()
    ensures SortedSet({"a", "b"} - {"f"}) == ["a", "b"]
  {
    assert {"a", "b"} - {"f"} == {"a", "b"};
    assert StrLt("a", "b");
    StrictlySortedUnique(SortedSet({"a", "b"}), ["a", "b"]);
  }

  lemma ForwardAB()
    ensures ForwardMapping("f", ["a", "b"], Designator)["a"] == Designator(1)
    ensures ForwardMapping("f", ["a", "b"], Designator)["b"] == Designator(2)
  {
    ForwardAt("f", ["a", "b"], Designator);
    assert ["a", "b"][0] == "a" && ["a", "b"][1] == "b";
  }

  /** The first parameter of the normalized function, for a function without docstring or imports. */
  lemma FirstParameter(f: Node, clean: string -> string, builtins: set<string>, intoAnnotations: bool)
    requires f.FunctionDef? && !HasDocstring(f) && |f.args| > 0
    ensures var w := NormalizeFunction(f, [], clean, builtins, intoAnnotations).withoutDocstring;
      var fwd := NameMappingOf(f.name, RenamableNames(f, [], {}, builtins)).0;
      && w.Module? && |w.body| == 1 && w.body[0].FunctionDef? && |w.body[0].args| > 0
      && w.body[0].args[0] == Process([], fwd, f.args[0], intoAnnotations)
  {
    var fwd := NameMappingOf(f.name, RenamableNames(f, [], {}, builtins)).0;
    assert AliasMappingOf([]) == [] && Values([]) == {};
    assert [] + [ExtractDocstring(f, clean).1] == [f];
    ProcessModule([], fwd, [f], intoAnnotations);
    ProcessFunctionDef([], fwd, f, intoAnnotations);
  }

  /** A parameter without annotation, processed without aliases: only its name changes. */
  lemma PlainParameterProcessed(fwd: map<string, string>, x: string, into: bool)
    ensures Process([], fwd, Arg(x, [], NoPos), into) == Arg(Rename(fwd, x), [], NoPos)
  {
    assert ReplaceSeq([], []) == [] && NormalizeSeq(fwd, [], into) == [] && ClearSeq([]) == [];
  }

  /** The swap is a fresh renaming of `def f(b, a): return b - a` that reverses the order of `a` and `b`. */
  lemma SwapIsFresh(builtins: set<string>)
    requires "a" !in builtins && "b" !in builtins
    ensures FreshRenaming(Swap, SwapExample(), [], builtins)
    ensures !OrderPreservingRenaming(Swap, SwapExample(), [], builtins)
  {
    SubtractionCandidates("b", "a", builtins);
    NoImportsReserved(builtins);
    SwapReversesOrder();
  }

  lemma NoImportsReserved(builtins: set<string>)
    ensures RewrittenImports([]) == [] && Values(AliasMappingOf([])) == {}
    ensures Reserved([], builtins) == builtins
  {
    assert RewrittenImports([]) == [] && AliasMappingOf([]) == [] && Values([]) == {} && Keys([]) == {};
  }

  lemma SwapReversesOrder()
    ensures StrLt("a", "b") && !StrLt(Rename(Swap, "a"), Rename(Swap, "b"))
  {
    assert StrLt("a", "b");
    StrLtAsymmetric("a", "b");
  }

  /** Normalizing `def f(x, y): return x - y` for `x`, `y` the two names `a` and `b`: `a` is numbered 1. */
  lemma SubtractionNumbered(x: string, y: string, clean: string -> string, builtins: set<string>, into: bool)
    requires {x, y} == {"a", "b"} && x != y && "a" !in builtins && "b" !in builtins
    ensures var w := NormalizeFunction(Subtraction(x, y), [], clean, builtins, into).withoutDocstring;
      && w.Module? && |w.body| == 1 && w.body[0].FunctionDef? && |w.body[0].args| > 0
      && w.body[0].args[0] == Arg(Designator(if x == "a" then 1 else 2), [], NoPos)
  {
    SubtractionCandidates(x, y, builtins);
    assert !HasDocstring(Subtraction(x, y));
    SwapNumbering();
    FirstParameter(Subtraction(x, y), clean, builtins, into);
    PlainParameterProcessed(NameMappingOf("f", {"a", "b"}).0, x, into);
  }

  /** The first parameter is numbered 2 before the swap and 1 after it. */
  lemma SwapRenumbers(clean: string -> string, builtins: set<string>, into: bool)
    requires "a" !in builtins && "b" !in builtins
    ensures NormalizeFunction(Normalize(Swap, SwapExample(), true), [], clean, builtins, into).withoutDocstring
      != NormalizeFunction(SwapExample(), [], clean, builtins, into).withoutDocstring
  {
    SwapRenames();
    SubtractionNumbered("b", "a", clean, builtins, into);
    SubtractionNumbered("a", "b", clean, builtins, into);
    if Designator(1) == Designator(2) {
      DesignatorInjective(1, 2);
    }
  }

  /**
   * Swapping the two parameter names of `def f(b, a): return b - a` is a fresh renaming that
   * gives the same logic, `def f(a, b): return a - b`; but it reverses the sorted order, and the
   * normalized modules differ (the first parameter becomes `_ouverture_v_2` in one and
   * `_ouverture_v_1` in the other), so the two get different hashes. This holds for either
   * pass, as written (`into` false) or corrected.
   */
  lemma OrderChangingRenamingChangesHash(clean: string -> string, builtins: set<string>, into: bool)
    requires "a" !in builtins && "b" !in builtins
    ensures FreshRenaming(Swap, SwapExample(), [], builtins)
    ensures !OrderPreservingRenaming(Swap, SwapExample(), [], builtins)
    ensures NormalizeFunction(Normalize(Swap, SwapExample(), true), [], clean, builtins, into).withoutDocstring
      != NormalizeFunction(SwapExample(), [], clean, builtins, into).withoutDocstring
  {
    SwapIsFresh(builtins);
    SwapRenumbers(clean, builtins, into);
  }

  // ----------------------------------------------------------------------------------------
  // A name numbered but left in an annotation
  // ----------------------------------------------------------------------------------------

  /** `def f(x: Foo): return x` */
  function Annotated(): Node {
    FunctionDef("f", [Arg("x", [Name("Foo", Load, NoPos)], NoPos)], [],
                [Other("Return", [Name("x", Load, NoPos)], Some(NoPos))], [], NoPos)
  }

  lemma AnnotatedCandidates(builtins: set<string>)
    requires "Foo" !in builtins && "x" !in builtins
    ensures RenamableNames(Annotated(), [], {}, builtins) == {"Foo", "x"}
  {
    var t := Annotated();
    var arg, ret := t.args[0], t.body[0];
    assert WalkSeq(arg.annotation) == arg.annotation;
    assert WalkSeq(ret.children) == ret.children;
    assert WalkSeq(t.body) == Walk(ret);
    assert WalkSeq(t.args) == Walk(arg);
    var w := Walk(t);
    assert w == [t, arg, arg.annotation[0], ret, ret.children[0]];
    assert ImportedNames([]) == {};
    forall z ensures z in CollectedNames(w, {}, builtins, {}) <==> z == "Foo" || z == "x" {
      CollectedNamesMeaning(w, {}, builtins, {}, z);
      if z == "Foo" { assert Carries(w[2], z); }
      if z == "x" { assert Carries(w[1], z); }
    }
  }

  /** `Foo` sorts before `x`, so `Foo` is numbered 1 and `x` 2. */
  lemma AnnotatedNumbering()
    ensures var m := NameMappingOf("f", {"Foo", "x"});
      && m.0 == ForwardMapping("f", ["Foo", "x"], Designator)
      && m.0["Foo"] == Designator(1) && m.0["x"] == Designator(2)
      && Designator(1) in m.1 && m.1[Designator(1)] == "Foo"
  {
    SortedFooX();
    MappingOfNames("f", {"Foo", "x"}, ["Foo", "x"]);
    ForwardFooX();
    ReverseFooX();
  }

  lemma SortedFooX()
    ensures SortedSet({"Foo", "x"} - {"f"}) == ["Foo", "x"]
  {
    assert {"Foo", "x"} - {"f"} == {"Foo", "x"};
    assert StrLt("Foo", "x");
    StrictlySortedUnique(SortedSet({"Foo", "x"}), ["Foo", "x"]);
  }

  lemma ForwardFooX()
    ensures ForwardMapping("f", ["Foo", "x"], Designator)["Foo"] == Designator(1)
    ensures ForwardMapping("f", ["Foo", "x"], Designator)["x"] == Designator(2)
  {
    ForwardAt("f", ["Foo", "x"], Designator);
    assert ["Foo", "x"][0] == "Foo" && ["Foo", "x"][1] == "x";
  }

  lemma ReverseFooX()
    ensures Designator(1) in ReverseMapping("f", ["Foo", "x"], Designator)
    ensures ReverseMapping("f", ["Foo", "x"], Designator)[Designator(1)] == "Foo"
  {
    DesignatorsDistinct();
    ReverseAt("f", ["Foo", "x"], Designator);
    assert ["Foo", "x"][0] == "Foo";
  }

  /** The parameter `x: Foo` processed: `Foo` is renamed only with the annotation fix. */
  lemma AnnotatedParameterProcessed(fwd: map<string, string>, intoAnnotations: bool)
    requires "Foo" in fwd && "x" in fwd
    ensures Process([], fwd, Arg("x", [Name("Foo", Load, NoPos)], NoPos), intoAnnotations)
      == Arg(fwd["x"], [Name(if intoAnnotations then fwd["Foo"] else "Foo", Load, NoPos)], NoPos)
  {
    var foo := Name("Foo", Load, NoPos);
    assert FirstKeyWithValue([], "Foo").None?;
    assert ReplaceSeq([], [foo]) == [foo];
    assert NormalizeSeq(fwd, [foo], true) == [Name(fwd["Foo"], Load, NoPos)];
    assert ClearSeq([Name(fwd["Foo"], Load, NoPos)]) == [Name(fwd["Foo"], Load, NoPos)];
    assert ClearSeq([foo]) == [foo];
  }

  /**
   * `normalize_ast` as written on `def f(x: Foo): return x`: `Foo` is numbered, and the name
   * mapping records `_ouverture_v_1` for it, yet the stored parameter still reads `x: Foo`
   * (with `x` renamed). With the annotation fix it reads `_ouverture_v_2: _ouverture_v_1`.
   */
  lemma AnnotationKeptAsWritten(clean: string -> string, builtins: set<string>)
    requires "Foo" !in builtins && "x" !in builtins
    ensures var r := NormalizeFunction(Annotated(), [], clean, builtins, false);
      && Designator(1) in r.nameMapping && r.nameMapping[Designator(1)] == "Foo"
      && r.withoutDocstring.Module? && |r.withoutDocstring.body| == 1
      && r.withoutDocstring.body[0].FunctionDef? && |r.withoutDocstring.body[0].args| > 0
      && r.withoutDocstring.body[0].args[0] == Arg(Designator(2), [Name("Foo", Load, NoPos)], NoPos)
    ensures var w := NormalizeFunction(Annotated(), [], clean, builtins, true).withoutDocstring;
      && w.Module? && |w.body| == 1 && w.body[0].FunctionDef? && |w.body[0].args| > 0
      && w.body[0].args[0] == Arg(Designator(2), [Name(Designator(1), Load, NoPos)], NoPos)
  {
    AnnotatedMapping(clean, builtins);
    AnnotatedParameter(clean, builtins, false);
    AnnotatedParameter(clean, builtins, true);
  }

  lemma AnnotatedMapping(clean: string -> string, builtins: set<string>)
    requires "Foo" !in builtins && "x" !in builtins
    ensures var r := NormalizeFunction(Annotated(), [], clean, builtins, false);
      Designator(1) in r.nameMapping && r.nameMapping[Designator(1)] == "Foo"
  {
    AnnotatedCandidates(builtins);
    AnnotatedNumbering();
    assert AliasMappingOf([]) == [] && Values([]) == {} && RewrittenImports([]) == [];
  }

  lemma AnnotatedParameter(clean: string -> string, builtins: set<string>, intoAnnotations: bool)
    requires "Foo" !in builtins && "x" !in builtins
    ensures var w := NormalizeFunction(Annotated(), [], clean, builtins, intoAnnotations).withoutDocstring;
      && w.Module? && |w.body| == 1 && w.body[0].FunctionDef? && |w.body[0].args| > 0
      && w.body[0].args[0] == Arg(Designator(2), [Name(if intoAnnotations then Designator(1) else "Foo", Load, NoPos)], NoPos)
  {
    AnnotatedCandidates(builtins);
    AnnotatedNumbering();
    assert !HasDocstring(Annotated());
    FirstParameter(Annotated(), clean, builtins, intoAnnotations);
    AnnotatedParameterProcessed(NameMappingOf("f", {"Foo", "x"}).0, intoAnnotations);
  }
}
