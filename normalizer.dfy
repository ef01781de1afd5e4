/**
 * `ASTNormalizer`: renames every `Name.id`, `arg.arg` and `FunctionDef.name` that is a key
 * of the forward mapping and leaves the rest of the tree as it is.
 *
 * The pass is modelled on values: Python mutates the nodes in place, the model returns the
 * renamed tree. `visit_arg` in the source renames the parameter and returns without visiting
 * the parameter's annotation; `intoAnnotations == false` models that, and
 * `intoAnnotations == true` is the corrected pass that descends into annotations too.
 */
module Normalizer {
  import opened Wrappers
  import opened PyAst

  /** The name a mapped identifier gets: its image when it is a key, itself otherwise. */
  function Rename(m: map<string, string>, x: string): string {
    if x in m then m[x] else x
  }

  function Normalize(m: map<string, string>, n: Node, intoAnnotations: bool): Node {
    match n
    case Module(body) => Module(NormalizeSeq(m, body, intoAnnotations))
    case FunctionDef(name, args, otherArgs, body, extras, pos) =>
      FunctionDef(Rename(m, name), NormalizeSeq(m, args, intoAnnotations), NormalizeSeq(m, otherArgs, intoAnnotations),
                  NormalizeSeq(m, body, intoAnnotations), NormalizeSeq(m, extras, intoAnnotations), pos)
    case Import(_, _) => n
    case ImportFrom(_, _, _, _) => n
    case Name(id, ctx, pos) => Name(Rename(m, id), ctx, pos)
    case Arg(arg, annotation, pos) =>
      Arg(Rename(m, arg), if intoAnnotations then NormalizeSeq(m, annotation, intoAnnotations) else annotation, pos)
    case Expr(value, pos) => Expr(Normalize(m, value, intoAnnotations), pos)
    case Constant(_, _) => n
    case Attribute(value, attr, ctx, pos) => Attribute(Normalize(m, value, intoAnnotations), attr, ctx, pos)
    case Other(kind, children, optPos) => Other(kind, NormalizeSeq(m, children, intoAnnotations), optPos)
  }

  function NormalizeSeq(m: map<string, string>, ns: seq<Node>, intoAnnotations: bool): (r: seq<Node>)
    ensures |r| == |ns|
  {
    seq(|ns|, i requires 0 <= i < |ns| => Normalize(m, ns[i], intoAnnotations))
  }

  /** The identifier a node carries and the pass may rename: `Name.id`, `arg.arg`, `FunctionDef.name`. */
  function Ident(n: Node): Option<string> {
    match n
    case Name(id, _, _) => Some(id)
    case Arg(arg, _, _) => Some(arg)
    case FunctionDef(name, _, _, _, _, _) => Some(name)
    case _ => None
  }

  /** The node with its renamable identifier blanked out: what the pass must not change. */
  function Skeleton(n: Node): Node {
    match n
    case Module(body) => Module(SkeletonSeq(body))
    case FunctionDef(_, args, otherArgs, body, extras, pos) =>
      FunctionDef("", SkeletonSeq(args), SkeletonSeq(otherArgs), SkeletonSeq(body), SkeletonSeq(extras), pos)
    case Import(_, _) => n
    case ImportFrom(_, _, _, _) => n
    case Name(_, ctx, pos) => Name("", ctx, pos)
    case Arg(_, annotation, pos) => Arg("", SkeletonSeq(annotation), pos)
    case Expr(value, pos) => Expr(Skeleton(value), pos)
    case Constant(_, _) => n
    case Attribute(value, attr, ctx, pos) => Attribute(Skeleton(value), attr, ctx, pos)
    case Other(kind, children, optPos) => Other(kind, SkeletonSeq(children), optPos)
  }

  function SkeletonSeq(ns: seq<Node>): (r: seq<Node>)
    ensures |r| == |ns|
  {
    seq(|ns|, i requires 0 <= i < |ns| => Skeleton(ns[i]))
  }

  /** The pass changes renamable identifiers only (with or without the annotation fix). */
  lemma {:induction false} NormalizeKeepsSkeleton(m: map<string, string>, n: Node, intoAnnotations: bool)
    ensures Skeleton(Normalize(m, n, intoAnnotations)) == Skeleton(n)
    decreases n
  {
    match n
    case Module(body) => NormalizeSeqKeepsSkeleton(m, body, intoAnnotations);
    case FunctionDef(_, args, otherArgs, body, extras, _) =>
      NormalizeSeqKeepsSkeleton(m, args, intoAnnotations);
      NormalizeSeqKeepsSkeleton(m, otherArgs, intoAnnotations);
      NormalizeSeqKeepsSkeleton(m, body, intoAnnotations);
      NormalizeSeqKeepsSkeleton(m, extras, intoAnnotations);
    case Import(_, _) =>
    case ImportFrom(_, _, _, _) =>
    case Name(_, _, _) =>
    case Arg(_, annotation, _) => NormalizeSeqKeepsSkeleton(m, annotation, intoAnnotations);
    case Expr(value, _) => NormalizeKeepsSkeleton(m, value, intoAnnotations);
    case Constant(_, _) =>
    case Attribute(value, _, _, _) => NormalizeKeepsSkeleton(m, value, intoAnnotations);
    case Other(_, children, _) => NormalizeSeqKeepsSkeleton(m, children, intoAnnotations);
  }

  lemma {:induction false} NormalizeSeqKeepsSkeleton(m: map<string, string>, ns: seq<Node>, intoAnnotations: bool)
    ensures SkeletonSeq(NormalizeSeq(m, ns, intoAnnotations)) == SkeletonSeq(ns)
    decreases ns
  {
    forall i | 0 <= i < |ns| ensures Skeleton(Normalize(m, ns[i], intoAnnotations)) == Skeleton(ns[i]) {
      NormalizeKeepsSkeleton(m, ns[i], intoAnnotations);
    }
  }

  lemma NormalizeSeqAppend(m: map<string, string>, a: seq<Node>, b: seq<Node>)
    ensures NormalizeSeq(m, a + b, true) == NormalizeSeq(m, a, true) + NormalizeSeq(m, b, true)
  {
  }

  lemma NormalizeSeqCons(m: map<string, string>, n: Node, s: seq<Node>)
    ensures NormalizeSeq(m, [n] + s, true) == [Normalize(m, n, true)] + NormalizeSeq(m, s, true)
  {
    NormalizeSeqAppend(m, [n], s);
    assert NormalizeSeq(m, [n], true) == [Normalize(m, n, true)];
  }

  /** Walking the renamed tree meets the renamed nodes of the original walk, in the same order. */
  lemma {:induction false} WalkNormalize(m: map<string, string>, n: Node)
    ensures Walk(Normalize(m, n, true)) == NormalizeSeq(m, Walk(n), true)
    decreases n, 1
  {
    match n
    case Module(body) =>
      WalkSeqNormalize(m, body);
      NormalizeSeqCons(m, n, WalkSeq(body));
    case FunctionDef(_, _, _, _, _, _) => WalkNormalizeFunctionDef(m, n);
    case Import(_, _) =>
    case ImportFrom(_, _, _, _) =>
    case Name(_, _, _) =>
    case Arg(_, annotation, _) =>
      WalkSeqNormalize(m, annotation);
      NormalizeSeqCons(m, n, WalkSeq(annotation));
    case Expr(value, _) =>
      WalkNormalize(m, value);
      NormalizeSeqCons(m, n, Walk(value));
    case Constant(_, _) =>
    case Attribute(value, _, _, _) =>
      WalkNormalize(m, value);
      NormalizeSeqCons(m, n, Walk(value));
    case Other(_, children, _) =>
      WalkSeqNormalize(m, children);
      NormalizeSeqCons(m, n, WalkSeq(children));
  }

  lemma {:induction false} WalkNormalizeFunctionDef(m: map<string, string>, n: Node)
    requires n.FunctionDef?
    ensures Walk(Normalize(m, n, true)) == NormalizeSeq(m, Walk(n), true)
    decreases n, 0
  {
    var r := Normalize(m, n, true);
    var a, b, c, d := WalkSeq(n.args), WalkSeq(n.otherArgs), WalkSeq(n.body), WalkSeq(n.extras);
    assert Walk(n) == [n] + a + b + c + d;
    assert Walk(r) == [r] + WalkSeq(r.args) + WalkSeq(r.otherArgs) + WalkSeq(r.body) + WalkSeq(r.extras);
    WalkSeqNormalize(m, n.args);
    WalkSeqNormalize(m, n.otherArgs);
    WalkSeqNormalize(m, n.body);
    WalkSeqNormalize(m, n.extras);
    assert NormalizeSeq(m, [n], true) == [r];
    calc {
      NormalizeSeq(m, Walk(n), true);
      NormalizeSeq(m, [n] + a + b + c + d, true);
      { NormalizeSeqAppend(m, [n] + a + b + c, d); }
      NormalizeSeq(m, [n] + a + b + c, true) + NormalizeSeq(m, d, true);
      { NormalizeSeqAppend(m, [n] + a + b, c); }
      NormalizeSeq(m, [n] + a + b, true) + NormalizeSeq(m, c, true) + NormalizeSeq(m, d, true);
      { NormalizeSeqAppend(m, [n] + a, b); }
      NormalizeSeq(m, [n] + a, true) + NormalizeSeq(m, b, true) + NormalizeSeq(m, c, true) + NormalizeSeq(m, d, true);
      { NormalizeSeqAppend(m, [n], a); }
      [r] + NormalizeSeq(m, a, true) + NormalizeSeq(m, b, true) + NormalizeSeq(m, c, true) + NormalizeSeq(m, d, true);
    }
  }

  lemma {:induction false} WalkSeqNormalize(m: map<string, string>, ns: seq<Node>)
    ensures WalkSeq(NormalizeSeq(m, ns, true)) == NormalizeSeq(m, WalkSeq(ns), true)
    decreases ns
  {
    if ns != [] {
      assert NormalizeSeq(m, ns, true)[1..] == NormalizeSeq(m, ns[1..], true);
      WalkNormalize(m, ns[0]);
      WalkSeqNormalize(m, ns[1..]);
      NormalizeSeqAppend(m, Walk(ns[0]), WalkSeq(ns[1..]));
    }
  }

  /**
   * With the annotation fix, the pass reaches every node: the walk of the result is as long
   * as the original walk, and at each step it meets a node whose identifier is the original
   * one renamed and which is otherwise unchanged.
   */
  lemma RenamesEveryIdentifier(m: map<string, string>, n: Node)
    ensures |Walk(Normalize(m, n, true))| == |Walk(n)|
    ensures forall i :: 0 <= i < |Walk(n)| ==>
      && Skeleton(Walk(Normalize(m, n, true))[i]) == Skeleton(Walk(n)[i])
      && (Ident(Walk(n)[i]).Some? <==> Ident(Walk(Normalize(m, n, true))[i]).Some?)
      && (Ident(Walk(n)[i]).Some? ==> Ident(Walk(Normalize(m, n, true))[i]).value == Rename(m, Ident(Walk(n)[i]).value))
  {
    WalkNormalize(m, n);
    var w, w' := Walk(n), Walk(Normalize(m, n, true));
    forall i | 0 <= i < |w|
      ensures && Skeleton(w'[i]) == Skeleton(w[i])
              && (Ident(w[i]).Some? <==> Ident(w'[i]).Some?)
              && (Ident(w[i]).Some? ==> Ident(w'[i]).value == Rename(m, Ident(w[i]).value))
    {
      assert w'[i] == Normalize(m, w[i], true);
      NormalizeOne(m, w[i]);
    }
  }

  /** One node renamed: the same skeleton, and its identifier, if any, renamed. */
  lemma NormalizeOne(m: map<string, string>, x: Node)
    ensures Skeleton(Normalize(m, x, true)) == Skeleton(x)
    ensures Ident(x).Some? <==> Ident(Normalize(m, x, true)).Some?
    ensures Ident(x).Some? ==> Ident(Normalize(m, x, true)).value == Rename(m, Ident(x).value)
  {
    NormalizeKeepsSkeleton(m, x, true);
  }

  /** The identifiers carried by the nodes of a walk. */
  function Idents(ns: seq<Node>): set<string> {
    set i | 0 <= i < |ns| && Ident(ns[i]).Some? :: Ident(ns[i]).value
  }

  /**
   * With the annotation fix, the identifiers of the renamed tree are exactly the renamed
   * identifiers of the original; so when no designator is itself a key, no key is left.
   */
  lemma IdentsRenamed(m: map<string, string>, n: Node)
    ensures Idents(Walk(Normalize(m, n, true))) == set x | x in Idents(Walk(n)) :: Rename(m, x)
    ensures (forall x :: x in m ==> m[x] !in m) ==> forall x :: x in Idents(Walk(Normalize(m, n, true))) ==> x !in m
  {
    RenamesEveryIdentifier(m, n);
    var w, w' := Walk(n), Walk(Normalize(m, n, true));
    forall y | y in Idents(w') ensures y in set x | x in Idents(w) :: Rename(m, x) {
      var i :| 0 <= i < |w'| && Ident(w'[i]).Some? && Ident(w'[i]).value == y;
      assert Ident(w[i]).value in Idents(w);
    }
    forall x | x in Idents(w) ensures Rename(m, x) in Idents(w') {
      var i :| 0 <= i < |w| && Ident(w[i]).Some? && Ident(w[i]).value == x;
      assert Ident(w'[i]).value == Rename(m, x);
    }
  }

  /**
   * The pass as written, without the annotation fix, can leave a key of the mapping in place:
   * in `x: Foo` with `Foo` mapped, the annotation still reads `Foo`.
   */
  lemma AsWrittenKeepsAnnotationNames()
    ensures var m := map["Foo" := "_ouverture_v_1", "x" := "_ouverture_v_2"];
      var n := Arg("x", [Name("Foo", Load, NoPos)], NoPos);
      && "Foo" in Idents(Walk(Normalize(m, n, false))) && "Foo" in m
      && "Foo" !in Idents(Walk(Normalize(m, n, true)))
  {
    var m := map["Foo" := "_ouverture_v_1", "x" := "_ouverture_v_2"];
    var n := Arg("x", [Name("Foo", Load, NoPos)], NoPos);
    var foo, foo' := Name("Foo", Load, NoPos), Name("_ouverture_v_1", Load, NoPos);
    var asWritten, fixed := Arg("_ouverture_v_2", [foo], NoPos), Arg("_ouverture_v_2", [foo'], NoPos);
    assert Normalize(m, foo, true) == foo';
    assert NormalizeSeq(m, [foo], true) == [foo'];
    assert Normalize(m, n, false) == asWritten;
    assert Normalize(m, n, true) == fixed;
    assert WalkSeq([foo]) == [foo] by { assert [foo][1..] == []; }
    assert WalkSeq([foo']) == [foo'] by { assert [foo'][1..] == []; }
    var w := Walk(asWritten);
    assert w == [asWritten, foo];
    assert Ident(w[1]).value == "Foo";
    var w' := Walk(fixed);
    assert w' == [fixed, foo'];
    forall y | y in Idents(w') ensures y != "Foo" {
      var i :| 0 <= i < |w'| && Ident(w'[i]).Some? && Ident(w'[i]).value == y;
      assert i == 0 || i == 1;
    }
  }
}
