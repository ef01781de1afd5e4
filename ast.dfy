/**
 * The part of Python's abstract syntax tree that the canonicaliser inspects, as a closed
 * datatype, with `ast.walk` and the position-clearing pass `clear_locations`.
 */
module PyAst {
  import opened Wrappers

  /** The position attributes `lineno`, `col_offset`, `end_lineno`, `end_col_offset`. */
  datatype Pos = Pos(lineno: Option<int>, colOffset: Option<int>, endLineno: Option<int>, endColOffset: Option<int>)

  /** Every position attribute set to `None`. */
  const NoPos: Pos := Pos(None, None, None, None)

  datatype Ctx = Load | Store | Del

  /** The value of a `Constant`: a `str`, or any other constant (number, bytes, `None`, `...`), kept opaque. */
  datatype ConstValue = StrValue(s: string) | NonStrValue(repr: string)

  /** `ast.alias`: an imported name and its optional local name. */
  datatype Alias = Alias(name: string, asname: Option<string>, pos: Pos)

  /**
   * The node kinds the canonicaliser tells apart; every other kind is `Other`, which keeps
   * its kind name, its child nodes and whether it has position attributes at all.
   * `FunctionDef.args` is the positional parameter list `args.args`; `otherArgs` holds the
   * rest of the `arguments` node (positional-only, `*args`, keyword-only, `**kwargs`,
   * defaults) and `extras` the decorators and the return annotation.
   */
  datatype Node =
    | Module(body: seq<Node>)
    | FunctionDef(name: string, args: seq<Node>, otherArgs: seq<Node>, body: seq<Node>, extras: seq<Node>, pos: Pos)
    | Import(names: seq<Alias>, pos: Pos)
    | ImportFrom(moduleName: Option<string>, names: seq<Alias>, level: nat, pos: Pos)
    | Name(id: string, ctx: Ctx, pos: Pos)
    | Arg(arg: string, annotation: seq<Node>, pos: Pos)
    | Expr(value: Node, pos: Pos)
    | Constant(literal: ConstValue, pos: Pos)
    | Attribute(value: Node, attr: string, ctx: Ctx, pos: Pos)
    | Other(kind: string, children: seq<Node>, optPos: Option<Pos>)

  predicate IsImport(n: Node) {
    n.Import? || n.ImportFrom?
  }

  /** `ast.walk`, in pre-order: the node itself first, then every descendant. */
  function Walk(n: Node): (r: seq<Node>)
    ensures |r| >= 1 && r[0] == n
  {
    match n
    case Module(body) => [n] + WalkSeq(body)
    case FunctionDef(_, args, otherArgs, body, extras, _) =>
      [n] + WalkSeq(args) + WalkSeq(otherArgs) + WalkSeq(body) + WalkSeq(extras)
    case Import(_, _) => [n]
    case ImportFrom(_, _, _, _) => [n]
    case Name(_, _, _) => [n]
    case Arg(_, annotation, _) => [n] + WalkSeq(annotation)
    case Expr(value, _) => [n] + Walk(value)
    case Constant(_, _) => [n]
    case Attribute(value, _, _, _) => [n] + Walk(value)
    case Other(_, children, _) => [n] + WalkSeq(children)
  }

  /** The walks of a list of nodes, one after the other. */
  function WalkSeq(ns: seq<Node>): seq<Node> {
    if ns == [] then [] else Walk(ns[0]) + WalkSeq(ns[1..])
  }

  lemma {:induction false} WalkSeqAppend(a: seq<Node>, b: seq<Node>)
    ensures WalkSeq(a + b) == WalkSeq(a) + WalkSeq(b)
    decreases |a|
  {
    if a != [] {
      assert (a + b)[0] == a[0] && (a + b)[1..] == a[1..] + b;
      WalkSeqAppend(a[1..], b);
      assert a + b != [];
      assert WalkSeq(a + b) == Walk(a[0]) + WalkSeq(a[1..] + b);
      assert WalkSeq(a) == Walk(a[0]) + WalkSeq(a[1..]);
    } else {
      assert a + b == b;
    }
  }

  /** The walk of a function definition: itself, then the walk of all its children in order. */
  lemma WalkFunctionDef(n: Node)
    requires n.FunctionDef?
    ensures Walk(n) == [n] + WalkSeq(n.args + n.otherArgs + n.body + n.extras)
  {
    var a, o, b, e := n.args, n.otherArgs, n.body, n.extras;
    assert Walk(n) == [n] + WalkSeq(a) + WalkSeq(o) + WalkSeq(b) + WalkSeq(e);
    WalkSeqAppend(a, o);
    WalkSeqAppend(a + o, b);
    WalkSeqAppend(a + o + b, e);
    assert WalkSeq(a + o + b + e) == WalkSeq(a) + WalkSeq(o) + WalkSeq(b) + WalkSeq(e);
    SeqAssoc5([n], WalkSeq(a), WalkSeq(o), WalkSeq(b), WalkSeq(e));
  }

  lemma SeqAssoc5<T>(p: seq<T>, q: seq<T>, r: seq<T>, s: seq<T>, t: seq<T>)
    ensures p + q + r + s + t == p + (q + r + s + t)
  {
  }

  /** `clear_locations`: every position attribute of every node set to `None`. */
  function ClearPos(n: Node): Node {
    match n
    case Module(body) => Module(ClearSeq(body))
    case FunctionDef(name, args, otherArgs, body, extras, _) =>
      FunctionDef(name, ClearSeq(args), ClearSeq(otherArgs), ClearSeq(body), ClearSeq(extras), NoPos)
    case Import(names, _) => Import(ClearAliases(names), NoPos)
    case ImportFrom(moduleName, names, level, _) => ImportFrom(moduleName, ClearAliases(names), level, NoPos)
    case Name(id, ctx, _) => Name(id, ctx, NoPos)
    case Arg(arg, annotation, _) => Arg(arg, ClearSeq(annotation), NoPos)
    case Expr(value, _) => Expr(ClearPos(value), NoPos)
    case Constant(literal, _) => Constant(literal, NoPos)
    case Attribute(value, attr, ctx, _) => Attribute(ClearPos(value), attr, ctx, NoPos)
    case Other(kind, children, optPos) => Other(kind, ClearSeq(children), if optPos.Some? then Some(NoPos) else None)
  }

  function ClearSeq(ns: seq<Node>): (r: seq<Node>)
    ensures |r| == |ns|
  {
    seq(|ns|, i requires 0 <= i < |ns| => ClearPos(ns[i]))
  }

  function ClearAliases(names: seq<Alias>): (r: seq<Alias>)
    ensures |r| == |names|
  {
    seq(|names|, i requires 0 <= i < |names| => names[i].(pos := NoPos))
  }

  /** The node's own position attributes, and those of its aliases, are all `None`. */
  predicate OwnPosCleared(n: Node) {
    match n
    case Module(_) => true
    case FunctionDef(_, _, _, _, _, pos) => pos == NoPos
    case Import(names, pos) => pos == NoPos && forall a :: a in names ==> a.pos == NoPos
    case ImportFrom(_, names, _, pos) => pos == NoPos && forall a :: a in names ==> a.pos == NoPos
    case Name(_, _, pos) => pos == NoPos
    case Arg(_, _, pos) => pos == NoPos
    case Expr(_, pos) => pos == NoPos
    case Constant(_, pos) => pos == NoPos
    case Attribute(_, _, _, pos) => pos == NoPos
    case Other(_, _, optPos) => optPos == None || optPos == Some(NoPos)
  }

  /** Apart from positions, a node is what it was: same kind, same identifiers, same values. */
  predicate SameBesidesPos(a: Node, b: Node) {
    match a
    case Module(_) => b.Module?
    case FunctionDef(name, args, otherArgs, body, extras, _) =>
      b.FunctionDef? && b.name == name && |b.args| == |args| && |b.otherArgs| == |otherArgs|
      && |b.body| == |body| && |b.extras| == |extras|
    case Import(names, _) =>
      b.Import? && |b.names| == |names|
      && forall i :: 0 <= i < |names| ==> b.names[i].name == names[i].name && b.names[i].asname == names[i].asname
    case ImportFrom(moduleName, names, level, _) =>
      b.ImportFrom? && b.moduleName == moduleName && b.level == level && |b.names| == |names|
      && forall i :: 0 <= i < |names| ==> b.names[i].name == names[i].name && b.names[i].asname == names[i].asname
    case Name(id, ctx, _) => b.Name? && b.id == id && b.ctx == ctx
    case Arg(arg, annotation, _) => b.Arg? && b.arg == arg && |b.annotation| == |annotation|
    case Expr(_, _) => b.Expr?
    case Constant(literal, _) => b.Constant? && b.literal == literal
    case Attribute(_, attr, ctx, _) => b.Attribute? && b.attr == attr && b.ctx == ctx
    case Other(kind, children, optPos) =>
      b.Other? && b.kind == kind && |b.children| == |children| && b.optPos.Some? == optPos.Some?
  }

  lemma {:induction false} ClearSeqAppend(a: seq<Node>, b: seq<Node>)
    ensures ClearSeq(a + b) == ClearSeq(a) + ClearSeq(b)
  {
  }

  lemma ClearSeqCons(n: Node, s: seq<Node>)
    ensures ClearSeq([n] + s) == [ClearPos(n)] + ClearSeq(s)
  {
    ClearSeqAppend([n], s);
    assert ClearSeq([n]) == [ClearPos(n)];
  }

  /** Walking the cleared tree visits the cleared nodes of the original walk, in the same order. */
  lemma {:induction false} WalkClearPos(n: Node)
    ensures Walk(ClearPos(n)) == ClearSeq(Walk(n))
    decreases n, 1
  {
    match n
    case Module(body) =>
      WalkSeqClearSeq(body);
      ClearSeqCons(n, WalkSeq(body));
    case FunctionDef(_, _, _, _, _, _) =>
      WalkClearPosFunctionDef(n);
    case Import(_, _) =>
    case ImportFrom(_, _, _, _) =>
    case Name(_, _, _) =>
    case Arg(_, annotation, _) =>
      WalkSeqClearSeq(annotation);
      ClearSeqCons(n, WalkSeq(annotation));
    case Expr(value, _) =>
      WalkClearPos(value);
      ClearSeqCons(n, Walk(value));
    case Constant(_, _) =>
    case Attribute(value, _, _, _) =>
      WalkClearPos(value);
      ClearSeqCons(n, Walk(value));
    case Other(_, children, _) =>
      WalkSeqClearSeq(children);
      ClearSeqCons(n, WalkSeq(children));
  }

  lemma {:induction false} WalkClearPosFunctionDef(n: Node)
    requires n.FunctionDef?
    ensures Walk(ClearPos(n)) == ClearSeq(Walk(n))
    decreases n, 0
  {
    var a, o, b, e := WalkSeq(n.args), WalkSeq(n.otherArgs), WalkSeq(n.body), WalkSeq(n.extras);
    WalkSeqClearSeq(n.args);
    WalkSeqClearSeq(n.otherArgs);
    WalkSeqClearSeq(n.body);
    WalkSeqClearSeq(n.extras);
    var c := ClearPos(n);
    assert Walk(c) == [c] + ClearSeq(a) + ClearSeq(o) + ClearSeq(b) + ClearSeq(e);
    assert ClearSeq([n]) == [c];
    calc {
      ClearSeq(Walk(n));
      ClearSeq([n] + a + o + b + e);
      { ClearSeqAppend([n] + a + o + b, e); }
      ClearSeq([n] + a + o + b) + ClearSeq(e);
      { ClearSeqAppend([n] + a + o, b); }
      ClearSeq([n] + a + o) + ClearSeq(b) + ClearSeq(e);
      { ClearSeqAppend([n] + a, o); }
      ClearSeq([n] + a) + ClearSeq(o) + ClearSeq(b) + ClearSeq(e);
      { ClearSeqAppend([n], a); }
      [c] + ClearSeq(a) + ClearSeq(o) + ClearSeq(b) + ClearSeq(e);
    }
  }

  lemma {:induction false} WalkSeqClearSeq(ns: seq<Node>)
    ensures WalkSeq(ClearSeq(ns)) == ClearSeq(WalkSeq(ns))
    decreases ns
  {
    if ns != [] {
      assert ClearSeq(ns)[1..] == ClearSeq(ns[1..]);
      WalkClearPos(ns[0]);
      WalkSeqClearSeq(ns[1..]);
      ClearSeqAppend(Walk(ns[0]), WalkSeq(ns[1..]));
    }
  }

  /**
   * `clear_locations` touches positions only and reaches every node: the walk of the
   * cleared tree has the same length as the original walk, and at each step it meets a
   * node equal to the original one apart from positions, whose own positions are `None`.
   */
  lemma ClearPosReachesEveryNode(n: Node)
    ensures |Walk(ClearPos(n))| == |Walk(n)|
    ensures forall i :: 0 <= i < |Walk(n)| ==>
      SameBesidesPos(Walk(n)[i], Walk(ClearPos(n))[i]) && OwnPosCleared(Walk(ClearPos(n))[i])
  {
    WalkClearPos(n);
    forall i | 0 <= i < |Walk(n)|
      ensures SameBesidesPos(Walk(n)[i], Walk(ClearPos(n))[i]) && OwnPosCleared(Walk(ClearPos(n))[i])
    {
      var x := Walk(n)[i];
      assert Walk(ClearPos(n))[i] == ClearPos(x);
      match x
      case Import(names, _) =>
        assert forall a :: a in ClearAliases(names) ==> a.pos == NoPos;
      case ImportFrom(_, names, _, _) =>
        assert forall a :: a in ClearAliases(names) ==> a.pos == NoPos;
      case _ =>
    }
  }

  /** Clearing positions twice is clearing them once. */
  lemma {:induction false} ClearPosIdempotent(n: Node)
    ensures ClearPos(ClearPos(n)) == ClearPos(n)
  {
    match n
    case Module(body) => ClearSeqIdempotent(body);
    case FunctionDef(_, args, otherArgs, body, extras, _) =>
      ClearSeqIdempotent(args);
      ClearSeqIdempotent(otherArgs);
      ClearSeqIdempotent(body);
      ClearSeqIdempotent(extras);
    case Import(names, _) =>
      assert ClearAliases(ClearAliases(names)) == ClearAliases(names);
    case ImportFrom(_, names, _, _) =>
      assert ClearAliases(ClearAliases(names)) == ClearAliases(names);
    case Name(_, _, _) =>
    case Arg(_, annotation, _) => ClearSeqIdempotent(annotation);
    case Expr(value, _) => ClearPosIdempotent(value);
    case Constant(_, _) =>
    case Attribute(value, _, _, _) => ClearPosIdempotent(value);
    case Other(_, children, _) => ClearSeqIdempotent(children);
  }

  lemma {:induction false} ClearSeqIdempotent(ns: seq<Node>)
    ensures ClearSeq(ClearSeq(ns)) == ClearSeq(ns)
    decreases ns
  {
    forall i | 0 <= i < |ns| ensures ClearPos(ClearPos(ns[i])) == ClearPos(ns[i]) {
      ClearPosIdempotent(ns[i]);
    }
  }
}
