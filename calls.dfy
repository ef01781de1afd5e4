/**
 * `replace_ouverture_calls`: every `Name` whose identifier is the local alias of an ouverture
 * function becomes the attribute `<hash>._ouverture_v_0`, keeping the name's context. The
 * alias mapping is the insertion-ordered dictionary from hashes to aliases; the first entry
 * whose alias matches decides the hash.
 *
 * Python's `NodeTransformer` visits every node (the replacer has no `visit_arg`, so
 * parameter annotations are visited too) and replaces nodes in place; the model returns the
 * new tree. The new nodes carry no positions.
 */
module CallReplacer {
  import opened Wrappers
  import opened PyAst
  import opened PyDict

  /** The identifier a `Name` ends up with: the hash of the first entry whose alias it is, or itself. */
  function ReplaceId(aliasMapping: Dict, x: string): string {
    var h := FirstKeyWithValue(aliasMapping, x);
    if h.Some? then h.value else x
  }

  function ReplaceCalls(aliasMapping: Dict, n: Node): Node {
    match n
    case Module(body) => Module(ReplaceSeq(aliasMapping, body))
    case FunctionDef(name, args, otherArgs, body, extras, pos) =>
      FunctionDef(name, ReplaceSeq(aliasMapping, args), ReplaceSeq(aliasMapping, otherArgs),
                  ReplaceSeq(aliasMapping, body), ReplaceSeq(aliasMapping, extras), pos)
    case Import(_, _) => n
    case ImportFrom(_, _, _, _) => n
    case Name(id, ctx, _) =>
      var h := FirstKeyWithValue(aliasMapping, id);
      if h.Some? then Attribute(Name(h.value, Load, NoPos), "_ouverture_v_0", ctx, NoPos) else n
    case Arg(arg, annotation, pos) => Arg(arg, ReplaceSeq(aliasMapping, annotation), pos)
    case Expr(value, pos) => Expr(ReplaceCalls(aliasMapping, value), pos)
    case Constant(_, _) => n
    case Attribute(value, attr, ctx, pos) => Attribute(ReplaceCalls(aliasMapping, value), attr, ctx, pos)
    case Other(kind, children, optPos) => Other(kind, ReplaceSeq(aliasMapping, children), optPos)
  }

  function ReplaceSeq(aliasMapping: Dict, ns: seq<Node>): (r: seq<Node>)
    ensures |r| == |ns|
  {
    seq(|ns|, i requires 0 <= i < |ns| => ReplaceCalls(aliasMapping, ns[i]))
  }

  /**
   * A `Name` that is an alias becomes `<hash>._ouverture_v_0` in the same context, `<hash>`
   * being the first hash recorded for that alias, and read with `Load`; any other `Name` stays.
   */
  lemma ReplacesAliasName(aliasMapping: Dict, id: string, ctx: Ctx, pos: Pos)
    ensures id in Values(aliasMapping) ==>
      exists i :: 0 <= i < |aliasMapping| && aliasMapping[i].1 == id
        && (forall j :: 0 <= j < i ==> aliasMapping[j].1 != id)
        && ReplaceCalls(aliasMapping, Name(id, ctx, pos)) == Attribute(Name(aliasMapping[i].0, Load, NoPos), "_ouverture_v_0", ctx, NoPos)
    ensures id !in Values(aliasMapping) ==> ReplaceCalls(aliasMapping, Name(id, ctx, pos)) == Name(id, ctx, pos)
  {
    var h := FirstKeyWithValue(aliasMapping, id);
    if h.Some? {
      var i :| 0 <= i < |aliasMapping| && aliasMapping[i] == (h.value, id) && forall j :: 0 <= j < i ==> aliasMapping[j].1 != id;
      assert aliasMapping[i].0 == h.value;
    }
  }

  /** The identifiers of the `Name` nodes of a walk. */
  function NameIds(ns: seq<Node>): set<string> {
    set i | 0 <= i < |ns| && ns[i].Name? :: ns[i].id
  }

  /** The parameter names and function names of a walk. */
  function BinderNames(ns: seq<Node>): set<string> {
    set i | 0 <= i < |ns| && (ns[i].Arg? || ns[i].FunctionDef?) :: if ns[i].Arg? then ns[i].arg else ns[i].name
  }

  function Replaced(aliasMapping: Dict, s: set<string>): set<string> {
    set x | x in s :: ReplaceId(aliasMapping, x)
  }

  lemma NameIdsAppend(a: seq<Node>, b: seq<Node>)
    ensures NameIds(a + b) == NameIds(a) + NameIds(b)
    ensures BinderNames(a + b) == BinderNames(a) + BinderNames(b)
  {
    var ab := a + b;
    forall x | x in NameIds(ab) ensures x in NameIds(a) + NameIds(b) {
      var i :| 0 <= i < |ab| && ab[i].Name? && ab[i].id == x;
      if i < |a| { assert a[i] == ab[i]; } else { assert b[i - |a|] == ab[i]; }
    }
    forall x | x in NameIds(a) ensures x in NameIds(ab) {
      var i :| 0 <= i < |a| && a[i].Name? && a[i].id == x;
      assert ab[i] == a[i];
    }
    forall x | x in NameIds(b) ensures x in NameIds(ab) {
      var i :| 0 <= i < |b| && b[i].Name? && b[i].id == x;
      assert ab[i + |a|] == b[i];
    }
    forall x | x in BinderNames(ab) ensures x in BinderNames(a) + BinderNames(b) {
      var i :| 0 <= i < |ab| && (ab[i].Arg? || ab[i].FunctionDef?) && (if ab[i].Arg? then ab[i].arg else ab[i].name) == x;
      if i < |a| { assert a[i] == ab[i]; } else { assert b[i - |a|] == ab[i]; }
    }
    forall x | x in BinderNames(a) ensures x in BinderNames(ab) {
      var i :| 0 <= i < |a| && (a[i].Arg? || a[i].FunctionDef?) && (if a[i].Arg? then a[i].arg else a[i].name) == x;
      assert ab[i] == a[i];
    }
    forall x | x in BinderNames(b) ensures x in BinderNames(ab) {
      var i :| 0 <= i < |b| && (b[i].Arg? || b[i].FunctionDef?) && (if b[i].Arg? then b[i].arg else b[i].name) == x;
      assert ab[i + |a|] == b[i];
    }
  }

  lemma ReplacedUnion(aliasMapping: Dict, a: set<string>, b: set<string>)
    ensures Replaced(aliasMapping, a + b) == Replaced(aliasMapping, a) + Replaced(aliasMapping, b)
  {
  }

  /**
   * What the pass does to identifiers: the `Name` identifiers of the result are the original
   * ones with every alias replaced by its hash, and parameter and function names are as they were.
   */
  lemma {:induction false} ReplaceCallsIds(aliasMapping: Dict, n: Node)
    ensures NameIds(Walk(ReplaceCalls(aliasMapping, n))) == Replaced(aliasMapping, NameIds(Walk(n)))
    ensures BinderNames(Walk(ReplaceCalls(aliasMapping, n))) == BinderNames(Walk(n))
    decreases n, 1
  {
    var r := ReplaceCalls(aliasMapping, n);
    match n
    case Module(body) =>
      ReplaceSeqIds(aliasMapping, body);
      ConsIds(aliasMapping, n, r, WalkSeq(body), WalkSeq(r.body));
    case FunctionDef(_, _, _, _, _, _) => ReplaceCallsIdsFunctionDef(aliasMapping, n);
    case Import(_, _) =>
    case ImportFrom(_, _, _, _) =>
    case Name(_, _, _) => ReplaceCallsIdsName(aliasMapping, n);
    case Arg(_, annotation, _) =>
      ReplaceSeqIds(aliasMapping, annotation);
      NameIdsSingle(n);
      NameIdsSingle(r);
      ConsIds(aliasMapping, n, r, WalkSeq(annotation), WalkSeq(r.annotation));
    case Expr(value, _) =>
      ReplaceCallsIds(aliasMapping, value);
      ConsIds(aliasMapping, n, r, Walk(value), Walk(r.value));
    case Constant(_, _) =>
    case Attribute(value, _, _, _) =>
      ReplaceCallsIds(aliasMapping, value);
      ConsIds(aliasMapping, n, r, Walk(value), Walk(r.value));
    case Other(_, children, _) =>
      ReplaceSeqIds(aliasMapping, children);
      ConsIds(aliasMapping, n, r, WalkSeq(children), WalkSeq(r.children));
  }

  /** A name that is an alias becomes an attribute over a fresh `Name` carrying the hash. */
  lemma ReplaceCallsIdsName(aliasMapping: Dict, n: Node)
    requires n.Name?
    ensures NameIds(Walk(ReplaceCalls(aliasMapping, n))) == Replaced(aliasMapping, NameIds(Walk(n)))
    ensures BinderNames(Walk(ReplaceCalls(aliasMapping, n))) == BinderNames(Walk(n))
  {
    var r := ReplaceCalls(aliasMapping, n);
    NameIdsSingle(n);
    var h := FirstKeyWithValue(aliasMapping, n.id);
    if h.Some? {
      var inner := Name(h.value, Load, NoPos);
      assert WalkSeq([inner]) == [inner] by { assert [inner][1..] == []; }
      assert Walk(r) == [r] + [inner];
      NameIdsSingle(r);
      NameIdsSingle(inner);
      NameIdsAppend([r], [inner]);
    }
  }

  /** The facts about identifiers carry over to a walk headed by a node that is neither renamed nor replaced. */
  lemma ConsIds(aliasMapping: Dict, n: Node, r: Node, w: seq<Node>, w': seq<Node>)
    requires !n.Name? && !r.Name? && BinderNames([r]) == BinderNames([n])
    requires Walk(n) == [n] + w && Walk(r) == [r] + w'
    requires NameIds(w') == Replaced(aliasMapping, NameIds(w)) && BinderNames(w') == BinderNames(w)
    ensures NameIds(Walk(r)) == Replaced(aliasMapping, NameIds(Walk(n)))
    ensures BinderNames(Walk(r)) == BinderNames(Walk(n))
  {
    NameIdsSingle(n);
    NameIdsSingle(r);
    NameIdsAppend([n], w);
    NameIdsAppend([r], w');
    ReplacedUnion(aliasMapping, NameIds([n]), NameIds(w));
  }

  lemma {:induction false} ReplaceCallsIdsFunctionDef(aliasMapping: Dict, n: Node)
    requires n.FunctionDef?
    ensures NameIds(Walk(ReplaceCalls(aliasMapping, n))) == Replaced(aliasMapping, NameIds(Walk(n)))
    ensures BinderNames(Walk(ReplaceCalls(aliasMapping, n))) == BinderNames(Walk(n))
    decreases n, 0
  {
    var r := ReplaceCalls(aliasMapping, n);
    var ch := n.args + n.otherArgs + n.body + n.extras;
    var ch' := r.args + r.otherArgs + r.body + r.extras;
    assert ReplaceSeq(aliasMapping, ch) == ch' by {
      ReplaceSeqAppend(aliasMapping, n.args, n.otherArgs);
      ReplaceSeqAppend(aliasMapping, n.args + n.otherArgs, n.body);
      ReplaceSeqAppend(aliasMapping, n.args + n.otherArgs + n.body, n.extras);
    }
    assert NameIds(WalkSeq(ch')) == Replaced(aliasMapping, NameIds(WalkSeq(ch)))
        && BinderNames(WalkSeq(ch')) == BinderNames(WalkSeq(ch)) by {
      ReplaceSeqIds(aliasMapping, n.args);
      ReplaceSeqIds(aliasMapping, n.otherArgs);
      ReplaceSeqIds(aliasMapping, n.body);
      ReplaceSeqIds(aliasMapping, n.extras);
      SeqIdsConcat(aliasMapping, n.args, n.otherArgs);
      SeqIdsConcat(aliasMapping, n.args + n.otherArgs, n.body);
      SeqIdsConcat(aliasMapping, n.args + n.otherArgs + n.body, n.extras);
    }
    assert Walk(n) == [n] + WalkSeq(ch) by { WalkFunctionDef(n); }
    assert Walk(r) == [r] + WalkSeq(ch') by { WalkFunctionDef(r); }
    NameIdsSingle(n);
    NameIdsSingle(r);
    NameIdsAppend([n], WalkSeq(ch));
    NameIdsAppend([r], WalkSeq(ch'));
    ReplacedUnion(aliasMapping, NameIds([n]), NameIds(WalkSeq(ch)));
  }

  lemma ReplaceSeqAppend(aliasMapping: Dict, a: seq<Node>, b: seq<Node>)
    ensures ReplaceSeq(aliasMapping, a + b) == ReplaceSeq(aliasMapping, a) + ReplaceSeq(aliasMapping, b)
  {
  }

  lemma NameIdsSingle(x: Node)
    ensures NameIds([x]) == if x.Name? then {x.id} else {}
    ensures BinderNames([x]) == if x.Arg? then {x.arg} else if x.FunctionDef? then {x.name} else {}
  {
    assert [x][0] == x;
  }

  /** The facts about identifiers carry over from two lists to their concatenation. */
  lemma SeqIdsConcat(aliasMapping: Dict, a: seq<Node>, b: seq<Node>)
    requires NameIds(WalkSeq(ReplaceSeq(aliasMapping, a))) == Replaced(aliasMapping, NameIds(WalkSeq(a)))
    requires BinderNames(WalkSeq(ReplaceSeq(aliasMapping, a))) == BinderNames(WalkSeq(a))
    requires NameIds(WalkSeq(ReplaceSeq(aliasMapping, b))) == Replaced(aliasMapping, NameIds(WalkSeq(b)))
    requires BinderNames(WalkSeq(ReplaceSeq(aliasMapping, b))) == BinderNames(WalkSeq(b))
    ensures NameIds(WalkSeq(ReplaceSeq(aliasMapping, a + b))) == Replaced(aliasMapping, NameIds(WalkSeq(a + b)))
    ensures BinderNames(WalkSeq(ReplaceSeq(aliasMapping, a + b))) == BinderNames(WalkSeq(a + b))
  {
    var ra, rb := ReplaceSeq(aliasMapping, a), ReplaceSeq(aliasMapping, b);
    ReplaceSeqAppend(aliasMapping, a, b);
    WalkSeqAppend(a, b);
    WalkSeqAppend(ra, rb);
    NameIdsAppend(WalkSeq(a), WalkSeq(b));
    NameIdsAppend(WalkSeq(ra), WalkSeq(rb));
    ReplacedUnion(aliasMapping, NameIds(WalkSeq(a)), NameIds(WalkSeq(b)));
  }

  lemma {:induction false} ReplaceSeqIds(aliasMapping: Dict, ns: seq<Node>)
    ensures NameIds(WalkSeq(ReplaceSeq(aliasMapping, ns))) == Replaced(aliasMapping, NameIds(WalkSeq(ns)))
    ensures BinderNames(WalkSeq(ReplaceSeq(aliasMapping, ns))) == BinderNames(WalkSeq(ns))
    decreases ns
  {
    if ns != [] {
      var rs := ReplaceSeq(aliasMapping, ns);
      assert rs[1..] == ReplaceSeq(aliasMapping, ns[1..]);
      ReplaceCallsIds(aliasMapping, ns[0]);
      ReplaceSeqIds(aliasMapping, ns[1..]);
      NameIdsAppend(Walk(ns[0]), WalkSeq(ns[1..]));
      NameIdsAppend(Walk(rs[0]), WalkSeq(rs[1..]));
      ReplacedUnion(aliasMapping, NameIds(Walk(ns[0])), NameIds(WalkSeq(ns[1..])));
    }
  }

  /**
   * When no hash is also an alias, no alias survives the pass: every `Name` of the result
   * that was an alias now reads a hash.
   */
  lemma NoAliasRemains(aliasMapping: Dict, n: Node)
    requires Keys(aliasMapping) !! Values(aliasMapping)
    ensures NameIds(Walk(ReplaceCalls(aliasMapping, n))) !! Values(aliasMapping)
  {
    ReplaceCallsIds(aliasMapping, n);
    forall x | x in NameIds(Walk(n)) ensures ReplaceId(aliasMapping, x) !in Values(aliasMapping) {
      var h := FirstKeyWithValue(aliasMapping, x);
      if h.Some? {
        var i :| 0 <= i < |aliasMapping| && aliasMapping[i] == (h.value, x) && forall j :: 0 <= j < i ==> aliasMapping[j].1 != x;
        assert h.value in Keys(aliasMapping);
      }
    }
  }

  /** A tree that uses no alias is left as it is. */
  lemma {:induction false} NoAliasUsedIdentity(aliasMapping: Dict, n: Node)
    requires NameIds(Walk(n)) !! Values(aliasMapping)
    ensures ReplaceCalls(aliasMapping, n) == n
    decreases n, 1
  {
    match n
    case Module(body) =>
      NameIdsAppend([n], WalkSeq(body));
      NoAliasUsedIdentitySeq(aliasMapping, body);
    case FunctionDef(_, args, otherArgs, body, extras, _) =>
      var a, b, c, d := WalkSeq(args), WalkSeq(otherArgs), WalkSeq(body), WalkSeq(extras);
      assert Walk(n) == [n] + a + b + c + d;
      NameIdsAppend([n], a);
      NameIdsAppend([n] + a, b);
      NameIdsAppend([n] + a + b, c);
      NameIdsAppend([n] + a + b + c, d);
      NoAliasUsedIdentitySeq(aliasMapping, args);
      NoAliasUsedIdentitySeq(aliasMapping, otherArgs);
      NoAliasUsedIdentitySeq(aliasMapping, body);
      NoAliasUsedIdentitySeq(aliasMapping, extras);
    case Import(_, _) =>
    case ImportFrom(_, _, _, _) =>
    case Name(id, _, _) =>
      assert id in NameIds(Walk(n));
    case Arg(_, annotation, _) =>
      NameIdsAppend([n], WalkSeq(annotation));
      NoAliasUsedIdentitySeq(aliasMapping, annotation);
    case Expr(value, _) =>
      NameIdsAppend([n], Walk(value));
      NoAliasUsedIdentity(aliasMapping, value);
    case Constant(_, _) =>
    case Attribute(value, _, _, _) =>
      NameIdsAppend([n], Walk(value));
      NoAliasUsedIdentity(aliasMapping, value);
    case Other(_, children, _) =>
      NameIdsAppend([n], WalkSeq(children));
      NoAliasUsedIdentitySeq(aliasMapping, children);
  }

  lemma {:induction false} NoAliasUsedIdentitySeq(aliasMapping: Dict, ns: seq<Node>)
    requires NameIds(WalkSeq(ns)) !! Values(aliasMapping)
    ensures ReplaceSeq(aliasMapping, ns) == ns
    decreases ns
  {
    if ns != [] {
      NameIdsAppend(Walk(ns[0]), WalkSeq(ns[1..]));
      NoAliasUsedIdentity(aliasMapping, ns[0]);
      NoAliasUsedIdentitySeq(aliasMapping, ns[1..]);
      assert ReplaceSeq(aliasMapping, ns)[1..] == ReplaceSeq(aliasMapping, ns[1..]);
      assert ReplaceSeq(aliasMapping, ns) == [ns[0]] + ns[1..];
    }
  }
}
