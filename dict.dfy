/**
 * A Python `dict[str, str]` as its entries in insertion order. Assigning to a key that is
 * already present replaces its value in place; a new key goes to the end.
 */
module PyDict {
  import opened Wrappers

  type Dict = seq<(string, string)>

  predicate KeysDistinct(d: Dict) {
    forall i, j :: 0 <= i < j < |d| ==> d[i].0 != d[j].0
  }

  function Keys(d: Dict): set<string> {
    set i | 0 <= i < |d| :: d[i].0
  }

  /** `set(d.values())`. */
  function Values(d: Dict): set<string> {
    set i | 0 <= i < |d| :: d[i].1
  }

  lemma KeysCons(x: (string, string), d: Dict)
    ensures Keys([x] + d) == {x.0} + Keys(d)
  {
    var r := [x] + d;
    forall y | y in Keys(r) ensures y in {x.0} + Keys(d) {
      var i :| 0 <= i < |r| && r[i].0 == y;
      if i > 0 { assert d[i - 1].0 == y; }
    }
    forall y | y in Keys(d) ensures y in Keys(r) {
      var i :| 0 <= i < |d| && d[i].0 == y;
      assert r[i + 1].0 == y;
    }
    assert r[0].0 == x.0;
  }

  lemma ValuesCons(x: (string, string), d: Dict)
    ensures Values([x] + d) == {x.1} + Values(d)
  {
    var r := [x] + d;
    forall y | y in Values(r) ensures y in {x.1} + Values(d) {
      var i :| 0 <= i < |r| && r[i].1 == y;
      if i > 0 { assert d[i - 1].1 == y; }
    }
    forall y | y in Values(d) ensures y in Values(r) {
      var i :| 0 <= i < |d| && d[i].1 == y;
      assert r[i + 1].1 == y;
    }
    assert r[0].1 == x.1;
  }

  /** `d.get(k)`. */
  function Lookup(d: Dict, k: string): (r: Option<string>)
    ensures r.None? <==> k !in Keys(d)
  {
    if d == [] then None
    else
      assert d == [d[0]] + d[1..];
      KeysCons(d[0], d[1..]);
      if d[0].0 == k then Some(d[0].1) else Lookup(d[1..], k)
  }

  /** `d[k] = v`. */
  function Put(d: Dict, k: string, v: string): (r: Dict)
    ensures KeysDistinct(d) ==> KeysDistinct(r)
    ensures Keys(r) == Keys(d) + {k}
    ensures Lookup(r, k) == Some(v)
  {
    if d == [] then
      KeysCons((k, v), d);
      assert [(k, v)] + d == [(k, v)];
      [(k, v)]
    else
      assert d == [d[0]] + d[1..];
      KeysCons(d[0], d[1..]);
      if d[0].0 == k then
        var r := [(k, v)] + d[1..];
        KeysCons((k, v), d[1..]);
        assert r[1..] == d[1..];
        r
      else
        var rest := Put(d[1..], k, v);
        var r := [d[0]] + rest;
        assert r[1..] == rest;
        KeysCons(d[0], rest);
        DistinctTail(d);
        r
  }

  /**
   * Where `d[k] = v` puts the entry: a new key goes to the end; an existing key keeps its
   * place and only its value changes.
   */
  lemma {:induction false} PutPlacement(d: Dict, k: string, v: string)
    ensures k !in Keys(d) ==> Put(d, k, v) == d + [(k, v)]
    ensures KeysDistinct(d) && k in Keys(d) ==>
      |Put(d, k, v)| == |d| && forall i :: 0 <= i < |d| ==> Put(d, k, v)[i] == (if d[i].0 == k then (k, v) else d[i])
    decreases |d|
  {
    if d != [] {
      var r := Put(d, k, v);
      assert d == [d[0]] + d[1..];
      KeysCons(d[0], d[1..]);
      DistinctTail(d);
      if d[0].0 == k {
        assert r == [(k, v)] + d[1..];
        if KeysDistinct(d) {
          forall i | 0 < i < |d| ensures d[i].0 != k {
            assert d[i] == d[1..][i - 1];
          }
        }
      } else {
        var rest := Put(d[1..], k, v);
        assert r == [d[0]] + rest;
        PutPlacement(d[1..], k, v);
        if k !in Keys(d) {
          ConsSnoc(d[0], d[1..], (k, v));
        }
        if KeysDistinct(d) && k in Keys(d) {
          forall i | 0 < i < |d| ensures r[i] == (if d[i].0 == k then (k, v) else d[i]) {
            assert d[i] == d[1..][i - 1] && r[i] == rest[i - 1];
          }
        }
      }
    }
  }

  /** A dictionary with distinct keys: its tail has distinct keys too, none of them the first key. */
  lemma DistinctTail(d: Dict)
    requires d != []
    ensures KeysDistinct(d) ==> KeysDistinct(d[1..]) && d[0].0 !in Keys(d[1..])
  {
    if KeysDistinct(d) {
      forall i | 0 <= i < |d| - 1 ensures d[1..][i].0 != d[0].0 {
        assert d[1..][i] == d[i + 1];
      }
    }
  }

  lemma ConsSnoc<T>(x: T, s: seq<T>, y: T)
    ensures [x] + (s + [y]) == ([x] + s) + [y]
  {
  }

  /** `d[k] = v` leaves every other key's value as it was. */
  lemma {:induction false} LookupPutOther(d: Dict, k: string, v: string, other: string)
    requires other != k
    ensures Lookup(Put(d, k, v), other) == Lookup(d, other)
  {
    if d != [] && d[0].0 != k {
      LookupPutOther(d[1..], k, v, other);
      assert Put(d, k, v)[1..] == Put(d[1..], k, v);
    } else if d != [] {
      assert Put(d, k, v)[1..] == d[1..];
    }
  }

  /** The dictionary built by assigning the pairs of `ps` one after the other, starting empty. */
  function PutAll(ps: seq<(string, string)>): (r: Dict)
    ensures KeysDistinct(r)
    decreases |ps|
  {
    if ps == [] then [] else Put(PutAll(ps[..|ps| - 1]), ps[|ps| - 1].0, ps[|ps| - 1].1)
  }

  /** The keys of a dictionary (or of a list of pairs), in order: `list(d)`. */
  function KeyList(d: Dict): (r: seq<string>)
    ensures |r| == |d| && forall i :: 0 <= i < |d| ==> r[i] == d[i].0
  {
    seq(|d|, i requires 0 <= i < |d| => d[i].0)
  }

  /** Each string of `ks` once, at the place where it first occurs. */
  function FirstOccurrences(ks: seq<string>): seq<string>
    decreases |ks|
  {
    if ks == [] then []
    else
      var earlier := FirstOccurrences(ks[..|ks| - 1]);
      if ks[|ks| - 1] in earlier then earlier else earlier + [ks[|ks| - 1]]
  }

  /**
   * After assigning the pairs `ps` in order, the dictionary lists its keys in the order in
   * which they were first assigned; a later assignment to a key does not move it.
   */
  lemma {:induction false} PutAllKeyOrder(ps: seq<(string, string)>)
    ensures KeyList(PutAll(ps)) == FirstOccurrences(KeyList(ps))
    decreases |ps|
  {
    if ps != [] {
      var init, last := ps[..|ps| - 1], ps[|ps| - 1];
      assert KeyList(ps)[..|ps| - 1] == KeyList(init);
      PutAllKeyOrder(init);
      PutKeyList(PutAll(init), last.0, last.1);
    }
  }

  /** `d[k] = v` appends `k` to the key list when it is new and keeps the key list otherwise. */
  lemma PutKeyList(d: Dict, k: string, v: string)
    requires KeysDistinct(d)
    ensures KeyList(Put(d, k, v)) == if k in KeyList(d) then KeyList(d) else KeyList(d) + [k]
  {
    KeyListHas(d, k);
    if k in Keys(d) {
      PutKeepsKeyList(d, k, v);
    } else {
      PutPlacement(d, k, v);
      assert KeyList(d + [(k, v)]) == KeyList(d) + [k];
    }
  }

  lemma KeyListHas(d: Dict, k: string)
    ensures k in KeyList(d) <==> k in Keys(d)
  {
    if k in Keys(d) {
      var i :| 0 <= i < |d| && d[i].0 == k;
      assert KeyList(d)[i] == k;
    }
  }

  lemma PutKeepsKeyList(d: Dict, k: string, v: string)
    requires KeysDistinct(d) && k in Keys(d)
    ensures KeyList(Put(d, k, v)) == KeyList(d)
  {
    PutPlacement(d, k, v);
    var r := Put(d, k, v);
    forall i | 0 <= i < |d| ensures KeyList(r)[i] == KeyList(d)[i] {
      assert r[i] == (if d[i].0 == k then (k, v) else d[i]);
    }
  }

  /** Some pair of `ps` sets `k` to `v` and no later pair sets `k`. */
  predicate LastAssigns(ps: seq<(string, string)>, k: string, v: string) {
    exists p :: 0 <= p < |ps| && ps[p] == (k, v) && forall q :: p < q < |ps| ==> ps[q].0 != k
  }

  /** After assigning the pairs `ps` in order, a key is present exactly when some pair assigned it. */
  lemma {:induction false} PutAllKeys(ps: seq<(string, string)>)
    ensures Keys(PutAll(ps)) == set p | 0 <= p < |ps| :: ps[p].0
    decreases |ps|
  {
    if ps != [] {
      PutAllKeys(ps[..|ps| - 1]);
      FirstsSnoc(ps, ps[..|ps| - 1]);
    }
  }

  lemma FirstsSnoc(ps: seq<(string, string)>, init: seq<(string, string)>)
    requires ps != [] && init == ps[..|ps| - 1]
    ensures (set p | 0 <= p < |ps| :: ps[p].0) == (set p | 0 <= p < |init| :: init[p].0) + {ps[|ps| - 1].0}
  {
    var all := set p | 0 <= p < |ps| :: ps[p].0;
    var before := set p | 0 <= p < |init| :: init[p].0;
    forall y | y in all ensures y in before + {ps[|ps| - 1].0} {
      var p :| 0 <= p < |ps| && ps[p].0 == y;
      if p < |init| { assert init[p].0 == y; }
    }
    forall y | y in before ensures y in all {
      var p :| 0 <= p < |init| && init[p].0 == y;
      assert ps[p].0 == y;
    }
  }

  lemma SnocSplit<T>(s: seq<T>)
    requires s != []
    ensures s == s[..|s| - 1] + [s[|s| - 1]]
  {
  }

  lemma NothingPutNothingFound(k: string)
    ensures Lookup(PutAll([]), k).None?
  {
  }

  lemma LastPairAssigns(ps: seq<(string, string)>)
    requires ps != []
    ensures LastAssigns(ps, ps[|ps| - 1].0, ps[|ps| - 1].1)
  {
    var p := |ps| - 1;
    assert ps[p] == (ps[|ps| - 1].0, ps[|ps| - 1].1);
  }

  lemma LastAssignsSnoc(init: seq<(string, string)>, last: (string, string), k: string, v: string)
    requires last.0 != k && LastAssigns(init, k, v)
    ensures LastAssigns(init + [last], k, v)
  {
    var ps := init + [last];
    var p :| 0 <= p < |init| && init[p] == (k, v) && forall q :: p < q < |init| ==> init[q].0 != k;
    assert ps[p] == (k, v);
    forall q | p < q < |ps| ensures ps[q].0 != k {
      if q < |init| {
        assert ps[q] == init[q];
      } else {
        assert ps[q] == last;
      }
    }
  }

  /** After assigning the pairs `ps` in order, the value of a present key is the one the last pair setting it gave. */
  lemma {:induction false} PutAllLastWins(ps: seq<(string, string)>, k: string)
    requires Lookup(PutAll(ps), k).Some?
    ensures LastAssigns(ps, k, Lookup(PutAll(ps), k).value)
    decreases |ps|
  {
    NothingPutNothingFound(k);
    assert ps != [];
    var init := ps[..|ps| - 1];
    var last := ps[|ps| - 1];
    SnocSplit(ps);
    assert PutAll(ps) == Put(PutAll(init), last.0, last.1);
    if last.0 == k {
      assert Lookup(PutAll(ps), k) == Some(last.1);
      LastPairAssigns(ps);
    } else {
      LookupPutOther(PutAll(init), last.0, last.1, k);
      PutAllLastWins(init, k);
      LastAssignsSnoc(init, last, k, Lookup(PutAll(init), k).value);
    }
  }

  /** The first key whose value is `v`, as a loop over `d.items()` with an early return finds it. */
  function FirstKeyWithValue(d: Dict, v: string): (r: Option<string>)
    ensures r.None? <==> v !in Values(d)
    ensures r.Some? ==> exists i :: 0 <= i < |d| && d[i] == (r.value, v) && forall j :: 0 <= j < i ==> d[j].1 != v
  {
    if d == [] then None
    else if d[0].1 == v then
      assert d[0] == (d[0].0, v);
      Some(d[0].0)
    else
      assert d == [d[0]] + d[1..];
      ValuesCons(d[0], d[1..]);
      var r := FirstKeyWithValue(d[1..], v);
      if r.Some? then
        var i :| 0 <= i < |d| - 1 && d[1..][i] == (r.value, v) && forall j :: 0 <= j < i ==> d[1..][j].1 != v;
        assert d[i + 1] == (r.value, v);
        assert forall j :: 0 <= j < i + 1 ==> d[j].1 != v by {
          forall j | 0 < j < i + 1 ensures d[j].1 != v {
            assert d[j] == d[1..][j - 1];
          }
        }
        r
      else
        r
  }

  /** The dictionary as a plain map, as `json.dump` writes it. */
  function ToMap(d: Dict): (m: map<string, string>)
    ensures m.Keys == Keys(d)
    ensures forall k :: k in m ==> Lookup(d, k) == Some(m[k])
  {
    map k | k in Keys(d) :: Lookup(d, k).value
  }
}
