/**
 * The pieces of Python's `str` behaviour the canonicaliser depends on: ordering by code
 * point, `sorted` on a list or a set of strings, `str(n)` for a natural number,
 * `s.rsplit(c, 1)` and clamped slicing `s[:n]` / `s[n:]`.
 */
module PyStrings {

  /** Python's `a < b` on `str`: lexicographic by code point, a proper prefix sorts first. */
  predicate StrLt(a: string, b: string)
    decreases |a|
  {
    if |a| == 0 then |b| > 0
    else if |b| == 0 then false
    else if a[0] != b[0] then a[0] < b[0]
    else StrLt(a[1..], b[1..])
  }

  predicate StrLe(a: string, b: string) {
    a == b || StrLt(a, b)
  }

  lemma {:induction false} StrLtIrreflexive(a: string)
    ensures !StrLt(a, a)
    decreases |a|
  {
    if |a| > 0 {
      StrLtIrreflexive(a[1..]);
    }
  }

  lemma {:induction false} StrLtAsymmetric(a: string, b: string)
    requires StrLt(a, b)
    ensures !StrLt(b, a)
    decreases |a|
  {
    if |a| > 0 && a[0] == b[0] {
      StrLtAsymmetric(a[1..], b[1..]);
    }
  }

  lemma {:induction false} StrLtTransitive(a: string, b: string, c: string)
    requires StrLt(a, b) && StrLt(b, c)
    ensures StrLt(a, c)
    decreases |a|
  {
    if |a| > 0 && a[0] == b[0] && b[0] == c[0] {
      StrLtTransitive(a[1..], b[1..], c[1..]);
    }
  }

  lemma {:induction false} StrLtTrichotomy(a: string, b: string)
    ensures StrLt(a, b) || a == b || StrLt(b, a)
    decreases |a|
  {
    if |a| > 0 && |b| > 0 && a[0] == b[0] {
      StrLtTrichotomy(a[1..], b[1..]);
      if a[1..] == b[1..] {
        assert a == [a[0]] + a[1..] && b == [b[0]] + b[1..];
      }
    }
  }

  /** The string order is a strict total order. */
  lemma StrOrder()
    ensures forall a :: !StrLt(a, a)
    ensures forall a, b :: StrLt(a, b) ==> !StrLt(b, a)
    ensures forall a, b, c :: StrLt(a, b) && StrLt(b, c) ==> StrLt(a, c)
    ensures forall a, b :: StrLt(a, b) || a == b || StrLt(b, a)
  {
    forall a ensures !StrLt(a, a) {
      StrLtIrreflexive(a);
    }
    forall a, b | StrLt(a, b) ensures !StrLt(b, a) {
      StrLtAsymmetric(a, b);
    }
    forall a, b, c | StrLt(a, b) && StrLt(b, c) ensures StrLt(a, c) {
      StrLtTransitive(a, b, c);
    }
    forall a, b ensures StrLt(a, b) || a == b || StrLt(b, a) {
      StrLtTrichotomy(a, b);
    }
  }

  predicate Sorted(s: seq<string>) {
    forall i, j :: 0 <= i < j < |s| ==> StrLe(s[i], s[j])
  }

  predicate StrictlySorted(s: seq<string>) {
    forall i, j :: 0 <= i < j < |s| ==> StrLt(s[i], s[j])
  }

  lemma StrLeTransitive(a: string, b: string, c: string)
    requires StrLe(a, b) && StrLe(b, c)
    ensures StrLe(a, c)
  {
    if a != b && b != c {
      StrLtTransitive(a, b, c);
    }
  }

  lemma ConsSorted(x: string, s: seq<string>)
    requires Sorted(s)
    requires forall j :: 0 <= j < |s| ==> StrLe(x, s[j])
    ensures Sorted([x] + s)
  {
    var r := [x] + s;
    forall i, j | 0 <= i < j < |r| ensures StrLe(r[i], r[j]) {
      assert r[j] == s[j - 1];
      if i > 0 {
        assert r[i] == s[i - 1];
      }
    }
  }

  /** Inserts `x` into a sorted list, before the first element it does not exceed. */
  function InsertSorted(x: string, s: seq<string>): (r: seq<string>)
    requires Sorted(s)
    ensures Sorted(r)
    ensures multiset(r) == multiset(s) + multiset{x}
  {
    if s == [] || StrLe(x, s[0]) then
      assert forall j :: 0 <= j < |s| ==> StrLe(x, s[j]) by {
        forall j | 0 <= j < |s| ensures StrLe(x, s[j]) {
          if j > 0 {
            StrLeTransitive(x, s[0], s[j]);
          }
        }
      }
      ConsSorted(x, s);
      [x] + s
    else
      var tail := s[1..];
      var rest := InsertSorted(x, tail);
      StrLtTrichotomy(x, s[0]);
      assert s == [s[0]] + tail;
      assert forall k :: 0 <= k < |rest| ==> StrLe(s[0], rest[k]) by {
        forall k | 0 <= k < |rest| ensures StrLe(s[0], rest[k]) {
          assert rest[k] in multiset(rest);
          if rest[k] != x {
            assert rest[k] in multiset(tail);
            var j :| 0 <= j < |tail| && tail[j] == rest[k];
            assert s[j + 1] == rest[k];
          }
        }
      }
      ConsSorted(s[0], rest);
      [s[0]] + rest
  }

  /** Python's `sorted(xs)` on a list of strings: the sorted permutation of `xs`. */
  function SortStrings(xs: seq<string>): (r: seq<string>)
    ensures Sorted(r)
    ensures multiset(r) == multiset(xs)
  {
    if xs == [] then []
    else
      assert xs == [xs[0]] + xs[1..];
      InsertSorted(xs[0], SortStrings(xs[1..]))
  }

  predicate IsMinimum(m: string, s: set<string>) {
    m in s && forall y :: y in s ==> StrLe(m, y)
  }

  lemma {:induction false} MinimumExists(s: set<string>)
    requires s != {}
    ensures exists m :: IsMinimum(m, s)
    decreases |s|
  {
    StrOrder();
    var x :| x in s;
    if s == {x} {
      assert IsMinimum(x, s);
    } else {
      MinimumExists(s - {x});
      var m :| IsMinimum(m, s - {x});
      if StrLt(x, m) {
        forall y | y in s ensures StrLe(x, y) {
          if y != x {
            assert StrLe(m, y);
          }
        }
        assert IsMinimum(x, s);
      } else {
        forall y | y in s ensures StrLe(m, y) {
          if y == x {
            StrLtTrichotomy(x, m);
          }
        }
        assert IsMinimum(m, s);
      }
    }
  }

  lemma MinimumUnique(s: set<string>)
    ensures forall a, b :: IsMinimum(a, s) && IsMinimum(b, s) ==> a == b
  {
    forall a, b | IsMinimum(a, s) && IsMinimum(b, s) ensures a == b {
      if a != b {
        StrLtAsymmetric(a, b);
      }
    }
  }

  /**
   * Python's `sorted(names)` on a set of strings: the unique strictly increasing list
   * holding exactly the members of the set.
   */
  function SortedSet(s: set<string>): (r: seq<string>)
    ensures StrictlySorted(r)
    ensures |r| == |s|
    ensures forall x :: x in r <==> x in s
    decreases |s|
  {
    if s == {} then []
    else
      MinimumExists(s);
      MinimumUnique(s);
      var m :| IsMinimum(m, s);
      var rest := SortedSet(s - {m});
      assert forall k :: 0 <= k < |rest| ==> StrLt(m, rest[k]) by {
        forall k | 0 <= k < |rest| ensures StrLt(m, rest[k]) {
          assert rest[k] in s - {m};
        }
      }
      ConsStrictlySorted(m, rest);
      [m] + rest
  }

  lemma ConsStrictlySorted(x: string, s: seq<string>)
    requires StrictlySorted(s)
    requires forall j :: 0 <= j < |s| ==> StrLt(x, s[j])
    ensures StrictlySorted([x] + s)
  {
    var r := [x] + s;
    forall i, j | 0 <= i < j < |r| ensures StrLt(r[i], r[j]) {
      assert r[j] == s[j - 1];
      if i > 0 {
        assert r[i] == s[i - 1];
      }
    }
  }

  /** Two strictly increasing lists with the same members are the same list. */
  lemma {:induction false} StrictlySortedUnique(a: seq<string>, b: seq<string>)
    requires StrictlySorted(a) && StrictlySorted(b)
    requires forall x :: x in a <==> x in b
    ensures a == b
    decreases |a|
  {
    StrOrder();
    assert a != [] ==> a[0] in b;
    assert b != [] ==> b[0] in a;
    if a != [] && b != [] {
      assert forall k :: 0 < k < |a| ==> StrLt(a[0], a[k]);
      assert forall k :: 0 < k < |b| ==> StrLt(b[0], b[k]);
      assert a[0] == b[0];
      forall x ensures x in a[1..] <==> x in b[1..] {
        if x in a[1..] {
          var k :| 0 <= k < |a| - 1 && a[1..][k] == x;
          assert StrLt(a[0], a[k + 1]);
          assert x in b && x != b[0];
          var j :| 0 <= j < |b| && b[j] == x;
          assert b[1..][j - 1] == x;
        }
        if x in b[1..] {
          var k :| 0 <= k < |b| - 1 && b[1..][k] == x;
          assert StrLt(b[0], b[k + 1]);
          assert x in a && x != a[0];
          var j :| 0 <= j < |a| && a[j] == x;
          assert a[1..][j - 1] == x;
        }
      }
      StrictlySortedUnique(a[1..], b[1..]);
      assert a == [a[0]] + a[1..] && b == [b[0]] + b[1..];
    }
  }

  /** The members of a list, as `set(l)`. */
  function Elements(l: seq<string>): set<string> {
    set y | y in l
  }

  /** The number of strings in `s` that sort before `x`: the rank of `x` in `sorted(s)`. */
  function Rank(x: string, s: set<string>): nat {
    |set y | y in s && StrLt(y, x)|
  }

  lemma {:induction false} DistinctCard(l: seq<string>)
    requires StrictlySorted(l)
    ensures |Elements(l)| == |l|
    decreases |l|
  {
    StrOrder();
    if l != [] {
      DistinctCard(l[1..]);
      assert l == [l[0]] + l[1..];
      assert Elements(l) == Elements(l[1..]) + {l[0]};
      assert l[0] !in l[1..] by {
        forall k | 0 <= k < |l| - 1 ensures l[1..][k] != l[0] {
          assert StrLt(l[0], l[k + 1]);
        }
      }
    }
  }

  /** In the strictly increasing list of a set's members, the element at position `k` has rank `k`. */
  lemma RankInSortedSet(l: seq<string>, k: nat)
    requires StrictlySorted(l) && k < |l|
    ensures Rank(l[k], Elements(l)) == k
  {
    StrOrder();
    var below := set y | y in l && StrLt(y, l[k]);
    assert StrictlySorted(l[..k]);
    assert below == Elements(l[..k]) by {
      forall y | y in below ensures y in l[..k] {
        var j :| 0 <= j < |l| && l[j] == y;
        assert j < k;
        assert l[..k][j] == y;
      }
      forall y | y in l[..k] ensures y in below {
        var j :| 0 <= j < k && l[..k][j] == y;
        assert StrLt(l[j], l[k]);
      }
    }
    DistinctCard(l[..k]);
    var members := Elements(l);
    assert (set y | y in members && StrLt(y, l[k])) == below;
  }

  /** A decimal digit as a character. */
  function DigitChar(d: nat): (c: char)
    requires d < 10
    ensures '0' <= c <= '9' && (c as int) - ('0' as int) == d
  {
    (('0' as int) + d) as char
  }

  predicate AllDigits(s: string) {
    forall i :: 0 <= i < |s| ==> '0' <= s[i] <= '9'
  }

  /** Python's `str(n)` (and an f-string's `{n}`) for a natural number. */
  function NatToString(n: nat): (s: string)
    ensures |s| >= 1 && AllDigits(s)
    decreases n
  {
    if n < 10 then [DigitChar(n)] else NatToString(n / 10) + [DigitChar(n % 10)]
  }

  /** Python's `int(s)` on a string of decimal digits. */
  function ParseDecimal(s: string): nat
    requires AllDigits(s)
    decreases |s|
  {
    if s == [] then 0
    else ParseDecimal(s[..|s| - 1]) * 10 + ((s[|s| - 1] as int) - ('0' as int))
  }

  lemma {:induction false} DecimalRoundTrip(n: nat)
    ensures ParseDecimal(NatToString(n)) == n
    decreases n
  {
    var s := NatToString(n);
    if n >= 10 {
      DecimalRoundTrip(n / 10);
      assert s[..|s| - 1] == NatToString(n / 10);
    }
  }

  /** Distinct numbers print as distinct strings. */
  lemma NatToStringInjective(a: nat, b: nat)
    requires NatToString(a) == NatToString(b)
    ensures a == b
  {
    DecimalRoundTrip(a);
    DecimalRoundTrip(b);
  }

  /** Python's `s.rsplit(c, 1)` when `c` occurs in `s`: the parts before and after its last occurrence. */
  function RSplitOnce(s: string, c: char): (r: (string, string))
    requires c in s
    ensures r.0 + [c] + r.1 == s
    ensures c !in r.1
    decreases |s|
  {
    var last := s[|s| - 1];
    if last == c then
      (s[..|s| - 1], "")
    else
      assert c in s[..|s| - 1] by {
        var k :| 0 <= k < |s| && s[k] == c;
        assert k < |s| - 1 && s[..|s| - 1][k] == c;
      }
      var parts := RSplitOnce(s[..|s| - 1], c);
      (parts.0, parts.1 + [last])
  }

  /** The split at the last occurrence is the only split whose tail avoids `c`. */
  lemma RSplitOnceUnique(s: string, c: char, before: string, after: string)
    requires before + [c] + after == s && c !in after
    ensures c in s
    ensures RSplitOnce(s, c) == (before, after)
  {
    assert s[|before|] == c;
    var r := RSplitOnce(s, c);
    assert s[|r.0|] == c;
    assert |r.1| == |after|;
    assert after == s[|s| - |after|..] == r.1;
    assert before == s[..|before|] == r.0;
  }

  /** Python's clamped slice `s[:n]`. */
  function Take(s: string, n: nat): string {
    if n <= |s| then s[..n] else s
  }

  /** Python's clamped slice `s[n:]`. */
  function Drop(s: string, n: nat): string {
    if n <= |s| then s[n..] else ""
  }
}
