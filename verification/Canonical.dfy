/**
 The stable form of manifest values: volatile fields dropped, lists sorted by their JSON text,
 recursively. It is proved to be a normal form for agreement up to volatile fields and the order
 of list elements at every depth.
 */
module Canonical {
  import opened Json

  const VOLATILE: set<string> := {"created_at", "last_checked_at", "updated_at"}

  function InsertByText(e: Json, s: seq<Json>): seq<Json> {
    if s == [] || !StrLess(Print(e), Print(s[|s| - 1])) then s + [e]
    else InsertByText(e, s[..|s| - 1]) + [s[|s| - 1]]
  }

  /** `sorted(items, key=_stable_json)`. */
  function SortByText(s: seq<Json>): seq<Json> {
    if s == [] then [] else InsertByText(s[|s| - 1], SortByText(s[..|s| - 1]))
  }

  /** `_stable_manifest_value`. */
  function Canon(v: Json): Json {
    match v
    case Obj(fields) => Obj(map k | k in fields && k !in VOLATILE :: Canon(fields[k]))
    case List(items) => List(SortByText(CanonAll(items)))
    case _ => v
  }

  function CanonAll(items: seq<Json>): (r: seq<Json>)
    ensures |r| == |items| && forall i :: 0 <= i < |items| ==> r[i] == Canon(items[i])
  {
    if items == [] then [] else [Canon(items[0])] + CanonAll(items[1..])
  }

  /** The three time stamps do not count in a stable form, and every other field does. */
  lemma VolatileFields(fields: Dict, key: string, v: Json)
    ensures key in {"created_at", "updated_at", "last_checked_at"} ==> Canon(Obj(fields[key := v])) == Canon(Obj(fields))
    ensures key !in {"created_at", "updated_at", "last_checked_at"} ==>
              key in Canon(Obj(fields[key := v])).fields && Canon(Obj(fields[key := v])).fields[key] == Canon(v)
  {
    var changed := fields[key := v];
    if key in VOLATILE {
      assert forall k :: k !in VOLATILE && k in fields ==> Canon(changed[k]) == Canon(fields[k]);
    } else {
      assert key in changed && Canon(changed[key]) == Canon(v);
    }
  }

  // ---------------------------------------------------------------- agreement

  ghost predicate Permutation(p: seq<nat>, n: nat) {
    && |p| == n
    && (forall i :: 0 <= i < n ==> p[i] < n)
    && (forall i, j :: 0 <= i < j < n ==> p[i] != p[j])
  }

  /** Equal up to volatile fields and, at every depth, the order of list elements. */
  ghost predicate Agree(a: Json, b: Json) {
    match a
    case Obj(f) =>
      b.Obj? && forall k :: k !in VOLATILE ==> (k in f <==> k in b.fields) && (k in f && k in b.fields ==> Agree(f[k], b.fields[k]))
    case List(xs) =>
      b.List? && exists p :: Permutation(p, |xs|) && |b.items| == |xs| && forall i :: 0 <= i < |xs| ==> Agree(xs[i], b.items[p[i]])
    case _ => a == b
  }

  // ---------------------------------------------------------------- permutations and multisets

  function Without<T>(s: seq<T>, j: nat): seq<T>
    requires j < |s|
  {
    s[..j] + s[j + 1..]
  }

  lemma WithoutMultiset<T>(s: seq<T>, j: nat)
    requires j < |s|
    ensures multiset(s) == multiset(Without(s, j)) + multiset{s[j]}
  {
    assert s == s[..j] + [s[j]] + s[j + 1..];
  }

  lemma CancelOne<T>(a: multiset<T>, b: multiset<T>, x: T)
    requires a + multiset{x} == b + multiset{x}
    ensures a == b
  {
    assert a == (a + multiset{x}) - multiset{x};
    assert b == (b + multiset{x}) - multiset{x};
  }

  lemma {:induction false} PermutationMultiset<T>(s: seq<T>, t: seq<T>, p: seq<nat>)
    requires |s| == |t| && Permutation(p, |s|) && forall i :: 0 <= i < |s| ==> s[i] == t[p[i]]
    ensures multiset(s) == multiset(t)
  {
    if s != [] {
      var n := |s| - 1;
      var j := p[n];
      var q := seq(n, i requires 0 <= i < n => if p[i] > j then p[i] - 1 else p[i]);
      var s', t' := s[..n], Without(t, j);
      PermutationMultiset(s', t', q);
      WithoutMultiset(t, j);
      assert s == s' + [s[n]];
    }
  }

  /** A permutation onto `t` without position `j` becomes one onto `t`. */
  lemma Spread<T>(s: seq<T>, t: seq<T>, j: nat, q: seq<nat>) returns (p: seq<nat>)
    requires 0 < |s| == |t| && j < |t| && t[j] == s[|s| - 1]
    requires Permutation(q, |s| - 1) && forall i :: 0 <= i < |s| - 1 ==> s[i] == Without(t, j)[q[i]]
    ensures Permutation(p, |s|) && forall i :: 0 <= i < |s| ==> s[i] == t[p[i]]
  {
    var n := |s| - 1;
    p := seq(n, i requires 0 <= i < n => if q[i] >= j then q[i] + 1 else q[i]) + [j];
  }

  lemma {:induction false} MultisetPermutation<T>(s: seq<T>, t: seq<T>) returns (p: seq<nat>)
    requires multiset(s) == multiset(t)
    ensures |s| == |t| && Permutation(p, |s|) && forall i :: 0 <= i < |s| ==> s[i] == t[p[i]]
    decreases |s|
  {
    assert |s| == |t| by { assert |multiset(s)| == |s| && |multiset(t)| == |t|; }
    if s == [] {
      p := [];
    } else {
      var n := |s| - 1;
      assert s[n] in multiset(t);
      var j :| 0 <= j < |t| && t[j] == s[n];
      WithoutMultiset(t, j);
      assert s == s[..n] + [s[n]];
      CancelOne(multiset(s[..n]), multiset(Without(t, j)), s[n]);
      var q := MultisetPermutation(s[..n], Without(t, j));
      p := Spread(s, t, j, q);
    }
  }

  // ---------------------------------------------------------------- sorting

  lemma {:induction false} InsertMultiset(e: Json, s: seq<Json>)
    ensures multiset(InsertByText(e, s)) == multiset(s) + multiset{e}
  {
    hide Print, StrLess;
    if !(s == [] || !StrLess(Print(e), Print(s[|s| - 1]))) {
      var n := |s| - 1;
      InsertMultiset(e, s[..n]);
      assert s == s[..n] + [s[n]];
    }
  }

  lemma {:induction false} SortMultiset(s: seq<Json>)
    ensures multiset(SortByText(s)) == multiset(s)
  {
    hide InsertByText;
    if s != [] {
      var n := |s| - 1;
      SortMultiset(s[..n]);
      InsertMultiset(s[n], SortByText(s[..n]));
      assert s == s[..n] + [s[n]];
    }
  }

  ghost predicate Sorted(s: seq<Json>) {
    forall i, j :: 0 <= i < j < |s| ==> !StrLess(Print(s[j]), Print(s[i]))
  }

  lemma {:induction false} InsertSorted(e: Json, s: seq<Json>)
    requires Sorted(s)
    ensures Sorted(InsertByText(e, s))
  {
    hide Print, StrLess;
    if s != [] {
      var n := |s| - 1;
      if StrLess(Print(e), Print(s[n])) {
        InsertSorted(e, s[..n]);
        InsertMultiset(e, s[..n]);
        StrLessTotal(Print(e), Print(s[n]));
        SortedAppend(InsertByText(e, s[..n]), s[n], multiset(s[..n]) + multiset{e});
      } else {
        forall x | x in multiset(s) ensures !StrLess(Print(e), Print(x)) {
          NotLessTransitive(Print(e), Print(s[n]), Print(x));
        }
        SortedAppend(s, e, multiset(s));
      }
    }
  }

  lemma SortedAppend(s: seq<Json>, e: Json, elements: multiset<Json>)
    requires Sorted(s) && multiset(s) == elements
    requires forall x :: x in elements ==> !StrLess(Print(e), Print(x))
    ensures Sorted(s + [e])
  {
    hide Print, StrLess;
    forall i | 0 <= i < |s| ensures !StrLess(Print(e), Print(s[i])) {
      assert s[i] in multiset(s);
    }
  }

  lemma NotLessTransitive(a: string, b: string, c: string)
    requires !StrLess(a, b) && (b == c || !StrLess(b, c))
    ensures !StrLess(a, c)
  {
    hide StrLess;
    StrLessTotal(b, c);
    StrLessTotal(a, b);
    if StrLess(a, c) {
      if StrLess(c, b) { StrLessTransitive(a, c, b); }
    }
  }

  lemma {:induction false} SortSorted(s: seq<Json>)
    ensures Sorted(SortByText(s))
  {
    hide InsertByText, Print, StrLess;
    if s != [] {
      SortSorted(s[..|s| - 1]);
      InsertSorted(s[|s| - 1], SortByText(s[..|s| - 1]));
    }
  }

  /** Because the text determines the value, there is one greatest element. */
  lemma SortedLast(s: seq<Json>, t: seq<Json>)
    requires Sorted(s) && Sorted(t) && multiset(s) == multiset(t) && s != [] && t != []
    ensures s[|s| - 1] == t[|t| - 1]
  {
    hide Print, StrLess;
    var x, y := s[|s| - 1], t[|t| - 1];
    assert x in multiset(t) && y in multiset(s);
    var i :| 0 <= i < |t| && t[i] == x;
    var j :| 0 <= j < |s| && s[j] == y;
    StrLessTotal(Print(x), Print(y));
    if Print(x) == Print(y) {
      PrintInjective(x, y);
    }
  }

  /** A multiset has one sorted arrangement. */
  lemma {:induction false} SortedUnique(s: seq<Json>, t: seq<Json>)
    requires Sorted(s) && Sorted(t) && multiset(s) == multiset(t)
    ensures s == t
    decreases |s|
  {
    hide Print, StrLess;
    assert |s| == |t| by { assert |multiset(s)| == |s| && |multiset(t)| == |t|; }
    if s != [] {
      var n := |s| - 1;
      SortedLast(s, t);
      assert s == s[..n] + [s[n]] && t == t[..n] + [t[n]];
      CancelOne(multiset(s[..n]), multiset(t[..n]), s[n]);
      SortedUnique(s[..n], t[..n]);
    }
  }

  /** Sorting forgets exactly the order. */
  lemma SortForgetsOrder(s: seq<Json>, t: seq<Json>)
    ensures SortByText(s) == SortByText(t) <==> multiset(s) == multiset(t)
  {
    hide SortByText, Sorted;
    SortMultiset(s);
    SortMultiset(t);
    SortSorted(s);
    SortSorted(t);
    if multiset(s) == multiset(t) {
      SortedUnique(SortByText(s), SortByText(t));
    }
  }

  // ---------------------------------------------------------------- the normal form

  lemma {:induction false} AgreeingHaveOneForm(a: Json, b: Json)
    requires Agree(a, b)
    ensures Canon(a) == Canon(b)
    decreases a
  {
    hide SortByText;
    match a
    case Obj(f) =>
      forall k | k in f && k !in VOLATILE ensures Canon(f[k]) == Canon(b.fields[k]) {
        AgreeingHaveOneForm(f[k], b.fields[k]);
      }
      assert Canon(a).fields.Keys == Canon(b).fields.Keys;
      assert Canon(a).fields == Canon(b).fields;
    case List(xs) =>
      var p :| Permutation(p, |xs|) && |b.items| == |xs| && forall i :: 0 <= i < |xs| ==> Agree(xs[i], b.items[p[i]]);
      forall i | 0 <= i < |xs| ensures CanonAll(xs)[i] == CanonAll(b.items)[p[i]] {
        AgreeingHaveOneForm(xs[i], b.items[p[i]]);
      }
      PermutationMultiset(CanonAll(xs), CanonAll(b.items), p);
      SortForgetsOrder(CanonAll(xs), CanonAll(b.items));
    case _ =>
  }

  lemma {:induction false} OneFormAgrees(a: Json, b: Json)
    requires Canon(a) == Canon(b)
    ensures Agree(a, b)
    decreases a
  {
    hide SortByText;
    match a
    case Obj(f) =>
      forall k | k !in VOLATILE
        ensures (k in f <==> k in b.fields) && (k in f && k in b.fields ==> Agree(f[k], b.fields[k]))
      {
        assert k in f <==> k in Canon(a).fields;
        assert k in b.fields <==> k in Canon(b).fields;
        if k in f {
          assert Canon(f[k]) == Canon(a).fields[k] == Canon(b.fields[k]);
          OneFormAgrees(f[k], b.fields[k]);
        }
      }
    case List(xs) =>
      SortForgetsOrder(CanonAll(xs), CanonAll(b.items));
      var p := MultisetPermutation(CanonAll(xs), CanonAll(b.items));
      forall i | 0 <= i < |xs| ensures Agree(xs[i], b.items[p[i]]) {
        assert CanonAll(xs)[i] == CanonAll(b.items)[p[i]];
        OneFormAgrees(xs[i], b.items[p[i]]);
      }
    case _ =>
  }

  /** Two values have the same stable form exactly when they agree. */
  lemma NormalForm(a: Json, b: Json)
    ensures Canon(a) == Canon(b) <==> Agree(a, b)
  {
    hide Canon, Agree;
    if Agree(a, b) {
      AgreeingHaveOneForm(a, b);
    }
    if Canon(a) == Canon(b) {
      OneFormAgrees(a, b);
    }
  }

  lemma {:induction false} AgreesWithForm(v: Json)
    ensures Agree(v, Canon(v))
  {
    hide SortByText;
    match v
    case Obj(f) =>
      forall k | k !in VOLATILE && k in f ensures Agree(f[k], Canon(v).fields[k]) {
        AgreesWithForm(f[k]);
      }
    case List(xs) =>
      var ys := SortByText(CanonAll(xs));
      SortMultiset(CanonAll(xs));
      var p := MultisetPermutation(CanonAll(xs), ys);
      forall i | 0 <= i < |xs| ensures Agree(xs[i], ys[p[i]]) {
        AgreesWithForm(xs[i]);
        assert ys[p[i]] == CanonAll(xs)[i];
      }
    case _ =>
  }

  /** The stable form is stable. */
  lemma CanonIdempotent(v: Json)
    ensures Canon(Canon(v)) == Canon(v)
  {
    hide Canon, Agree;
    AgreesWithForm(v);
    NormalForm(v, Canon(v));
  }
}
