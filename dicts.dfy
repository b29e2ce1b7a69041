/** A Python `dict` with string keys, seen as the list of its entries in
    insertion order (keys pairwise distinct), together with what the signing
    code does to one: `d[k] = v` and `sorted(d.items())`. */
module Dicts {
  import opened Strings

  predicate DistinctKeys<V>(es: seq<(string, V)>)
  {
    forall i, j :: 0 <= i < j < |es| ==> es[i].0 != es[j].0
  }

  /** The keys in insertion order (`list(d)`). */
  function Keys<V>(es: seq<(string, V)>): (ks: seq<string>)
    ensures |ks| == |es|
    ensures forall i :: 0 <= i < |es| ==> ks[i] == es[i].0
  {
    if es == [] then [] else [es[0].0] + Keys(es[1..])
  }

  /** The key-to-value mapping the entries describe. */
  function ToMap<V>(es: seq<(string, V)>): (m: map<string, V>)
    ensures forall k :: k in m <==> k in Keys(es)
  {
    if es == [] then map[] else ToMap(es[1..])[es[0].0 := es[0].1]
  }

  lemma HeadKeyNotInTail<V>(es: seq<(string, V)>)
    requires DistinctKeys(es) && es != []
    ensures es[0].0 !in Keys(es[1..])
  {
    forall i | 0 <= i < |es| - 1 ensures Keys(es[1..])[i] != es[0].0 {
      assert es[1..][i] == es[i + 1];
    }
  }

  /** With distinct keys, an entry is in the list exactly when the mapping
      sends its key to its value. */
  lemma {:induction false} ToMapMembership<V>(es: seq<(string, V)>, e: (string, V))
    requires DistinctKeys(es)
    ensures e in es <==> e.0 in ToMap(es) && ToMap(es)[e.0] == e.1
  {
    if es != [] {
      ToMapMembership(es[1..], e);
      HeadKeyNotInTail(es);
      assert es == [es[0]] + es[1..];
    }
  }

  /** `d[k] = v`: an existing key keeps its position and gets the new value;
      a new key is appended at the end. */
  function Assign<V>(es: seq<(string, V)>, k: string, v: V): (r: seq<(string, V)>)
    ensures Keys(r) == if k in Keys(es) then Keys(es) else Keys(es) + [k]
  {
    if es == [] then [(k, v)]
    else if es[0].0 == k then
      assert Keys(es) == [k] + Keys(es[1..]);
      [(k, v)] + es[1..]
    else
      var rest := Assign(es[1..], k, v);
      assert Keys(es) == [es[0].0] + Keys(es[1..]);
      [es[0]] + rest
  }

  lemma {:induction false} AssignKeepsDistinct<V>(es: seq<(string, V)>, k: string, v: V)
    requires DistinctKeys(es)
    ensures DistinctKeys(Assign(es, k, v))
  {
    var r := Assign(es, k, v);
    forall i, j | 0 <= i < j < |r| ensures r[i].0 != r[j].0 {
      assert Keys(r)[i] == r[i].0 && Keys(r)[j] == r[j].0;
      if j >= |es| {
        assert Keys(r)[j] == k && k !in Keys(es);
        assert Keys(es)[i] == r[i].0;
      } else {
        assert Keys(es)[i] == r[i].0 && Keys(es)[j] == r[j].0;
      }
    }
  }

  lemma UpdateTwice<V>(m: map<string, V>, k: string, u: V, v: V)
    ensures m[k := u][k := v] == m[k := v]
  {
  }

  lemma UpdateCommute<V>(m: map<string, V>, j: string, u: V, k: string, v: V)
    requires j != k
    ensures m[j := u][k := v] == m[k := v][j := u]
  {
  }

  /** After `d[k] = v` the dict maps `k` to `v` and every other key as before. */
  lemma {:induction false} AssignUpdatesMap<V>(es: seq<(string, V)>, k: string, v: V)
    ensures ToMap(Assign(es, k, v)) == ToMap(es)[k := v]
  {
    if es != [] {
      var r := Assign(es, k, v);
      var head, tail := es[0], es[1..];
      if head.0 == k {
        assert r[0] == (k, v) && r[1..] == tail;
        assert ToMap(r) == ToMap(tail)[k := v];
        UpdateTwice(ToMap(tail), k, head.1, v);
      } else {
        AssignUpdatesMap(tail, k, v);
        assert r[0] == head && r[1..] == Assign(tail, k, v);
        assert ToMap(r) == ToMap(tail)[k := v][head.0 := head.1];
        UpdateCommute(ToMap(tail), k, v, head.0, head.1);
      }
    }
  }

  /** Keys strictly ascending in Python's string order. */
  predicate StrictlyAscending<V>(es: seq<(string, V)>)
  {
    forall i, j :: 0 <= i < j < |es| ==> Less(es[i].0, es[j].0)
  }

  /** One insertion step of sorting: `e` placed before the first larger key. */
  function Insert<V>(e: (string, V), es: seq<(string, V)>): (r: seq<(string, V)>)
    ensures multiset(r) == multiset(es) + multiset{e}
  {
    if es == [] || Less(e.0, es[0].0) then [e] + es
    else
      assert es == [es[0]] + es[1..];
      [es[0]] + Insert(e, es[1..])
  }

  lemma {:induction false} InsertAscending<V>(e: (string, V), es: seq<(string, V)>)
    requires StrictlyAscending(es)
    requires forall i :: 0 <= i < |es| ==> es[i].0 != e.0
    ensures StrictlyAscending(Insert(e, es))
  {
    if es == [] {
    } else if Less(e.0, es[0].0) {
      forall j | 0 < j < |es| ensures Less(e.0, es[j].0) {
        LessTransitive(e.0, es[0].0, es[j].0);
      }
    } else {
      LessTotal(e.0, es[0].0);
      InsertAscending(e, es[1..]);
      var rest := Insert(e, es[1..]);
      forall i | 0 <= i < |rest| ensures Less(es[0].0, rest[i].0) {
        assert rest[i] in multiset(rest);
        if rest[i] != e {
          assert rest[i] in multiset(es[1..]);
          var j :| 0 <= j < |es| - 1 && es[1..][j] == rest[i];
          assert es[j + 1] == rest[i];
        }
      }
    }
  }

  /** `sorted(d.items())`, as insertion sort. */
  function SortByKey<V>(es: seq<(string, V)>): (r: seq<(string, V)>)
    ensures multiset(r) == multiset(es)
  {
    if es == [] then []
    else
      assert es == [es[0]] + es[1..];
      Insert(es[0], SortByKey(es[1..]))
  }

  /** A dict's items sort into strictly ascending key order. */
  lemma {:induction false} SortByKeyAscending<V>(es: seq<(string, V)>)
    requires DistinctKeys(es)
    ensures StrictlyAscending(SortByKey(es))
  {
    if es != [] {
      var rest := SortByKey(es[1..]);
      SortByKeyAscending(es[1..]);
      forall i | 0 <= i < |rest| ensures rest[i].0 != es[0].0 {
        assert rest[i] in multiset(es[1..]);
        var j :| 0 <= j < |es| - 1 && es[1..][j] == rest[i];
        assert es[j + 1] == rest[i];
      }
      InsertAscending(es[0], rest);
    }
  }

  /** Two strictly ascending lists with the same entries are the same list. */
  lemma {:induction false} AscendingUnique<V>(a: seq<(string, V)>, b: seq<(string, V)>)
    requires StrictlyAscending(a) && StrictlyAscending(b)
    requires forall e :: e in a <==> e in b
    ensures a == b
  {
    if a != [] {
      assert a[0] in a;
    }
    if b != [] {
      assert b[0] in b;
    }
    if a != [] && b != [] {
      assert a == [a[0]] + a[1..] && b == [b[0]] + b[1..];
      if a[0] != b[0] {
        var i :| 0 <= i < |b| && b[i] == a[0];
        var j :| 0 <= j < |a| && a[j] == b[0];
        assert Less(b[0].0, a[0].0) && Less(a[0].0, b[0].0);
        LessTransitive(a[0].0, b[0].0, a[0].0);
        LessIrreflexive(a[0].0);
        assert false;
      }
      LessIrreflexive(a[0].0);
      forall e ensures e in a[1..] <==> e in b[1..] {
        if e in a[1..] {
          var k :| 0 <= k < |a| - 1 && a[1..][k] == e;
          assert Less(a[0].0, a[k + 1].0);
          assert e in b && e != b[0];
        }
        if e in b[1..] {
          var k :| 0 <= k < |b| - 1 && b[1..][k] == e;
          assert Less(b[0].0, b[k + 1].0);
          assert e in a && e != a[0];
        }
      }
      AscendingUnique(a[1..], b[1..]);
      assert a == [a[0]] + a[1..] && b == [b[0]] + b[1..];
    }
  }

  /** Sorting keeps exactly the dict's entries. */
  lemma SortByKeySameEntries<V>(es: seq<(string, V)>)
    ensures |SortByKey(es)| == |es|
    ensures forall e :: e in SortByKey(es) <==> e in es
  {
    var s := SortByKey(es);
    assert |multiset(s)| == |multiset(es)|;
    forall e ensures e in s <==> e in es {
      assert e in s <==> e in multiset(es);
    }
  }

  /** Dicts holding the same entries, in whatever insertion order, sort to
      the same list. */
  lemma SortByKeyOrderIndependent<V>(a: seq<(string, V)>, b: seq<(string, V)>)
    requires DistinctKeys(a) && DistinctKeys(b)
    requires ToMap(a) == ToMap(b)
    ensures SortByKey(a) == SortByKey(b)
  {
    SortByKeySameEntries(a);
    SortByKeySameEntries(b);
    SortByKeyAscending(a);
    SortByKeyAscending(b);
    forall e ensures e in SortByKey(a) <==> e in SortByKey(b) {
      ToMapMembership(a, e);
      ToMapMembership(b, e);
    }
    AscendingUnique(SortByKey(a), SortByKey(b));
  }
}
