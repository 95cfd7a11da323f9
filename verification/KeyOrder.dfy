/** The insertion order of a JavaScript Map's keys: what deleting a key does to it. */
module KeyOrder {
  predicate Distinct<K(==)>(order: seq<K>) {
    forall i, j :: 0 <= i < j < |order| ==> order[i] != order[j]
  }

  function Without<K(==)>(order: seq<K>, k: K): seq<K> {
    if order == [] then []
    else if order[0] == k then Without(order[1..], k)
    else [order[0]] + Without(order[1..], k)
  }

  lemma {:induction false} WithoutKeepsOthers<K>(order: seq<K>, k: K)
    ensures forall x :: x in Without(order, k) <==> x in order && x != k
  {
    if order != [] {
      WithoutKeepsOthers(order[1..], k);
      assert forall x :: x in order <==> x == order[0] || x in order[1..];
    }
  }

  lemma {:induction false} WithoutIsShorter<K>(order: seq<K>, k: K)
    ensures |Without(order, k)| <= |order|
  {
    if order != [] { WithoutIsShorter(order[1..], k); }
  }

  lemma DistinctCons<K>(first: K, rest: seq<K>, k: K)
    requires Distinct(Without(rest, k)) && first !in Without(rest, k)
    ensures Distinct([first] + Without(rest, k))
  {
  }

  lemma {:induction false} WithoutIsDistinct<K>(order: seq<K>, k: K)
    requires Distinct(order)
    ensures Distinct(Without(order, k))
  {
    if order != [] {
      WithoutIsDistinct(order[1..], k);
      WithoutKeepsOthers(order[1..], k);
      DistinctCons(order[0], order[1..], k);
    }
  }

  lemma {:induction false} DistinctSize<K>(order: seq<K>, keys: set<K>)
    requires Distinct(order) && forall i :: 0 <= i < |order| ==> order[i] in keys
    ensures |order| <= |keys|
  {
    if order != [] {
      assert forall i :: 0 <= i < |order[1..]| ==> order[1..][i] in keys - {order[0]} by {
        assert forall i :: 0 <= i < |order[1..]| ==> order[1..][i] in order[1..];
      }
      DistinctSize(order[1..], keys - {order[0]});
    }
  }

  lemma {:induction false} SubsetSize<K>(a: set<K>, b: set<K>)
    requires a <= b
    ensures |a| <= |b|
  {
    if a != {} {
      var x :| x in a;
      SubsetSize(a - {x}, b - {x});
    }
  }

  /** The keys in the order of a Map are as many as its entries. */
  lemma {:induction false} DistinctCount<K>(order: seq<K>, keys: set<K>)
    requires Distinct(order) && forall k :: k in order <==> k in keys
    ensures |order| == |keys|
  {
    if order != [] {
      assert forall k :: k in order <==> k == order[0] || k in order[1..];
      DistinctCount(order[1..], keys - {order[0]});
    }
  }

  /** Any number of different keys, none of them empty. */
  function Name(i: nat): (k: string)
    ensures |k| == i + 1
  {
    seq(i + 1, _ => 'k')
  }

  function Names(n: nat): (ks: seq<string>)
    ensures |ks| == n && forall i :: 0 <= i < n ==> ks[i] == Name(i)
  {
    seq(n, i requires 0 <= i => Name(i))
  }
}
