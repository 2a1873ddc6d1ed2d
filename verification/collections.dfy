/** Facts about sequences, sets and tables that several modules use. */
module Collections {

  ghost predicate Distinct<T>(s: seq<T>) {
    forall i, j :: 0 <= i < j < |s| ==> s[i] != s[j]
  }

  lemma SubsetSize<T>(a: set<T>, b: set<T>)
    requires a <= b
    ensures |a| <= |b| && (|a| == |b| ==> a == b)
  {
    assert b == a + (b - a);
  }

  lemma {:induction false} DistinctCount<T>(s: seq<T>, all: set<T>)
    requires Distinct(s) && forall x :: x in s ==> x in all
    ensures |s| <= |all|
  {
    if s != [] {
      var last := s[|s| - 1];
      DistinctCount(s[..|s| - 1], all - {last});
    }
  }

  lemma {:induction false} ImageSize<S, T>(f: S -> T, s: set<S>, image: set<T>)
    requires forall x :: x in s ==> f(x) in image
    requires forall y :: y in image ==> exists x :: x in s && f(x) == y
    requires forall x, y :: x in s && y in s && f(x) == f(y) ==> x == y
    ensures |image| == |s|
  {
    if s != {} {
      var x :| x in s;
      ImageSize(f, s - {x}, image - {f(x)});
    }
  }

  // ---- a list of pairs as a table

  /** Of two entries for one key the last counts. */
  ghost function AsMap<K, V>(list: seq<(K, V)>): map<K, V> {
    if list == [] then map[] else AsMap(list[..|list| - 1])[list[|list| - 1].0 := list[|list| - 1].1]
  }

  ghost predicate DistinctKeys<K, V>(list: seq<(K, V)>) {
    forall i, j :: 0 <= i < j < |list| ==> list[i].0 != list[j].0
  }

  lemma {:induction false} AsMapKeys<K, V>(list: seq<(K, V)>)
    ensures forall x :: x in AsMap(list) <==> exists i :: 0 <= i < |list| && list[i].0 == x
    ensures DistinctKeys(list) ==> forall i :: 0 <= i < |list| ==> AsMap(list)[list[i].0] == list[i].1
  {
    if list != [] {
      var init, last := list[..|list| - 1], list[|list| - 1];
      AsMapKeys(init);
      forall x ensures x in AsMap(list) <==> exists i :: 0 <= i < |list| && list[i].0 == x {
        if x in AsMap(init) {
          var i :| 0 <= i < |init| && init[i].0 == x;
          assert list[i].0 == x;
        }
      }
    }
  }

  lemma DistinctKeysPrefix<K, V>(list: seq<(K, V)>, n: nat)
    requires n <= |list| && DistinctKeys(list)
    ensures DistinctKeys(list[..n])
  {}

  lemma DistinctKeysSplit<K, V>(init: seq<(K, V)>, last: (K, V))
    ensures DistinctKeys(init + [last]) <==> DistinctKeys(init) && last.0 !in AsMap(init)
    ensures AsMap(init + [last]) == AsMap(init)[last.0 := last.1]
  {
    var list := init + [last];
    assert list[..|list| - 1] == init;
    AsMapKeys(init);
    if DistinctKeys(list) {
      forall i, j | 0 <= i < j < |init| ensures init[i].0 != init[j].0 {
        assert list[i].0 != list[j].0;
      }
      forall i | 0 <= i < |init| ensures init[i].0 != last.0 {
        assert list[i].0 != list[|init|].0;
      }
    }
    if DistinctKeys(init) && last.0 !in AsMap(init) {
      forall i, j | 0 <= i < j < |list| ensures list[i].0 != list[j].0 {
        assert list[i] == init[i];
        if j < |init| { assert list[j] == init[j]; }
      }
    }
  }
}
