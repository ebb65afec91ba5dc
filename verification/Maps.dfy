/** Go maps, whose range loops take the keys in any order. */
module Maps {

  /** The keys of a map, each once. */
  ghost predicate Enumerates<V>(order: seq<string>, m: map<string, V>) {
    (forall k :: k in order <==> k in m) && forall i, j :: 0 <= i < j < |order| ==> order[i] != order[j]
  }

  /** range over a map: some order. */
  method Range<V>(m: map<string, V>) returns (order: seq<string>)
    ensures Enumerates(order, m)
  {
    order := [];
    var left := m.Keys;
    while left != {}
      invariant left <= m.Keys
      invariant forall k :: k in order <==> k in m.Keys - left
      invariant forall i, j :: 0 <= i < j < |order| ==> order[i] != order[j]
      decreases left
    {
      var k :| k in left;
      ghost var before := order;
      left := left - {k};
      order := order + [k];
      assert forall x :: x in order <==> x in before || x == k;
      assert forall i :: 0 <= i < |before| ==> before[i] in before;
    }
  }

  method Pick<T>(s: set<T>) returns (x: T)
    requires s != {}
    ensures x in s
  {
    x :| x in s;
  }

  predicate IsSingle<T(==)>(s: set<T>) { |s| == 1 }

  lemma Member<T>(s: set<T>) returns (x: T)
    requires s != {}
    ensures x in s
    ensures IsSingle(s) ==> s == {x}
  {
    x :| x in s;
    assert |s - {x}| == |s| - 1;
    assert s == (s - {x}) + {x};
  }

  lemma TwoMembers<T>(s: set<T>) returns (x: T, y: T)
    requires s != {} && !IsSingle(s)
    ensures x in s && y in s && x != y
  {
    x :| x in s;
    assert |s - {x}| == |s| - 1;
    y :| y in s - {x};
  }
}
