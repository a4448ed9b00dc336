// Items carrying a stamp (a version number), and the stamp of a collection of them: the
// highest stamp, or zero for an empty collection.

module Stamps {
  /** The stamp of a collection of items whose stamps are given by `stamp`. */
  function StampCollection<T>(items: seq<T>, stamp: T -> int): (r: int)
    ensures |items| == 0 ==> r == 0
    ensures forall i :: 0 <= i < |items| ==> stamp(items[i]) <= r
    ensures |items| > 0 ==> exists i :: 0 <= i < |items| && r == stamp(items[i])
  {
    if |items| == 0 then 0
    else if |items| == 1 then stamp(items[0])
    else
      var rest := StampCollection(items[1..], stamp);
      assert forall i :: 1 <= i < |items| ==> items[i] == items[1..][i - 1];
      if stamp(items[0]) >= rest then stamp(items[0]) else rest
  }

  /** The stamp of a collection does not depend on the order of its items. */
  lemma StampCollectionIgnoresOrder<T>(a: seq<T>, b: seq<T>, stamp: T -> int)
    requires multiset(a) == multiset(b)
    ensures StampCollection(a, stamp) == StampCollection(b, stamp)
  {
    var ra, rb := StampCollection(a, stamp), StampCollection(b, stamp);
    if |a| > 0 {
      assert |b| == |multiset(b)| == |multiset(a)| == |a|;
      var i :| 0 <= i < |a| && ra == stamp(a[i]);
      var j :| 0 <= j < |b| && rb == stamp(b[j]);
      assert a[i] in multiset(b);
      var j' :| 0 <= j' < |b| && b[j'] == a[i];
      assert b[j] in multiset(a);
      var i' :| 0 <= i' < |a| && a[i'] == b[j];
      assert ra <= rb && rb <= ra;
    } else {
      assert |b| == |multiset(b)| == 0;
    }
  }

  /** Adding an item raises the stamp to that item's stamp when it is higher, and leaves it otherwise. */
  lemma StampCollectionSnoc<T>(items: seq<T>, item: T, stamp: T -> int)
    requires |items| > 0
    ensures StampCollection(items + [item], stamp)
            == if stamp(item) > StampCollection(items, stamp) then stamp(item) else StampCollection(items, stamp)
  {
    var all := items + [item];
    var r, m := StampCollection(all, stamp), StampCollection(items, stamp);
    var k :| 0 <= k < |all| && r == stamp(all[k]);
    var l :| 0 <= l < |items| && m == stamp(items[l]);
    assert all[l] == items[l] && all[|items|] == item;
    assert stamp(all[l]) <= r && stamp(all[|items|]) <= r;
    if k < |items| {
      assert all[k] == items[k];
      assert r <= m;
    }
  }
}
