// A history store that keeps its stamp in memory: a counter starting at zero that every
// change moves one step up.

module InMemoryHistoryStores {
  class InMemoryHistoryStore {
    /** The last stamp handed out, or zero before the first change. */
    var stamp: int

    constructor()
      ensures stamp == 0
    {
      stamp := 0;
    }

    /** The current stamp. */
    function GetStamp(): (r: int)
      reads this
      ensures r == stamp
    {
      stamp
    }

    /** A new stamp, one above the previous one, which becomes the current stamp. */
    method IncrementStamp() returns (r: int)
      modifies this
      ensures r == old(stamp) + 1 && stamp == r
    {
      stamp := stamp + 1;
      r := stamp;
    }
  }

  /** The stamps `n` successive changes of a new store receive: 1, 2, …, n, the current stamp ending at n. */
  method IssueStamps(n: nat) returns (issued: seq<int>, current: int)
    ensures |issued| == n && current == n
    ensures forall i :: 0 <= i < n ==> issued[i] == i + 1
    ensures forall i, j :: 0 <= i < j < n ==> issued[i] < issued[j]
  {
    var store := new InMemoryHistoryStore();
    issued := [];
    while |issued| < n
      invariant |issued| <= n && store.stamp == |issued|
      invariant forall i :: 0 <= i < |issued| ==> issued[i] == i + 1
    {
      var s := store.IncrementStamp();
      issued := issued + [s];
    }
    current := store.GetStamp();
  }
}
