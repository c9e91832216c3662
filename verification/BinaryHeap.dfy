/** Binary heaps of keys ordered by time and then by a tie breaker. */
module BinaryHeap {

  datatype Key = Key(at: int, tie: nat)

  predicate Earlier(a: Key, b: Key) {
    a.at < b.at || (a.at == b.at && a.tie < b.tie)
  }

  function Parent(i: nat): nat
    requires i > 0
  {
    (i - 1) / 2
  }

  /** The key at `i` is not earlier than the key above it. */
  predicate EdgeOk(keys: seq<Key>, i: nat)
    requires 0 < i < |keys|
  {
    !Earlier(keys[i], keys[Parent(i)])
  }

  predicate HeapOrdered(keys: seq<Key>) {
    forall i :: 0 < i < |keys| ==> EdgeOk(keys, i)
  }

  /** No key below `hole` is earlier than the key above `hole`. */
  predicate BridgeOk(keys: seq<Key>, hole: nat)
    requires hole < |keys|
  {
    hole > 0 ==> forall i :: 0 < i < |keys| && Parent(i) == hole ==> !Earlier(keys[i], keys[Parent(hole)])
  }

  /** Ordered but for the key at `hole`, which may be too early for its place. */
  predicate OrderedAbove(keys: seq<Key>, hole: nat) {
    hole < |keys| && BridgeOk(keys, hole) && forall i :: 0 < i < |keys| && i != hole ==> EdgeOk(keys, i)
  }

  /** Ordered but for the key at `hole`, which may be too late for its place. */
  predicate OrderedBelow(keys: seq<Key>, hole: nat) {
    hole < |keys| && BridgeOk(keys, hole) && forall i :: 0 < i < |keys| && Parent(i) != hole ==> EdgeOk(keys, i)
  }

  function Swapped(keys: seq<Key>, i: nat, j: nat): seq<Key>
    requires i < |keys| && j < |keys|
  {
    keys[i := keys[j]][j := keys[i]]
  }

  lemma SiftUpStep(keys: seq<Key>, hole: nat)
    requires OrderedAbove(keys, hole) && hole > 0 && Earlier(keys[hole], keys[Parent(hole)])
    ensures OrderedAbove(Swapped(keys, hole, Parent(hole)), Parent(hole))
  {
    var up := Parent(hole);
    var after := Swapped(keys, hole, up);
    forall i | 0 < i < |after| && i != up ensures EdgeOk(after, i) {
      assert i != hole ==> EdgeOk(keys, i);
    }
    if up > 0 {
      assert EdgeOk(keys, up);
      forall i | 0 < i < |after| && Parent(i) == up ensures !Earlier(after[i], after[Parent(up)]) {
        assert i != hole ==> EdgeOk(keys, i);
      }
    }
  }

  lemma SiftUpDone(keys: seq<Key>, hole: nat)
    requires OrderedAbove(keys, hole) && (hole > 0 ==> !Earlier(keys[hole], keys[Parent(hole)]))
    ensures HeapOrdered(keys)
  {
    forall i | 0 < i < |keys| ensures EdgeOk(keys, i) {
    }
  }

  /** The earliest child moves up over a key that is later than it. */
  lemma SiftDownStep(keys: seq<Key>, hole: nat, child: nat)
    requires OrderedBelow(keys, hole) && 0 < child < |keys| && Parent(child) == hole && Earlier(keys[child], keys[hole])
    requires forall i :: 0 < i < |keys| && Parent(i) == hole ==> !Earlier(keys[i], keys[child])
    ensures OrderedBelow(Swapped(keys, hole, child), child)
  {
    var after := Swapped(keys, hole, child);
    forall i | 0 < i < |after| && Parent(i) != child ensures EdgeOk(after, i) {
      if Parent(i) != hole {
        assert EdgeOk(keys, i);
      }
    }
    forall i | 0 < i < |after| && Parent(i) == child ensures !Earlier(after[i], after[Parent(child)]) {
      assert EdgeOk(keys, i);
    }
  }

  lemma SiftDownDone(keys: seq<Key>, hole: nat)
    requires OrderedBelow(keys, hole) && forall i :: 0 < i < |keys| && Parent(i) == hole ==> !Earlier(keys[i], keys[hole])
    ensures HeapOrdered(keys)
  {
    forall i | 0 < i < |keys| ensures EdgeOk(keys, i) {
    }
  }

  /** The last key, moved into the place of a removed one, belongs either above or below it. */
  lemma ReplaceByLast(keys: seq<Key>, hole: nat, after: seq<Key>)
    requires HeapOrdered(keys) && hole < |keys| - 1 && after == keys[..|keys| - 1][hole := keys[|keys| - 1]]
    ensures hole > 0 && Earlier(after[hole], after[Parent(hole)]) ==> OrderedAbove(after, hole)
    ensures hole == 0 || !Earlier(after[hole], after[Parent(hole)]) ==> OrderedBelow(after, hole)
  {
    forall i | 0 < i < |after| && i != hole && Parent(i) != hole ensures EdgeOk(after, i) {
      assert EdgeOk(keys, i);
    }
    if hole > 0 {
      assert EdgeOk(keys, hole);
    }
    forall i | 0 < i < |after| && Parent(i) == hole && hole > 0 ensures !Earlier(after[i], after[Parent(hole)]) {
      assert EdgeOk(keys, i);
    }
  }

  lemma DropLast(keys: seq<Key>)
    requires HeapOrdered(keys) && keys != []
    ensures HeapOrdered(keys[..|keys| - 1])
  {
    var front := keys[..|keys| - 1];
    forall i | 0 < i < |front| ensures EdgeOk(front, i) {
      assert EdgeOk(keys, i);
    }
  }

  lemma AppendKey(keys: seq<Key>, key: Key)
    requires HeapOrdered(keys)
    ensures OrderedAbove(keys + [key], |keys|)
  {
    var after := keys + [key];
    forall i | 0 < i < |after| && i != |keys| ensures EdgeOk(after, i) {
      assert EdgeOk(keys, i);
    }
  }

  /** The root of a heap is its earliest key. */
  lemma {:induction false} RootIsEarliest(keys: seq<Key>, i: nat)
    requires HeapOrdered(keys) && i < |keys|
    ensures !Earlier(keys[i], keys[0])
    decreases i
  {
    if i > 0 {
      assert EdgeOk(keys, i);
      RootIsEarliest(keys, Parent(i));
    }
  }

  // ------------------------------------------------------- heaps of distinct ties

  predicate DistinctTies(keys: seq<Key>) {
    forall i, j :: 0 <= i < j < |keys| ==> keys[i].tie != keys[j].tie
  }

  lemma SwappedKeeps(keys: seq<Key>, i: nat, j: nat, after: seq<Key>)
    requires i < |keys| && j < |keys| && DistinctTies(keys) && after == Swapped(keys, i, j)
    ensures DistinctTies(after) && forall k :: k in after <==> k in keys
  {
    forall k | k in keys ensures k in after {
      var n :| 0 <= n < |keys| && keys[n] == k;
      assert after[i] == keys[j] && after[j] == keys[i] && (n != i && n != j ==> after[n] == k);
    }
  }

  /** Adding a key to a heap. */
  method PushHeap(keys: seq<Key>, key: Key) returns (after: seq<Key>)
    requires HeapOrdered(keys) && DistinctTies(keys) && forall k :: k in keys ==> k.tie != key.tie
    ensures HeapOrdered(after) && DistinctTies(after) && |after| == |keys| + 1
    ensures forall k :: k in after <==> k in keys || k == key
  {
    after := keys + [key];
    var hole: nat := |keys|;
    AppendKey(keys, key);
    while hole != 0 && Earlier(after[hole], after[(hole - 1) / 2])
      invariant OrderedAbove(after, hole) && DistinctTies(after) && |after| == |keys| + 1
      invariant forall k :: k in after <==> k in keys || k == key
      decreases hole
    {
      var up := (hole - 1) / 2;
      SiftUpStep(after, hole);
      SwappedKeeps(after, hole, up, Swapped(after, hole, up));
      after := Swapped(after, hole, up);
      hole := up;
    }
    SiftUpDone(after, hole);
  }

  method PickChild(keys: seq<Key>, hole: nat) returns (child: nat)
    requires hole * 2 + 1 < |keys|
    ensures hole < child < |keys| && Parent(child) == hole
    ensures forall i :: 0 < i < |keys| && Parent(i) == hole ==> !Earlier(keys[i], keys[child])
  {
    var left := hole * 2 + 1;
    child := if left + 1 < |keys| && Earlier(keys[left + 1], keys[left]) then left + 1 else left;
    assert forall i :: 0 < i < |keys| && Parent(i) == hole ==> i == left || i == left + 1;
  }

  method Settle(keys: seq<Key>, start: nat) returns (after: seq<Key>)
    requires OrderedBelow(keys, start) && DistinctTies(keys)
    ensures HeapOrdered(after) && DistinctTies(after) && |after| == |keys|
    ensures forall k :: k in after <==> k in keys
  {
    after := keys;
    var hole: nat := start;
    while hole * 2 + 1 < |after|
      invariant OrderedBelow(after, hole) && DistinctTies(after) && |after| == |keys|
      invariant forall k :: k in after <==> k in keys
      decreases |after| - hole
    {
      var child := PickChild(after, hole);
      if !Earlier(after[child], after[hole]) {
        SiftDownDone(after, hole);
        return;
      }
      SiftDownStep(after, hole, child);
      SwappedKeeps(after, hole, child, Swapped(after, hole, child));
      after := Swapped(after, hole, child);
      hole := child;
    }
    SiftDownDone(after, hole);
  }

  /** Taking the earliest key out of a heap. */
  method PopHeap(keys: seq<Key>) returns (least: Key, after: seq<Key>)
    requires HeapOrdered(keys) && DistinctTies(keys) && keys != []
    ensures HeapOrdered(after) && DistinctTies(after) && |after| == |keys| - 1 && least == keys[0]
    ensures forall k :: k in after <==> k in keys && k != least
    ensures forall k :: k in after ==> Earlier(least, k)
  {
    least := keys[0];
    forall i | 0 < i < |keys| ensures Earlier(keys[0], keys[i]) {
      RootIsEarliest(keys, i);
    }
    after := keys[..|keys| - 1];
    if after == [] {
      return;
    }
    after := after[0 := keys[|keys| - 1]];
    ReplaceByLast(keys, 0, after);
    LastToFront(keys, after);
    after := Settle(after, 0);
  }

  lemma LastToFront(keys: seq<Key>, after: seq<Key>)
    requires DistinctTies(keys) && |keys| > 1 && after == keys[..|keys| - 1][0 := keys[|keys| - 1]]
    ensures DistinctTies(after) && forall k :: k in after <==> k in keys && k != keys[0]
  {
    forall k | k in keys && k != keys[0] ensures k in after {
      var n :| 0 <= n < |keys| && keys[n] == k;
      assert if n == |keys| - 1 then after[0] == k else after[n] == k;
    }
  }
}
