/** The doubly linked lists of the kernel (pages, blocks, tasks), seen through snapshots of their link fields:
    nx[i] and pv[i] are what nodes[i].next and nodes[i].prev hold, nil is NULL. */
module DLists {
  import opened Seqs

  /** The nodes ids, in that order, make up the list that starts at head and ends in nil.  Nothing is said about the
      prev field of the head: memory.c leaves it dangling in its block lists. */
  ghost predicate Linked<T>(nodes: seq<T>, nx: seq<T>, pv: seq<T>, nil: T, ids: seq<nat>, head: T) {
    && |nx| == |pv| == |nodes|
    && (forall k :: 0 <= k < |ids| ==> ids[k] < |nodes|)
    && (if ids == [] then head == nil else head == nodes[ids[0]] && nx[ids[|ids| - 1]] == nil)
    && (forall i, j :: 0 <= i && j == i + 1 && j < |ids| ==>
          nx[ids[i]] == nodes[ids[j]] && pv[ids[j]] == nodes[ids[i]])
  }

  /** The same with a prev field of nil at the head. */
  ghost predicate Anchored<T>(nodes: seq<T>, nx: seq<T>, pv: seq<T>, nil: T, ids: seq<nat>, head: T) {
    && Linked(nodes, nx, pv, nil, ids, head)
    && (ids != [] ==> pv[ids[0]] == nil)
  }

  lemma LinkedNext<T>(nodes: seq<T>, nx: seq<T>, pv: seq<T>, nil: T, ids: seq<nat>, head: T, k: nat)
    requires Linked(nodes, nx, pv, nil, ids, head) && k < |ids|
    ensures |nx| == |pv| == |nodes| && forall i :: 0 <= i < |ids| ==> ids[i] < |nodes|
    ensures head == nodes[ids[0]]
    ensures nx[ids[k]] == if k + 1 < |ids| then nodes[ids[k + 1]] else nil
    ensures k > 0 ==> pv[ids[k]] == nodes[ids[k - 1]]
  {
    if k + 1 < |ids| {
      assert nx[ids[k]] == nodes[ids[k + 1]];
    }
    if k > 0 {
      assert nx[ids[k - 1]] == nodes[ids[k]];
    }
  }

  lemma HeadIsNil<T>(nodes: seq<T>, nx: seq<T>, pv: seq<T>, nil: T, ids: seq<nat>, head: T)
    requires Linked(nodes, nx, pv, nil, ids, head) && nil !in nodes
    ensures head == nil <==> ids == []
    ensures ids != [] ==> ids[0] < |nodes| && head == nodes[ids[0]]
  {
  }

  /** Links of a node outside the list do not matter to it. */
  lemma LinkedNextApart<T>(nodes: seq<T>, nx: seq<T>, pv: seq<T>, nil: T, ids: seq<nat>, head: T, j: nat, v: T)
    requires Linked(nodes, nx, pv, nil, ids, head) && j < |nodes| && j !in ids
    ensures Linked(nodes, nx[j := v], pv, nil, ids, head)
  {
    LinkedFrame(nodes, nx, pv, nx[j := v], pv, nil, ids, head);
  }

  lemma LinkedPrevApart<T>(nodes: seq<T>, nx: seq<T>, pv: seq<T>, nil: T, ids: seq<nat>, head: T, j: nat, v: T)
    requires Linked(nodes, nx, pv, nil, ids, head) && j < |nodes| && j !in ids
    ensures Linked(nodes, nx, pv[j := v], nil, ids, head)
    ensures ids != [] ==> ids[0] < |nodes| && pv[j := v][ids[0]] == pv[ids[0]]
  {
    LinkedFrame(nodes, nx, pv, nx, pv[j := v], nil, ids, head);
  }

  /** The prev field of the head is no part of the list. */
  lemma LinkedHeadPrev<T>(nodes: seq<T>, nx: seq<T>, pv: seq<T>, nil: T, ids: seq<nat>, head: T, v: T)
    requires Linked(nodes, nx, pv, nil, ids, head) && NoDup(ids) && ids != []
    ensures ids[0] < |nodes| && Linked(nodes, nx, pv[ids[0] := v], nil, ids, head)
  {
  }

  lemma NoNodes<T>(nodes: seq<T>, nx: seq<T>, pv: seq<T>, nil: T)
    requires |nx| == |pv| == |nodes|
    ensures Anchored(nodes, nx, pv, nil, [], nil)
  {
  }

  /** A node alone is a list if nothing follows it. */
  lemma OneNode<T>(nodes: seq<T>, nx: seq<T>, pv: seq<T>, nil: T, id: nat)
    requires |nx| == |pv| == |nodes| && id < |nodes|
    ensures Linked(nodes, nx, pv, nil, [id], nodes[id]) <==> nx[id] == nil
  {
    if Linked(nodes, nx, pv, nil, [id], nodes[id]) {
      assert [id][|[id]| - 1] == id;
    }
  }

  lemma SingleNode<T>(nodes: seq<T>, nx: seq<T>, pv: seq<T>, nil: T, id: nat)
    requires |nx| == |pv| == |nodes| && id < |nodes| && nx[id] == nil && pv[id] == nil
    ensures Anchored(nodes, nx, pv, nil, [id], nodes[id])
  {
  }

  /** A list whose nodes keep their links stays what it was. */
  lemma LinkedFrame<T>(nodes: seq<T>, nx: seq<T>, pv: seq<T>, nx': seq<T>, pv': seq<T>, nil: T, ids: seq<nat>, head: T)
    requires Linked(nodes, nx, pv, nil, ids, head)
    requires |nx'| == |pv'| == |nodes|
    requires forall i :: i in ids && i < |nodes| ==> nx'[i] == nx[i] && pv'[i] == pv[i]
    ensures Linked(nodes, nx', pv', nil, ids, head)
    ensures ids != [] ==> pv'[ids[0]] == pv[ids[0]]
  {
    forall k | 0 <= k < |ids|
      ensures nx'[ids[k]] == nx[ids[k]] && pv'[ids[k]] == pv[ids[k]]
    {
      assert ids[k] in ids;
    }
  }

  /** Linking one more node behind the last one. */
  lemma LinkedAppend<T>(nodes: seq<T>, nx: seq<T>, pv: seq<T>, nil: T, ids: seq<nat>, head: T, id: nat)
    requires Linked(nodes, nx, pv, nil, ids, head) && NoDup(ids) && ids != []
    requires id < |nodes| && id !in ids
    ensures var last := ids[|ids| - 1];
            && last < |nodes|
            && Linked(nodes, nx[last := nodes[id]][id := nil], pv[id := nodes[last]], nil, ids + [id], head)
    ensures (ids + [id])[0] == ids[0] != id
  {
    var last := ids[|ids| - 1];
    var nx', pv', t := nx[last := nodes[id]][id := nil], pv[id := nodes[last]], ids + [id];
    forall i, j | 0 <= i && j == i + 1 && j < |t|
      ensures nx'[t[i]] == nodes[t[j]] && pv'[t[j]] == nodes[t[i]]
    {
      assert ids[i] in ids;
      if j < |ids| {
        assert ids[j] in ids;
        assert nx[ids[i]] == nodes[ids[j]];
      }
    }
  }

  /** Dropping the first node. */
  lemma LinkedTail<T>(nodes: seq<T>, nx: seq<T>, pv: seq<T>, nil: T, ids: seq<nat>, head: T)
    requires Linked(nodes, nx, pv, nil, ids, head) && ids != []
    ensures Linked(nodes, nx, pv, nil, ids[1..], nx[ids[0]])
  {
    var t := ids[1..];
    LinkedNext(nodes, nx, pv, nil, ids, head, 0);
    forall i, j | 0 <= i && j == i + 1 && j < |t|
      ensures nx[t[i]] == nodes[t[j]] && pv[t[j]] == nodes[t[i]]
    {
      assert t[i] == ids[i + 1] && t[j] == ids[j + 1];
    }
  }

  lemma LinkedSuffix<T>(nodes: seq<T>, nx: seq<T>, pv: seq<T>, nil: T, ids: seq<nat>, head: T, k: nat)
    requires Linked(nodes, nx, pv, nil, ids, head) && k < |ids|
    ensures ids[k] < |nodes| && Linked(nodes, nx, pv, nil, ids[k..], nodes[ids[k]])
  {
    var t := ids[k..];
    forall i, j | 0 <= i && j == i + 1 && j < |t|
      ensures nx[t[i]] == nodes[t[j]] && pv[t[j]] == nodes[t[i]]
    {
      assert t[i] == ids[k + i] && t[j] == ids[k + j];
    }
  }

  /** Taking out the node at position k and linking its neighbours to each other. */
  lemma LinkedRemove<T>(nodes: seq<T>, nx: seq<T>, pv: seq<T>, nx': seq<T>, pv': seq<T>, nil: T, ids: seq<nat>, head: T,
                        k: nat)
    requires Linked(nodes, nx, pv, nil, ids, head) && k < |ids|
    requires |nx'| == |pv'| == |nodes|
    requires forall i :: 0 <= i < |ids| && i != k ==> nx'[ids[i]] == if i == k - 1 then nx[ids[k]] else nx[ids[i]]
    requires forall i :: 0 <= i < |ids| && i != k ==> pv'[ids[i]] == if i == k + 1 then pv[ids[k]] else pv[ids[i]]
    ensures Linked(nodes, nx', pv', nil, ids[..k] + ids[k + 1..], if k == 0 then nx[ids[0]] else head)
    ensures k == 0 && 1 < |ids| ==> pv'[ids[1]] == pv[ids[0]]
    ensures k > 0 ==> pv'[ids[0]] == pv[ids[0]]
  {
    var t := ids[..k] + ids[k + 1..];
    LinkedNext(nodes, nx, pv, nil, ids, head, k);
    forall i, j | 0 <= i && j == i + 1 && j < |t|
      ensures nx'[t[i]] == nodes[t[j]] && pv'[t[j]] == nodes[t[i]]
    {
      var i', j' := if i < k then i else i + 1, if j < k then j else j + 1;
      assert t[i] == ids[i'] && t[j] == ids[j'];
      if j' == i' + 1 {
        assert nx[ids[i']] == nodes[ids[j']];
      }
    }
    if k > 0 {
      LinkedNext(nodes, nx, pv, nil, ids, head, k - 1);
    }
  }

  /** The three ways a node leaves an anchored list: as head, as last node, from between two others. */
  lemma RemoveHead<T>(nodes: seq<T>, nx: seq<T>, pv: seq<T>, nil: T, ids: seq<nat>, head: T)
    requires Anchored(nodes, nx, pv, nil, ids, head) && NoDup(ids) && 2 <= |ids|
    ensures ids[0] < |nodes| && ids[1] < |nodes|
    ensures Anchored(nodes, nx[ids[0] := nil], pv[ids[1] := nil], nil, Without(ids, ids[0]), nx[ids[0]])
  {
    hide Linked;
    WithoutAt(ids, 0);
    TailUntouched(ids);
    LinkedNext(nodes, nx, pv, nil, ids, head, 0);
    LinkedTail(nodes, nx, pv, nil, ids, head);
    LinkedHeadPrev(nodes, nx, pv, nil, ids[1..], nx[ids[0]], nil);
    LinkedNextApart(nodes, nx, pv[ids[1] := nil], nil, ids[1..], nx[ids[0]], ids[0], nil);
    assert ids[..0] + ids[1..] == ids[1..];
  }

  lemma RemoveLast<T>(nodes: seq<T>, nx: seq<T>, pv: seq<T>, nil: T, ids: seq<nat>, head: T)
    requires Anchored(nodes, nx, pv, nil, ids, head) && NoDup(ids) && 2 <= |ids|
    ensures var k := |ids| - 1;
            && ids[k - 1] < |nodes| && ids[k] < |nodes|
            && Anchored(nodes, nx[ids[k - 1] := nil], pv[ids[k] := nil], nil, Without(ids, ids[k]), head)
  {
    var k := |ids| - 1;
    WithoutAt(ids, k);
    LinkedRemove(nodes, nx, pv, nx[ids[k - 1] := nil], pv[ids[k] := nil], nil, ids, head, k);
    assert Without(ids, ids[k])[0] == ids[0];
  }

  lemma RemoveMiddle<T>(nodes: seq<T>, nx: seq<T>, pv: seq<T>, nil: T, ids: seq<nat>, head: T, k: nat)
    requires Anchored(nodes, nx, pv, nil, ids, head) && NoDup(ids) && 0 < k < |ids| - 1
    ensures forall i :: 0 <= i < |ids| ==> ids[i] < |nodes|
    ensures Anchored(nodes, nx[ids[k - 1] := nx[ids[k]]][ids[k] := nil], pv[ids[k + 1] := pv[ids[k]]][ids[k] := nil], nil,
                     Without(ids, ids[k]), head)
  {
    WithoutAt(ids, k);
    LinkedRemove(nodes, nx, pv, nx[ids[k - 1] := nx[ids[k]]][ids[k] := nil],
                 pv[ids[k + 1] := pv[ids[k]]][ids[k] := nil], nil, ids, head, k);
    assert Without(ids, ids[k])[0] == ids[0];
  }
}
