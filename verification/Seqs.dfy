/** Sequences without repetition, as ghost contents of the kernel's linked lists. */
module Seqs {

  ghost predicate NoDup(s: seq<nat>) {
    forall i, j :: 0 <= i < j < |s| ==> s[i] != s[j]
  }

  /** s without the first occurrence of x. */
  function Without(s: seq<nat>, x: nat): seq<nat> {
    if s == [] then []
    else if s[0] == x then s[1..]
    else [s[0]] + Without(s[1..], x)
  }

  lemma {:induction false} WithoutAt(s: seq<nat>, k: nat)
    requires NoDup(s) && k < |s|
    ensures Without(s, s[k]) == s[..k] + s[k + 1..]
  {
    if k != 0 {
      var t := s[1..];
      assert NoDup(t) && t[k - 1] == s[k];
      WithoutAt(t, k - 1);
      assert s[..k] + s[k + 1..] == [s[0]] + (t[..k - 1] + t[k..]);
    }
  }

  lemma WithoutMembers(s: seq<nat>, x: nat)
    requires NoDup(s) && x in s
    ensures NoDup(Without(s, x)) && |Without(s, x)| == |s| - 1
    ensures forall y :: y in Without(s, x) <==> y in s && y != x
  {
    var k :| 0 <= k < |s| && s[k] == x;
    hide Without;
    WithoutAt(s, k);
    var t := Without(s, x);
    assert forall i :: 0 <= i < |t| ==> t[i] == if i < k then s[i] else s[i + 1];
    forall y ensures y in t <==> y in s && y != x {
      if y in s && y != x {
        var i :| 0 <= i < |s| && s[i] == y;
        assert t[if i < k then i else i - 1] == y;
      }
    }
  }

  /** a and b list each of lo..hi-1 exactly once between them, and nothing else. */
  ghost predicate Partition(lo: nat, hi: nat, a: seq<nat>, b: seq<nat>) {
    && NoDup(a) && NoDup(b)
    && (forall x :: x in a ==> lo <= x < hi && x !in b)
    && (forall x :: x in b ==> lo <= x < hi)
    && (forall x :: lo <= x < hi ==> x in a || x in b)
  }

  lemma HeadOrTail(s: seq<nat>, x: nat)
    requires s != [] && NoDup(s)
    ensures x in s[1..] <==> x in s && x != s[0]
  {
    if x in s && x != s[0] {
      var i :| 0 <= i < |s| && s[i] == x;
      assert x == s[1..][i - 1];
    }
    if x in s[1..] {
      var i :| 0 <= i < |s| - 1 && s[1..][i] == x;
      assert x == s[i + 1];
    }
  }

  /** The head of the first list of a partition. */
  lemma PartitionHead(lo: nat, hi: nat, a: seq<nat>, b: seq<nat>)
    requires Partition(lo, hi, a, b) && a != []
    ensures NoDup(a) && lo <= a[0] < hi && a[0] in a && a[0] !in b && a[0] !in a[1..]
    ensures 2 <= |a| ==> lo <= a[1] < hi && a[1] in a && a[1] !in b && a[1] != a[0] && a[1..][0] == a[1]
  {
    TailUntouched(a);
    assert a[0] in a;
    if 2 <= |a| {
      assert a[1] in a;
    }
  }

  /** An element of the second list of a partition. */
  lemma PartitionUsed(lo: nat, hi: nat, a: seq<nat>, b: seq<nat>, x: nat)
    requires Partition(lo, hi, a, b) && x in b
    ensures NoDup(a) && NoDup(b) && x !in a && lo <= x < hi
  {
  }

  /** lo, lo + 1, ..., hi - 1. */
  function Range(lo: nat, hi: nat): (r: seq<nat>)
    requires lo <= hi
    ensures |r| == hi - lo && forall i :: 0 <= i < hi - lo ==> r[i] == lo + i
  {
    seq(hi - lo, i => lo + i)
  }

  lemma RangeTail(lo: nat, hi: nat)
    requires lo < hi
    ensures Range(lo, hi)[0] == lo && Range(lo, hi)[1..] == Range(lo + 1, hi)
  {
    assert Range(lo, hi)[1..] == Range(lo + 1, hi);
  }

  lemma RangePartition(lo: nat, hi: nat)
    requires lo <= hi
    ensures Partition(lo, hi, Range(lo, hi), [])
  {
    forall x | lo <= x < hi
      ensures x in Range(lo, hi)
    {
      assert Range(lo, hi)[x - lo] == x;
    }
  }

  lemma TailUntouched(s: seq<nat>)
    requires s != [] && NoDup(s)
    ensures s[0] !in s[1..] && NoDup(s[1..])
    ensures 2 <= |s| ==> s[1..][0] == s[1] && s[0] != s[1]
  {
    HeadOrTail(s, s[0]);
  }

  /** What an allocation does: the head of one list goes to the end of the other. */
  lemma MoveHead(lo: nat, hi: nat, a: seq<nat>, b: seq<nat>)
    requires Partition(lo, hi, a, b) && a != []
    ensures Partition(lo, hi, a[1..], b + [a[0]])
  {
    var t := a[1..];
    forall x ensures x in t <==> x in a && x != a[0] {
      HeadOrTail(a, x);
    }
    assert a[0] in a;
    forall x ensures x in b + [a[0]] <==> x in b || x == a[0] {
    }
  }

  /** What a release does. */
  lemma MoveBack(lo: nat, hi: nat, a: seq<nat>, b: seq<nat>, x: nat)
    requires Partition(lo, hi, a, b) && x in b
    ensures Partition(lo, hi, a + [x], Without(b, x))
  {
    WithoutMembers(b, x);
  }

  lemma HasMember(s: seq<nat>)
    requires s != []
    ensures exists x :: x in s
  {
    assert s[0] in s;
  }

  lemma {:induction false} CountBelow(s: seq<nat>, lo: nat, hi: nat)
    requires NoDup(s) && lo <= hi
    requires forall x :: x in s <==> lo <= x < hi
    ensures |s| == hi - lo
    decreases hi
  {
    if lo == hi {
      if s != [] {
        HasMember(s);
        assert false;
      }
    } else {
      assert hi - 1 in s;
      WithoutMembers(s, hi - 1);
      CountBelow(Without(s, hi - 1), lo, hi - 1);
    }
  }

  lemma PartitionCount(lo: nat, hi: nat, a: seq<nat>, b: seq<nat>)
    requires Partition(lo, hi, a, b) && lo <= hi
    ensures |a| + |b| == hi - lo
  {
    assert NoDup(a + b) by {
      forall i, j | 0 <= i < j < |a + b|
        ensures (a + b)[i] != (a + b)[j]
      {
        if i < |a| <= j {
          assert a[i] in a && b[j - |a|] in b;
        }
      }
    }
    forall x ensures x in a + b <==> lo <= x < hi {
    }
    CountBelow(a + b, lo, hi);
  }
}
