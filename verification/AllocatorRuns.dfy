/** Sequences of calls of an allocator of kernel/memory.c, by what they do to its free list and its list of used ids. */
module AllocatorRuns {
  import opened Seqs

  datatype Op = Take | Give(id: nat)

  /** An allocation takes the head of the free list, a release puts a used id at its end; both have preconditions. */
  ghost predicate Runs(ops: seq<Op>, free: seq<nat>, used: seq<nat>, free': seq<nat>, used': seq<nat>)
    decreases |ops|
  {
    if ops == [] then free' == free && used' == used
    else match ops[0]
      case Take => 2 <= |free| && Runs(ops[1..], free[1..], used + [free[0]], free', used')
      case Give(id) => free != [] && id in used && Runs(ops[1..], free + [id], Without(used, id), free', used')
  }

  lemma {:induction false} RunsKeepPartition(lo: nat, hi: nat, ops: seq<Op>, free: seq<nat>, used: seq<nat>,
                                             free': seq<nat>, used': seq<nat>)
    requires Partition(lo, hi, free, used) && Runs(ops, free, used, free', used')
    ensures Partition(lo, hi, free', used')
    decreases |ops|
  {
    if ops != [] {
      match ops[0] {
        case Take =>
          MoveHead(lo, hi, free, used);
          RunsKeepPartition(lo, hi, ops[1..], free[1..], used + [free[0]], free', used');
        case Give(id) =>
          MoveBack(lo, hi, free, used, id);
          RunsKeepPartition(lo, hi, ops[1..], free + [id], Without(used, id), free', used');
      }
    }
  }

  /** The first used id stays first as long as it is not released, so that no release of another id meets it. */
  lemma {:induction false} RunsKeepFirst(ops: seq<Op>, free: seq<nat>, used: seq<nat>, free': seq<nat>, used': seq<nat>)
    requires Runs(ops, free, used, free', used') && used != [] && Give(used[0]) !in ops
    ensures used' != [] && used'[0] == used[0]
    decreases |ops|
  {
    if ops != [] {
      match ops[0] {
        case Take => RunsKeepFirst(ops[1..], free[1..], used + [free[0]], free', used');
        case Give(id) =>
          assert id != used[0];
          RunsKeepFirst(ops[1..], free + [id], Without(used, id), free', used');
      }
    }
  }
}
