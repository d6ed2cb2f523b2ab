/** klib/queue.c and kernel/ipc.c: the byte queue over a kernel block, and the reads and writes that share it. */
module Queue {
  import opened Words

  type Byte = b: int | 0 <= b < 0x100 witness 0

  /** What dequeue returns on an empty queue: -1 as an unsigned byte. */
  const FILLER: Byte := 0xff

  /** The slot that is i after head in a ring of the given size. */
  function Slot(head: nat, i: nat, size: nat): (r: nat)
    requires head < size && i <= size
    ensures r < size
  {
    if head + i < size then head + i else head + i - size
  }

  lemma NextSlot(x: nat, size: nat)
    requires x < size
    ensures (x + 1) % size == Slot(x, 1, size)
  {
    DivMod(x + 1, size, if x + 1 == size then 1 else 0, Slot(x, 1, size));
  }

  /** The slots seen from the next one. */
  lemma Advance(head: nat, size: nat)
    requires head < size
    ensures Slot(head, 0, size) == Slot(head, size, size) == head
    ensures forall i {:trigger Slot(head, i, size)} :: 0 < i < size ==> Slot(head, i, size) != head
    ensures Slot(head, 1, size) < size
    ensures forall i {:trigger Slot(Slot(head, 1, size), i, size)} :: 0 <= i < size ==>
              Slot(Slot(head, 1, size), i, size) == Slot(head, i + 1, size)
  {
  }

  class Queue {
    var size: nat
    var head: nat
    var end: nat
    var nData: nat
    var data: array?<Byte>

    /** The slots outside the live window hold zero. */
    ghost predicate Valid()
      reads this, data
    {
      && data != null && 0 < size <= data.Length && head < size && nData <= size
      && end == Slot(head, nData, size)
      && forall i :: nData <= i < size ==> data[Slot(head, i, size)] == 0
    }

    ghost function Contents(): (s: seq<Byte>)
      requires Valid()
      reads this, data
      ensures |s| == nData
    {
      seq(nData, i requires 0 <= i < nData reads this, data requires Valid() => data[Slot(head, i, size)])
    }

    /** kq_init, of which block is what kblk_alloc returned. */
    method Init(block: array?<Byte>, qSize: nat) returns (status: int)
      requires block != null ==> 0 < qSize <= block.Length
      modifies this, block
      ensures status == if block == null then -1 else 0
      ensures block != null ==> data == block && size == qSize && Valid() && Contents() == []
      ensures block != null ==> forall i :: qSize <= i < block.Length ==> block[i] == old(block[i])
    {
      head, end, nData, data := 0, 0, 0, block;
      if data == null {
        return -1;
      }
      size := qSize;
      var i := 0;
      while i < qSize
        invariant i <= qSize
        invariant forall j :: 0 <= j < data.Length ==> data[j] == if j < i then 0 else old(block[j])
        modifies data
      {
        data[i] := 0;
        i := i + 1;
      }
      return 0;
    }

    method Enqueue(byte: Byte) returns (status: int)
      requires Valid()
      modifies this`end, this`nData, data
      ensures Valid()
      ensures status == if |old(Contents())| == size then -1 else 0
      ensures Contents() == if status == -1 then old(Contents()) else old(Contents()) + [byte]
    {
      if nData == size {
        return -1;
      }
      NextSlot(end, size);
      data[end] := byte;
      end := (end + 1) % size;
      nData := nData + 1;
      return 0;
    }

    method Dequeue() returns (byte: Byte)
      requires Valid()
      modifies this`head, this`nData, data
      ensures Valid()
      ensures old(Contents()) == [] ==> byte == 0xff && Contents() == []
      ensures old(Contents()) != [] ==> old(Contents()) == [byte] + Contents()
    {
      if nData == 0 {
        return FILLER;
      }
      hide Slot;
      ghost var was := Contents();
      NextSlot(head, size);
      Advance(head, size);
      byte := data[head];
      data[head] := 0;
      nData := nData - 1;
      head := (head + 1) % size;
      assert was[1..] == Contents();
    }

    /** ipc_read_func. */
    method Read(rbuf: array<Byte>, n: nat) returns (count: nat)
      requires Valid() && n <= rbuf.Length && rbuf != data
      modifies this`head, this`nData, data, rbuf
      ensures Valid() && count == n
      ensures rbuf[..n] == Taken(old(Contents()), n) && rbuf[n..] == old(rbuf[n..])
      ensures Contents() == Left(old(Contents()), n)
      ensures forall i :: 0 <= i < n ==> rbuf[i] == if i < |old(Contents())| then old(Contents())[i] else 0xff
      ensures Contents() == if n < |old(Contents())| then old(Contents())[n..] else []
    {
      hide Valid, Contents;
      count := 0;
      while count < n
        invariant Valid() && count <= n
        invariant rbuf[..count] == Taken(old(Contents()), count)
        invariant forall j :: count <= j < rbuf.Length ==> rbuf[j] == old(rbuf[j])
        invariant Contents() == Left(old(Contents()), count)
      {
        rbuf[count] := Dequeue();
        assert rbuf[..count + 1] == rbuf[..count] + [rbuf[count]];
        count := count + 1;
      }
      assert forall i :: 0 <= i < n ==> rbuf[i] == rbuf[..n][i];
    }

    /** ipc_write_func: the bytes before the one that does not fit stay in the queue. */
    method Write(wbuf: array<Byte>, n: nat) returns (status: int)
      requires Valid() && n <= wbuf.Length && wbuf != data
      modifies this`end, this`nData, data
      ensures Valid()
      ensures Contents() == old(Contents()) + Accepted(old(Contents()), size, wbuf[..n])
      ensures |Contents()| == if n <= size - |old(Contents())| then |old(Contents())| + n else size
      ensures old(Contents()) <= Contents() <= old(Contents()) + wbuf[..n]
      ensures status == if n <= size - |old(Contents())| then 0 else -1
    {
      var i := 0;
      while i < n
        invariant Valid() && i <= n && i <= size - |old(Contents())|
        invariant Contents() == old(Contents()) + wbuf[..i]
      {
        var s := Enqueue(wbuf[i]);
        if s != 0 {
          return -1;
        }
        assert wbuf[..i + 1] == wbuf[..i] + [wbuf[i]];
        i := i + 1;
      }
      return 0;
    }
  }

  function Min(a: int, b: int): int {
    if a <= b then a else b
  }

  /** The n bytes that a read delivers from a queue that holds q: short of bytes, it delivers fillers. */
  function Taken(q: seq<Byte>, n: nat): (r: seq<Byte>)
    ensures |r| == n
  {
    q[..Min(n, |q|)] + seq(n - Min(n, |q|), _ => FILLER)
  }

  function Left(q: seq<Byte>, n: nat): seq<Byte> {
    q[Min(n, |q|)..]
  }

  /** The bytes of ws that a queue with q in it accepts. */
  function Accepted(q: seq<Byte>, size: nat, ws: seq<Byte>): seq<Byte>
    requires |q| <= size
  {
    ws[..Min(|ws|, size - |q|)]
  }

  datatype Call = Put(bytes: seq<Byte>) | Get(n: nat)

  /** What went in, what came out, and what came out that had gone in, with what is still there. */
  datatype History = History(accepted: seq<Byte>, delivered: seq<Byte>, genuine: seq<Byte>, contents: seq<Byte>)

  function Run(calls: seq<Call>, size: nat): (h: History)
    ensures |h.contents| <= size
    decreases |calls|
  {
    if calls == [] then History([], [], [], [])
    else
      var h := Run(calls[..|calls| - 1], size);
      match calls[|calls| - 1]
      case Put(bytes) =>
        var more := Accepted(h.contents, size, bytes);
        h.(accepted := h.accepted + more, contents := h.contents + more)
      case Get(n) =>
        h.(delivered := h.delivered + Taken(h.contents, n),
           genuine := h.genuine + h.contents[..Min(n, |h.contents|)],
           contents := Left(h.contents, n))
  }

  /** Nothing is lost, duplicated or reordered: whatever the run, the bytes that went in are those that came out
      followed by those still in the queue. */
  lemma {:induction false} Fifo(calls: seq<Call>, size: nat)
    ensures Run(calls, size).genuine + Run(calls, size).contents == Run(calls, size).accepted
    decreases |calls|
  {
    if calls != [] {
      var h := Run(calls[..|calls| - 1], size);
      Fifo(calls[..|calls| - 1], size);
      match calls[|calls| - 1]
      case Put(bytes) =>
        var more := Accepted(h.contents, size, bytes);
        assert h.genuine + (h.contents + more) == (h.genuine + h.contents) + more;
      case Get(n) =>
        var k := Min(n, |h.contents|);
        assert h.contents[..k] + h.contents[k..] == h.contents;
        assert (h.genuine + h.contents[..k]) + h.contents[k..] == h.genuine + h.contents;
    }
  }

  /** No read of the run asks for more than the queue holds. */
  predicate NoUnderrun(calls: seq<Call>, size: nat)
    decreases |calls|
  {
    calls != [] ==>
      && NoUnderrun(calls[..|calls| - 1], size)
      && (calls[|calls| - 1].Get? ==> calls[|calls| - 1].n <= |Run(calls[..|calls| - 1], size).contents|)
  }

  /** At every moment of the run, the bytes read are a prefix of those accepted. */
  predicate ReadsArePrefix(calls: seq<Call>, size: nat) {
    forall k :: 0 <= k <= |calls| ==> Run(calls[..k], size).delivered <= Run(calls[..k], size).accepted
  }

  lemma {:induction false} GenuineWithoutUnderrun(calls: seq<Call>, size: nat)
    requires NoUnderrun(calls, size)
    ensures Run(calls, size).delivered == Run(calls, size).genuine
    decreases |calls|
  {
    if calls != [] {
      GenuineWithoutUnderrun(calls[..|calls| - 1], size);
    }
  }

  lemma {:induction false} NoUnderrunBefore(calls: seq<Call>, size: nat, k: nat)
    requires NoUnderrun(calls, size) && k <= |calls|
    ensures NoUnderrun(calls[..k], size)
    decreases |calls|
  {
    if k == |calls| {
      assert calls[..k] == calls;
    } else {
      NoUnderrunBefore(calls[..|calls| - 1], size, k);
      assert calls[..|calls| - 1][..k] == calls[..k];
    }
  }

  lemma UnderrunDeliversMore(calls: seq<Call>, size: nat)
    requires calls != [] && calls[|calls| - 1].Get? && NoUnderrun(calls[..|calls| - 1], size)
    requires |Run(calls[..|calls| - 1], size).contents| < calls[|calls| - 1].n
    ensures |Run(calls, size).accepted| < |Run(calls, size).delivered|
  {
    Fifo(calls[..|calls| - 1], size);
    GenuineWithoutUnderrun(calls[..|calls| - 1], size);
  }

  /** The bytes read stay a prefix of the bytes accepted exactly as long as no read outruns the queue. */
  lemma {:induction false} PrefixExactly(calls: seq<Call>, size: nat)
    ensures ReadsArePrefix(calls, size) <==> NoUnderrun(calls, size)
    decreases |calls|
  {
    if NoUnderrun(calls, size) {
      forall k | 0 <= k <= |calls|
        ensures Run(calls[..k], size).delivered <= Run(calls[..k], size).accepted
      {
        NoUnderrunBefore(calls, size, k);
        GenuineWithoutUnderrun(calls[..k], size);
        Fifo(calls[..k], size);
      }
    } else if ReadsArePrefix(calls, size) {
      PrefixAtEnd(calls, size);
      PrefixBefore(calls, size);
      PrefixExactly(calls[..|calls| - 1], size);
      UnderrunDeliversMore(calls, size);
      assert false;
    }
  }

  lemma PrefixAtEnd(calls: seq<Call>, size: nat)
    requires ReadsArePrefix(calls, size)
    ensures Run(calls, size).delivered <= Run(calls, size).accepted
  {
    assert calls[..|calls|] == calls;
  }

  lemma PrefixBefore(calls: seq<Call>, size: nat)
    requires calls != [] && ReadsArePrefix(calls, size)
    ensures ReadsArePrefix(calls[..|calls| - 1], size)
  {
    var before := calls[..|calls| - 1];
    forall k | 0 <= k <= |before| ensures Run(before[..k], size).delivered <= Run(before[..k], size).accepted {
      assert before[..k] == calls[..k];
    }
  }

  /** One more write adds the bytes, in order, for which there is room. */
  lemma OneMoreWrite(calls: seq<Call>, size: nat, bytes: seq<Byte>)
    ensures var h, h' := Run(calls, size), Run(calls + [Put(bytes)], size);
            && h'.delivered == h.delivered && h.contents <= h'.contents <= h.contents + bytes
            && |h'.contents| == if |bytes| <= size - |h.contents| then |h.contents| + |bytes| else size
  {
    assert (calls + [Put(bytes)])[..|calls|] == calls;
  }

  /** One more read of n delivers n bytes: the first of the queue, which leave it, and 0xff where it is short of them. */
  lemma OneMoreRead(calls: seq<Call>, size: nat, n: nat)
    ensures var h, h' := Run(calls, size), Run(calls + [Get(n)], size);
            && h'.accepted == h.accepted && |h'.delivered| == |h.delivered| + n && h.delivered <= h'.delivered
            && (forall i :: 0 <= i < n ==>
                  h'.delivered[|h.delivered| + i] == if i < |h.contents| then h.contents[i] else 0xff)
            && h'.contents == if n < |h.contents| then h.contents[n..] else []
  {
    hide Taken, Left;
    assert (calls + [Get(n)])[..|calls|] == calls;
    var h := Run(calls, size);
    TakenIs(h.contents, n);
    assert Run(calls + [Get(n)], size).delivered == h.delivered + Taken(h.contents, n);
  }

  lemma TakenIs(q: seq<Byte>, n: nat)
    ensures forall i :: 0 <= i < n ==> Taken(q, n)[i] == if i < |q| then q[i] else 0xff
    ensures Left(q, n) == if n < |q| then q[n..] else []
  {
  }

  /** One read of the fresh IPC queue, of 128 bytes, delivers a byte that nobody wrote. */
  lemma UnderrunFails()
    ensures Run([Get(1)], 128).delivered == [0xff] && Run([Get(1)], 128).accepted == []
    ensures !ReadsArePrefix([Get(1)], 128)
  {
    assert [Get(1)][..0] == [];
    PrefixExactly([Get(1)], 128);
  }
}
