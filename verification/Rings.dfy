/**
  The byte ring of a socket connection (servers/net/src/lib.rs): a bounded queue over a
  circular buffer.
 */
module Rings {
  import opened Words

  const RING_SIZE := 4096

  /** The `n` bytes of the circular buffer from position `r` on. */
  function Queue(b: seq<Byte>, r: nat, n: nat): (q: seq<Byte>)
    requires |b| == RING_SIZE && r < RING_SIZE
    ensures |q| == n
  {
    seq(n, i requires 0 <= i < n => b[(r + i) % 4096])
  }

  /** Writing behind the queue extends it. */
  lemma QueueGrows(b: seq<Byte>, r: nat, n: nat, x: Byte)
    requires |b| == RING_SIZE && r < RING_SIZE && n < RING_SIZE
    ensures Queue(b[(r + n) % 4096 := x], r, n + 1) == Queue(b, r, n) + [x]
  {
    var w := (r + n) % 4096;
    var q := Queue(b[w := x], r, n + 1);
    forall i | 0 <= i < n
      ensures q[i] == Queue(b, r, n)[i]
    {
      Apart(r, i, n);
    }
  }

  lemma Apart(r: nat, i: nat, n: nat)
    requires r < 4096 && i < n < 4096
    ensures (r + i) % 4096 != (r + n) % 4096
  {
  }

  /** Reading drops the first byte. */
  lemma QueueShrinks(b: seq<Byte>, r: nat, n: nat)
    requires |b| == RING_SIZE && r < RING_SIZE && n > 0
    ensures Queue(b, r, n) == [b[r]] + Queue(b, (r + 1) % 4096, n - 1)
  {
    var q := Queue(b, (r + 1) % 4096, n - 1);
    forall i | 0 <= i < n - 1
      ensures q[i] == Queue(b, r, n)[i + 1]
    {
      assert ((r + 1) % 4096 + i) % 4096 == (r + 1 + i) % 4096;
    }
  }

  lemma ModNext(x: nat)
    ensures (x % 4096 + 1) % 4096 == (x + 1) % 4096
  {
  }

  lemma ModBack(r: nat, n: nat, count: nat)
    requires n <= count
    ensures ((r + n) % 4096 + (count - n)) % 4096 == (r + count) % 4096
  {
  }

  class Ring {
    const buf: array<Byte>
    var rpos: nat
    var wpos: nat
    var count: nat

    ghost predicate Valid()
      reads this, buf
    {
      && buf.Length == RING_SIZE && rpos < RING_SIZE && count <= RING_SIZE
      && wpos == (rpos + count) % 4096
    }

    ghost function Contents(): seq<Byte>
      requires Valid()
      reads this, buf
    {
      Queue(buf[..], rpos, count)
    }

    constructor ()
      ensures Valid() && Contents() == [] && fresh(buf)
    {
      buf := new Byte[RING_SIZE](_ => 0);
      rpos, wpos, count := 0, 0, 0;
    }

    /** Empty the ring for a new connection. */
    method Reset()
      requires Valid()
      modifies this
      ensures Valid() && Contents() == []
    {
      rpos, wpos, count := 0, 0, 0;
    }

    /** Append as many bytes as fit. */
    method Write(data: seq<Byte>) returns (n: nat)
      requires Valid()
      modifies this, buf
      ensures Valid()
      ensures n == (if |data| < RING_SIZE - |old(Contents())| then |data| else RING_SIZE - |old(Contents())|)
      ensures Contents() == old(Contents()) + data[..n]
    {
      hide Queue;
      var free := RING_SIZE - count;
      n := if |data| < free then |data| else free;
      ghost var q := Contents();
      assert q + data[..0] == q;
      for i := 0 to n
        invariant buf.Length == RING_SIZE && wpos == (rpos + count + i) % 4096
        invariant rpos == old(rpos) && count == old(count)
        invariant Queue(buf[..], rpos, count + i) == q + data[..i]
      {
        QueueGrows(buf[..], rpos, count + i, data[i]);
        ghost var b := buf[..];
        buf[wpos] := data[i];
        assert buf[..] == b[wpos := data[i]];
        assert q + data[..i] + [data[i]] == q + data[..i + 1];
        ModNext(rpos + count + i);
        wpos := (wpos + 1) % 4096;
      }
      count := count + n;
    }

    /** Take out up to `len` bytes, oldest first. */
    method Read(len: nat) returns (data: seq<Byte>)
      requires Valid()
      modifies this
      ensures Valid()
      ensures |data| == (if len < |old(Contents())| then len else |old(Contents())|)
      ensures old(Contents()) == data + Contents()
    {
      hide Queue;
      var n := if len < count then len else count;
      data := [];
      ghost var q := Contents();
      assert [] + q == q;
      for i := 0 to n
        invariant |data| == i && count == old(count) && wpos == old(wpos) && rpos == (old(rpos) + i) % 4096
        invariant q == data + Queue(buf[..], rpos, count - i)
      {
        QueueShrinks(buf[..], rpos, count - i);
        data := data + [buf[rpos]];
        ModNext(old(rpos) + i);
        rpos := (rpos + 1) % 4096;
      }
      ModBack(old(rpos), n, count);
      count := count - n;
    }
  }
}
