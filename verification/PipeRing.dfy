/** The bounded buffer inside a pipe: a ring of bytes that behaves as a queue. */
module PipeRing {
  import opened Basics

  const CAPACITY: nat := 512

  /** What an attempt to read or write finds. */
  datatype Taken = Blocked | Bytes(out: seq<Byte>)
  datatype Placed = NoReaders | Count(n: nat)

  function Min(a: nat, b: nat): nat { if a < b then a else b }

  /** Where the byte `i` places after `tail` is. */
  function Spot(tail: nat, i: nat): (r: nat)
    ensures r < CAPACITY
  {
    (tail + i) % CAPACITY
  }

  lemma SpotNext(tail: nat, i: nat)
    ensures (Spot(tail, i) + 1) % CAPACITY == Spot(tail, i + 1)
    ensures Spot((tail + 1) % CAPACITY, i) == Spot(tail, i + 1)
  {
    ModAdd(tail + i, 1);
    ModAdd(tail + 1, i);
  }

  lemma ModAdd(a: nat, b: nat)
    ensures (a % CAPACITY + b) % CAPACITY == (a + b) % CAPACITY
  {
    var q, r := a / 512, a % 512;
    var p, s := (r + b) / 512, (r + b) % 512;
    assert a + b == 512 * (q + p) + s;
  }

  lemma SpotsDiffer(tail: nat, i: nat, j: nat)
    requires i < j < CAPACITY
    ensures Spot(tail, i) != Spot(tail, j)
  {
    var q, p := (tail + i) / CAPACITY, (tail + j) / CAPACITY;
    assert tail + i == CAPACITY * q + Spot(tail, i) && tail + j == CAPACITY * p + Spot(tail, j);
  }

  /** `n` bytes from `tail` on, wrapping round. */
  function View(b: seq<Byte>, tail: nat, n: nat): (s: seq<Byte>)
    requires |b| == CAPACITY
    ensures |s| == n
  {
    seq(n, i requires 0 <= i < n => b[Spot(tail, i)])
  }

  /** Dropping the oldest byte. */
  lemma ViewPop(b: seq<Byte>, tail: nat, n: nat)
    requires |b| == CAPACITY && n > 0 && tail < CAPACITY
    ensures View(b, tail, n) == [b[tail]] + View(b, (tail + 1) % CAPACITY, n - 1)
  {
    var next := (tail + 1) % CAPACITY;
    forall i | 0 <= i < n - 1
      ensures Spot(next, i) == Spot(tail, i + 1)
    {
      SpotNext(tail, i);
    }
    assert Spot(tail, 0) == tail;
    hide Spot;
  }

  /** Adding a byte behind the newest. */
  lemma ViewPush(b: seq<Byte>, tail: nat, n: nat, x: Byte)
    requires |b| == CAPACITY && n < CAPACITY
    ensures View(b[Spot(tail, n) := x], tail, n + 1) == View(b, tail, n) + [x]
  {
    forall i | 0 <= i < n
      ensures Spot(tail, i) != Spot(tail, n)
    {
      SpotsDiffer(tail, i, n);
    }
    hide Spot;
  }

  lemma SeqAssoc(a: seq<Byte>, x: Byte, b: seq<Byte>)
    ensures a + ([x] + b) == (a + [x]) + b
  {
  }

  class Ring {
    const buffer: array<Byte>
    var head: nat
    var tail: nat
    var len: nat
    var readers: nat
    var writers: nat

    ghost predicate Valid()
      reads this
    {
      buffer.Length == CAPACITY && tail < CAPACITY && len <= CAPACITY && head == Spot(tail, len)
    }

    /** The bytes in the ring, oldest first. */
    ghost function Contents(): (s: seq<Byte>)
      reads this, buffer
      requires Valid()
      ensures |s| == len
    {
      View(buffer[..], tail, len)
    }

    constructor ()
      ensures Valid() && fresh(buffer) && Contents() == [] && readers == 1 && writers == 1
    {
      buffer := new Byte[CAPACITY](_ => 0);
      head, tail, len, readers, writers := 0, 0, 0, 1, 1;
    }

    /** Take up to `want` bytes, unless there are none and there may be some later. */
    method TryRead(want: nat) returns (r: Taken)
      requires Valid()
      modifies this`tail, this`len
      ensures Valid()
      ensures r.Blocked? <==> old(Contents()) == [] && writers > 0
      ensures r.Blocked? ==> Contents() == old(Contents())
      ensures r.Bytes? ==> |r.out| == Min(want, |old(Contents())|) && r.out + Contents() == old(Contents())
    {
      hide Spot, View;
      if len == 0 {
        return if writers == 0 then Bytes([]) else Blocked;
      }
      ghost var before := Contents();
      ghost var b := buffer[..];
      var count := Min(len, want);
      var out: seq<Byte> := [];
      for i := 0 to count
        invariant |b| == CAPACITY && buffer[..] == b
        invariant len == old(len) && tail < CAPACITY && head == Spot(tail, len - i) && |out| == i
        invariant out + View(b, tail, len - i) == before
      {
        ViewPop(b, tail, len - i);
        SpotNext(tail, len - i - 1);
        SeqAssoc(out, b[tail], View(b, (tail + 1) % CAPACITY, len - i - 1));
        out := out + [buffer[tail]];
        tail := (tail + 1) % CAPACITY;
      }
      len := len - count;
      return Bytes(out);
    }

    /** Place as much of `data` as there is room for, if anybody can still read it. */
    method TryWrite(data: seq<Byte>) returns (r: Placed)
      requires Valid()
      modifies this`head, this`len, buffer
      ensures Valid()
      ensures r == if readers == 0 then NoReaders else Count(Min(CAPACITY - |old(Contents())|, |data|))
      ensures Contents() == old(Contents()) + if r.Count? then data[..r.n] else []
    {
      hide Spot, View;
      if readers == 0 {
        return NoReaders;
      }
      var room := CAPACITY - len;
      if room == 0 {
        return Count(0);
      }
      ghost var before := Contents();
      var count := Min(room, |data|);
      for i := 0 to count
        invariant buffer.Length == CAPACITY && tail == old(tail) && len == old(len) && head == Spot(tail, len + i)
        invariant View(buffer[..], tail, len + i) == before + data[..i]
      {
        ViewPush(buffer[..], tail, len + i, data[i]);
        SpotNext(tail, len + i);
        ghost var was := buffer[..];
        buffer[head] := data[i];
        assert buffer[..] == was[head := data[i]];
        head := (head + 1) % CAPACITY;
      }
      len := len + count;
      return Count(count);
    }
  }
}
