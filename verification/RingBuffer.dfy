// The ring-buffer writer: a bounded byte queue of one byte less than its size, written in at most two pieces,
// while a reader may move on between them.

module RingBuffers {
  import opened Dma

  // The unread bytes between the two indices.
  function Unread(size: nat, read: nat, write: nat): int { if read <= write then write - read else size - read + write }

  function UnreadBytes(data: seq<byte>, read: nat, write: nat): (q: seq<byte>)
    requires read < |data| && write < |data|
    ensures |q| == Unread(|data|, read, write)
  {
    if read <= write then data[read..write] else data[read..] + data[..write]
  }

  // The bytes that fit in one piece after `write`, as a writer computes them from the read index it saw.
  function Tail(size: nat, read: nat, write: nat): int {
    if read > write then read - 1 - write else if read != 0 then size - write else size - 1 - write
  }

  function Min(a: int, b: int): int { if a < b then a else b }

  function Next(size: nat, index: nat, n: nat): nat {
    if index + n == size then 0 else index + n
  }

  // Advancing the read index by k of the unread bytes.
  function Advanced(size: nat, read: nat, k: nat): nat {
    if read + k >= size then read + k - size else read + k
  }

  /** The reader's step: it takes the first bytes of the queue and leaves the rest. */
  lemma ReadTakesFirst(data: seq<byte>, read: nat, write: nat, k: nat)
    requires read < |data| && write < |data| && k <= Unread(|data|, read, write)
    ensures Advanced(|data|, read, k) < |data|
    ensures UnreadBytes(data, Advanced(|data|, read, k), write) == UnreadBytes(data, read, write)[k..]
  {
    var q, r := UnreadBytes(data, read, write), Advanced(|data|, read, k);
    forall i | 0 <= i < |q| - k ensures UnreadBytes(data, r, write)[i] == q[k + i] {}
  }

  /** One piece, sized by a read index the reader may have left behind: it is appended, the unread bytes stay, and the
      ring does not become full enough to look empty. */
  lemma PieceAppends(data: seq<byte>, data': seq<byte>, read: nat, seen: nat, write: nat, piece: seq<byte>)
    requires read < |data| && seen < |data| && write < |data| && |data'| == |data|
    requires Unread(|data|, read, write) <= Unread(|data|, seen, write)
    requires |piece| <= Tail(|data|, seen, write)
    requires data' == data[..write] + piece + data[write + |piece|..]
    ensures Next(|data|, write, |piece|) < |data|
    ensures UnreadBytes(data', read, Next(|data|, write, |piece|)) == UnreadBytes(data, read, write) + piece
    ensures Unread(|data|, read, write) + |piece| <= |data| - 1
  {
  }

  lemma NoTailIsFull(size: nat, read: nat, write: nat)
    requires read < size && write < size
    ensures 0 <= Tail(size, read, write) && (Tail(size, read, write) == 0 <==> Unread(size, read, write) == size - 1)
    ensures 0 <= Unread(size, read, write) <= size - 1
  {
  }

  // Another piece of the buffer after the first `total` bytes.
  lemma NextPiece(q: seq<byte>, taken: seq<byte>, base: seq<byte>, buf: seq<byte>, total: nat, n: nat)
    requires total + n <= |buf| && taken + q == base + buf[..total]
    ensures taken + (q + buf[total..][..n]) == base + buf[..total + n]
  {
    assert taken + (q + buf[total..][..n]) == taken + q + buf[total..][..n];
    assert buf[..total] + buf[total..][..n] == buf[..total + n];
  }

  lemma Regroup(taken: seq<byte>, bytes: seq<byte>, rest: seq<byte>, q: seq<byte>)
    requires bytes + rest == q
    ensures taken + bytes + rest == taken + q
  {
  }

  class RingBuffer {
    const data: array<byte>
    var read: nat
    var write: nat

    ghost predicate Valid()
      reads this
    {
      read < data.Length && write < data.Length
    }

    ghost function Queue(): seq<byte>
      requires Valid()
      reads this, data
    {
      UnreadBytes(data[..], read, write)
    }

    // memcpy into the buffer
    method CopyIn(at: nat, bytes: seq<byte>)
      requires at + |bytes| <= data.Length
      modifies data
      ensures data[..] == old(data[..at]) + bytes + old(data[at + |bytes|..])
    {
      for i := 0 to |bytes|
        invariant forall j :: 0 <= j < data.Length ==>
                    data[j] == if at <= j < at + i then bytes[j - at] else old(data[j])
      {
        data[at + i] := bytes[i];
      }
    }

    /** xrp_rb_write_some; `seen` is the read index at the time it was looked at, which the reader may since have
        passed. */
    method WriteSome(buf: seq<byte>, seen: nat) returns (tail: nat)
      requires Valid() && seen < data.Length && |Queue()| <= Unread(data.Length, seen, write)
      modifies this`write, data
      ensures Valid() && tail == Min(|buf|, Tail(data.Length, seen, old(write)))
      ensures Queue() == old(Queue()) + buf[..tail] && write == Next(data.Length, old(write), tail)
    {
      var n := if seen > write then seen - 1 - write else if seen != 0 then data.Length - write
      else data.Length - 1 - write;
      tail := if |buf| < n then |buf| else n;
      ghost var before := data[..];
      CopyIn(write, buf[..tail]);
      PieceAppends(before, data[..], read, seen, write, buf[..tail]);
      hide UnreadBytes;
      write := write + tail;
      if write == data.Length { write := 0; }
    }

    /** The reader moves on by some of the unread bytes. */
    method ReaderTakes(k: nat) returns (bytes: seq<byte>)
      requires Valid() && k <= |Queue()|
      modifies this`read
      ensures Valid() && bytes == old(Queue())[..k] && Queue() == old(Queue())[k..] && write == old(write)
    {
      ReadTakesFirst(data[..], read, write, k);
      bytes := if read + k <= data.Length then data[read..read + k] else data[read..] + data[..read + k - data.Length];
      read := if read + k >= data.Length then read + k - data.Length else read + k;
    }

    // The reader moves on by k, or by all there is.
    method ReaderMoves(k: nat) returns (bytes: seq<byte>)
      requires Valid()
      modifies this`read
      ensures Valid() && bytes + Queue() == old(Queue()) && |Queue()| <= Unread(data.Length, old(read), write)
    {
      var unread := if read <= write then write - read else data.Length - read + write;
      bytes := ReaderTakes(if k <= unread then k else unread);
    }

    /** xrp_rb_write with a quiet reader: as much as there is room for, in order. */
    method Write(buf: seq<byte>) returns (total: nat)
      requires Valid()
      modifies this`write, data
      ensures Valid() && total == Min(|buf|, data.Length - 1 - |old(Queue())|)
      ensures Queue() == old(Queue()) + buf[..total]
    {
      total := 0;
      hide UnreadBytes, Tail, Unread;
      NoTailIsFull(data.Length, read, write);
      assert [] + Queue() == Queue() + buf[..0];
      while total < |buf|
        invariant Valid() && total <= |buf| && [] + Queue() == old(Queue()) + buf[..total]
                  && |Queue()| <= data.Length - 1
        decreases |buf| - total
      {
        NoTailIsFull(data.Length, read, write);
        ghost var q := Queue();
        var n := WriteSome(buf[total..], read);
        NextPiece(q, [], old(Queue()), buf, total, n);
        NoTailIsFull(data.Length, read, write);
        if n == 0 { break; }
        total := total + n;
      }
    }

    /** xrp_rb_write while the reader moves on, by moves[i] bytes (as far as there are as many) after the i-th piece has
        looked at the read index: nothing is lost, repeated or reordered, and no less is written than with a quiet
        reader. */
    method WriteWhileRead(buf: seq<byte>, moves: seq<nat>) returns (total: nat, ghost taken: seq<byte>)
      requires Valid()
      modifies this, data
      ensures Valid() && Min(|buf|, data.Length - 1 - |old(Queue())|) <= total <= |buf|
              && taken + Queue() == old(Queue()) + buf[..total]
    {
      total, taken := 0, [];
      var piece := 0;
      hide UnreadBytes, Tail;
      assert taken + Queue() == Queue() + buf[..0];
      while total < |buf|
        invariant Valid() && total <= |buf| && taken + Queue() == old(Queue()) + buf[..total]
        decreases |buf| - total
      {
        var seen := read;
        ghost var q := Queue();
        var bytes := ReaderMoves(if piece < |moves| then moves[piece] else 0);
        Regroup(taken, bytes, Queue(), q);
        taken := taken + bytes;
        piece := piece + 1;
        q := Queue();
        NoTailIsFull(data.Length, seen, write);
        var n := WriteSome(buf[total..], seen);
        NextPiece(q, taken, old(Queue()), buf, total, n);
        if n == 0 {
          // the ring was full when the read index was looked at
          assert |taken| + |q| == |old(Queue())| + total;
          break;
        }
        total := total + n;
      }
    }
  }
}
