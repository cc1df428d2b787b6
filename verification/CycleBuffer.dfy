/**
 The growable circular byte buffer `cycle_buffer`, proved to be a FIFO byte sequence.

 Both positions range over 0..n inclusive, and full and empty are told apart by `remainSpace` alone, so the
 position arithmetic admits four alignments (see `Aligned`). Each critical section is one atomic method; the
 predicate a section waits for is its precondition.
 */
module CycleBuffers {
  import opened Bytes
  import opened Framing

  /** `(r + size) % n == w % n` for positions in 0..n, without the division. */
  predicate Aligned(r: int, w: int, size: int, n: int) {
    || w == r + size
    || w == r + size - n
    || w == r + size - 2 * n
    || w == r + size + n
  }

  /** The `size` bytes of ring `b` from position `r` on. */
  function Unroll(b: Message, r: int, size: int): (s: Message)
    requires 0 <= r <= |b| && 0 <= size <= |b|
    ensures |s| == size
  {
    if r + size <= |b| then b[r..r + size] else b[r..] + b[..r + size - |b|]
  }

  /** Ring `b` with `data` stored from position `w` on, wrapping at the end. */
  function Put(b: Message, w: int, data: Message): (b': Message)
    requires 0 <= w <= |b| && |data| <= |b|
    ensures |b'| == |b|
  {
    if w + |data| <= |b| then b[..w] + data + b[w + |data|..]
    else
      var first := |b| - w;
      data[first..] + b[|data| - first..w] + data[..first]
  }

  /** The one or two stretches of the array that hold the first `k` bytes from `r` on. */
  lemma UnrollPieces(b: Message, r: int, k: int)
    requires 0 <= r <= |b| && 0 <= k <= |b|
    ensures r + k <= |b| ==> Unroll(b, r, k) == b[r..r + k]
    ensures r + k >= |b| ==> Unroll(b, r, k) == b[r..] + b[..r + k - |b|]
  {
  }

  lemma UnrollTake(b: Message, r: int, size: int, k: int)
    requires 0 <= r <= |b| && 0 <= k <= size <= |b|
    ensures Unroll(b, r, size)[..k] == Unroll(b, r, k)
  {
  }

  lemma UnrollDrop(b: Message, r: int, size: int, k: int, r': int)
    requires 0 <= r <= |b| && 0 <= k <= size <= |b| && 0 <= r' <= |b|
    requires r' == r + k || r' == r + k - |b| || r' == r + k - 2 * |b|
    ensures Unroll(b, r, size)[k..] == Unroll(b, r', size - k)
  {
  }

  lemma UnrollAt(b: Message, r: int, size: int, i: int)
    requires 0 <= r <= |b| && 0 <= i < size <= |b|
    ensures Unroll(b, r, size)[i] == b[if r + i < |b| then r + i else r + i - |b|]
  {
  }

  lemma PutAt(b: Message, w: int, data: Message, j: int)
    requires 0 <= w <= |b| && |data| <= |b| && 0 <= j < |b|
    ensures Put(b, w, data)[j] == if w <= j < w + |data| then data[j - w]
                                  else if j < w + |data| - |b| then data[j + |b| - w]
                                  else b[j]
  {
  }

  /** Storing at the write position appends to the unrolled ring, in every alignment. */
  lemma UnrollPut(b: Message, r: int, w: int, size: int, data: Message)
    requires 0 <= r <= |b| && 0 <= w <= |b| && 0 <= size && size + |data| <= |b|
    requires Aligned(r, w, size, |b|)
    ensures Unroll(Put(b, w, data), r, size + |data|) == Unroll(b, r, size) + data
  {
    hide Unroll, Put;
    var b', total := Put(b, w, data), size + |data|;
    forall i | 0 <= i < total
      ensures Unroll(b', r, total)[i] == (Unroll(b, r, size) + data)[i]
    {
      UnrollAt(b', r, total, i);
      PutAt(b, w, data, if r + i < |b| then r + i else r + i - |b|);
      if i < size {
        UnrollAt(b, r, size, i);
      }
    }
  }

  lemma ModIsFold(p: int, n: int)
    requires 0 <= p <= 2 * n && 1 <= n
    ensures 0 <= p % n < n
    ensures p % n == p || p % n == p - n || p % n == p - 2 * n
  {
  }

  lemma ZeroOrMore(n: int, d: int)
    requires n >= 1
    ensures d >= 1 ==> n * d >= n
    ensures d <= -1 ==> n * d <= -n
  {
  }

  lemma MultipleOf(n: int, k: int)
    requires n >= 1
    ensures n * k % n == 0
  {
    var x := n * k;
    var q, r := x / n, x % n;
    assert x == n * q + r && n * (k - q) == n * k - n * q;
    ZeroOrMore(n, k - q);
  }

  /** The capacity `realloc` grows to. */
  function Grown(n: int, length: int): int
    requires n >= 1
  {
    n * (length / n + 2)
  }

  /**
   Growth is sufficient and bounded: the new capacity keeps everything and still has room for `length`
   more, it is at least doubled, it fits 32 signed bits whenever `length + 2 * n` does, and it is a multiple of the
   old one; no other number is all that.
   */
  lemma GrowthSuffices(n: int, length: int)
    requires n >= 1 && length >= 0
    ensures Grown(n, length) >= n + length + 1
    ensures Grown(n, length) >= 2 * n
    ensures Grown(n, length) <= length + 2 * n
    ensures Grown(n, length) % n == 0
  {
    MultipleOf(n, length / n + 2);
  }

  /** `d` with `src` copied over it from `at` on. */
  function Splice(d: Message, at: int, src: Message): (d': Message)
    requires 0 <= at && at + |src| <= |d|
    ensures |d'| == |d|
  {
    d[..at] + src + d[at + |src|..]
  }

  lemma SpliceTwice(d: Message, x: Message, y: Message)
    requires |x| + |y| <= |d|
    ensures Splice(Splice(d, 0, x), |x|, y) == Splice(d, 0, x + y)
  {
  }

  lemma SpliceIsPut(b: Message, w: int, data: Message)
    requires 0 <= w <= |b| && |data| <= |b|
    ensures w + |data| <= |b| ==> Splice(b, w, data) == Put(b, w, data)
    ensures w + |data| > |b| ==>
              Splice(Splice(b, w, data[..|b| - w]), 0, data[|b| - w..]) == Put(b, w, data)
  {
  }

  /** Compaction: the held bytes copied to the front of a larger array, in one piece or in two. */
  lemma SpliceCompacts(x: Message, b: Message, r: int, size: int)
    requires 0 <= r <= |b| <= |x| && 0 <= size <= |b|
    ensures r + size <= |b| ==> Splice(x, 0, b[r..r + size])[..size] == Unroll(b, r, size)
    ensures r + size <= |b| ==> Splice(x, 0, b[r..])[..size] == Unroll(b, r, size)
    ensures r + size > |b| ==>
              Splice(Splice(x, 0, b[r..]), |b| - r, b[..size - (|b| - r)])[..size] == Unroll(b, r, size)
  {
  }

  /** `memcpy` into `dst`; both bounds are obligations of the caller. */
  method MemCpy(dst: array<Byte>, at: int, src: Message)
    requires 0 <= at && at + |src| <= dst.Length
    modifies dst
    ensures dst[..] == Splice(old(dst[..]), at, src)
  {
    forall i | 0 <= i < |src| {
      dst[at + i] := src[i];
    }
  }

  class CycleBuffer {
    var rPos: int
    var wPos: int
    var n: int
    var remainSpace: int
    var buffer: array<Byte>

    ghost predicate Valid()
      reads this
    {
      && 1 <= n == buffer.Length <= INT32_MAX
      && 0 <= rPos <= n && 0 <= wPos <= n && 0 <= remainSpace <= n
      && Aligned(rPos, wPos, n - remainSpace, n)
    }

    /** The buffered bytes, oldest first. */
    ghost function Contents(): (s: Message)
      requires Valid()
      reads this, buffer
      ensures |s| == n - remainSpace
    {
      Unroll(buffer[..], rPos, n - remainSpace)
    }

    /** `length` more bytes can be held, after growing if need be, without leaving 32-bit arithmetic. */
    predicate CanHold(length: int)
      reads this
    {
      length <= remainSpace || (n >= 1 && Grown(n, length) <= INT32_MAX)
    }

    /** Growth is refused only near the limit: not if the length and twice the capacity fit 32 bits. */
    lemma HoldsAtLeast(length: int)
      requires Valid() && 0 <= length && length + 2 * n <= INT32_MAX
      ensures CanHold(length)
    {
      GrowthSuffices(n, length);
    }

    constructor (capacity: int)
      requires 1 <= capacity <= INT32_MAX
      ensures Valid() && fresh(buffer)
      ensures Contents() == [] && n == capacity
    {
      n, remainSpace := capacity, capacity;
      rPos, wPos := 0, 0;
      buffer := new Byte[capacity];
    }

    method Reset()
      requires Valid()
      modifies this
      ensures Valid() && buffer == old(buffer) && n == old(n)
      ensures Contents() == []
    {
      rPos, wPos := 0, 0;
      remainSpace := n;
    }

    method CanRead(length: int) returns (ok: bool)
      requires Valid()
      ensures ok <==> length <= |Contents()|
    {
      ok := n - remainSpace >= length;
    }

    method Empty() returns (empty: bool)
      requires Valid()
      ensures empty <==> Contents() == []
    {
      empty := n == remainSpace;
    }

    method Peek(data: array<Byte>, length: int)
      requires Valid() && data != buffer
      requires 0 <= length <= |Contents()| && length <= data.Length
      modifies data
      ensures data[..] == Splice(old(data[..]), 0, Contents()[..length])
    {
      hide Splice, Unroll;
      var b := buffer[..];
      UnrollPieces(b, rPos, length);
      if rPos >= wPos {
        if rPos <= n - length {
          MemCpy(data, 0, b[rPos..rPos + length]);
        } else {
          var first := n - rPos;
          MemCpy(data, 0, b[rPos..]);
          MemCpy(data, first, b[..length - first]);
          SpliceTwice(old(data[..]), b[rPos..], b[..length - first]);
        }
      } else {
        MemCpy(data, 0, b[rPos..rPos + length]);
      }
      assert data[..] == Splice(old(data[..]), 0, Unroll(b, rPos, length));
      UnrollTake(b, rPos, n - remainSpace, length);
    }

    /** Copies as `Peek` does, branch by branch, and moves the read position past the bytes copied. */
    method Read(data: array<Byte>, length: int)
      requires Valid() && data != buffer
      requires 0 <= length <= |Contents()| && length <= data.Length
      modifies this, data
      ensures Valid() && buffer == old(buffer) && n == old(n)
      ensures data[..] == Splice(old(data[..]), 0, old(Contents())[..length])
      ensures Contents() == old(Contents())[length..]
    {
      hide Splice, Unroll;
      Peek(data, length);
      ghost var r, b := rPos, buffer[..];
      if rPos >= wPos && rPos > n - length {
        rPos := length - (n - rPos);
      } else {
        rPos := rPos + length;
      }
      UnrollDrop(b, r, n - remainSpace, length, rPos);
      remainSpace := remainSpace + length;
    }

    method Realloc(length: int)
      requires Valid() && 0 <= length && CanHold(length)
      modifies this
      ensures Valid()
      ensures Contents() == old(Contents())
      ensures remainSpace >= length
      ensures if old(remainSpace) >= length then buffer == old(buffer) && n == old(n)
              else fresh(buffer) && n == Grown(old(n), length)
    {
      if remainSpace >= length {
        return;
      }
      GrowthSuffices(n, length);
      var newN := Grown(n, length);
      var newBuffer := new Byte[newN];
      var haveSize := n - remainSpace;
      CompactInto(newBuffer);
      n := newN;
      remainSpace := n - haveSize;
      rPos := 0;
      wPos := haveSize;
      buffer := newBuffer;
    }

    /** The copying of `realloc`: the held bytes move to the front of the new array. */
    method CompactInto(newBuffer: array<Byte>)
      requires Valid() && newBuffer != buffer && newBuffer.Length >= n
      modifies newBuffer
      ensures newBuffer[..|Contents()|] == Contents()
    {
      hide Splice, Unroll;
      var b := buffer[..];
      var haveSize := n - remainSpace;
      SpliceCompacts(newBuffer[..], b, rPos, haveSize);
      if wPos > rPos {
        MemCpy(newBuffer, 0, b[rPos..rPos + haveSize]);
      } else {
        // Copies to the end of the old array even when fewer bytes are held.
        var first := n - rPos;
        MemCpy(newBuffer, 0, b[rPos..]);
        if haveSize - first > 0 {
          MemCpy(newBuffer, first, b[..haveSize - first]);
        }
      }
      assert buffer[..] == b;
      assert newBuffer[..haveSize] == newBuffer[..][..haveSize];
    }

    method Write(data: Message)
      requires Valid() && CanHold(|data|)
      modifies this, buffer
      ensures Valid()
      ensures Contents() == old(Contents()) + data
      ensures if old(remainSpace) >= |data| then buffer == old(buffer) && n == old(n)
              else fresh(buffer) && n == Grown(old(n), |data|)
    {
      Realloc(|data|);
      Append(data);
    }

    /** The copying section of `write`, entered once there is room. */
    method Append(data: Message)
      requires Valid() && |data| <= remainSpace
      modifies this, buffer
      ensures Valid() && buffer == old(buffer) && n == old(n)
      ensures Contents() == old(Contents()) + data
    {
      hide Splice, Unroll, Put;
      ghost var b := buffer[..];
      SpliceIsPut(b, wPos, data);
      UnrollPut(b, rPos, wPos, n - remainSpace, data);
      var length := |data|;
      if wPos >= rPos {
        if wPos <= n - length {
          MemCpy(buffer, wPos, data);
          wPos := wPos + length;
        } else {
          var first := n - wPos;
          MemCpy(buffer, wPos, data[..first]);
          MemCpy(buffer, 0, data[first..]);
          wPos := length - first;
        }
      } else {
        MemCpy(buffer, wPos, data);
        wPos := wPos + length;
      }
      remainSpace := remainSpace - length;
      assert buffer[..] == Put(b, old(wPos), data);
    }

    /** The four length bytes at the read position, which may straddle the end of the array. */
    method ReadLength() returns (len: int)
      requires Valid() && |Contents()| > PREFIX
      ensures len == Int32Of(Contents()[..HEADER])
    {
      if rPos < wPos {
        len := Int32Of(buffer[rPos..rPos + HEADER]);
      } else if rPos <= n - HEADER {
        len := Int32Of(buffer[rPos..rPos + HEADER]);
      } else {
        var first := n - rPos;
        len := Int32Of(buffer[rPos..rPos + first] + buffer[..HEADER - first]);
        assert Contents()[..HEADER] == buffer[rPos..rPos + first] + buffer[..HEADER - first];
      }
    }

    method CanReadFrame() returns (ok: bool)
      requires Valid()
      ensures ok <==> |Contents()| > PREFIX && Int32Of(Contents()[..HEADER]) <= |Contents()|
    {
      if n - remainSpace <= PREFIX {
        return false;
      }
      var len := ReadLength();
      return n - remainSpace >= len;
    }

    /** The framed `read`; unlike the plain one it brings the read position back with `% n`. */
    method ReadFrame() returns (r: FrameResult)
      requires Valid()
      modifies this
      ensures Valid() && buffer == old(buffer) && n == old(n)
      ensures r == DecodeHead(old(Contents()))
      ensures Contents() == AfterHead(old(Contents()))
    {
      if n - remainSpace <= PREFIX {
        return NoFrame;
      }
      hide ParseFrame, Unroll;
      var len := ReadLength();
      if len < 0 {
        return Corrupt;
      }
      if n - remainSpace < len || len <= PREFIX {
        return NoFrame;
      }
      var whole := CopyOut(len);
      r := ParseFrame(whole);
      if r.Got? {
        Consume(len);
      }
    }

    /** The copying of the framed `read`: the first `len` bytes, in one stretch or two. */
    method CopyOut(len: int) returns (whole: Message)
      requires Valid() && 0 < len <= |Contents()|
      ensures whole == Contents()[..len]
    {
      hide Unroll;
      var b := buffer[..];
      UnrollPieces(b, rPos, len);
      UnrollTake(b, rPos, n - remainSpace, len);
      if rPos < wPos || n - rPos >= len {
        whole := b[rPos..rPos + len];
      } else {
        whole := b[rPos..] + b[..len - (n - rPos)];
      }
    }

    /** The position update of the framed `read`. */
    method Consume(len: int)
      requires Valid() && 0 <= len <= |Contents()|
      modifies this
      ensures Valid() && buffer == old(buffer) && n == old(n)
      ensures Contents() == old(Contents())[len..]
    {
      hide Unroll;
      ModIsFold(rPos + len, n);
      UnrollDrop(buffer[..], rPos, n - remainSpace, len, (rPos + len) % n);
      rPos := (rPos + len) % n;
      remainSpace := remainSpace + len;
    }
  }

  /**
   A framing client of the buffer: it writes the chunks and tries the reads of `ops` in order, and stops only at a
   chunk for which the capacity would leave 32-bit arithmetic. Its results are those of `Framing.Run`.
   */
  method RunFraming(b: CycleBuffer, ops: seq<Op>) returns (results: seq<FrameResult>, count: nat)
    requires b.Valid()
    modifies b, b.buffer
    ensures b.Valid() && count <= |ops|
    ensures Trace(results, b.Contents()) == Run(old(b.Contents()), ops[..count])
    ensures count < |ops| ==> ops[count].Chunk? && |ops[count].bytes| + 2 * b.n > INT32_MAX
  {
    results, count := [], 0;
    ghost var first := b.Contents();
    assert Run(first, ops[..0]) == Trace([], first);
    hide CycleBuffer.Contents, CycleBuffer.Valid, DecodeHead, AfterHead, CycleBuffer.CanHold, Run;
    while count < |ops|
      invariant count <= |ops| && b.Valid()
      invariant b.buffer == old(b.buffer) || fresh(b.buffer)
      invariant Trace(results, b.Contents()) == Run(first, ops[..count])
    {
      RunNext(first, ops, count);
      match ops[count] {
        case Chunk(bytes) =>
          if !b.CanHold(|bytes|) {
            if |bytes| + 2 * b.n <= INT32_MAX {
              b.HoldsAtLeast(|bytes|);
            }
            return;
          }
          b.Write(bytes);
        case TryRead =>
          var r := b.ReadFrame();
          results := results + [r];
      }
      count := count + 1;
    }
  }

  lemma RunNext(s: Message, ops: seq<Op>, k: nat)
    requires k < |ops|
    ensures var t := Run(s, ops[..k]);
            Run(s, ops[..k + 1]) == match ops[k]
                                    case Chunk(bytes) => Trace(t.results, t.left + bytes)
                                    case TryRead => Trace(t.results + [DecodeHead(t.left)], AfterHead(t.left))
  {
    hide DecodeHead, AfterHead;
    assert ops[..k + 1] == ops[..k] + [ops[k]];
    RunAppend(s, ops[..k], [ops[k]]);
    assert [ops[k]][1..] == [];
  }
}
