/** Reading a stream of unknown length into a buffer that doubles when it is full. */
module StreamBuffer {

  /** realloc to twice the length. */
  method Doubled(buffer: array<bv8>) returns (bigger: array<bv8>)
    requires buffer.Length > 0
    ensures fresh(bigger) && bigger.Length == 2 * buffer.Length
    ensures bigger[..buffer.Length] == buffer[..]
  {
    bigger := new bv8[2 * buffer.Length];
    for i := 0 to buffer.Length
      invariant bigger[..i] == buffer[..i]
    {
      bigger[i] := buffer[i];
      assert buffer[..i + 1] == buffer[..i] + [buffer[i]];
      assert bigger[..i + 1] == bigger[..i] + [bigger[i]];
    }
  }

  /** The capacity reached by doubling from the first length until n bytes fit. */
  function Capacity(first: nat, n: nat): (c: nat)
    requires first > 0
    ensures n <= c && first <= c && (c == first || c < 2 * n)
    decreases n - first
  {
    if n <= first then first else Capacity(2 * first, n)
  }

  lemma {:induction false} CapacityGrows(first: nat, m: nat, n: nat)
    requires first > 0 && m <= n
    ensures Capacity(first, m) <= Capacity(first, n)
    ensures Capacity(first, n) == if n <= Capacity(first, m) then Capacity(first, m)
                                  else Capacity(2 * Capacity(first, m), n)
    decreases m - first
  {
    if first < m {
      CapacityGrows(2 * first, m, n);
    }
  }

  /** One more byte. */
  method Put(buf: array<bv8>, i: nat, stream: seq<bv8>)
    requires i < buf.Length && i < |stream| && buf[..i] == stream[..i]
    modifies buf
    ensures buf[..i + 1] == stream[..i + 1]
  {
    buf[i] := stream[i];
    assert stream[..i + 1] == stream[..i] + [stream[i]];
    assert buf[..i + 1] == buf[..i] + [buf[i]];
  }

  lemma StartsWith(first: nat)
    requires first > 0
    ensures forall n: nat :: n <= first ==> Capacity(first, n) == first
  {
  }

  /** bufferFromStream, where blocks of up to largest bytes can be had: exactly the bytes of the stream, in a buffer
      that is at most twice as long as it has to be, with fewer than two copies per byte in all regrowth; or nothing,
      exactly when such a buffer cannot be had. The first length has to be positive, as doubling nothing gives
      nothing. */
  method BufferFromStream(stream: seq<bv8>, dictLength: nat, largest: nat)
    returns (buffer: array?<bv8>, size: nat, ghost copied: nat)
    requires dictLength > 0
    ensures buffer != null <==> Capacity(dictLength, |stream|) <= largest
    ensures buffer != null ==>
              && fresh(buffer) && size == |stream| <= buffer.Length && buffer[..size] == stream
              && buffer.Length == Capacity(dictLength, |stream|)
    ensures buffer != null ==> copied == buffer.Length - dictLength && (copied == 0 || copied < 2 * |stream|)
  {
    hide Capacity;
    copied := 0;
    StartsWith(dictLength);
    CapacityGrows(dictLength, 0, |stream|);
    if dictLength > largest {
      return null, 0, copied;
    }
    var buf := new bv8[dictLength];
    var i := 0;
    while i < |stream|
      invariant 0 <= i <= |stream| && i <= buf.Length <= largest && fresh(buf)
      invariant buf[..i] == stream[..i]
      invariant copied == buf.Length - dictLength
      invariant buf.Length == Capacity(dictLength, i)
    {
      CapacityGrows(dictLength, i, i + 1);
      CapacityGrows(dictLength, i + 1, |stream|);
      if i == buf.Length {
        StartsWith(2 * i);
        if 2 * buf.Length > largest {
          return null, 0, copied;
        }
        copied := copied + buf.Length;
        buf := Doubled(buf);
      }
      Put(buf, i, stream);
      i := i + 1;
    }
    size := i;
    assert stream[..size] == stream;
    buffer := buf;
  }
}
