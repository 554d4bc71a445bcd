/** `internal/sensitive/sensitive.go`: a byte buffer that leaves zeroes behind wherever it has been. */
module Sensitive {
  type Byte = b: int | 0 <= b < 256 witness 0

  /** A slice that starts its backing array: the array's length is the capacity. */
  datatype Slice = Slice(data: array<Byte>, len: nat) {
    predicate Valid() {
      len <= data.Length
    }
  }

  /** The first `n` bytes of an array have been overwritten. */
  ghost predicate IsZero(a: array<Byte>, n: nat)
    reads a
  {
    n <= a.Length && forall i | 0 <= i < n :: a[i] == 0
  }

  /** The runtime's append: in place while the capacity lasts, otherwise into a new, larger array.
      Where `moves` is false the result shares the array it was given. */
  method AppendBytes(s: Slice, b: seq<Byte>, growth: nat) returns (r: Slice)
    requires s.Valid()
    modifies s.data
    ensures r.Valid() && r.len == s.len + |b|
    ensures r.data[..r.len] == old(s.data[..s.len]) + b
    ensures if s.len + |b| <= s.data.Length then r.data == s.data && s.data[r.len..] == old(s.data[r.len..])
            else fresh(r.data) && s.data[..] == old(s.data[..])
  {
    var n := s.len + |b|;
    if n <= s.data.Length {
      for i := 0 to |b|
        invariant s.data[..s.len + i] == old(s.data[..s.len]) + b[..i]
        invariant s.data[s.len + i..] == old(s.data[s.len + i..])
      {
        s.data[s.len + i] := b[i];
      }
      return Slice(s.data, n);
    }
    var moved := new Byte[n + growth](i requires 0 <= i reads s.data =>
      if i < s.len then s.data[i] else if i < n then b[i - s.len] else 0);
    r := Slice(moved, n);
    assert moved[..n] == old(s.data[..s.len]) + b;
  }

  /** `Sensitive` with its `meta`. */
  class Buffer {
    var buf: Slice
    /** The arrays the buffer has been moved out of, and how much of each it had used. */
    ghost var left: map<array<Byte>, nat>

    ghost predicate Valid()
      reads this, buf.data, left.Keys
    {
      && buf.Valid() && buf.data !in left
      && forall a | a in left :: IsZero(a, left[a])
    }

    ghost function Visible(): (r: seq<Byte>)
      requires buf.Valid()
      reads this, buf.data
    {
      buf.data[..buf.len]
    }

    constructor (buf: Slice)
      requires buf.Valid()
      ensures Valid() && this.buf == buf && left == map[]
    {
      this.buf := buf;
      this.left := map[];
    }

    /** zeroMeta */
    method Zero()
      requires Valid()
      modifies buf.data
      ensures Valid() && IsZero(buf.data, buf.len)
      ensures buf.data[buf.len..] == old(buf.data[buf.len..])
    {
      for i := 0 to buf.len
        invariant forall k | 0 <= k < i :: buf.data[k] == 0
        invariant buf.data[buf.len..] == old(buf.data[buf.len..])
        invariant forall a | a in left :: IsZero(a, left[a])
      {
        buf.data[i] := 0;
      }
    }

    /** What is written is appended to what is visible, and if the buffer has to move, everything it
        ever held in the old place is overwritten; the places left earlier stay zero. The source looks at
        the first byte of the buffer to see whether it has moved, and panics if there is none. */
    method Write(b: seq<Byte>, growth: nat)
      requires Valid() && buf.len > 0
      modifies this, buf.data
      ensures Valid() && Visible() == old(Visible()) + b
      ensures if old(buf.len) + |b| <= old(buf.data).Length
              then buf.data == old(buf.data) && left == old(left)
              else fresh(buf.data) && left == old(left)[old(buf.data) := old(buf.len)]
    {
      var newBuf := AppendBytes(buf, b, growth);
      if newBuf.data != buf.data {
        Zero();
        left := left[buf.data := buf.len];
        buf := newBuf;
        return;
      }
      buf := newBuf;
    }

    method Append(other: Buffer, growth: nat)
      requires Valid() && buf.len > 0 && other.Valid()
      modifies this, buf.data
      ensures Valid() && Visible() == old(Visible()) + old(other.Visible())
      ensures if old(buf.len + other.buf.len) <= old(buf.data).Length
              then buf.data == old(buf.data) && left == old(left)
              else fresh(buf.data) && left == old(left)[old(buf.data) := old(buf.len)]
    {
      Write(other.buf.data[..other.buf.len], growth);
    }

    /** Clear overwrites what is visible: nothing the buffer ever held is left anywhere. */
    method Clear()
      requires Valid()
      modifies buf.data
      ensures Valid() && IsZero(buf.data, buf.len)
    {
      Zero();
    }
  }
}
