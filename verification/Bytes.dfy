/** Octets, big-endian integers and the bounds-checked buffer accessors of amqp_private.h. */
module Bytes {
  type byte = x: int | 0 <= x < 0x100
  type u16 = x: int | 0 <= x < 0x1_0000
  type u32 = x: int | 0 <= x < 0x1_0000_0000
  type u64 = x: int | 0 <= x < 0x1_0000_0000_0000_0000
  type i32 = x: int | -0x8000_0000 <= x < 0x8000_0000

  // Every buffer is shorter than this, so that an `int` offset stays an `int`
  // when an accessor adds the width of a field to it.
  const MAX_LENGTH := 0x7FFF_FF00

  // EWRAP is not an errno: it marks an unsigned size computation that wraps
  // around (or an over-wide shift) in C; what C does afterwards is not modelled.
  // EABORT stands for a failed amqp_assert.
  datatype Error = EFAULT | EINVAL | ENOENT | EWRAP | EABORT

  datatype Result<+T> = Ok(value: T) | Err(error: Error) {
    predicate IsFailure() {
      Err?
    }

    function PropagateFailure<U>(): Result<U>
      requires Err?
    {
      Err(error)
    }

    function Extract(): T
      requires Ok?
    {
      value
    }
  }

  // Big-endian images, as htons and htonl produce them.
  function Be16(v: u16): (s: seq<byte>)
    ensures |s| == 2
  {
    [v / 0x100, v % 0x100]
  }

  function Be32(v: u32): (s: seq<byte>)
    ensures |s| == 4
  {
    Be16(v / 0x1_0000) + Be16(v % 0x1_0000)
  }

  function Be64(v: u64): (s: seq<byte>)
    ensures |s| == 8
  {
    Be32(v / 0x1_0000_0000) + Be32(v % 0x1_0000_0000)
  }

  function U16(s: seq<byte>, o: nat): u16
    requires o + 2 <= |s|
  {
    (s[o] as int) * 0x100 + s[o + 1]
  }

  function U32(s: seq<byte>, o: nat): u32
    requires o + 4 <= |s|
  {
    (U16(s, o) as int) * 0x1_0000 + U16(s, o + 2)
  }

  function U64(s: seq<byte>, o: nat): u64
    requires o + 8 <= |s|
  {
    (U32(s, o) as int) * 0x1_0000_0000 + U32(s, o + 4)
  }

  // The accessors D_8, D_16, D_32, D_64 and D_BYTES: reading past the end is EFAULT.
  function D8(s: seq<byte>, o: nat): Result<byte> {
    if o + 1 > |s| then Err(EFAULT) else Ok(s[o])
  }

  function D16(s: seq<byte>, o: nat): Result<u16> {
    if o + 2 > |s| then Err(EFAULT) else Ok(U16(s, o))
  }

  function D32(s: seq<byte>, o: nat): Result<u32> {
    if o + 4 > |s| then Err(EFAULT) else Ok(U32(s, o))
  }

  function D64(s: seq<byte>, o: nat): Result<u64> {
    if o + 8 > |s| then Err(EFAULT) else Ok(U64(s, o))
  }

  function DBytes(s: seq<byte>, o: nat, n: nat): Result<seq<byte>> {
    if o + n > |s| then Err(EFAULT) else Ok(s[o..o + n])
  }

  // The octets t stand in s from position o on.
  ghost predicate At(s: seq<byte>, o: nat, t: seq<byte>) {
    o + |t| <= |s| && s[o..o + |t|] == t
  }

  // Only positions lo..hi may differ between the two buffer contents.
  ghost predicate SameOutside(a: seq<byte>, b: seq<byte>, lo: int, hi: int) {
    |a| == |b| && forall i :: 0 <= i < |a| && !(lo <= i < hi) ==> a[i] == b[i]
  }

  lemma AtSplit(s: seq<byte>, o: nat, a: seq<byte>, b: seq<byte>)
    ensures At(s, o, a + b) <==> At(s, o, a) && At(s, o + |a|, b)
  {
    if At(s, o, a + b) {
      assert s[o..o + |a|] == s[o..o + |a + b|][..|a|];
      assert s[o + |a|..o + |a| + |b|] == s[o..o + |a + b|][|a|..];
    }
    if At(s, o, a) && At(s, o + |a|, b) {
      assert s[o..o + |a + b|] == s[o..o + |a|] + s[o + |a|..o + |a| + |b|];
    }
  }

  lemma At8(s: seq<byte>, o: nat, v: byte)
    ensures At(s, o, [v]) <==> o + 1 <= |s| && s[o] == v
  {
    if o + 1 <= |s| {
      assert s[o..o + 1] == [s[o]];
    }
  }

  lemma At16(s: seq<byte>, o: nat, v: u16)
    ensures At(s, o, Be16(v)) <==> o + 2 <= |s| && U16(s, o) == v
  {
    if o + 2 <= |s| {
      assert s[o..o + 2] == [s[o], s[o + 1]];
      assert Be16(v)[0] == v / 0x100 && Be16(v)[1] == v % 0x100;
    }
  }

  lemma At32(s: seq<byte>, o: nat, v: u32)
    ensures At(s, o, Be32(v)) <==> o + 4 <= |s| && U32(s, o) == v
  {
    AtSplit(s, o, Be16(v / 0x1_0000), Be16(v % 0x1_0000));
    At16(s, o, v / 0x1_0000);
    At16(s, o + 2, v % 0x1_0000);
  }

  lemma At64(s: seq<byte>, o: nat, v: u64)
    ensures At(s, o, Be64(v)) <==> o + 8 <= |s| && U64(s, o) == v
  {
    AtSplit(s, o, Be32(v / 0x1_0000_0000), Be32(v % 0x1_0000_0000));
    At32(s, o, v / 0x1_0000_0000);
    At32(s, o + 4, v % 0x1_0000_0000);
  }

  /// Writing

  // The buffer content s after t has been copied to position o.
  function Splice(s: seq<byte>, o: nat, t: seq<byte>): (r: seq<byte>)
    requires o + |t| <= |s|
    ensures |r| == |s|
  {
    s[..o] + t + s[o + |t|..]
  }

  lemma SpliceNothing(s: seq<byte>, o: nat)
    requires o <= |s|
    ensures Splice(s, o, []) == s
  {
  }

  lemma SameItself(s: seq<byte>, lo: int, hi: int)
    ensures SameOutside(s, s, lo, hi)
  {
  }

  lemma SameWiden(a: seq<byte>, b: seq<byte>, lo: int, hi: int, lo': int, hi': int)
    requires SameOutside(a, b, lo, hi) && lo' <= lo && hi <= hi'
    ensures SameOutside(a, b, lo', hi')
  {
  }

  lemma SpliceAt(s: seq<byte>, o: nat, t: seq<byte>)
    requires o + |t| <= |s|
    ensures At(Splice(s, o, t), o, t) && SameOutside(s, Splice(s, o, t), o, o + |t|)
  {
  }

  // First x, then y right behind it.
  lemma SpliceBehind(s: seq<byte>, o: nat, x: seq<byte>, y: seq<byte>)
    requires o + |x| + |y| <= |s|
    ensures Splice(Splice(s, o, x), o + |x|, y) == Splice(s, o, x + y)
  {
  }

  // First y, then x patched in right before it.
  lemma SpliceBefore(s: seq<byte>, o: nat, x: seq<byte>, y: seq<byte>)
    requires o + |x| + |y| <= |s|
    ensures Splice(Splice(s, o + |x|, y), o, x) == Splice(s, o, x + y)
  {
  }

  // Partial writes behind x touch the range from o on only.
  lemma SpliceThen(s: seq<byte>, o: nat, x: seq<byte>, b: seq<byte>, hi: int)
    requires o + |x| <= |s| && o + |x| <= hi
    requires SameOutside(Splice(s, o, x), b, o + |x|, hi)
    ensures SameOutside(s, b, o, hi)
  {
    SpliceAt(s, o, x);
  }

  lemma SpliceItself(s: seq<byte>, o: nat, t: seq<byte>, hi: int)
    requires o + |t| <= |s| && o + |t| <= hi
    ensures SameOutside(s, Splice(s, o, t), o, hi)
  {
  }

  /** E_8, E_16, E_32 and E_BYTES: copy v to buf[o..] unless it would pass the limit. */
  method Put(buf: array<byte>, limit: nat, o: nat, v: seq<byte>) returns (ok: bool)
    requires limit <= buf.Length
    modifies buf
    ensures ok <==> o + |v| <= limit
    ensures buf[..] == if ok then Splice(old(buf[..]), o, v) else old(buf[..])
  {
    ok := o + |v| <= limit;
    if ok {
      forall i | 0 <= i < |v| {
        buf[o + i] := v[i];
      }
    }
  }

  /** E_64 is two E_32: when only the first half fits, it stays written. */
  method Put64(buf: array<byte>, limit: nat, o: nat, v: u64) returns (ok: bool)
    requires limit <= buf.Length
    modifies buf
    ensures ok <==> o + 8 <= limit
    ensures if ok then buf[..] == Splice(old(buf[..]), o, Be64(v)) else SameOutside(old(buf[..]), buf[..], o, limit)
  {
    ghost var was, high := buf[..], Be32(v / 0x1_0000_0000);
    ok := Put(buf, limit, o, Be32(v / 0x1_0000_0000));
    if ok {
      SpliceAt(was, o, high);
      ok := Put(buf, limit, o + 4, Be32(v % 0x1_0000_0000));
      if ok {
        SpliceBehind(was, o, high, Be32(v % 0x1_0000_0000));
      }
    }
  }
}
