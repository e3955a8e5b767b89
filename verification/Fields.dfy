/** Struct members on the wire: one octet, integer, string, table or group of flags after the other.
    The generated code of amqp_framing.c is a straight line of accessors for each struct; here each such
    line is a layout, a sequence of member kinds, and one loop walks the layout. */
module Fields {
  import opened Basics
  import opened Bytes
  import opened Tables

  datatype FieldKind = Octet | Short | Long | LongLong | ShortStr | LongStr | FieldTable | Bits(count: nat)

  datatype Field = Num(n: nat) | Text(bytes: seq<byte>) | Tab(table: Table) | Flags(bits: seq<bool>)

  // The C type of the struct member.
  predicate HasKind(v: Field, k: FieldKind) {
    match k
    case Octet => v.Num? && v.n < 0x100
    case Short => v.Num? && v.n < 0x1_0000
    case Long => v.Num? && v.n < 0x1_0000_0000
    case LongLong => v.Num? && v.n < 0x1_0000_0000_0000_0000
    case ShortStr => v.Text?
    case LongStr => v.Text?
    case FieldTable => v.Tab?
    case Bits(count) => v.Flags? && |v.bits| == count <= 8
  }

  predicate HasLayout(vs: seq<Field>, ks: seq<FieldKind>) {
    |vs| == |ks| && forall i :: 0 <= i < |ks| ==> HasKind(vs[i], ks[i])
  }

  // A member whose length field can hold its length.
  predicate EncodableField(v: Field, k: FieldKind) {
    match v
    case Text(bytes) => |bytes| < if k == ShortStr then 0x100 else 0x1_0000_0000
    case Tab(table) => Encodable(table)
    case _ => true
  }

  predicate EncodableFields(vs: seq<Field>, ks: seq<FieldKind>)
    requires |vs| <= |ks|
  {
    forall i :: 0 <= i < |vs| ==> EncodableField(vs[i], ks[i])
  }

  // The only value an encoder refuses for another reason than its size.
  predicate Writable(v: Field) {
    v.Tab? ==> KnownKinds(v.table)
  }

  lemma {:induction false} Pow2Bound(n: nat)
    requires n <= 8
    ensures Pow2(n) <= 0x100
    decreases 8 - n
  {
    if n < 8 {
      Pow2Bound(n + 1);
    } else {
      assert Pow2(8) == 0x100;
    }
  }

  // Section 4.2.5.2 of AMQP 0-9-1: the first flag is the lowest bit.
  function Pack(bits: seq<bool>): (n: nat)
    ensures n < Pow2(|bits|)
  {
    if bits == [] then 0 else (if bits[0] then 1 else 0) + 2 * Pack(bits[1..])
  }

  function Unpack(n: nat, count: nat): seq<bool> {
    if count == 0 then [] else [n % 2 == 1] + Unpack(n / 2, count - 1)
  }

  lemma {:induction false} UnpackPack(bits: seq<bool>)
    ensures Unpack(Pack(bits), |bits|) == bits
  {
    if bits != [] {
      UnpackPack(bits[1..]);
    }
  }

  function EncField(v: Field, k: FieldKind): seq<byte>
    requires HasKind(v, k)
  {
    match k
    case Octet => [v.n as byte]
    case Short => Be16(v.n)
    case Long => Be32(v.n)
    case LongLong => Be64(v.n)
    case ShortStr => [(|v.bytes| % 0x100) as byte] + v.bytes
    case LongStr => Be32(|v.bytes| % 0x1_0000_0000) + v.bytes
    case FieldTable => EncTable(v.table)
    case Bits(_) =>
      Pow2Bound(|v.bits|);
      [Pack(v.bits) as byte]
  }

  // The image of the first |vs| members of a layout.
  function EncFields(vs: seq<Field>, ks: seq<FieldKind>): seq<byte>
    requires |vs| <= |ks| && HasLayout(vs, ks[..|vs|])
  {
    if vs == [] then []
    else
      var n := |vs| - 1;
      EncFields(vs[..n], ks) + EncField(vs[n], ks[n])
  }

  function DecField(s: seq<byte>, off: nat, k: FieldKind): (r: Result<(Field, nat)>)
    ensures r.Ok? ==> off <= r.value.1 <= |s| && (HasKind(r.value.0, k) || (k.Bits? && k.count > 8))
  {
    match k
    case Octet => var n :- D8(s, off); Ok((Num(n), off + 1))
    case Short => var n :- D16(s, off); Ok((Num(n), off + 2))
    case Long => var n :- D32(s, off); Ok((Num(n), off + 4))
    case LongLong => var n :- D64(s, off); Ok((Num(n), off + 8))
    case ShortStr =>
      var n :- D8(s, off);
      var bytes :- DBytes(s, off + 1, n);
      Ok((Text(bytes), off + 1 + n))
    case LongStr =>
      var n :- D32(s, off);
      var bytes :- DBytes(s, off + 4, n);
      Ok((Text(bytes), off + 4 + n))
    case FieldTable =>
      var (t, end) :- DecTable(s, off);
      Ok((Tab(t), end))
    case Bits(count) =>
      var n :- D8(s, off);
      UnpackLength(n, count);
      Ok((Flags(Unpack(n, count)), off + 1))
  }

  lemma UnpackLength(n: nat, count: nat)
    ensures |Unpack(n, count)| == count
  {
  }

  // The members read so far are vs; the next one is of kind ks[|vs|].
  function DecFields(s: seq<byte>, off: nat, ks: seq<FieldKind>, vs: seq<Field>): (r: Result<(seq<Field>, nat)>)
    requires off <= |s| && |vs| <= |ks|
    ensures r.Ok? ==> off <= r.value.1 <= |s| && |r.value.0| == |ks|
    decreases |ks| - |vs|
  {
    if |vs| == |ks| then Ok((vs, off))
    else
      var (v, next) :- DecField(s, off, ks[|vs|]);
      DecFields(s, next, ks, vs + [v])
  }

  lemma RoundTripField(s: seq<byte>, off: nat, v: Field, k: FieldKind)
    requires |s| <= MAX_LENGTH && HasKind(v, k) && EncodableField(v, k) && At(s, off, EncField(v, k))
    ensures DecField(s, off, k) == Ok((v, off + |EncField(v, k)|))
  {
    hide At, Be16, Be32, Be64, U16, U32, U64, EncTable, DecTable, Encodable, Pack, Unpack;
    match k
    case Octet => At8(s, off, v.n);
    case Short => At16(s, off, v.n);
    case Long => At32(s, off, v.n);
    case LongLong => At64(s, off, v.n);
    case ShortStr =>
      AtSplit(s, off, [|v.bytes| as byte], v.bytes);
      At8(s, off, |v.bytes|);
      AtBytes(s, off + 1, v.bytes);
    case LongStr =>
      AtSplit(s, off, Be32(|v.bytes|), v.bytes);
      At32(s, off, |v.bytes|);
      AtBytes(s, off + 4, v.bytes);
    case FieldTable => RoundTrip(s, off, v.table);
    case Bits(count) =>
      Pow2Bound(count);
      At8(s, off, Pack(v.bits));
      UnpackPack(v.bits);
  }

  lemma AtBytes(s: seq<byte>, off: nat, t: seq<byte>)
    requires At(s, off, t)
    ensures DBytes(s, off, |t|) == Ok(t)
  {
  }

  lemma {:induction false} RoundTripFields(s: seq<byte>, off: nat, vs: seq<Field>, ks: seq<FieldKind>)
    requires |s| <= MAX_LENGTH && |vs| <= |ks| && HasLayout(vs, ks[..|vs|]) && EncodableFields(vs, ks)
    requires At(s, off, EncFields(vs, ks))
    ensures DecFields(s, off, ks, []) == DecFields(s, off + |EncFields(vs, ks)|, ks, vs)
  {
    hide EncField, DecField, HasKind, EncodableField, At;
    if vs != [] {
      var n := |vs| - 1;
      AtSplit(s, off, EncFields(vs[..n], ks), EncField(vs[n], ks[n]));
      RoundTripFields(s, off, vs[..n], ks);
      RoundTripField(s, off + |EncFields(vs[..n], ks)|, vs[n], ks[n]);
      assert vs[..n] + [vs[n]] == vs;
    }
  }

  // Whatever a decoder returns could be encoded again.
  lemma DecodedField(s: seq<byte>, off: nat, k: FieldKind)
    requires |s| <= MAX_LENGTH && DecField(s, off, k).Ok?
    ensures EncodableField(DecField(s, off, k).value.0, k)
  {
    hide U16, U32, U64, DecTable, Encodable, Unpack;
    if k == FieldTable {
      Decoded(s, off);
    }
  }

  lemma {:induction false} DecodedFields(s: seq<byte>, off: nat, ks: seq<FieldKind>, vs: seq<Field>)
    requires |s| <= MAX_LENGTH && off <= |s| && |vs| <= |ks| && EncodableFields(vs, ks)
    requires DecFields(s, off, ks, vs).Ok?
    ensures EncodableFields(DecFields(s, off, ks, vs).value.0, ks)
    decreases |ks| - |vs|
  {
    hide EncodableField, DecField;
    if |vs| < |ks| {
      var (v, next) := DecField(s, off, ks[|vs|]).value;
      DecodedField(s, off, ks[|vs|]);
      DecodedFields(s, next, ks, vs + [v]);
    }
  }

  lemma {:induction false} FieldsPrefix(vs: seq<Field>, ks: seq<FieldKind>, k: nat)
    requires HasLayout(vs, ks) && k <= |vs|
    ensures HasLayout(vs[..k], ks[..k]) && |EncFields(vs[..k], ks)| <= |EncFields(vs, ks)|
    decreases |vs| - k
  {
    hide EncField, HasKind;
    assert ks[..|ks|] == ks && vs[..|vs|] == vs;
    if k < |vs| {
      FieldsPrefix(vs, ks, k + 1);
      assert vs[..k + 1][..k] == vs[..k];
    }
  }

  /** The encoding half of a generated case: the members, in order, from offset on. */
  method EncodeFields(buf: array<byte>, limit: nat, vs: seq<Field>, ks: seq<FieldKind>, offset: nat)
    returns (r: Result<nat>)
    requires offset <= limit <= buf.Length <= MAX_LENGTH && HasLayout(vs, ks)
    modifies buf
    ensures HasLayout(vs, ks[..|vs|])
    ensures r.Ok? <==> (forall i :: 0 <= i < |vs| ==> Writable(vs[i])) && offset + |EncFields(vs, ks)| <= limit
    ensures r.Ok? ==> r.value == offset + |EncFields(vs, ks)|
    ensures r.Ok? ==> buf[..] == Splice(old(buf[..]), offset, EncFields(vs, ks))
    ensures r.Err? ==> SameOutside(old(buf[..]), buf[..], offset, limit)
  {
    hide EncField, HasKind, Writable, Splice, SameOutside;
    ghost var was := buf[..];
    SpliceNothing(was, offset);
    FieldsPrefix(vs, ks, 0);
    var off, i := offset, 0;
    while i < |vs|
      invariant 0 <= i <= |vs| && HasLayout(vs[..i], ks[..i])
      invariant off == offset + |EncFields(vs[..i], ks)| <= limit
      invariant buf[..] == Splice(was, offset, EncFields(vs[..i], ks))
      invariant forall k :: 0 <= k < i ==> Writable(vs[k])
    {
      ghost var done := EncFields(vs[..i], ks);
      FieldsPrefix(vs, ks, i + 1);
      assert vs[..i + 1][..i] == vs[..i];
      var field := EncodeField(buf, limit, vs[i], ks[i], off);
      if field.Ok? {
        SpliceBehind(was, offset, done, EncField(vs[i], ks[i]));
      } else {
        SpliceThen(was, offset, done, buf[..], limit);
      }
      off :- field;
      i := i + 1;
    }
    assert vs[..i] == vs;
    r := Ok(off);
  }

  method EncodeField(buf: array<byte>, limit: nat, v: Field, k: FieldKind, offset: nat) returns (r: Result<nat>)
    requires offset <= limit <= buf.Length <= MAX_LENGTH && HasKind(v, k)
    modifies buf
    ensures r.Ok? <==> Writable(v) && offset + |EncField(v, k)| <= limit
    ensures r.Ok? ==> r.value == offset + |EncField(v, k)|
    ensures r.Ok? ==> buf[..] == Splice(old(buf[..]), offset, EncField(v, k))
    ensures r.Err? ==> SameOutside(old(buf[..]), buf[..], offset, limit)
  {
    hide Splice, SameOutside, EncTable, KnownKinds, Be16, Be32, Be64, Pack;
    ghost var was := buf[..];
    SameItself(was, offset, limit);
    match k {
      case ShortStr =>
        r := EncodeText(buf, limit, [(|v.bytes| % 0x100) as byte], v.bytes, offset);
      case LongStr =>
        r := EncodeText(buf, limit, Be32(|v.bytes| % 0x1_0000_0000), v.bytes, offset);
      case FieldTable =>
        r := EncodeTable(buf, limit, v.table, offset);
      case LongLong =>
        var ok := Put64(buf, limit, offset, v.n);
        r := if ok then Ok(offset + 8) else Err(EFAULT);
      case _ =>
        var image := EncField(v, k);
        var ok := Put(buf, limit, offset, image);
        r := if ok then Ok(offset + |image|) else Err(EFAULT);
    }
  }

  // A length and then that many octets.
  method EncodeText(buf: array<byte>, limit: nat, size: seq<byte>, bytes: seq<byte>, offset: nat)
    returns (r: Result<nat>)
    requires offset <= limit <= buf.Length
    modifies buf
    ensures r.Ok? <==> offset + |size + bytes| <= limit
    ensures r.Ok? ==> r.value == offset + |size + bytes|
    ensures r.Ok? ==> buf[..] == Splice(old(buf[..]), offset, size + bytes)
    ensures r.Err? ==> SameOutside(old(buf[..]), buf[..], offset, limit)
  {
    hide Splice, SameOutside;
    ghost var was := buf[..];
    SameItself(was, offset, limit);
    var ok := Put(buf, limit, offset, size);
    if !ok { return Err(EFAULT); }
    SpliceItself(was, offset, size, limit);
    ok := Put(buf, limit, offset + |size|, bytes);
    if !ok { return Err(EFAULT); }
    SpliceBehind(was, offset, size, bytes);
    r := Ok(offset + |size| + |bytes|);
  }
}
