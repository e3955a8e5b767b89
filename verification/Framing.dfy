/** Methods and property lists (amqp_framing.c): the layouts of amqp_framing.h and the two
    codecs built on them. */
module Framing {
  import opened Basics
  import opened Bytes
  import opened Tables
  import opened Fields

  datatype Method = Method(id: u32, args: seq<Field>)

  // Only the members whose flag is set, in the order of their flags: the encoder reads and the
  // decoder writes no other.
  datatype Properties = Properties(flags: u32, fields: seq<Field>)

  const BASIC_CLASS: u16 := 60

  const CONNECTION_CLOSE: u32 := 0x000A_003C
  const CHANNEL_CLOSE: u32 := 0x0014_0028
  const BASIC_PUBLISH: u32 := 0x003C_0028

  /// The switch of amqp_encode_method: the class is the high half of the identifier

  function MethodLayout(id: u32): Option<seq<FieldKind>> {
    var index := id % 0x1_0000;
    match id / 0x1_0000
    case 10 => ConnectionLayout(index)
    case 20 => ChannelLayout(index)
    case 30 => AccessLayout(index)
    case 40 => ExchangeLayout(index)
    case 50 => QueueLayout(index)
    case 60 => BasicLayout(index)
    case 70 => FileLayout(index)
    case 80 => StreamLayout(index)
    case 90 => if index in {10, 11, 20, 21, 30, 31} then Some([]) else None
    case 100 => DtxLayout(index)
    case 110 => if index == 10 then Some([FieldTable]) else None
    case 120 => TestLayout(index)
    case _ => None
  }

  function ConnectionLayout(index: int): Option<seq<FieldKind>> {
    match index
    case 10 => Some([Octet, Octet, FieldTable, LongStr, LongStr])
    case 11 => Some([FieldTable, ShortStr, LongStr, ShortStr])
    case 20 => Some([LongStr])
    case 21 => Some([LongStr])
    case 30 => Some([Short, Long, Short])
    case 31 => Some([Short, Long, Short])
    case 40 => Some([ShortStr, ShortStr, Bits(1)])
    case 41 => Some([ShortStr])
    case 50 => Some([ShortStr, ShortStr])
    case 60 => Some([Short, ShortStr, Short, Short])
    case 61 => Some([])
    case _ => None
  }

  function ChannelLayout(index: int): Option<seq<FieldKind>> {
    match index
    case 10 => Some([ShortStr])
    case 11 => Some([])
    case 20 => Some([Bits(1)])
    case 21 => Some([Bits(1)])
    case 30 => Some([Short, ShortStr, FieldTable])
    case 40 => Some([Short, ShortStr, Short, Short])
    case 41 => Some([])
    case _ => None
  }

  function AccessLayout(index: int): Option<seq<FieldKind>> {
    match index
    case 10 => Some([ShortStr, Bits(5)])
    case 11 => Some([Short])
    case _ => None
  }

  function ExchangeLayout(index: int): Option<seq<FieldKind>> {
    match index
    case 10 => Some([Short, ShortStr, ShortStr, Bits(5), FieldTable])
    case 11 => Some([])
    case 20 => Some([Short, ShortStr, Bits(2)])
    case 21 => Some([])
    case _ => None
  }

  function QueueLayout(index: int): Option<seq<FieldKind>> {
    match index
    case 10 => Some([Short, ShortStr, Bits(5), FieldTable])
    case 11 => Some([ShortStr, Long, Long])
    case 20 => Some([Short, ShortStr, ShortStr, ShortStr, Bits(1), FieldTable])
    case 21 => Some([])
    case 30 => Some([Short, ShortStr, Bits(1)])
    case 31 => Some([Long])
    case 40 => Some([Short, ShortStr, Bits(3)])
    case 41 => Some([Long])
    case 50 => Some([Short, ShortStr, ShortStr, ShortStr, FieldTable])
    case 51 => Some([])
    case _ => None
  }

  function BasicLayout(index: int): Option<seq<FieldKind>> {
    match index
    case 10 => Some([Long, Short, Bits(1)])
    case 11 => Some([])
    case 20 => Some([Short, ShortStr, ShortStr, Bits(4)])
    case 21 => Some([ShortStr])
    case 30 => Some([ShortStr, Bits(1)])
    case 31 => Some([ShortStr])
    case 40 => Some([Short, ShortStr, ShortStr, Bits(2)])
    case 50 => Some([Short, ShortStr, ShortStr, ShortStr])
    case 60 => Some([ShortStr, LongLong, Bits(1), ShortStr, ShortStr])
    case 70 => Some([Short, ShortStr, Bits(1)])
    case 71 => Some([LongLong, Bits(1), ShortStr, ShortStr, Long])
    case 72 => Some([ShortStr])
    case 80 => Some([LongLong, Bits(1)])
    case 90 => Some([LongLong, Bits(1)])
    case 100 => Some([Bits(1)])
    case _ => None
  }

  function FileLayout(index: int): Option<seq<FieldKind>> {
    match index
    case 10 => Some([Long, Short, Bits(1)])
    case 11 => Some([])
    case 20 => Some([Short, ShortStr, ShortStr, Bits(4)])
    case 21 => Some([ShortStr])
    case 30 => Some([ShortStr, Bits(1)])
    case 31 => Some([ShortStr])
    case 40 => Some([ShortStr, LongLong])
    case 41 => Some([LongLong])
    case 50 => Some([])
    case 60 => Some([Short, ShortStr, ShortStr, Bits(2), ShortStr])
    case 70 => Some([Short, ShortStr, ShortStr, ShortStr])
    case 80 => Some([ShortStr, LongLong, Bits(1), ShortStr, ShortStr, ShortStr])
    case 90 => Some([LongLong, Bits(1)])
    case 100 => Some([LongLong, Bits(1)])
    case _ => None
  }

  function StreamLayout(index: int): Option<seq<FieldKind>> {
    match index
    case 10 => Some([Long, Short, Long, Bits(1)])
    case 11 => Some([])
    case 20 => Some([Short, ShortStr, ShortStr, Bits(3)])
    case 21 => Some([ShortStr])
    case 30 => Some([ShortStr, Bits(1)])
    case 31 => Some([ShortStr])
    case 40 => Some([Short, ShortStr, ShortStr, Bits(2)])
    case 50 => Some([Short, ShortStr, ShortStr, ShortStr])
    case 60 => Some([ShortStr, LongLong, ShortStr, ShortStr])
    case _ => None
  }

  function DtxLayout(index: int): Option<seq<FieldKind>> {
    match index
    case 10 => Some([])
    case 11 => Some([])
    case 20 => Some([ShortStr])
    case 21 => Some([])
    case _ => None
  }

  function TestLayout(index: int): Option<seq<FieldKind>> {
    match index
    case 10 => Some([Octet, Short, Long, LongLong, Octet])
    case 11 => Some([LongLong])
    case 20 => Some([ShortStr, LongStr, Octet])
    case 21 => Some([LongStr])
    case 30 => Some([FieldTable, Octet, Octet])
    case 31 => Some([LongLong, LongStr])
    case 40 => Some([])
    case 41 => Some([Long])
    case _ => None
  }

  /// The switch of amqp_decode_method, which is generated apart from the other one

  function ReadLayout(id: u32): Option<seq<FieldKind>> {
    match id
    case 0x000A_000A => Some([Octet, Octet, FieldTable, LongStr, LongStr])
    case 0x000A_000B => Some([FieldTable, ShortStr, LongStr, ShortStr])
    case 0x000A_0014 => Some([LongStr])
    case 0x000A_0015 => Some([LongStr])
    case 0x000A_001E => Some([Short, Long, Short])
    case 0x000A_001F => Some([Short, Long, Short])
    case 0x000A_0028 => Some([ShortStr, ShortStr, Bits(1)])
    case 0x000A_0029 => Some([ShortStr])
    case 0x000A_0032 => Some([ShortStr, ShortStr])
    case 0x000A_003C => Some([Short, ShortStr, Short, Short])
    case 0x000A_003D => Some([])
    case 0x0014_000A => Some([ShortStr])
    case 0x0014_000B => Some([])
    case 0x0014_0014 => Some([Bits(1)])
    case 0x0014_0015 => Some([Bits(1)])
    case 0x0014_001E => Some([Short, ShortStr, FieldTable])
    case 0x0014_0028 => Some([Short, ShortStr, Short, Short])
    case 0x0014_0029 => Some([])
    case 0x001E_000A => Some([ShortStr, Bits(5)])
    case 0x001E_000B => Some([Short])
    case 0x0028_000A => Some([Short, ShortStr, ShortStr, Bits(5), FieldTable])
    case 0x0028_000B => Some([])
    case 0x0028_0014 => Some([Short, ShortStr, Bits(2)])
    case 0x0028_0015 => Some([])
    case 0x0032_000A => Some([Short, ShortStr, Bits(5), FieldTable])
    case 0x0032_000B => Some([ShortStr, Long, Long])
    case 0x0032_0014 => Some([Short, ShortStr, ShortStr, ShortStr, Bits(1), FieldTable])
    case 0x0032_0015 => Some([])
    case 0x0032_001E => Some([Short, ShortStr, Bits(1)])
    case 0x0032_001F => Some([Long])
    case 0x0032_0028 => Some([Short, ShortStr, Bits(3)])
    case 0x0032_0029 => Some([Long])
    case 0x0032_0032 => Some([Short, ShortStr, ShortStr, ShortStr, FieldTable])
    case 0x0032_0033 => Some([])
    case 0x003C_000A => Some([Long, Short, Bits(1)])
    case 0x003C_000B => Some([])
    case 0x003C_0014 => Some([Short, ShortStr, ShortStr, Bits(4)])
    case 0x003C_0015 => Some([ShortStr])
    case 0x003C_001E => Some([ShortStr, Bits(1)])
    case 0x003C_001F => Some([ShortStr])
    case 0x003C_0028 => Some([Short, ShortStr, ShortStr, Bits(2)])
    case 0x003C_0032 => Some([Short, ShortStr, ShortStr, ShortStr])
    case 0x003C_003C => Some([ShortStr, LongLong, Bits(1), ShortStr, ShortStr])
    case 0x003C_0046 => Some([Short, ShortStr, Bits(1)])
    case 0x003C_0047 => Some([LongLong, Bits(1), ShortStr, ShortStr, Long])
    case 0x003C_0048 => Some([ShortStr])
    case 0x003C_0050 => Some([LongLong, Bits(1)])
    case 0x003C_005A => Some([LongLong, Bits(1)])
    case 0x003C_0064 => Some([Bits(1)])
    case 0x0046_000A => Some([Long, Short, Bits(1)])
    case 0x0046_000B => Some([])
    case 0x0046_0014 => Some([Short, ShortStr, ShortStr, Bits(4)])
    case 0x0046_0015 => Some([ShortStr])
    case 0x0046_001E => Some([ShortStr, Bits(1)])
    case 0x0046_001F => Some([ShortStr])
    case 0x0046_0028 => Some([ShortStr, LongLong])
    case 0x0046_0029 => Some([LongLong])
    case 0x0046_0032 => Some([])
    case 0x0046_003C => Some([Short, ShortStr, ShortStr, Bits(2), ShortStr])
    case 0x0046_0046 => Some([Short, ShortStr, ShortStr, ShortStr])
    case 0x0046_0050 => Some([ShortStr, LongLong, Bits(1), ShortStr, ShortStr, ShortStr])
    case 0x0046_005A => Some([LongLong, Bits(1)])
    case 0x0046_0064 => Some([LongLong, Bits(1)])
    case 0x0050_000A => Some([Long, Short, Long, Bits(1)])
    case 0x0050_000B => Some([])
    case 0x0050_0014 => Some([Short, ShortStr, ShortStr, Bits(3)])
    case 0x0050_0015 => Some([ShortStr])
    case 0x0050_001E => Some([ShortStr, Bits(1)])
    case 0x0050_001F => Some([ShortStr])
    case 0x0050_0028 => Some([Short, ShortStr, ShortStr, Bits(2)])
    case 0x0050_0032 => Some([Short, ShortStr, ShortStr, ShortStr])
    case 0x0050_003C => Some([ShortStr, LongLong, ShortStr, ShortStr])
    case 0x005A_000A => Some([])
    case 0x005A_000B => Some([])
    case 0x005A_0014 => Some([])
    case 0x005A_0015 => Some([])
    case 0x005A_001E => Some([])
    case 0x005A_001F => Some([])
    case 0x0064_000A => Some([])
    case 0x0064_000B => Some([])
    case 0x0064_0014 => Some([ShortStr])
    case 0x0064_0015 => Some([])
    case 0x006E_000A => Some([FieldTable])
    case 0x0078_000A => Some([Octet, Short, Long, LongLong, Octet])
    case 0x0078_000B => Some([LongLong])
    case 0x0078_0014 => Some([ShortStr, LongStr, Octet])
    case 0x0078_0015 => Some([LongStr])
    case 0x0078_001E => Some([FieldTable, Octet, Octet])
    case 0x0078_001F => Some([LongLong, LongStr])
    case 0x0078_0028 => Some([])
    case 0x0078_0029 => Some([Long])
    case _ => None
  }

  // Each class by itself, for every index.
  lemma SameConnection(index: u16)
    ensures ReadLayout(0x000A_0000 + index) == ConnectionLayout(index)
  {
  }

  lemma SameChannel(index: u16)
    ensures ReadLayout(0x0014_0000 + index) == ChannelLayout(index)
  {
  }

  lemma SameAccess(index: u16)
    ensures ReadLayout(0x001E_0000 + index) == AccessLayout(index)
  {
  }

  lemma SameExchange(index: u16)
    ensures ReadLayout(0x0028_0000 + index) == ExchangeLayout(index)
  {
  }

  lemma SameQueue(index: u16)
    ensures ReadLayout(0x0032_0000 + index) == QueueLayout(index)
  {
  }

  lemma SameBasic(index: u16)
    ensures ReadLayout(0x003C_0000 + index) == BasicLayout(index)
  {
  }

  lemma SameFile(index: u16)
    ensures ReadLayout(0x0046_0000 + index) == FileLayout(index)
  {
  }

  lemma SameStream(index: u16)
    ensures ReadLayout(0x0050_0000 + index) == StreamLayout(index)
  {
  }

  lemma SameDtx(index: u16)
    ensures ReadLayout(0x0064_0000 + index) == DtxLayout(index)
  {
  }

  lemma SameTest(index: u16)
    ensures ReadLayout(0x0078_0000 + index) == TestLayout(index)
  {
  }

  // Classes tx and tunnel.
  lemma SameSmall(index: u16)
    ensures ReadLayout(0x005A_0000 + index) == if index in {10, 11, 20, 21, 30, 31} then Some([]) else None
    ensures ReadLayout(0x006E_0000 + index) == if index == 10 then Some([FieldTable]) else None
  {
  }

  lemma NoOther(id: u32)
    requires id / 0x1_0000 !in {10, 20, 30, 40, 50, 60, 70, 80, 90, 100, 110, 120}
    ensures ReadLayout(id) == None
  {
  }

  // The two switches know the same methods, with the same members in the same order.
  lemma SameLayouts(id: u32)
    ensures ReadLayout(id) == MethodLayout(id)
  {
    hide ReadLayout, ConnectionLayout, ChannelLayout, AccessLayout, ExchangeLayout, QueueLayout, BasicLayout,
      FileLayout, StreamLayout, DtxLayout, TestLayout;
    var index := id % 0x1_0000;
    assert id == id / 0x1_0000 * 0x1_0000 + index;
    match id / 0x1_0000
    case 10 => SameConnection(index);
    case 20 => SameChannel(index);
    case 30 => SameAccess(index);
    case 40 => SameExchange(index);
    case 50 => SameQueue(index);
    case 60 => SameBasic(index);
    case 70 => SameFile(index);
    case 80 => SameStream(index);
    case 90 => SameSmall(index);
    case 100 => SameDtx(index);
    case 110 => SameSmall(index);
    case 120 => SameTest(index);
    case _ => NoOther(id);
  }

  // The struct that the method number announces.
  predicate WellTyped(m: Method) {
    MethodLayout(m.id).Some? ==> HasLayout(m.args, MethodLayout(m.id).value)
  }

  predicate EncodableMethod(m: Method) {
    MethodLayout(m.id).Some? && HasLayout(m.args, MethodLayout(m.id).value) &&
    EncodableFields(m.args, MethodLayout(m.id).value)
  }

  predicate AllWritable(vs: seq<Field>) {
    forall i :: 0 <= i < |vs| ==> Writable(vs[i])
  }

  function EncArgs(vs: seq<Field>, ks: seq<FieldKind>): seq<byte>
    requires HasLayout(vs, ks)
  {
    assert ks[..|vs|] == ks;
    EncFields(vs, ks)
  }

  function EncMethod(m: Method): seq<byte>
    requires MethodLayout(m.id).Some? && WellTyped(m)
  {
    EncArgs(m.args, MethodLayout(m.id).value)
  }

  // Octets behind the last member are ignored.
  function DecMethod(id: u32, s: seq<byte>): Result<Method> {
    match ReadLayout(id)
    case None => Err(ENOENT)
    case Some(ks) =>
      var (args, _) :- DecFields(s, 0, ks, []);
      Ok(Method(id, args))
  }

  lemma RoundTripArgs(s: seq<byte>, off: nat, vs: seq<Field>, ks: seq<FieldKind>)
    requires |s| <= MAX_LENGTH && HasLayout(vs, ks) && EncodableFields(vs, ks) && At(s, off, EncArgs(vs, ks))
    ensures DecFields(s, off, ks, []) == Ok((vs, off + |EncArgs(vs, ks)|))
  {
    hide HasKind, EncodableField, EncFields, DecField, At;
    assert ks[..|vs|] == ks;
    RoundTripFields(s, off, vs, ks);
  }

  lemma RoundTripMethod(m: Method, rest: seq<byte>)
    requires EncodableMethod(m) && |EncMethod(m) + rest| <= MAX_LENGTH
    ensures DecMethod(m.id, EncMethod(m) + rest) == Ok(m)
  {
    hide MethodLayout, ReadLayout, HasLayout, EncodableFields, EncArgs, DecFields;
    SameLayouts(m.id);
    var s := EncMethod(m) + rest;
    assert s[0..|EncMethod(m)|] == EncMethod(m);
    RoundTripArgs(s, 0, m.args, MethodLayout(m.id).value);
  }

  /** amqp_encode_method. */
  method EncodeMethod(buf: array<byte>, limit: nat, m: Method, offset: nat) returns (r: Result<nat>)
    requires offset <= limit <= buf.Length <= MAX_LENGTH && WellTyped(m)
    modifies buf
    ensures r.Ok? <==> MethodLayout(m.id).Some? && AllWritable(m.args) && offset + |EncMethod(m)| <= limit
    ensures r.Ok? ==> r.value == offset + |EncMethod(m)|
    ensures r.Ok? ==> buf[..] == Splice(old(buf[..]), offset, EncMethod(m))
    ensures r.Err? ==> SameOutside(old(buf[..]), buf[..], offset, limit)
  {
    hide MethodLayout, Splice, SameOutside;
    match MethodLayout(m.id) {
      case None =>
        SameItself(buf[..], offset, limit);
        r := Err(ENOENT);
      case Some(ks) =>
        assert ks[..|m.args|] == ks;
        r := EncodeFields(buf, limit, m.args, ks, offset);
    }
  }
}
