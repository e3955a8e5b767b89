/** What the codecs put on the wire, octet by octet: the numbers of AMQP 0-9-1 written out. */
module Images {
  import opened Basics
  import opened Bytes
  import opened Tables
  import opened Fields
  import opened Framing
  import opened PropertyLists
  import opened Frames
  import opened Writers
  import opened Delivery

  /// Integers, members and tables

  function Digits4(a: byte, b: byte, c: byte, d: byte): int {
    ((a * 0x100 + b as int) * 0x100 + c as int) * 0x100 + d as int
  }

  // Section 4.2.5.1 of AMQP 0-9-1: the most significant octet comes first.
  lemma BigEndian(v: u64)
    ensures var s := Be64(v); v == Digits4(s[0], s[1], s[2], s[3]) * 0x1_0000_0000 + Digits4(s[4], s[5], s[6], s[7])
    ensures v < 0x1_0000_0000 ==> var s := Be32(v); v == Digits4(s[0], s[1], s[2], s[3])
    ensures v < 0x1_0000 ==> Be16(v) == [v / 0x100, v % 0x100]
  {
    hide Be32, Digits4;
    var high, low := v / 0x1_0000_0000, v % 0x1_0000_0000;
    BigEndian32(high);
    BigEndian32(low);
    assert Be64(v)[..4] == Be32(high) && Be64(v)[4..] == Be32(low);
  }

  lemma BigEndian32(v: u32)
    ensures var s := Be32(v); v == Digits4(s[0], s[1], s[2], s[3])
  {
  }

  function Weight(bits: seq<bool>, i: nat): nat {
    if i < |bits| && bits[i] then 1 else 0
  }

  function Tail(bits: seq<bool>, i: nat): seq<bool> {
    if i < |bits| then bits[i..] else []
  }

  lemma PackTail(bits: seq<bool>, i: nat)
    ensures Pack(Tail(bits, i)) == Weight(bits, i) + 2 * Pack(Tail(bits, i + 1))
  {
    if i < |bits| {
      assert bits[i..][1..] == bits[i + 1..];
    }
  }

  // Flags that stand next to each other share an octet, the first one in the lowest bit.
  lemma Packed(bits: seq<bool>)
    requires |bits| <= 8
    ensures Pack(bits) == Weight(bits, 0) + 2 * Weight(bits, 1) + 4 * Weight(bits, 2) + 8 * Weight(bits, 3) +
                          16 * Weight(bits, 4) + 32 * Weight(bits, 5) + 64 * Weight(bits, 6) + 128 * Weight(bits, 7)
  {
    hide *;
    Ends(bits);
    PackTail(bits, 0);
    PackTail(bits, 1);
    PackTail(bits, 2);
    PackTail(bits, 3);
    PackTail(bits, 4);
    PackTail(bits, 5);
    PackTail(bits, 6);
    PackTail(bits, 7);
  }

  lemma Ends(bits: seq<bool>)
    ensures Tail(bits, 0) == bits && (|bits| <= 8 ==> Pack(Tail(bits, 8)) == 0)
  {
    assert bits[0..] == bits;
  }

  // Section 4.2.5 of AMQP 0-9-1: integers of one, two, four and eight octets, strings behind a length of one or four
  // octets, flags in one octet.
  lemma MemberImage(v: Field, k: FieldKind)
    requires HasKind(v, k)
    ensures v.Num? ==>
              EncField(v, k) == if k == Octet then [v.n as byte] else if k == Short then Be16(v.n)
                                else if k == Long then Be32(v.n) else Be64(v.n)
    ensures v.Text? ==>
              EncField(v, k) == (if k == ShortStr then [|v.bytes| % 0x100] else Be32(|v.bytes| % 0x1_0000_0000)) + v.bytes
    ensures v.Tab? ==> EncField(v, k) == EncTable(v.table)
    ensures v.Flags? ==> |v.bits| <= 8 && |EncField(v, k)| == 1 && EncField(v, k)[0] == Pack(v.bits)
  {
    hide Pack, EncTable;
  }

  // A table is its size and the entries; an entry is the key behind its length, the letter of the kind, and the value.
  lemma TableImage(es: seq<Entry>, e: Entry)
    ensures var body := EncEntries(es); EncTable(Table(es)) == Be32(|body| % 0x1_0000_0000) + body
    ensures EncEntries([]) == [] && EncEntries(es + [e]) == EncEntries(es) + EncEntry(e)
  {
    hide Be32, EncEntry;
    assert (es + [e])[..|es|] == es;
  }

  lemma EntryImage(key: seq<byte>, v: Value)
    ensures EncEntry(Entry(key, v)) ==
              [|key| % 0x100] + key +
              if v.Str? then [0x53] + Be32(|v.bytes| % 0x1_0000_0000) + v.bytes
              else if v.Int? then [0x49] + Be32(v.int32 % 0x1_0000_0000)
              else if v.Decimal? then [0x44] + [v.decimals % 0x100] + Be32(v.units)
              else if v.Timestamp? then [0x54] + Be64(v.time)
              else if v.Nested? then [0x46] + EncTable(v.table)
              else [v.kind]
  {
    hide Be32, Be64, EncTable;
    assert EncEntry(Entry(key, v)) == [|key| % 0x100] + key + ([Kind(v)] + EncValue(v));
  }

  /// Property lists

  // Section 4.2.6.1 of AMQP 0-9-1: fifteen flags in each word, and its lowest bit says that another word follows.
  lemma FlagsImage(flags: u32)
    ensures flags < 0x1_0000 ==> EncFlags(flags) == Be16(flags - flags % 2)
    ensures flags >= 0x1_0000 ==>
              var high, low := flags / 0x1_0000, flags % 0x1_0000;
              EncFlags(flags) == Be16(low - low % 2 + 1) + Be16(high - high % 2)
  {
    hide Be16;
    WordIs(flags);
    if flags >= 0x1_0000 {
      WordIs(flags / 0x1_0000);
      assert EncFlags(flags / 0x1_0000) == Be16(FlagWord(flags / 0x1_0000)) + [];
    } else {
      assert EncFlags(flags) == Be16(FlagWord(flags)) + [];
    }
  }

  lemma WordIs(flags: u32)
    ensures var low := flags % 0x1_0000;
            FlagWord(flags) == low - low % 2 + (if flags < 0x1_0000 then 0 else 1) && (flags < 0x1_0000 ==> low == flags)
  {
  }

  // The bit behind which 2^k stands in the sum of the powers.
  lemma {:induction false} BitIs(q: nat, bit: nat, r: nat, k: nat)
    requires bit <= 1 && r < Pow2(k)
    ensures Bit(q * Pow2(k + 1) + bit * Pow2(k) + r, k) <==> bit == 1
  {
    var n := q * Pow2(k + 1) + bit * Pow2(k) + r;
    if k == 0 {
      assert Pow2(1) == 2 * Pow2(0) && Pow2(0) == 1;
      assert n == 2 * q + bit;
    } else {
      Doubled(q, k + 1);
      Doubled(bit, k);
      assert Pow2(k) == 2 * Pow2(k - 1);
      assert n == 2 * (q * Pow2(k) + bit * Pow2(k - 1)) + r;
      HalfOf(q * Pow2(k) + bit * Pow2(k - 1), r);
      assert n / 2 == q * Pow2(k) + bit * Pow2(k - 1) + r / 2;
      BitIs(q, bit, r / 2, k - 1);
    }
  }

  lemma Doubled(q: nat, k: nat)
    requires k > 0
    ensures q * Pow2(k) == 2 * (q * Pow2(k - 1))
  {
  }

  // A property stands in the list exactly when its flag is set, and the others do not matter to it.
  lemma {:induction false} Selected(flags: u32, table: seq<(nat, FieldKind)>, i: nat)
    requires i < |table|
    ensures Select(flags, table) == Select(flags, table[..i]) + (if Bit(flags, table[i].0) then [table[i].1] else []) +
                                    Select(flags, table[i + 1..])
    ensures Select(flags, []) == []
  {
    hide Bit;
    if i == 0 {
      assert table[..0] == [];
    } else {
      Selected(flags, table[1..], i - 1);
      assert table[1..][..i - 1] == table[..i][1..] && table[1..][i..] == table[i + 1..];
    }
  }

  /// Frames

  // Section 2.3.5 of AMQP 0-9-1: type, channel, size, payload, and the end octet 206.
  lemma FrameImage(f: Frame)
    requires Sendable(f) && |Payload(f)| <= MAX_LENGTH
    ensures f.MethodFrame? ==> Payload(f) == Be32(f.call.id) + EncMethod(f.call)
    ensures f.HeaderFrame? ==>
              Payload(f) == Be16(f.class_id) + [0, 0] + Be64(f.body_size) + EncProperties(f.class_id, f.properties)
    ensures f.BodyFrame? ==> Payload(f) == f.fragment
    ensures f.HeartbeatFrame? ==> Payload(f) == []
    ensures !f.ProtocolFrame? &&
            FrameBytes(f) == [if f.MethodFrame? then 1 else if f.HeaderFrame? then 2 else if f.BodyFrame? then 3 else 8] +
                             Be16(f.channel) + Be32(|Payload(f)|) + Payload(f) + [206]
  {
    hide EncMethod, EncProperties, Be32, Be64, PropertyLayout, MethodLayout;
    assert Be16(0) == [0, 0];
  }

  // Method and header frames go through a buffer of the agreed size, with eight octets around the payload; the others
  // need no room.
  lemma RoomNeeded(f: Frame, max: nat)
    requires Sendable(f) && |Payload(f)| <= MAX_LENGTH
    ensures Fits(f, max) <==>
            || (f.MethodFrame? && AllWritable(f.call.args) && |Payload(f)| + 8 <= max)
            || (f.HeaderFrame? && AllWritable(f.properties.fields) && |Payload(f)| + 8 <= max)
            || f.BodyFrame? || f.HeartbeatFrame?
  {
    hide Payload;
  }

  // What the reader does with a complete block that is not one of these: a wrong end octet is an error whatever the
  // type, and an unknown type is passed over whatever its payload.
  lemma OtherBlocks(b: seq<byte>)
    requires |b| >= 8
    ensures b[|b| - 1] != 206 ==> DecodeBlock(b) == Err(EINVAL)
    ensures b[|b| - 1] == 206 && b[0] !in {1, 2, 3, 8} ==> DecodeBlock(b) == Ok(None)
  {
  }

  // What the reader needs of a stream that does not begin with the four octets of a protocol header: eight octets
  // more than the size field says, and no more room than the peers agreed on. It decodes these octets and no other.
  lemma BlockOf(max: nat, w: seq<byte>)
    requires |w| >= 8 && !(w[0] == 65 && w[1] == 77 && w[2] == 81)
    ensures var size, r := Digits4(w[3], w[4], w[5], w[6]) + 8, Scan(max, w);
            if size >= 0x1_0000_0000 then r == Bad(EWRAP)
            else if |w| < size then r == if size > max && |w| > max then Bad(EFAULT) else Incomplete
            else if size > max && |w| > max then r == Bad(EFAULT)
            else var d := DecodeBlock(w[..size]); r == if d.Ok? then Item(size, d.value) else Bad(d.error)
  {
    hide DecodeBlock;
  }

  // A peer of another version answers with its protocol header.
  lemma HeaderOf(max: nat, w: seq<byte>)
    requires |w| >= 8 && w[..3] == [65, 77, 81]
    ensures Scan(max, w) == if w[3] == 80 then Item(8, Some(ProtocolFrame(w[4], w[5], w[6], w[7]))) else Bad(EABORT)
  {
  }

  // Fewer than eight octets are never a frame.
  lemma TooShort(max: nat, w: seq<byte>)
    requires |w| < 8
    ensures Scan(max, w) == Incomplete
  {
  }

  /// A message

  // The octets of the basic.publish method, argument by argument.
  lemma PublishImage(channel: u16, exchange: seq<byte>, key: seq<byte>, mandatory: bool, immediate: bool)
    ensures var f := MethodFrame(channel, PublishMethod(exchange, key, mandatory, immediate));
            Sendable(f) &&
            Payload(f) == [0, 60, 0, 40] + [0, 0] + [|exchange| % 0x100] + exchange + [|key| % 0x100] + key +
                          [(if mandatory then 1 else 0) + (if immediate then 2 else 0)]
  {
    hide *;
    var m, ks := PublishMethod(exchange, key, mandatory, immediate), [Short, ShortStr, ShortStr, Bits(2)];
    var flags := [(if mandatory then 1 else 0) + (if immediate then 2 else 0)];
    PublishArgs(exchange, key, mandatory, immediate);
    FourMembers(m.args, ks);
    TextImage(exchange);
    TextImage(key);
    FlagImage(mandatory, immediate);
    Joined([0, 60, 0, 40], [0, 0], [|exchange| % 0x100], exchange, [|key| % 0x100], key, flags);
  }

  lemma PublishArgs(exchange: seq<byte>, key: seq<byte>, mandatory: bool, immediate: bool)
    ensures var m := PublishMethod(exchange, key, mandatory, immediate);
            && |m.args| == 4 && m.args[0] == Num(0) && m.args[1] == Text(exchange) && m.args[2] == Text(key)
            && m.args[3] == Flags([mandatory, immediate]) && HasLayout(m.args, [Short, ShortStr, ShortStr, Bits(2)])
            && (forall c :: Sendable(MethodFrame(c, m)) && Payload(MethodFrame(c, m)) ==
                            [0, 60, 0, 40] + EncArgs(m.args, [Short, ShortStr, ShortStr, Bits(2)]))
    ensures HasKind(Num(0), Short) && EncField(Num(0), Short) == [0, 0]
  {
    hide MethodLayout, EncArgs;
    PublishEncodable(exchange, key, mandatory, immediate);
    PublishLayout();
    assert Be32(0x003C_0028) == [0, 60, 0, 40] && Be16(0) == [0, 0];
  }

  lemma TextImage(s: seq<byte>)
    ensures HasKind(Text(s), ShortStr) && EncField(Text(s), ShortStr) == [|s| % 0x100] + s
  {
  }

  lemma FlagImage(first: bool, second: bool)
    ensures var v := Flags([first, second]);
            HasKind(v, Bits(2)) && EncField(v, Bits(2)) == [(if first then 1 else 0) + (if second then 2 else 0)]
  {
    hide Pack;
    var v := Flags([first, second]);
    MemberImage(v, Bits(2));
    Packed(v.bits);
  }

  lemma Joined(a: seq<byte>, b: seq<byte>, c: seq<byte>, d: seq<byte>, e: seq<byte>, f: seq<byte>, g: seq<byte>)
    ensures a + (b + (c + d) + (e + f) + g) == a + b + c + d + e + f + g
  {
  }

  lemma PublishLayout()
    ensures MethodLayout(0x003C_0028) == Some([Short, ShortStr, ShortStr, Bits(2)])
  {
  }

  lemma FourMembers(vs: seq<Field>, ks: seq<FieldKind>)
    requires |vs| == 4 && HasLayout(vs, ks)
    ensures EncArgs(vs, ks) == EncField(vs[0], ks[0]) + EncField(vs[1], ks[1]) + EncField(vs[2], ks[2]) + EncField(vs[3], ks[3])
  {
    hide *;
    MoreMembers(vs, ks, 0);
    MoreMembers(vs, ks, 1);
    MoreMembers(vs, ks, 2);
    MoreMembers(vs, ks, 3);
    AllMembers(vs, ks);
    assert [] + EncField(vs[0], ks[0]) == EncField(vs[0], ks[0]);
  }

  lemma AllMembers(vs: seq<Field>, ks: seq<FieldKind>)
    requires HasLayout(vs, ks)
    ensures HasLayout(vs[..|vs|], ks[..|vs|]) && EncFields(vs[..|vs|], ks) == EncArgs(vs, ks)
    ensures HasLayout(vs[..0], ks[..0]) && EncFields(vs[..0], ks) == [] && forall i :: 0 <= i < |vs| ==> HasKind(vs[i], ks[i])
  {
    assert ks[..|vs|] == ks && vs[..|vs|] == vs && vs[..0] == [];
  }

  lemma MoreMembers(vs: seq<Field>, ks: seq<FieldKind>, i: nat)
    requires HasLayout(vs, ks) && i < |vs|
    ensures |vs| == |ks| && HasKind(vs[i], ks[i])
    ensures HasLayout(vs[..i], ks[..i]) && HasLayout(vs[..i + 1], ks[..i + 1])
    ensures EncFields(vs[..i + 1], ks) == EncFields(vs[..i], ks) + EncField(vs[i], ks[i])
  {
    hide HasKind, EncField;
    assert vs[..i + 1][..i] == vs[..i];
  }

  // How much room a message needs in a frame: that of its strings and 17 octets for the method, that of its
  // properties and 20 octets for the header.
  lemma PublishFits(channel: u16, exchange: seq<byte>, key: seq<byte>, mandatory: bool, immediate: bool, max: nat)
    requires max <= MAX_LENGTH
    ensures Fits(MethodFrame(channel, PublishMethod(exchange, key, mandatory, immediate)), max) <==>
            |exchange| + |key| + 17 <= max
  {
    hide Payload, Sendable;
    PublishImage(channel, exchange, key, mandatory, immediate);
    PublishEncodable(exchange, key, mandatory, immediate);
  }

  lemma HeaderFits(channel: u16, size: u64, p: Properties, max: nat)
    requires max <= MAX_LENGTH && WellTypedProperties(BASIC_CLASS, p)
    ensures PropertyLayout(BASIC_CLASS, p.flags).Some?
    ensures Fits(HeaderFrame(channel, BASIC_CLASS, size, p), max) <==>
            AllWritable(p.fields) && |EncProperties(BASIC_CLASS, p)| + 20 <= max
  {
    hide EncProperties;
  }

  lemma NoPropertiesImage()
    ensures WellTypedProperties(BASIC_CLASS, Properties(0, [])) && PropertyLayout(BASIC_CLASS, 0) == Some([])
    ensures EncProperties(BASIC_CLASS, Properties(0, [])) == [0, 0]
  {
    hide Select;
    NothingSelected(PROPERTIES);
  }
}
