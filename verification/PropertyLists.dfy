/** Content-header property lists: flag words, then the members whose flag is set
    (amqp_encode_properties and amqp_decode_properties). */
module PropertyLists {
  import opened Basics
  import opened Bytes
  import opened Fields
  import opened Framing

  /// Flag words: fifteen flags each, and the lowest bit announces another word

  function EncFlags(flags: u32): (s: seq<byte>)
    ensures |s| == if flags < 0x1_0000 then 2 else 4
    decreases flags
  {
    var remainder := flags / 0x1_0000;
    Be16(FlagWord(flags)) + if remainder == 0 then [] else EncFlags(remainder)
  }

  // The fifteen flags of this word, and the lowest bit when another word follows.
  function FlagWord(flags: u32): u16 {
    flags % 0x1_0000 / 2 * 2 + if flags < 0x1_0000 then 0 else 1
  }

  // A third word would be shifted by 32 bits, which C leaves undefined.
  function DecFlags(s: seq<byte>, off: nat, index: nat, flags: nat): (r: Result<(u32, nat)>)
    requires index < 2 ==> flags < if index == 0 then 1 else 0x1_0000
    ensures r.Ok? ==> off + 2 <= r.value.1 <= |s|
    decreases |s| - off
  {
    var word :- D16(s, off);
    if index > 1 then Err(EWRAP)
    else
      var all := flags + word * if index == 0 then 1 else 0x1_0000;
      if word % 2 == 1 then DecFlags(s, off + 2, index + 1, all) else Ok((all, off + 2))
  }

  // What the flag words keep of 32 flags: the two continuation bits are not flags of their own.
  function Kept(flags: u32): u32 {
    FlagWord(flags / 0x1_0000) as int * 0x1_0000 + FlagWord(flags)
  }

  lemma FlagsRoundTrip(s: seq<byte>, off: nat, flags: u32)
    requires At(s, off, EncFlags(flags))
    ensures DecFlags(s, off, 0, 0) == Ok((Kept(flags), off + |EncFlags(flags)|))
    ensures Kept(flags) == flags <==>
            flags / 0x1_0000 % 2 == 0 && (flags % 2 == 1 <==> flags >= 0x1_0000)
  {
    hide Be16, U16, At, FlagWord;
    KeptExactly(flags);
    var high, low := flags / 0x1_0000, FlagWord(flags);
    WordBit(flags);
    AtSplit(s, off, Be16(low), if high == 0 then [] else EncFlags(high));
    At16(s, off, low);
    if high == 0 {
      NoHighWord();
    } else {
      WordBit(high);
      assert EncFlags(high) == Be16(FlagWord(high)) + [];
      AtSplit(s, off + 2, Be16(FlagWord(high)), []);
      At16(s, off + 2, FlagWord(high));
    }
  }

  lemma NoHighWord()
    ensures FlagWord(0) == 0
  {
  }

  lemma WordBit(flags: u32)
    ensures FlagWord(flags) % 2 == if flags < 0x1_0000 then 0 else 1
  {
    Even(flags % 0x1_0000 / 2);
  }

  lemma Even(n: nat)
    ensures n * 2 % 2 == 0 && (n * 2 + 1) % 2 == 1
  {
  }

  lemma KeptExactly(flags: u32)
    ensures Kept(flags) == flags <==>
            flags / 0x1_0000 % 2 == 0 && (flags % 2 == 1 <==> flags >= 0x1_0000)
  {
    var high, low := flags / 0x1_0000, flags % 0x1_0000;
    assert flags == high * 0x1_0000 + low;
    Halves(high);
    Halves(low);
    assert flags % 2 == low % 2;
  }

  lemma Halves(n: nat)
    ensures n == n / 2 * 2 + n % 2
  {
  }

  /// The properties of each class: fourteen for class basic

  // The flag bit of each property, and what stands in the list when it is set.
  const PROPERTIES: seq<(nat, FieldKind)> := [
    (15, ShortStr), (14, ShortStr), (13, FieldTable), (12, Octet), (11, Octet),
    (10, ShortStr), (9, ShortStr), (8, ShortStr), (7, ShortStr), (6, LongLong),
    (5, ShortStr), (4, ShortStr), (3, ShortStr), (2, ShortStr)]

  const FILE_PROPERTIES: seq<(nat, FieldKind)> := [
    (15, ShortStr), (14, ShortStr), (13, FieldTable), (12, Octet), (11, ShortStr),
    (10, ShortStr), (9, ShortStr), (8, LongLong), (7, ShortStr)]

  const STREAM_PROPERTIES: seq<(nat, FieldKind)> := [
    (15, ShortStr), (14, ShortStr), (13, FieldTable), (12, Octet), (11, LongLong)]

  const TUNNEL_PROPERTIES: seq<(nat, FieldKind)> := [
    (15, FieldTable), (14, ShortStr), (13, ShortStr), (12, Octet), (11, Octet)]

  predicate Bit(n: nat, k: nat) {
    if k == 0 then n % 2 == 1 else Bit(n / 2, k - 1)
  }

  function Select(flags: u32, table: seq<(nat, FieldKind)>): seq<FieldKind> {
    if table == [] then []
    else (if Bit(flags, table[0].0) then [table[0].1] else []) + Select(flags, table[1..])
  }

  lemma HalfMultiple(d: int, j: nat) returns (half: int)
    requires j > 0
    ensures half == d * Pow2(j - 1) && d * Pow2(j) == 2 * half
  {
    half := d * Pow2(j - 1);
    assert Pow2(j) == 2 * Pow2(j - 1);
  }

  // Numbers that differ by a multiple of 2^j agree on the bits below j.
  lemma {:induction false} SameBit(x: nat, y: nat, d: int, j: nat, k: nat)
    requires x == y + d * Pow2(j) && k < j
    ensures Bit(x, k) == Bit(y, k)
  {
    hide Pow2;
    var half := HalfMultiple(d, j);
    if k > 0 {
      SameBit(x / 2, y / 2, d, j - 1, k - 1);
    }
  }

  lemma HalfWord()
    ensures Pow2(15) == 0x8000
  {
    assert Pow2(15) == 0x8000;
  }

  lemma KeptHalf(flags: u32) returns (d: int)
    ensures Kept(flags) / 2 == flags / 2 + d * 0x8000
  {
    var high, low := flags / 0x1_0000, flags % 0x1_0000;
    d := FlagWord(high) as int - high;
    assert flags == high * 0x1_0000 + low;
    HalfOf(high * 0x8000, low);
    HalfOf(FlagWord(high) * 0x8000, FlagWord(flags));
    HalfOf(low / 2, if flags < 0x1_0000 then 0 else 1);
  }

  lemma HalfOf(a: nat, b: nat)
    ensures (a * 2 + b) / 2 == a + b / 2
  {
  }

  // The continuation bits stand below and above every property flag.
  lemma KeptBit(flags: u32, k: nat)
    requires 1 <= k < 16
    ensures Bit(Kept(flags), k) == Bit(flags, k)
  {
    hide Kept, Pow2;
    var d := KeptHalf(flags);
    HalfWord();
    SameBit(Kept(flags) / 2, flags / 2, d, 15, k - 1);
  }

  lemma {:induction false} SelectKept(flags: u32, table: seq<(nat, FieldKind)>)
    requires forall i :: 0 <= i < |table| ==> 1 <= table[i].0 < 16
    ensures Select(Kept(flags), table) == Select(flags, table)
  {
    hide Kept, Bit;
    if table != [] {
      KeptBit(flags, table[0].0);
      SelectKept(flags, table[1..]);
    }
  }

  /// Property lists

  function PropertyLayout(class_id: u16, flags: u32): Option<seq<FieldKind>> {
    match PropertyTable(class_id)
    case None => None
    case Some(table) => Some(Select(flags, table))
  }

  function PropertyTable(class_id: u16): (r: Option<seq<(nat, FieldKind)>>)
    ensures r.Some? ==> forall i :: 0 <= i < |r.value| ==> 1 <= r.value[i].0 < 16
  {
    if class_id in {10, 20, 30, 40, 50, 90, 100, 120} then Some([])
    else if class_id == BASIC_CLASS then Some(PROPERTIES)
    else if class_id == 70 then Some(FILE_PROPERTIES)
    else if class_id == 80 then Some(STREAM_PROPERTIES)
    else if class_id == 110 then Some(TUNNEL_PROPERTIES)
    else None
  }

  // The switch of amqp_decode_properties, which is generated apart from the other one.
  function ReadTable(class_id: u16): Option<seq<(nat, FieldKind)>> {
    match class_id
    case 10 => Some([])
    case 20 => Some([])
    case 30 => Some([])
    case 40 => Some([])
    case 50 => Some([])
    case 60 => Some([
        (15, ShortStr), (14, ShortStr), (13, FieldTable), (12, Octet), (11, Octet),
        (10, ShortStr), (9, ShortStr), (8, ShortStr), (7, ShortStr), (6, LongLong),
        (5, ShortStr), (4, ShortStr), (3, ShortStr), (2, ShortStr)])
    case 70 => Some([
        (15, ShortStr), (14, ShortStr), (13, FieldTable), (12, Octet), (11, ShortStr),
        (10, ShortStr), (9, ShortStr), (8, LongLong), (7, ShortStr)])
    case 80 => Some([(15, ShortStr), (14, ShortStr), (13, FieldTable), (12, Octet), (11, LongLong)])
    case 90 => Some([])
    case 100 => Some([])
    case 110 => Some([(15, FieldTable), (14, ShortStr), (13, ShortStr), (12, Octet), (11, Octet)])
    case 120 => Some([])
    case _ => None
  }

  function ReadProperties(class_id: u16, flags: u32): Option<seq<FieldKind>> {
    match ReadTable(class_id)
    case None => None
    case Some(table) => Some(Select(flags, table))
  }

  // The two switches know the same classes, with the same properties behind the same flags in the same order.
  lemma SameTables(class_id: u16)
    ensures ReadTable(class_id) == PropertyTable(class_id)
  {
  }

  lemma SameProperties(class_id: u16, flags: u32)
    ensures ReadProperties(class_id, flags) == PropertyLayout(class_id, flags)
  {
    hide ReadTable, PropertyTable, Select;
    SameTables(class_id);
  }

  predicate WellTypedProperties(class_id: u16, p: Properties) {
    PropertyLayout(class_id, p.flags).Some? ==> HasLayout(p.fields, PropertyLayout(class_id, p.flags).value)
  }

  predicate EncodableProperties(class_id: u16, p: Properties) {
    PropertyLayout(class_id, p.flags).Some? && WellTypedProperties(class_id, p) &&
    EncodableFields(p.fields, PropertyLayout(class_id, p.flags).value)
  }

  function EncProperties(class_id: u16, p: Properties): seq<byte>
    requires PropertyLayout(class_id, p.flags).Some? && WellTypedProperties(class_id, p)
  {
    EncFlags(p.flags) + EncArgs(p.fields, PropertyLayout(class_id, p.flags).value)
  }

  function DecProperties(class_id: u16, s: seq<byte>): Result<Properties> {
    var (flags, off) :- DecFlags(s, 0, 0, 0);
    match ReadProperties(class_id, flags)
    case None => Err(ENOENT)
    case Some(ks) =>
      var (fields, _) :- DecFields(s, off, ks, []);
      Ok(Properties(flags, fields))
  }

  lemma {:induction false} NoBit(k: nat)
    ensures !Bit(0, k)
  {
    if k > 0 {
      NoBit(k - 1);
    }
  }

  lemma {:induction false} NothingSelected(table: seq<(nat, FieldKind)>)
    ensures Select(0, table) == []
  {
    if table != [] {
      NoBit(table[0].0);
      NothingSelected(table[1..]);
    }
  }

  lemma LayoutKept(class_id: u16, flags: u32)
    ensures PropertyLayout(class_id, Kept(flags)) == PropertyLayout(class_id, flags)
  {
    hide Select, PropertyTable;
    var table := PropertyTable(class_id);
    if table.Some? {
      SelectKept(flags, table.value);
    }
  }

  // Every property comes back, and every flag that is not a continuation bit.
  lemma RoundTripProperties(class_id: u16, p: Properties, rest: seq<byte>)
    requires EncodableProperties(class_id, p) && |EncProperties(class_id, p) + rest| <= MAX_LENGTH
    ensures DecProperties(class_id, EncProperties(class_id, p) + rest) == Ok(p.(flags := Kept(p.flags)))
  {
    hide PropertyLayout, ReadProperties, HasLayout, EncodableFields, EncArgs, EncFlags, DecFields, Kept;
    var s, ks := EncProperties(class_id, p) + rest, PropertyLayout(class_id, p.flags).value;
    assert s[0..|EncProperties(class_id, p)|] == EncProperties(class_id, p);
    AtSplit(s, 0, EncFlags(p.flags), EncArgs(p.fields, ks));
    FlagsRoundTrip(s, 0, p.flags);
    LayoutKept(class_id, p.flags);
    SameProperties(class_id, Kept(p.flags));
    RoundTripArgs(s, |EncFlags(p.flags)|, p.fields, ks);
  }

  /// The code itself

  method EncodeFlags(buf: array<byte>, limit: nat, flags: u32, offset: nat) returns (r: Result<nat>)
    requires offset <= limit <= buf.Length <= MAX_LENGTH
    modifies buf
    ensures r.Ok? <==> offset + |EncFlags(flags)| <= limit
    ensures r.Ok? ==> r.value == offset + |EncFlags(flags)|
    ensures r.Ok? ==> buf[..] == Splice(old(buf[..]), offset, EncFlags(flags))
    ensures r.Err? ==> SameOutside(old(buf[..]), buf[..], offset, limit)
  {
    hide Splice, SameOutside, FlagWord, Be16, EncFlags;
    ghost var was, done := buf[..], [];
    SameItself(was, offset, limit);
    SpliceNothing(was, offset);
    var off, remaining, more := offset, flags, true;
    while more
      invariant off == offset + |done| <= limit && buf[..] == Splice(was, offset, done)
      invariant EncFlags(flags) == done + WordsFrom(more, remaining)
      invariant |EncFlags(flags)| == |done| + |WordsFrom(more, remaining)|
      decreases more, remaining
    {
      NextWord(done, remaining);
      SpliceItself(was, offset, done, limit);
      var ok := Put(buf, limit, off, Be16(FlagWord(remaining)));
      if !ok { return Err(EFAULT); }
      SpliceBehind(was, offset, done, Be16(FlagWord(remaining)));
      done := done + Be16(FlagWord(remaining));
      off, remaining := off + 2, remaining / 0x1_0000;
      more := remaining != 0;
    }
    assert done + [] == done;
    r := Ok(off);
  }

  // What the loop still has to write.
  function WordsFrom(more: bool, flags: u32): seq<byte> {
    if more then EncFlags(flags) else []
  }

  lemma NextWord(done: seq<byte>, flags: u32)
    ensures var remainder := flags / 0x1_0000;
            && done + EncFlags(flags) == (done + Be16(FlagWord(flags))) + WordsFrom(remainder != 0, remainder)
            && |EncFlags(flags)| == 2 + |WordsFrom(remainder != 0, remainder)|
            && (remainder == 0 || remainder < flags)
  {
  }

  method DecodeFlags(encoded: seq<byte>) returns (r: Result<(u32, nat)>)
    ensures r == DecFlags(encoded, 0, 0, 0)
  {
    var flags: nat, index: nat, offset: nat, more := 0, 0, 0, true;
    while more
      invariant index < 2 && more ==> flags < if index == 0 then 1 else 0x1_0000
      invariant flags < 0x1_0000_0000
      invariant DecFlags(encoded, 0, 0, 0) ==
                if more then DecFlags(encoded, offset, index, flags) else Ok((flags, offset))
      decreases more, |encoded| - offset
    {
      var word :- D16(encoded, offset);
      if index > 1 { return Err(EWRAP); }
      flags := flags + (word as int) * if index == 0 then 1 else 0x1_0000;
      offset, index, more := offset + 2, index + 1, word % 2 == 1;
    }
    r := Ok((flags, offset));
  }

  /** amqp_encode_properties. */
  method EncodeProperties(buf: array<byte>, limit: nat, class_id: u16, p: Properties, offset: nat)
    returns (r: Result<nat>)
    requires offset <= limit <= buf.Length <= MAX_LENGTH && WellTypedProperties(class_id, p)
    modifies buf
    ensures r.Ok? <==> PropertyLayout(class_id, p.flags).Some? && AllWritable(p.fields)
                       && offset + |EncProperties(class_id, p)| <= limit
    ensures r.Ok? ==> r.value == offset + |EncProperties(class_id, p)|
    ensures r.Ok? ==> buf[..] == Splice(old(buf[..]), offset, EncProperties(class_id, p))
    ensures r.Err? ==> SameOutside(old(buf[..]), buf[..], offset, limit)
  {
    hide Splice, SameOutside, EncFlags, Select, HasLayout;
    ghost var was, words := buf[..], EncFlags(p.flags);
    var off :- EncodeFlags(buf, limit, p.flags, offset);
    SpliceItself(was, offset, words, limit);
    match PropertyLayout(class_id, p.flags) {
      case None =>
        r := Err(ENOENT);
      case Some(ks) =>
        r := EncodeFields(buf, limit, p.fields, ks, off);
        assert r.Ok? <==> AllWritable(p.fields) && off + |EncArgs(p.fields, ks)| <= limit;
        if r.Ok? {
          SpliceBehind(was, offset, words, EncArgs(p.fields, ks));
        } else {
          SpliceThen(was, offset, words, buf[..], limit);
        }
    }
  }

  /** amqp_decode_properties. */
  method DecodeProperties(class_id: u16, encoded: seq<byte>) returns (r: Result<Properties>)
    ensures r == DecProperties(class_id, encoded)
  {
    var flags :- DecodeFlags(encoded);
    match ReadProperties(class_id, flags.0) {
      case None =>
        r := Err(ENOENT);
      case Some(ks) =>
        var fields :- DecFields(encoded, flags.1, ks, []);
        r := Ok(Properties(flags.0, fields.0));
    }
  }
}
