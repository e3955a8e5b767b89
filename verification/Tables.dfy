/** The field-table codec of amqp_table.c. */
module Tables {
  import opened Bytes

  datatype Table = Table(entries: seq<Entry>)

  datatype Entry = Entry(key: seq<byte>, value: Value)

  // Unknown stands for an entry whose kind octet is none of the five supported ones.
  datatype Value =
    | Str(bytes: seq<byte>)
    | Int(int32: i32)
    | Decimal(decimals: int, units: u32)
    | Timestamp(time: u64)
    | Nested(table: Table)
    | Unknown(kind: byte)

  const KIND_S: byte := 83
  const KIND_I: byte := 73
  const KIND_D: byte := 68
  const KIND_T: byte := 84
  const KIND_F: byte := 70

  function Kind(v: Value): byte {
    match v
    case Str(_) => KIND_S
    case Int(_) => KIND_I
    case Decimal(_, _) => KIND_D
    case Timestamp(_) => KIND_T
    case Nested(_) => KIND_F
    case Unknown(kind) => kind
  }

  /// The wire image of a table

  function EncTable(t: Table): (s: seq<byte>)
    ensures |s| >= 4
  {
    var body := EncEntries(t.entries);
    Be32(|body| % 0x1_0000_0000) + body
  }

  function EncEntries(es: seq<Entry>): seq<byte> {
    if es == [] then [] else EncEntries(es[..|es| - 1]) + EncEntry(es[|es| - 1])
  }

  function EncEntry(e: Entry): seq<byte> {
    [|e.key| % 0x100] + e.key + [Kind(e.value)] + EncValue(e.value)
  }

  function EncValue(v: Value): seq<byte> {
    match v
    case Str(bytes) => Be32(|bytes| % 0x1_0000_0000) + bytes
    case Int(i) => Be32(i % 0x1_0000_0000)
    case Decimal(decimals, units) => [decimals % 0x100] + Be32(units)
    case Timestamp(time) => Be64(time)
    case Nested(t) => EncTable(t)
    case Unknown(_) => []
  }

  // Every entry, at any depth, is of one of the five kinds.
  predicate KnownKinds(t: Table) {
    forall i :: 0 <= i < |t.entries| ==> KnownKind(t.entries[i].value)
  }

  predicate KnownKind(v: Value) {
    !v.Unknown? && (v.Nested? ==> KnownKinds(v.table))
  }

  // What survives the one-octet key and decimals fields and the four-octet string length.
  predicate Encodable(t: Table) {
    forall i :: 0 <= i < |t.entries| ==> EncodableEntry(t.entries[i])
  }

  predicate EncodableEntry(e: Entry) {
    |e.key| < 0x100 &&
    match e.value
    case Str(bytes) => |bytes| < 0x1_0000_0000
    case Decimal(decimals, _) => 0 <= decimals < 0x100
    case Nested(t) => Encodable(t)
    case Unknown(_) => false
    case _ => true
  }

  /// Decoding

  function Signed32(v: int): i32 {
    var w := v % 0x1_0000_0000;
    if w < 0x8000_0000 then w else w - 0x1_0000_0000
  }

  function DecTable(s: seq<byte>, off: nat): (r: Result<(Table, nat)>)
    ensures r.Ok? ==> off + 4 <= r.value.1 <= |s|
    decreases |s| - off, 0
  {
    var size :- D32(s, off);
    // `int limit = offset + tablesize` is an unsigned sum stored in a signed variable
    var (es, end) :- DecEntries(s, off + 4, Signed32(off + 4 + size), []);
    Ok((Table(es), end))
  }

  function DecEntries(s: seq<byte>, off: nat, limit: int, acc: seq<Entry>): (r: Result<(seq<Entry>, nat)>)
    requires off <= |s|
    ensures r.Ok? ==> off <= r.value.1 <= |s|
    decreases |s| - off, 1
  {
    if off >= limit then Ok((acc, off))
    else
      var (e, next) :- DecEntry(s, off);
      DecEntries(s, next, limit, acc + [e])
  }

  function DecEntry(s: seq<byte>, off: nat): (r: Result<(Entry, nat)>)
    ensures r.Ok? ==> off + 2 <= r.value.1 <= |s|
    decreases |s| - off, 0
  {
    var n :- D8(s, off);
    var key :- DBytes(s, off + 1, n);
    var kind :- D8(s, off + 1 + n);
    var (v, end) :- DecValue(s, off + 2 + n, kind);
    Ok((Entry(key, v), end))
  }

  function DecValue(s: seq<byte>, off: nat, kind: byte): (r: Result<(Value, nat)>)
    requires off <= |s|
    ensures r.Ok? ==> off <= r.value.1 <= |s|
    decreases |s| - off, 1
  {
    if kind == KIND_S then
      var n :- D32(s, off);
      var bytes :- DBytes(s, off + 4, n);
      Ok((Str(bytes), off + 4 + n))
    else if kind == KIND_I then
      var v :- D32(s, off);
      Ok((Int(Signed32(v)), off + 4))
    else if kind == KIND_D then
      var d :- D8(s, off);
      var v :- D32(s, off + 1);
      Ok((Decimal(d, v), off + 5))
    else if kind == KIND_T then
      var v :- D64(s, off);
      Ok((Timestamp(v), off + 8))
    else if kind == KIND_F then
      var (t, end) :- DecTable(s, off);
      Ok((Nested(t), end))
    else
      Err(EINVAL)
  }

  // A declared size that carries the limit past the largest `int` gives an empty table, and what follows is read as
  // the next thing.
  lemma HugeSizeIsEmpty(s: seq<byte>, off: nat)
    requires |s| <= MAX_LENGTH && off + 4 <= |s| && U32(s, off) + off + 4 >= 0x8000_0000
    ensures DecTable(s, off) == Ok((Table([]), off + 4))
  {
    hide U32;
  }

  lemma SmallSigned(i: nat)
    requires i < 0x8000_0000
    ensures Signed32(i) == i
  {
  }

  lemma SignedImage(i: i32)
    ensures Signed32(i % 0x1_0000_0000) == i
  {
  }

  lemma UnsignedImage(u: u32)
    ensures Signed32(u) % 0x1_0000_0000 == u
  {
  }

  /// Decoding undoes encoding, at any offset of any buffer

  lemma {:induction false} RoundTrip(s: seq<byte>, off: nat, t: Table)
    requires |s| <= MAX_LENGTH && At(s, off, EncTable(t)) && Encodable(t)
    ensures DecTable(s, off) == Ok((t, off + |EncTable(t)|))
    decreases t
  {
    hide Be32, U32, EncEntries, EncodableEntry, Signed32;
    SmallSigned(off + 4 + |EncEntries(t.entries)|);
    var body := EncEntries(t.entries);
    AtSplit(s, off, Be32(|body|), body);
    At32(s, off, |body|);
    RoundTripEntries(s, off + 4, t.entries, off + 4 + |body|);
  }

  lemma {:induction false} RoundTripEntries(s: seq<byte>, off: nat, es: seq<Entry>, limit: int)
    requires |s| <= MAX_LENGTH && At(s, off, EncEntries(es)) && off + |EncEntries(es)| <= limit
    requires forall i :: 0 <= i < |es| ==> EncodableEntry(es[i])
    ensures DecEntries(s, off, limit, []) == DecEntries(s, off + |EncEntries(es)|, limit, es)
    decreases es
  {
    hide EncEntry, DecEntry, DecEntries, EncEntries, EncodableEntry, At;
    LastEntry(es);
    if es != [] {
      var init, last := es[..|es| - 1], es[|es| - 1];
      var next := off + |EncEntries(init)|;
      AtSplit(s, off, EncEntries(init), EncEntry(last));
      RoundTripEntries(s, off, init, limit);
      RoundTripEntry(s, next, last);
      EntryStep(s, next, limit, init, last, off + |EncEntries(es)|);
      assert init + [last] == es;
    }
  }

  lemma LastEntry(es: seq<Entry>)
    ensures EncEntries([]) == []
    ensures es != [] ==> EncEntries(es) == EncEntries(es[..|es| - 1]) + EncEntry(es[|es| - 1]) && |EncEntry(es[|es| - 1])| > 0
  {
  }

  // One turn of the decoder's loop.
  lemma EntryStep(s: seq<byte>, off: nat, limit: int, acc: seq<Entry>, e: Entry, next: nat)
    requires off < limit && off <= |s| && DecEntry(s, off) == Ok((e, next))
    ensures DecEntries(s, off, limit, acc) == DecEntries(s, next, limit, acc + [e])
  {
    hide DecEntry;
  }

  // Where the four parts of an entry's image stand.
  lemma EntryAt(s: seq<byte>, off: nat, e: Entry)
    ensures At(s, off, EncEntry(e)) <==>
            var n := |e.key|;
            && off + n + 2 <= |s| && s[off] == n % 0x100 && s[off + 1..off + 1 + n] == e.key
            && s[off + 1 + n] == Kind(e.value) && At(s, off + 2 + n, EncValue(e.value))
  {
    hide EncValue, At, EncEntry;
    var n := |e.key|;
    var size, kind, value := [(n % 0x100) as byte], [Kind(e.value)], EncValue(e.value);
    EntryParts(e);
    AtSplit(s, off, size, e.key + (kind + value));
    AtSplit(s, off + 1, e.key, kind + value);
    AtSplit(s, off + 1 + n, kind, value);
    At8(s, off, n % 0x100);
    At8(s, off + 1 + n, Kind(e.value));
    AtIs(s, off + 1, e.key);
  }

  lemma EntryParts(e: Entry)
    ensures EncEntry(e) == [|e.key| % 0x100] + (e.key + ([Kind(e.value)] + EncValue(e.value)))
  {
    hide EncValue;
  }

  lemma AtIs(s: seq<byte>, o: nat, t: seq<byte>)
    ensures At(s, o, t) <==> o + |t| <= |s| && s[o..o + |t|] == t
  {
  }

  lemma {:induction false} RoundTripEntry(s: seq<byte>, off: nat, e: Entry)
    requires |s| <= MAX_LENGTH && At(s, off, EncEntry(e)) && EncodableEntry(e)
    ensures DecEntry(s, off) == Ok((e, off + |EncEntry(e)|))
    decreases e
  {
    hide EncValue, DecValue, Encodable, U32;
    EntryAt(s, off, e);
    RoundTripValue(s, off + 2 + |e.key|, e.value);
  }

  lemma {:induction false} RoundTripValue(s: seq<byte>, off: nat, v: Value)
    requires |s| <= MAX_LENGTH && At(s, off, EncValue(v)) && EncodableEntry(Entry([], v))
    ensures DecValue(s, off, Kind(v)) == Ok((v, off + |EncValue(v)|))
    decreases v
  {
    hide Be32, Be64, U32, U64, EncTable, DecTable, Encodable, Signed32;
    match v
    case Str(bytes) =>
      AtSplit(s, off, Be32(|bytes|), bytes);
      At32(s, off, |bytes|);
    case Int(i) =>
      SignedImage(i);
      At32(s, off, i % 0x1_0000_0000);
    case Decimal(decimals, units) =>
      AtSplit(s, off, [decimals as byte], Be32(units));
      assert s[off..off + 1][0] == decimals;
      At32(s, off + 1, units);
    case Timestamp(time) =>
      At64(s, off, time);
    case Nested(t) =>
      RoundTrip(s, off, t);
  }

  /// Encoding undoes decoding, exactly on the inputs whose declared sizes are honest

  // Each declared size, at any depth, ends where its last entry ends.
  predicate Tight(s: seq<byte>, off: nat)
    decreases |s| - off, 0
  {
    DecTable(s, off).Ok? &&
    U32(s, off) == DecTable(s, off).value.1 - off - 4 &&
    TightEntries(s, off + 4, Signed32(off + 4 + U32(s, off)))
  }

  predicate TightEntries(s: seq<byte>, off: nat, limit: int)
    requires off <= |s|
    decreases |s| - off, 1
  {
    off < limit && DecEntry(s, off).Ok? ==>
      TightEntry(s, off) && TightEntries(s, DecEntry(s, off).value.1, limit)
  }

  // Only a nested table can be loose.
  predicate TightEntry(s: seq<byte>, off: nat)
    requires DecEntry(s, off).Ok?
    decreases |s| - off, 0
  {
    var e := DecEntry(s, off).value.0;
    e.value.Nested? ==> Tight(s, off + 2 + |e.key|)
  }

  lemma {:induction false} Decoded(s: seq<byte>, off: nat)
    requires |s| <= MAX_LENGTH && DecTable(s, off).Ok?
    ensures var (t, end) := DecTable(s, off).value;
            && Encodable(t) && end == off + |EncTable(t)|
            && (At(s, off, EncTable(t)) <==> Tight(s, off))
    decreases |s| - off, 0
  {
    hide Be32, U32, DecTable, DecEntries, EncEntries, TightEntries, EncodableEntry, Signed32, At, DecEntry, EncEntry;
    DecTableIs(s, off);
    var (t, end) := DecTable(s, off).value;
    var limit := Signed32(off + 4 + U32(s, off));
    var x := DecodedEntries(s, off + 4, limit, []);
    LastEntry([]);
    assert x == EncEntries(t.entries) by { assert EncEntries([]) + x == x; }
    TableAt(s, off, x);
  }

  lemma DecTableIs(s: seq<byte>, off: nat)
    requires DecTable(s, off).Ok?
    ensures off + 4 <= |s| &&
            var (t, end) := DecTable(s, off).value;
            DecEntries(s, off + 4, Signed32(off + 4 + U32(s, off)), []) == Ok((t.entries, end))
  {
    hide DecEntries, U32, Signed32;
  }

  // A table stands there if its size does, and its entries behind it.
  lemma TableAt(s: seq<byte>, off: nat, x: seq<byte>)
    requires |x| < 0x1_0000_0000
    ensures At(s, off, Be32(|x| % 0x1_0000_0000) + x) <==> off + 4 <= |s| && U32(s, off) == |x| && At(s, off + 4, x)
  {
    hide Be32, U32, At;
    AtSplit(s, off, Be32(|x|), x);
    At32(s, off, |x|);
  }

  lemma {:induction false} DecodedEntries(s: seq<byte>, off: nat, limit: int, acc: seq<Entry>) returns (x: seq<byte>)
    requires |s| <= MAX_LENGTH && off <= |s| && DecEntries(s, off, limit, acc).Ok?
    requires forall i :: 0 <= i < |acc| ==> EncodableEntry(acc[i])
    ensures var (es, end) := DecEntries(s, off, limit, acc).value;
            && (forall i :: 0 <= i < |es| ==> EncodableEntry(es[i]))
            && EncEntries(es) == EncEntries(acc) + x && end == off + |x|
            && (At(s, off, x) <==> TightEntries(s, off, limit))
    decreases |s| - off, 1
  {
    hide DecEntry, EncEntry, TightEntry, EncodableEntry;
    if off >= limit {
      x := [];
    } else {
      var (e, next) := DecEntry(s, off).value;
      DecodedEntry(s, off);
      var y := DecodedEntries(s, next, limit, acc + [e]);
      assert (acc + [e])[..|acc|] == acc;
      x := EncEntry(e) + y;
      AtSplit(s, off, EncEntry(e), y);
    }
  }

  lemma {:induction false} DecodedEntry(s: seq<byte>, off: nat)
    requires |s| <= MAX_LENGTH && DecEntry(s, off).Ok?
    ensures var (e, end) := DecEntry(s, off).value;
            && EncodableEntry(e) && end == off + |EncEntry(e)|
            && (At(s, off, EncEntry(e)) <==> TightEntry(s, off))
    decreases |s| - off, 0
  {
    hide EncValue, DecValue, Tight, Encodable, U32, At;
    var (e, end) := DecEntry(s, off).value;
    var n := |e.key|;
    DecodedValue(s, off + 2 + n, s[off + 1 + n]);
    EntryAt(s, off, e);
  }

  lemma {:induction false} DecodedValue(s: seq<byte>, off: nat, kind: byte)
    requires |s| <= MAX_LENGTH && off <= |s| && DecValue(s, off, kind).Ok?
    ensures var (v, end) := DecValue(s, off, kind).value;
            && Kind(v) == kind && EncodableEntry(Entry([], v)) && end == off + |EncValue(v)|
            && (At(s, off, EncValue(v)) <==> (v.Nested? ==> Tight(s, off)))
    decreases |s| - off, 1
  {
    hide Be32, Be64, U32, U64, Tight, Encodable, EncTable, DecTable, Signed32, At;
    var (v, end) := DecValue(s, off, kind).value;
    match v
    case Str(bytes) =>
      AtSplit(s, off, Be32(|bytes|), bytes);
      At32(s, off, |bytes|);
      AtIs(s, off + 4, bytes);
    case Int(i) =>
      UnsignedImage(U32(s, off));
      At32(s, off, i % 0x1_0000_0000);
    case Decimal(decimals, units) =>
      At8(s, off, decimals);
      AtSplit(s, off, [decimals as byte], Be32(units));
      At32(s, off + 1, units);
    case Timestamp(time) =>
      At64(s, off, time);
    case Nested(t) =>
      Decoded(s, off);
  }

  // A table comes back from its own wire image exactly when nothing in it was truncated.
  lemma RoundTripExactly(t: Table)
    requires |EncTable(t)| <= MAX_LENGTH
    ensures DecTable(EncTable(t), 0) == Ok((t, |EncTable(t)|)) <==> Encodable(t)
  {
    var s := EncTable(t);
    if Encodable(t) {
      assert s[0..|s|] == s;
      RoundTrip(s, 0, t);
    } else if DecTable(s, 0) == Ok((t, |s|)) {
      Decoded(s, 0);
    }
  }

  /// The code itself

  lemma {:induction false} PrefixLength(es: seq<Entry>, k: nat)
    requires k <= |es|
    ensures |EncEntries(es[..k])| <= |EncEntries(es)|
  {
    hide EncEntry;
    if k < |es| {
      PrefixLength(es[..|es| - 1], k);
      assert es[..|es| - 1][..k] == es[..k];
    } else {
      assert es[..k] == es;
    }
  }

  /** amqp_encode_table: entries one after the other, then the size patched into the hole in front. */
  method EncodeTable(buf: array<byte>, limit: nat, input: Table, offset: nat) returns (r: Result<nat>)
    requires limit <= buf.Length <= MAX_LENGTH
    modifies buf
    ensures r.Ok? <==> KnownKinds(input) && offset + |EncTable(input)| <= limit
    ensures r.Ok? ==> r.value == offset + |EncTable(input)|
    ensures r.Ok? ==> buf[..] == Splice(old(buf[..]), offset, EncTable(input))
    ensures r.Err? ==> SameOutside(old(buf[..]), buf[..], offset, limit)
    ensures r.Err? ==> r.error == EFAULT || (r.error == EINVAL && !KnownKinds(input))
    decreases input
  {
    hide Be32, EncEntry, EncEntries, KnownKind, Splice, SameOutside;
    ghost var was, es := buf[..], input.entries;
    LastEntry([]);
    if offset + 4 <= limit { SpliceNothing(was, offset + 4); }
    var off, i := offset + 4, 0;
    while i < |input.entries|
      invariant 0 <= i <= |es| && off == offset + 4 + |EncEntries(es[..i])|
      invariant if off <= limit then buf[..] == Splice(was, offset + 4, EncEntries(es[..i])) else i == 0 && buf[..] == was
      invariant forall k :: 0 <= k < i ==> KnownKind(es[k].value)
    {
      ghost var done := EncEntries(es[..i]);
      PrefixLength(es, i + 1);
      LastEntry(es[..i + 1]);
      assert es[..i + 1][..i] == es[..i];
      var entry := EncodeEntry(buf, limit, input.entries[i], off);
      if off <= limit {
        if entry.Ok? {
          SpliceBehind(was, offset + 4, done, EncEntry(es[i]));
        } else {
          SpliceThen(was, offset + 4, done, buf[..], limit);
          SameWiden(was, buf[..], offset + 4, limit, offset, limit);
        }
      } else {
        SameWiden(was, buf[..], off, limit, offset, limit);
      }
      off :- entry;
      i := i + 1;
    }
    assert es[..i] == es;
    ghost var size, body := Be32(|EncEntries(es)| % 0x1_0000_0000), EncEntries(es);
    var ok := Put(buf, limit, offset, Be32((off - offset - 4) % 0x1_0000_0000));
    if !ok {
      SameItself(was, offset, limit);
      return Err(EFAULT);
    }
    if off <= limit { SpliceBefore(was, offset, size, body); }
    r := Ok(off);
  }

  method EncodeEntry(buf: array<byte>, limit: nat, entry: Entry, offset: nat) returns (r: Result<nat>)
    requires limit <= buf.Length <= MAX_LENGTH
    modifies buf
    ensures r.Ok? <==> KnownKind(entry.value) && offset + |EncEntry(entry)| <= limit
    ensures r.Ok? ==> r.value == offset + |EncEntry(entry)|
    ensures r.Ok? ==> buf[..] == Splice(old(buf[..]), offset, EncEntry(entry))
    ensures r.Err? ==> SameOutside(old(buf[..]), buf[..], offset, limit)
    ensures r.Err? ==> r.error == EFAULT || (r.error == EINVAL && !KnownKind(entry.value))
    decreases entry
  {
    hide EncValue, Splice, SameOutside;
    ghost var was := buf[..];
    var size, kind := [(|entry.key| % 0x100) as byte], [Kind(entry.value)];
    var ok := Put(buf, limit, offset, size);
    if !ok { SameItself(was, offset, limit); return Err(EFAULT); }
    SpliceItself(was, offset, size, limit);
    ok := Put(buf, limit, offset + 1, entry.key);
    if !ok { return Err(EFAULT); }
    SpliceBehind(was, offset, size, entry.key);
    SpliceItself(was, offset, size + entry.key, limit);
    ok := Put(buf, limit, offset + 1 + |entry.key|, kind);
    if !ok { return Err(EFAULT); }
    SpliceBehind(was, offset, size + entry.key, kind);
    r := EncodeValue(buf, limit, entry.value, offset + 2 + |entry.key|);
    if r.Err? {
      SpliceThen(was, offset, size + entry.key + kind, buf[..], limit);
    } else {
      SpliceBehind(was, offset, size + entry.key + kind, EncValue(entry.value));
    }
  }

  // The switch on the kind of an entry.
  method EncodeValue(buf: array<byte>, limit: nat, v: Value, offset: nat) returns (r: Result<nat>)
    requires limit <= buf.Length <= MAX_LENGTH
    modifies buf
    ensures r.Ok? <==> KnownKind(v) && offset + |EncValue(v)| <= limit
    ensures r.Ok? ==> r.value == offset + |EncValue(v)|
    ensures r.Ok? ==> buf[..] == Splice(old(buf[..]), offset, EncValue(v))
    ensures r.Err? ==> SameOutside(old(buf[..]), buf[..], offset, limit)
    ensures r.Err? ==> r.error == EFAULT || (r.error == EINVAL && !KnownKind(v))
    decreases v
  {
    hide Splice, SameOutside, Be32, Be64, EncTable;
    ghost var was := buf[..];
    SameItself(was, offset, limit);
    match v {
      case Str(bytes) =>
        var size := Be32(|bytes| % 0x1_0000_0000);
        var ok := Put(buf, limit, offset, size);
        if !ok { return Err(EFAULT); }
        SpliceItself(was, offset, size, limit);
        ok := Put(buf, limit, offset + 4, bytes);
        if !ok { return Err(EFAULT); }
        SpliceBehind(was, offset, size, bytes);
        r := Ok(offset + 4 + |bytes|);
      case Int(i) =>
        var ok := Put(buf, limit, offset, Be32(i % 0x1_0000_0000));
        r := if ok then Ok(offset + 4) else Err(EFAULT);
      case Decimal(decimals, units) =>
        var scale := [(decimals % 0x100) as byte];
        var ok := Put(buf, limit, offset, scale);
        if !ok { return Err(EFAULT); }
        SpliceItself(was, offset, scale, limit);
        ok := Put(buf, limit, offset + 1, Be32(units));
        if !ok { return Err(EFAULT); }
        SpliceBehind(was, offset, scale, Be32(units));
        r := Ok(offset + 5);
      case Timestamp(time) =>
        var ok := Put64(buf, limit, offset, time);
        r := if ok then Ok(offset + 8) else Err(EFAULT);
      case Nested(table) =>
        r := EncodeTable(buf, limit, table, offset);
      case Unknown(_) =>
        r := Err(EINVAL);
    }
  }

  /** amqp_decode_table. */
  method DecodeTable(encoded: seq<byte>, offset: nat) returns (r: Result<(Table, nat)>)
    requires |encoded| <= MAX_LENGTH
    ensures r == DecTable(encoded, offset)
    decreases |encoded| - offset, 0
  {
    var size :- D32(encoded, offset);
    var entries, off, limit := [], offset + 4, Signed32(offset + 4 + size);
    while off < limit
      invariant offset + 4 <= off <= |encoded|
      invariant DecEntries(encoded, offset + 4, limit, []) == DecEntries(encoded, off, limit, entries)
      decreases |encoded| - off
    {
      var entry :- DecodeEntry(encoded, off);
      entries, off := entries + [entry.0], entry.1;
    }
    r := Ok((Table(entries), off));
  }

  method DecodeEntry(encoded: seq<byte>, offset: nat) returns (r: Result<(Entry, nat)>)
    requires |encoded| <= MAX_LENGTH
    ensures r == DecEntry(encoded, offset)
    decreases |encoded| - offset, 0
  {
    var n :- D8(encoded, offset);
    var key :- DBytes(encoded, offset + 1, n);
    var kind :- D8(encoded, offset + 1 + n);
    if kind == KIND_F {
      var t :- DecodeTable(encoded, offset + 2 + n);
      r := Ok((Entry(key, Nested(t.0)), t.1));
    } else {
      var v :- DecValue(encoded, offset + 2 + n, kind);
      r := Ok((Entry(key, v.0), v.1));
    }
  }
}
