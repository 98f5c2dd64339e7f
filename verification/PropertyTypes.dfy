/** The types of properties, identifier by identifier (section 2.2.2.2, Table 2-4 of MQTT 5.0), and what a
    property of each is on the wire. */
module PropertyTypes {
  import opened Wrappers
  import opened Types
  import opened Wire
  import opened Properties

  predicate OneByte(id: int) {
    id == 1 || id == 23 || id == 25 || id == 36 || id == 37 || id == 40 || id == 41 || id == 42
  }

  predicate TwoBytes(id: int) {
    id == 19 || id == 33 || id == 34 || id == 35
  }

  predicate FourBytes(id: int) {
    id == 2 || id == 17 || id == 24 || id == 39
  }

  predicate BinaryOrString(id: int) {
    || id == 9 || id == 22
    || id == 3 || id == 8 || id == 18 || id == 21 || id == 26 || id == 28 || id == 31
  }

  // ----- The table -----

  lemma TableAscends(i: nat, j: nat)
    requires i < j < |NAMES_TO_TYPES|
    ensures NAMES_TO_TYPES[i].name < NAMES_TO_TYPES[j].name
  {
  }

  lemma {:induction false} FoundFrom(i: nat, j: nat)
    requires i <= j < |NAMES_TO_TYPES|
    ensures GetTypeFrom(NAMES_TO_TYPES[j].name, i) == Some(NAMES_TO_TYPES[j].kind)
    decreases j - i
  {
    if i < j {
      TableAscends(i, j);
      FoundFrom(i + 1, j);
    }
  }

  lemma {:induction false} NotFoundFrom(id: int, i: nat)
    requires forall j :: i <= j < |NAMES_TO_TYPES| ==> NAMES_TO_TYPES[j].name != id
    ensures GetTypeFrom(id, i) == None
    decreases |NAMES_TO_TYPES| - i
  {
    if i < |NAMES_TO_TYPES| {
      NotFoundFrom(id, i + 1);
    }
  }

  /** The type of every identifier; None for those that are not assigned. */
  function TypeOf(id: int): Option<PropertyType> {
    if OneByte(id) then Some(TypeByte)
    else if TwoBytes(id) then Some(TypeTwoByteInteger)
    else if FourBytes(id) then Some(TypeFourByteInteger)
    else if id == 11 then Some(TypeVariableByteInteger)
    else if id == 9 || id == 22 then Some(TypeBinaryData)
    else if BinaryOrString(id) then Some(TypeUtf8String)
    else if id == 38 then Some(TypeUtf8StringPair)
    else None
  }

  lemma EntryType(e: NameToType, j: nat)
    requires j < |NAMES_TO_TYPES| && e == NAMES_TO_TYPES[j]
    ensures Some(e.kind) == TypeOf(e.name)
  {
  }

  lemma TypeTable(id: int)
    ensures GetType(id) == TypeOf(id)
  {
    if exists j :: 0 <= j < |NAMES_TO_TYPES| && NAMES_TO_TYPES[j].name == id {
      var j :| 0 <= j < |NAMES_TO_TYPES| && NAMES_TO_TYPES[j].name == id;
      FoundFrom(0, j);
      EntryType(NAMES_TO_TYPES[j], j);
    } else {
      NotFoundFrom(id, 0);
      Assigned(id);
    }
  }

  /** The table has an entry for each of these. */
  lemma Assigned(id: int)
    requires forall j :: 0 <= j < |NAMES_TO_TYPES| ==> NAMES_TO_TYPES[j].name != id
    ensures !OneByte(id) && !TwoBytes(id) && !FourBytes(id) && !BinaryOrString(id) && id != 11 && id != 38
  {
    var t := NAMES_TO_TYPES;
    assert t[0].name == 1 && t[1].name == 2 && t[2].name == 3 && t[3].name == 8 && t[4].name == 9 && t[5].name == 11;
    assert t[6].name == 17 && t[7].name == 18 && t[8].name == 19 && t[9].name == 21 && t[10].name == 22 && t[11].name == 23;
    assert t[12].name == 24 && t[13].name == 25 && t[14].name == 26 && t[15].name == 28 && t[16].name == 31 && t[17].name == 33;
    assert t[18].name == 34 && t[19].name == 35 && t[20].name == 36 && t[21].name == 37 && t[22].name == 38 && t[23].name == 39;
    assert t[24].name == 40 && t[25].name == 41 && t[26].name == 42;
  }

  // ----- Reading -----

  /** Two bytes, most significant first. */
  function Two(mem: seq<Byte>, p: nat): nat
    requires p + 2 <= |mem|
  {
    256 * (mem[p] as int) + mem[p + 1]
  }

  function Four(mem: seq<Byte>, p: nat): nat
    requires p + 4 <= |mem|
  {
    256 * (256 * (256 * (mem[p] as int) + mem[p + 1]) + mem[p + 2]) + mem[p + 3]
  }

  lemma {:induction false} ReadsNumbers(mem: seq<Byte>, p: nat)
    ensures p + 2 <= |mem| ==> ReadInt(mem, p) == Two(mem, p)
    ensures p + 4 <= |mem| ==> ReadInt4(mem, p) == Four(mem, p)
  {
    if p + 2 <= |mem| {
      assert BigEndianAt(mem, p, 1) == mem[p];
    }
    if p + 4 <= |mem| {
      assert BigEndianAt(mem, p, 3) == 256 * BigEndianAt(mem, p, 2) + mem[p + 2];
    }
  }

  /** Two bytes of length and so many bytes of data, up to end. */
  predicate HasData(mem: seq<Byte>, p: nat, end: nat)
    requires end <= |mem|
  {
    p + 2 <= end && p + 2 + Two(mem, p) <= end
  }

  function DataAt(mem: seq<Byte>, p: nat, end: nat): seq<Byte>
    requires end <= |mem| && HasData(mem, p, end)
  {
    mem[p + 2..p + 2 + Two(mem, p)]
  }

  lemma ReadsData(mem: seq<Byte>, p: nat, end: nat)
    requires end <= |mem|
    ensures ReadLen(mem, p, end) == if HasData(mem, p, end) then Some(DataAt(mem, p, end)) else None
  {
    ReadsNumbers(mem, p);
  }

  /** The numbers: one byte, two or four of them, most significant first. */
  lemma NumberRead(mem: seq<Byte>, pos: nat, end: nat)
    requires pos < |mem| && end <= |mem|
    ensures var id, p, r := mem[pos], pos + 1, PropertyAt(mem, pos, end);
            && (OneByte(id) ==> r == if p + 1 <= |mem| then Some(ReadProperty(Property(id, ByteValue(mem[p])), p + 1, 2)) else None)
            && (TwoBytes(id) ==> r == if p + 2 <= |mem| then Some(ReadProperty(Property(id, TwoByteValue(Two(mem, p))), p + 2, 3)) else None)
            && (FourBytes(id) ==> r == if p + 4 <= |mem| then Some(ReadProperty(Property(id, FourByteValue(Four(mem, p))), p + 4, 5)) else None)
  {
    TypeTable(mem[pos]);
    ReadsNumbers(mem, pos + 1);
  }

  /** The number that n bytes give of seven bits each, least significant first. */
  function Septets(mem: seq<Byte>, p: nat, n: nat): nat
    requires p + n <= |mem|
    decreases n
  {
    if n == 0 then 0 else mem[p] % 128 + 128 * Septets(mem, p + 1, n - 1)
  }

  /** The last of n bytes is below 128, the others are not. */
  predicate EndsAfter(mem: seq<Byte>, p: nat, n: nat) {
    0 < n && p + n <= |mem| && mem[p + n - 1] < 128 && forall i :: p <= i < p + n - 1 ==> mem[i] >= 128
  }

  /** The subscription identifier: one to four bytes. */
  lemma VariableRead(mem: seq<Byte>, pos: nat, end: nat, n: nat)
    requires pos < |mem| && end <= |mem| && mem[pos] == 11 && n <= 4 && EndsAfter(mem, pos + 1, n)
    ensures PropertyAt(mem, pos, end) == Some(ReadProperty(Property(11, FourByteValue(Septets(mem, pos + 1, n))), pos + 1 + n, n + 1))
  {
    TypeTable(11);
    SeptetsRead(mem, pos + 1, n, 4);
  }

  lemma {:induction false} SeptetsRead(mem: seq<Byte>, p: nat, n: nat, left: nat)
    requires n <= left && EndsAfter(mem, p, n)
    ensures VbiAt(mem, p, left) == Some(Decoded(Septets(mem, p, n), n))
    decreases n
  {
    if n > 1 {
      SeptetsRead(mem, p + 1, n - 1, left - 1);
    }
  }

  /** Binary data and strings, and pairs of strings; no other identifier is read. */
  lemma DataRead(mem: seq<Byte>, pos: nat, end: nat)
    requires pos < |mem| && end <= |mem|
    ensures var id, p, r := mem[pos], pos + 1, PropertyAt(mem, pos, end);
            && (BinaryOrString(id) ==>
                 r == if HasData(mem, p, end)
                      then Some(ReadProperty(Property(id, DataValue(DataAt(mem, p, end))), p + 2 + Two(mem, p), Two(mem, p) + 3)) else None)
            && (id == 38 ==>
                 r == if HasData(mem, p, end) && HasData(mem, p + 2 + Two(mem, p), end)
                      then var q := p + 2 + Two(mem, p);
                           var len := 4 + Two(mem, p) + Two(mem, q);
                           Some(ReadProperty(Property(38, PairValue(DataAt(mem, p, end), DataAt(mem, q, end))), p + len, len + 1)) else None)
            && (!OneByte(id) && !TwoBytes(id) && !FourBytes(id) && !BinaryOrString(id) && id != 11 && id != 38 ==> r == None)
  {
    var p := pos + 1;
    TypeTable(mem[pos]);
    ReadsData(mem, p, end);
    if HasData(mem, p, end) {
      ReadsData(mem, p + 2 + Two(mem, p), end);
    }
  }

  // ----- Writing -----

  /** Which values are written under an identifier. */
  lemma WhatIsWellTyped(p: Property)
    ensures WellTyped(p) <==>
            || (OneByte(p.identifier) && p.value.ByteValue?)
            || (TwoBytes(p.identifier) && p.value.TwoByteValue? && 0 <= p.value.integer2 < 65536)
            || (FourBytes(p.identifier) && p.value.FourByteValue? && 0 <= p.value.integer4 < 4294967296)
            || (p.identifier == 11 && p.value.FourByteValue? && 0 <= p.value.integer4 < 268435456)
            || (BinaryOrString(p.identifier) && p.value.DataValue? && |p.value.data| < 65536)
            || (p.identifier == 38 && p.value.PairValue? && |p.value.name| < 65536 && |p.value.value| < 65536)
  {
    TypeTable(p.identifier);
  }

  function TwoBytesOf(v: nat): seq<Byte>
    requires v < 65536
  {
    [v / 256, v % 256]
  }

  function FourBytesOf(v: nat): seq<Byte>
    requires v < 4294967296
  {
    [v / 256 / 256 / 256, v / 256 / 256 % 256, v / 256 % 256, v % 256]
  }

  lemma {:induction false} TwoByteNumber(v: nat)
    requires v < 65536
    ensures Int2(v) == TwoBytesOf(v)
  {
    assert BigEndian(v / 256, 1) == [v / 256];
  }

  lemma {:induction false} FourByteNumber(v: nat)
    requires v < 4294967296
    ensures Int4(v) == FourBytesOf(v)
  {
    assert BigEndian(v / 256 / 256 / 256, 1) == [v / 256 / 256 / 256];
    assert BigEndian(v / 256 / 256, 2) == [v / 256 / 256 / 256] + [v / 256 / 256 % 256];
    assert BigEndian(v / 256, 3) == BigEndian(v / 256 / 256, 2) + [v / 256 % 256];
    assert BigEndian(v, 4) == BigEndian(v / 256, 3) + [v % 256];
  }

  /** The bytes of a property, identifier first. */
  lemma WhatIsWritten(p: Property)
    requires WellTyped(p)
    ensures var id, s := p.identifier, PropertyBytes(p);
            match p.value
            case ByteValue(b) => s == [id, b]
            case TwoByteValue(v) => s == [id] + TwoBytesOf(v)
            case FourByteValue(v) => id != 11 ==> s == [id] + FourBytesOf(v)
            case DataValue(d) => s == [id] + (TwoBytesOf(|d|) + d)
            case PairValue(n, v) => s == [id] + ((TwoBytesOf(|n|) + n) + (TwoBytesOf(|v|) + v))
  {
    TypeTable(p.identifier);
    WhatIsWellTyped(p);
    match p.value {
      case ByteValue(_) =>
      case TwoByteValue(v) => TwoByteNumber(v);
      case FourByteValue(v) => FourByteNumber(v);
      case DataValue(d) => TwoByteNumber(|d|);
      case PairValue(n, v) =>
        TwoByteNumber(|n|);
        TwoByteNumber(|v|);
    }
  }
}
