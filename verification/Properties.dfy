/** MQTT 5.0 property lists (src/MQTTProperties.c; section 2.2.2 of MQTT 5.0). */
module Properties {
  import opened Wrappers
  import opened Types
  import opened Wire

  const MQTT_INVALID_PROPERTY_ID := -2

  datatype PropertyType =
    | TypeByte | TypeTwoByteInteger | TypeFourByteInteger | TypeVariableByteInteger
    | TypeBinaryData | TypeUtf8String | TypeUtf8StringPair

  datatype NameToType = NameToType(name: int, kind: PropertyType)

  const NAMES_TO_TYPES: seq<NameToType> := [
    NameToType(1, TypeByte),                    // payload format indicator
    NameToType(2, TypeFourByteInteger),         // message expiry interval
    NameToType(3, TypeUtf8String),              // content type
    NameToType(8, TypeUtf8String),              // response topic
    NameToType(9, TypeBinaryData),              // correlation data
    NameToType(11, TypeVariableByteInteger),    // subscription identifier
    NameToType(17, TypeFourByteInteger),        // session expiry interval
    NameToType(18, TypeUtf8String),             // assigned client identifier
    NameToType(19, TypeTwoByteInteger),         // server keep alive
    NameToType(21, TypeUtf8String),             // authentication method
    NameToType(22, TypeBinaryData),             // authentication data
    NameToType(23, TypeByte),                   // request problem information
    NameToType(24, TypeFourByteInteger),        // will delay interval
    NameToType(25, TypeByte),                   // request response information
    NameToType(26, TypeUtf8String),             // response information
    NameToType(28, TypeUtf8String),             // server reference
    NameToType(31, TypeUtf8String),             // reason string
    NameToType(33, TypeTwoByteInteger),         // receive maximum
    NameToType(34, TypeTwoByteInteger),         // topic alias maximum
    NameToType(35, TypeTwoByteInteger),         // topic alias
    NameToType(36, TypeByte),                   // maximum QoS
    NameToType(37, TypeByte),                   // retain available
    NameToType(38, TypeUtf8StringPair),         // user property
    NameToType(39, TypeFourByteInteger),        // maximum packet size
    NameToType(40, TypeByte),                   // wildcard subscription available
    NameToType(41, TypeByte),                   // subscription identifiers available
    NameToType(42, TypeByte)                    // shared subscription available
  ]

  function GetTypeFrom(id: int, i: nat): Option<PropertyType>
    decreases |NAMES_TO_TYPES| - i, id
  {
    if i >= |NAMES_TO_TYPES| then None
    else if NAMES_TO_TYPES[i].name == id then Some(NAMES_TO_TYPES[i].kind)
    else GetTypeFrom(id, i + 1)
  }

  /** MQTTProperty_getType; None is its -1. */
  function GetType(id: int): Option<PropertyType> {
    GetTypeFrom(id, 0)
  }

  /** The value is the one its identifier calls for, within the range the encoding can carry. */
  ghost predicate WellTyped(p: Property) {
    && 0 <= p.identifier < 256
    && match GetType(p.identifier)
    case None => false
    case Some(TypeByte) => p.value.ByteValue?
    case Some(TypeTwoByteInteger) => p.value.TwoByteValue? && 0 <= p.value.integer2 < 65536
    case Some(TypeFourByteInteger) => p.value.FourByteValue? && 0 <= p.value.integer4 < 4294967296
    case Some(TypeVariableByteInteger) => p.value.FourByteValue? && 0 <= p.value.integer4 < VBI_LIMIT
    case Some(TypeBinaryData) => p.value.DataValue? && |p.value.data| < 65536
    case Some(TypeUtf8String) => p.value.DataValue? && |p.value.data| < 65536
    case Some(TypeUtf8StringPair) => p.value.PairValue? && |p.value.name| < 65536 && |p.value.value| < 65536
  }

  ghost predicate AllWellTyped(ps: seq<Property>) {
    forall i {:trigger WellTyped(ps[i])} :: 0 <= i < |ps| ==> WellTyped(ps[i])
  }

  /** The encoded value of a property, without its identifier. */
  function ValueBytes(p: Property): seq<Byte>
    requires WellTyped(p)
  {
    match p.value
    case ByteValue(b) => [b]
    case TwoByteValue(v) => Int2(v)
    case FourByteValue(v) => if GetType(p.identifier) == Some(TypeVariableByteInteger) then VbiBytes(v) else Int4(v)
    case DataValue(d) => LenBytes(d)
    case PairValue(n, v) => LenBytes(n) + LenBytes(v)
  }

  function PropertyBytes(p: Property): (s: seq<Byte>)
    requires WellTyped(p)
    ensures |s| >= 2
  {
    [p.identifier] + ValueBytes(p)
  }

  /** The byte strings from position i on, one after the other. */
  function FlatFrom(bs: seq<seq<Byte>>, i: nat): seq<Byte>
    requires i <= |bs|
    decreases |bs| - i
  {
    if i == |bs| then [] else bs[i] + FlatFrom(bs, i + 1)
  }

  function Encodings(ps: seq<Property>): (bs: seq<seq<Byte>>)
    requires AllWellTyped(ps)
    ensures |bs| == |ps|
  {
    seq(|ps|, i requires 0 <= i < |ps| => PropertyBytes(ps[i]))
  }

  function ListBytes(ps: seq<Property>): seq<Byte>
    requires AllWellTyped(ps)
  {
    FlatFrom(Encodings(ps), 0)
  }

  /** A property list on the wire: its length as a variable byte integer, then the properties. */
  function EncodedList(ps: seq<Property>): seq<Byte>
    requires AllWellTyped(ps)
  {
    VbiBytes(|ListBytes(ps)|) + ListBytes(ps)
  }

  lemma {:induction false} FlatAppend(bs: seq<seq<Byte>>, b: seq<Byte>, i: nat)
    requires i <= |bs|
    ensures FlatFrom(bs + [b], i) == FlatFrom(bs, i) + b
    decreases |bs| - i
  {
    if i < |bs| {
      FlatAppend(bs, b, i + 1);
      Assoc(bs[i], FlatFrom(bs, i + 1), b);
    } else {
      assert FlatFrom(bs + [b], i + 1) == [];
    }
  }

  lemma Assoc<T>(a: seq<T>, b: seq<T>, c: seq<T>)
    ensures a + (b + c) == a + b + c
  {
  }

  lemma ListBytesAppend(ps: seq<Property>, p: Property)
    requires AllWellTyped(ps) && WellTyped(p)
    ensures AllWellTyped(ps + [p]) && ListBytes(ps + [p]) == ListBytes(ps) + PropertyBytes(p)
  {
    assert Encodings(ps + [p]) == Encodings(ps) + [PropertyBytes(p)];
    FlatAppend(Encodings(ps), PropertyBytes(p), 0);
  }

  // ----- Reading -----

  datatype ReadProperty = ReadProperty(property: Property, next: nat, len: nat)

  /** MQTTProperty_read.  None: unknown identifier, overrun of end, or off the memory. */
  function PropertyAt(mem: seq<Byte>, pos: nat, end: nat): (r: Option<ReadProperty>)
    requires end <= |mem|
    ensures r.Some? ==> r.value.next > pos && r.value.len > 0
  {
    if pos >= |mem| then None
    else
      var id, p := mem[pos], pos + 1;
      match GetType(id)
      case None => None
      case Some(TypeByte) =>
        if p + 1 <= |mem| then Some(ReadProperty(Property(id, ByteValue(mem[p])), p + 1, 2)) else None
      case Some(TypeTwoByteInteger) =>
        if p + 2 <= |mem| then Some(ReadProperty(Property(id, TwoByteValue(ReadInt(mem, p))), p + 2, 3)) else None
      case Some(TypeFourByteInteger) =>
        if p + 4 <= |mem| then Some(ReadProperty(Property(id, FourByteValue(ReadInt4(mem, p))), p + 4, 5)) else None
      case Some(TypeVariableByteInteger) =>
        (match VbiAt(mem, p, MAX_NO_OF_REMAINING_LENGTH_BYTES)
         case None => None
         case Some(d) => Some(ReadProperty(Property(id, FourByteValue(d.value)), p + d.len, d.len + 1)))
      case Some(TypeUtf8StringPair) =>
        (match ReadLen(mem, p, end)
         case None => None
         case Some(name) =>
           match ReadLen(mem, p + 2 + |name|, end)
           case None => None
           case Some(value) =>
             var len := 4 + |name| + |value|;
             Some(ReadProperty(Property(id, PairValue(name, value)), p + len, len + 1)))
      case Some(_) =>
        match ReadLen(mem, p, end)
        case None => None
        case Some(data) => Some(ReadProperty(Property(id, DataValue(data)), p + 2 + |data|, |data| + 3))
  }

  /** Subtraction of unsigned 32-bit counts. */
  function Less(a: nat, b: nat): nat {
    if a >= b then a - b else (a - b) % 0x1_0000_0000
  }

  datatype ReadList = ReadList(properties: seq<Property>, next: nat)

  /** Properties from pos on until the remaining length, an unsigned 32-bit count, is exactly used.
      Every read moves forward. */
  function ReadAll(read: nat -> Option<ReadProperty>, limit: nat, pos: nat, remlength: nat): (r: Option<ReadList>)
    decreases limit - pos
  {
    if remlength == 0 then Some(ReadList([], pos))
    else if pos >= limit || read(pos).None? || read(pos).value.next <= pos then None
    else
      var p := read(pos).value;
      match ReadAll(read, limit, p.next, Less(remlength, p.len))
      case None => None
      case Some(rest) => Some(ReadList([p.property] + rest.properties, rest.next))
  }

  /** Reading one property from a memory. */
  function Reader(mem: seq<Byte>, end: nat): nat -> Option<ReadProperty>
    requires end <= |mem|
  {
    (q: nat) => PropertyAt(mem, q, end)
  }

  function PropertiesAt(mem: seq<Byte>, pos: nat, end: nat, remlength: nat): (r: Option<ReadList>)
    requires end <= |mem|
  {
    ReadAll(Reader(mem, end), |mem|, pos, remlength)
  }

  /** MQTTProperties_read into an initialized list. */
  function ListAt(mem: seq<Byte>, pos: nat, end: nat): (r: Option<ReadList>)
    requires end <= |mem|
  {
    if pos >= end then None
    else
      match VbiAt(mem, pos, MAX_NO_OF_REMAINING_LENGTH_BYTES)
      case None => None
      case Some(d) => PropertiesAt(mem, pos + d.len, end, d.value)
  }

  // ----- Round trip -----

  ghost predicate ReadsOne(read: nat -> Option<ReadProperty>, q: nat, p: Property, n: nat) {
    n > 0 && read(q) == Some(ReadProperty(p, q + n, n))
  }

  lemma ReaderIs(mem: seq<Byte>, end: nat, q: nat, p: Property, n: nat)
    requires n > 0 && end <= |mem| && PropertyAt(mem, q, end) == Some(ReadProperty(p, q + n, n))
    ensures ReadsOne(Reader(mem, end), q, p, n)
  {
  }

  lemma PropertyRoundTrip(mem: seq<Byte>, pos: nat, end: nat, p: Property, b: seq<Byte>)
    requires WellTyped(p) && b == PropertyBytes(p) && Present(mem, pos, b) && pos + |b| <= end <= |mem|
    ensures PropertyAt(mem, pos, end) == Some(ReadProperty(p, pos + |b|, |b|))
    ensures ReadsOne(Reader(mem, end), pos, p, |b|)
  {
    PresentSplit(mem, pos, [p.identifier], ValueBytes(p));
    assert mem[pos] == [p.identifier][0];
    ValueRoundTrip(mem, pos + 1, end, p);
    ReaderIs(mem, end, pos, p, |b|);
  }

  lemma ValueRoundTrip(mem: seq<Byte>, pos: nat, end: nat, p: Property)
    requires WellTyped(p) && Present(mem, pos, ValueBytes(p)) && pos + |ValueBytes(p)| <= end <= |mem|
    requires pos > 0 && mem[pos - 1] == p.identifier
    ensures PropertyAt(mem, pos - 1, end) == Some(ReadProperty(p, pos + |ValueBytes(p)|, |ValueBytes(p)| + 1))
  {
    match p.value
    case ByteValue(b) => assert mem[pos] == [b][0];
    case TwoByteValue(v) => Int2RoundTrip(mem, pos, v);
    case FourByteValue(v) =>
      if GetType(p.identifier) == Some(TypeVariableByteInteger) {
        VbiLenIsLength(v);
        VbiRoundTrip(mem, pos, v, MAX_NO_OF_REMAINING_LENGTH_BYTES);
      } else {
        Int4RoundTrip(mem, pos, v);
      }
    case DataValue(d) => LenRoundTrip(mem, pos, end, d);
    case PairValue(n, v) =>
      PresentSplit(mem, pos, LenBytes(n), LenBytes(v));
      LenRoundTrip(mem, pos, end, n);
      LenRoundTrip(mem, pos + 2 + |n|, end, v);
  }

  /** The byte strings from i on lie one after the other in memory, up to end at most. */
  ghost predicate Laid(mem: seq<Byte>, pos: nat, end: nat, bs: seq<seq<Byte>>, i: nat)
    requires i <= |bs|
    decreases |bs| - i
  {
    i < |bs| ==> Present(mem, pos, bs[i]) && pos + |bs[i]| <= end && Laid(mem, pos + |bs[i]|, end, bs, i + 1)
  }

  lemma {:induction false} PresentIsLaid(mem: seq<Byte>, pos: nat, end: nat, bs: seq<seq<Byte>>, i: nat)
    requires i <= |bs|
    requires Present(mem, pos, FlatFrom(bs, i)) && pos + |FlatFrom(bs, i)| <= end
    ensures Laid(mem, pos, end, bs, i)
    decreases |bs| - i
  {
    if i < |bs| {
      PresentSplit(mem, pos, bs[i], FlatFrom(bs, i + 1));
      PresentIsLaid(mem, pos + |bs[i]|, end, bs, i + 1);
    }
  }

  /** Reading from pos on meets these properties, encoded so, one after the other. */
  ghost predicate Chained(read: nat -> Option<ReadProperty>, limit: nat, pos: nat, ps: seq<Property>, bs: seq<seq<Byte>>, i: nat)
    requires i <= |ps| == |bs|
    decreases |ps| - i
  {
    i < |ps| ==>
      && pos < limit && |bs[i]| > 0
      && read(pos) == Some(ReadProperty(ps[i], pos + |bs[i]|, |bs[i]|))
      && Chained(read, limit, pos + |bs[i]|, ps, bs, i + 1)
  }

  lemma {:induction false} ChainedReadsAll(read: nat -> Option<ReadProperty>, limit: nat, pos: nat, ps: seq<Property>, bs: seq<seq<Byte>>, i: nat)
    requires i <= |ps| == |bs| && Chained(read, limit, pos, ps, bs, i)
    ensures ReadAll(read, limit, pos, |FlatFrom(bs, i)|) == Some(ReadList(ps[i..], pos + |FlatFrom(bs, i)|))
    decreases |ps| - i
  {
    if i < |ps| {
      ChainedReadsAll(read, limit, pos + |bs[i]|, ps, bs, i + 1);
      assert [ps[i]] + ps[i + 1..] == ps[i..];
    } else {
      assert ps[i..] == [];
    }
  }

  lemma {:induction false} ChainedReadsIt(read: nat -> Option<ReadProperty>, limit: nat, pos: nat, ps: seq<Property>, bs: seq<seq<Byte>>,
                       bytes: seq<Byte>, r: Option<ReadList>)
    requires |ps| == |bs| && Chained(read, limit, pos, ps, bs, 0)
    requires bytes == FlatFrom(bs, 0) && r == Some(ReadList(ps, pos + |bytes|))
    ensures ReadAll(read, limit, pos, |bytes|) == r
  {
    ChainedReadsAll(read, limit, pos, ps, bs, 0);
    assert ps[0..] == ps;
  }

  /** Wherever one of these encodings lies in memory before end, its property is read. */
  ghost predicate ReadsBack(read: nat -> Option<ReadProperty>, mem: seq<Byte>, end: nat, ps: seq<Property>, bs: seq<seq<Byte>>)
    requires |ps| == |bs|
  {
    forall q: nat, i {:trigger Present(mem, q, bs[i])} :: 0 <= i < |ps| && Present(mem, q, bs[i]) && q + |bs[i]| <= end ==>
      ReadsOne(read, q, ps[i], |bs[i]|)
  }

  lemma {:induction false} LaidIsChained(read: nat -> Option<ReadProperty>, mem: seq<Byte>, pos: nat, end: nat,
                                         ps: seq<Property>, bs: seq<seq<Byte>>, i: nat)
    requires i <= |ps| == |bs| && end <= |mem| && ReadsBack(read, mem, end, ps, bs) && Laid(mem, pos, end, bs, i)
    ensures Chained(read, |mem|, pos, ps, bs, i)
    decreases |ps| - i
  {
    if i < |ps| {
      LaidIsChained(read, mem, pos + |bs[i]|, end, ps, bs, i + 1);
    }
  }

  lemma {:induction false} PresentReadsAll(read: nat -> Option<ReadProperty>, mem: seq<Byte>, pos: nat, end: nat, ps: seq<Property>, bs: seq<seq<Byte>>,
                        bytes: seq<Byte>, r: Option<ReadList>)
    requires |ps| == |bs| && end <= |mem| && ReadsBack(read, mem, end, ps, bs)
    requires bytes == FlatFrom(bs, 0) && r == Some(ReadList(ps, pos + |bytes|))
    requires Present(mem, pos, bytes) && pos + |bytes| <= end
    ensures ReadAll(read, |mem|, pos, |bytes|) == r
  {
    PresentIsLaid(mem, pos, end, bs, 0);
    LaidIsChained(read, mem, pos, end, ps, bs, 0);
    ChainedReadsIt(read, |mem|, pos, ps, bs, bytes, r);
  }

  lemma EncodingAt(ps: seq<Property>, bs: seq<seq<Byte>>, i: nat)
    requires AllWellTyped(ps) && bs == Encodings(ps) && i < |ps|
    ensures WellTyped(ps[i]) && bs[i] == PropertyBytes(ps[i]) && |bs[i]| > 0
  {
  }

  lemma ReaderReadsBack(mem: seq<Byte>, end: nat, ps: seq<Property>)
    requires AllWellTyped(ps) && end <= |mem|
    ensures ReadsBack(Reader(mem, end), mem, end, ps, Encodings(ps))
  {
    var bs := Encodings(ps);
    forall q: nat, i | 0 <= i < |ps| && Present(mem, q, bs[i]) && q + |bs[i]| <= end
      ensures ReadsOne(Reader(mem, end), q, ps[i], |bs[i]|)
    {
      EncodingAt(ps, bs, i);
      PropertyRoundTrip(mem, q, end, ps[i], bs[i]);
    }
  }

  lemma {:induction false} ListStep(mem: seq<Byte>, pos: nat, end: nat, n: nat, len: nat, r: Option<ReadList>)
    requires pos < end <= |mem| && VbiAt(mem, pos, MAX_NO_OF_REMAINING_LENGTH_BYTES) == Some(Decoded(n, len))
    requires ReadAll(Reader(mem, end), |mem|, pos + len, n) == r
    ensures ListAt(mem, pos, end) == r
  {
  }

  lemma {:induction false} ListBytesIs(ps: seq<Property>, bs: seq<seq<Byte>>)
    requires AllWellTyped(ps) && bs == Encodings(ps)
    ensures ListBytes(ps) == FlatFrom(bs, 0)
  {
  }

  lemma {:induction false} ListBody(mem: seq<Byte>, pos: nat, end: nat, ps: seq<Property>, bs: seq<seq<Byte>>, bytes: seq<Byte>, len: nat, r: Option<ReadList>)
    requires AllWellTyped(ps) && bs == Encodings(ps) && bytes == FlatFrom(bs, 0) && len > 0
    requires Present(mem, pos + len, bytes) && pos + len + |bytes| <= end <= |mem| && r == Some(ReadList(ps, pos + len + |bytes|))
    requires VbiAt(mem, pos, MAX_NO_OF_REMAINING_LENGTH_BYTES) == Some(Decoded(|bytes|, len))
    ensures ListAt(mem, pos, end) == r
  {
    ReaderReadsBack(mem, end, ps);
    PresentReadsAll(Reader(mem, end), mem, pos + len, end, ps, bs, bytes, r);
    ListStep(mem, pos, end, |bytes|, len, r);
  }

  lemma {:induction false} PrefixRead(mem: seq<Byte>, pos: nat, n: nat, prefix: seq<Byte>)
    requires n < VBI_LIMIT && prefix == VbiBytes(n) && Present(mem, pos, prefix)
    ensures VbiAt(mem, pos, MAX_NO_OF_REMAINING_LENGTH_BYTES) == Some(Decoded(n, |prefix|))
  {
    VbiLenIsLength(n);
    VbiRoundTrip(mem, pos, n, MAX_NO_OF_REMAINING_LENGTH_BYTES);
  }

  lemma {:induction false} ListReads(mem: seq<Byte>, pos: nat, end: nat, ps: seq<Property>, bytes: seq<Byte>, prefix: seq<Byte>, r: Option<ReadList>)
    requires AllWellTyped(ps) && bytes == ListBytes(ps) && |bytes| < VBI_LIMIT && prefix == VbiBytes(|bytes|)
    requires Present(mem, pos, prefix) && Present(mem, pos + |prefix|, bytes) && pos + |prefix| + |bytes| <= end <= |mem|
    requires r == Some(ReadList(ps, pos + |prefix| + |bytes|))
    ensures ListAt(mem, pos, end) == r
  {
    ListBytesIs(ps, Encodings(ps));
    PrefixRead(mem, pos, |bytes|, prefix);
    ListBody(mem, pos, end, ps, Encodings(ps), bytes, |prefix|, r);
  }

  /** Reading undoes writing, wherever in memory and whatever follows. */
  lemma ListRoundTrip(mem: seq<Byte>, pos: nat, end: nat, ps: seq<Property>)
    requires AllWellTyped(ps) && |ListBytes(ps)| < VBI_LIMIT
    requires Present(mem, pos, EncodedList(ps)) && pos + |EncodedList(ps)| <= end <= |mem|
    ensures ListAt(mem, pos, end) == Some(ReadList(ps, pos + |EncodedList(ps)|))
  {
    var bytes := ListBytes(ps);
    PresentSplit(mem, pos, VbiBytes(|bytes|), bytes);
    ListReads(mem, pos, end, ps, bytes, VbiBytes(|bytes|), Some(ReadList(ps, pos + |EncodedList(ps)|)));
  }

  /** The length in front of a list. */
  ghost predicate LengthIs(mem: seq<Byte>, pos: nat, n: int) {
    match VbiAt(mem, pos, MAX_NO_OF_REMAINING_LENGTH_BYTES)
    case None => false
    case Some(d) => d.value == n
  }

  /** Written into any memory, a list is there to be read. */
  lemma WrittenReadsBack(mem: seq<Byte>, pos: nat, ps: seq<Property>)
    requires AllWellTyped(ps) && |ListBytes(ps)| < VBI_LIMIT && pos + |EncodedList(ps)| <= |mem|
    ensures var after := Written(mem, pos, EncodedList(ps));
            && ListAt(after, pos, |mem|) == Some(ReadList(ps, pos + |EncodedList(ps)|))
            && LengthIs(after, pos, |ListBytes(ps)|)
  {
    var after, n := Written(mem, pos, EncodedList(ps)), |ListBytes(ps)|;
    WrittenIsPresent(mem, pos, EncodedList(ps));
    ListRoundTrip(after, pos, |mem|, ps);
    PresentSplit(after, pos, VbiBytes(n), ListBytes(ps));
    PrefixRead(after, pos, n, VbiBytes(n));
  }

  // ----- The list object -----

  class PropertyList {
    var items: seq<Property>
    var max_count: int
    var length: int

    /** The kept length is the true encoded size of the properties. */
    ghost predicate Valid()
      reads this
    {
      && AllWellTyped(items)
      && length == |ListBytes(items)|
      && |items| <= max_count
    }

    constructor ()
      ensures Valid() && items == []
    {
      items := [];
      max_count, length := 0, 0;
    }

    /** MQTTProperties_len. */
    function Len(): (n: int)
      requires Valid() && length < VBI_LIMIT
      reads this
      ensures n == |EncodedList(items)|
    {
      VbiLenIsLength(length);
      length + VbiLen(length)
    }

    /** MQTTProperties_add. */
    method Add(prop: Property) returns (rc: int)
      requires Valid() && (GetType(prop.identifier).Some? ==> WellTyped(prop))
      modifies this
      ensures Valid()
      ensures GetType(prop.identifier).None? ==> rc == MQTT_INVALID_PROPERTY_ID && items == old(items)
      ensures GetType(prop.identifier).Some? ==> rc == 0 && items == old(items) + [prop]
    {
      rc := 0;
      var kind := GetType(prop.identifier);
      if kind.None? {
        return MQTT_INVALID_PROPERTY_ID;
      }
      if |items| == max_count {
        max_count := max_count + 10;
      }
      var len;
      match kind.value {
        case TypeByte => len := 1;
        case TypeTwoByteInteger => len := 2;
        case TypeFourByteInteger => len := 4;
        case TypeVariableByteInteger =>
          len := VbiLen(prop.value.integer4);
          VbiLenIsLength(prop.value.integer4);
        case TypeBinaryData => len := 2 + |prop.value.data|;
        case TypeUtf8String => len := 2 + |prop.value.data|;
        case TypeUtf8StringPair =>
          len := 2 + |prop.value.name|;
          len := len + 2 + |prop.value.value|;
      }
      ListBytesAppend(items, prop);
      items := items + [prop];
      length := length + len + 1;
    }

    /** MQTTProperties_copy: the copy's length is counted afresh. */
    method Copy() returns (result: PropertyList)
      requires Valid()
      ensures fresh(result) && result.Valid() && result.items == items && result.length == length
    {
      result := new PropertyList();
      var i := 0;
      while i < |items|
        invariant 0 <= i <= |items| && result.Valid() && fresh(result) && result.items == items[..i]
      {
        PrefixNext(items, i, result.items);
        var rc := result.Add(items[i]);
        i := i + 1;
      }
      assert items[..i] == items;
    }

    /** MQTTProperties_write.  The position advances by Len(); the return value counts the length
        prefix as one byte whatever its size. */
    method Write(buf: array<Byte>, pos: nat) returns (next: nat, rc: int)
      requires Valid() && length < VBI_LIMIT && pos + |EncodedList(items)| <= buf.Length
      modifies buf
      ensures next == pos + Len() && rc == length + 1
      ensures buf[..] == Written(old(buf[..]), pos, EncodedList(items))
    {
      var n := Encode(buf, pos, length);
      next, rc := WriteItems(buf, pos + n, items, old(buf[..]), pos, VbiBytes(length));
      rc := rc + 1;
    }

    /** MQTTProperties_read.  On failure the list is freed, that is, empty again. */
    method Read(mem: seq<Byte>, pos: nat, end: nat) returns (ok: bool, next: nat)
      requires Valid() && items == [] && end <= |mem|
      modifies this
      ensures ok <==> ListAt(mem, pos, end).Some?
      ensures ok ==> items == ListAt(mem, pos, end).value.properties && next == ListAt(mem, pos, end).value.next
      ensures ok ==> |items| <= max_count && LengthIs(mem, pos, length)
      ensures !ok ==> items == []
    {
      ok, next := false, pos;
      if end > pos {
        var d := DecodeBuf(mem, pos);
        if d.None? {
          return;
        }
        next := pos + d.value.len;
        length := d.value.value;
        var remlength := d.value.value;
        ghost var whole := PropertiesAt(mem, next, end, remlength);
        assert whole == ListAt(mem, pos, end);
        assert Continues(whole, items, whole) by {
          assert whole.Some? ==> [] + whole.value.properties == whole.value.properties;
        }
        while remlength > 0
          invariant remlength >= 0
          invariant Continues(whole, items, PropertiesAt(mem, next, end, remlength))
          invariant |items| <= max_count && length == d.value.value
          decreases remlength > 0, |mem| - next
        {
          if |items| == max_count {
            max_count := max_count + 10;
          }
          var p := PropertyAt(mem, next, end);
          if p.None? {
            break;
          }
          ContinuesStep(whole, items, mem, next, end, remlength, p.value);
          next := p.value.next;
          remlength := Less(remlength, p.value.len);
          items := items + [p.value.property];
        }
        ok := remlength == 0;
        if !ok {
          items, max_count, length := [], 0, 0;
        }
      }
    }
  }

  /** A list written into a buffer and read back from it, whatever else the buffer holds. */
  method WriteThenRead(list: PropertyList, buf: array<Byte>, pos: nat) returns (ok: bool, back: PropertyList, next: nat)
    requires list.Valid() && list.length < VBI_LIMIT && pos + |EncodedList(list.items)| <= buf.Length
    modifies buf
    ensures ok && next == pos + list.Len()
    ensures back.Valid() && back.items == list.items && back.length == list.length
  {
    WrittenReadsBack(buf[..], pos, list.items);
    var end, rc := list.Write(buf, pos);
    back := new PropertyList();
    ok, next := back.Read(buf[..], pos, buf.Length);
  }

  lemma PrefixNext(s: seq<Property>, i: nat, prefix: seq<Property>)
    requires i < |s| && prefix == s[..i]
    ensures prefix + [s[i]] == s[..i + 1]
  {
  }

  /** A read that has these items so far comes to whole when the rest comes to rest. */
  ghost predicate Continues(whole: Option<ReadList>, items: seq<Property>, rest: Option<ReadList>) {
    match rest
    case None => whole == None
    case Some(r) => whole == Some(ReadList(items + r.properties, r.next))
  }

  lemma ContinuesStep(whole: Option<ReadList>, items: seq<Property>,
      mem: seq<Byte>, next: nat, end: nat, remlength: nat, p: ReadProperty)
    requires end <= |mem| && remlength > 0 && PropertyAt(mem, next, end) == Some(p)
    requires Continues(whole, items, PropertiesAt(mem, next, end, remlength))
    ensures Continues(whole, items + [p.property], PropertiesAt(mem, p.next, end, Less(remlength, p.len)))
  {
    var rest := PropertiesAt(mem, p.next, end, Less(remlength, p.len));
    if rest.Some? {
      Assoc(items, [p.property], rest.value.properties);
    }
  }

  /** The loop of MQTTProperties_write, after the bytes written so far. */
  method WriteItems(buf: array<Byte>, pos: nat, items: seq<Property>, ghost mem: seq<Byte>, ghost start: nat, ghost prefix: seq<Byte>)
    returns (next: nat, rc: int)
    requires AllWellTyped(items) && pos + |ListBytes(items)| <= buf.Length == |mem|
    requires pos == start + |prefix| && buf[..] == Written(mem, start, prefix)
    modifies buf
    ensures next == pos + |ListBytes(items)| && rc == |ListBytes(items)|
    ensures buf[..] == Written(mem, start, prefix + ListBytes(items))
  {
    next, rc := pos, 0;
    ghost var bs, done, whole := Encodings(items), prefix, prefix + ListBytes(items);
    var i := 0;
    while i < |items|
      invariant 0 <= i <= |items| && next == start + |done| && rc == |done| - |prefix|
      invariant done + FlatFrom(bs, i) == whole
      invariant buf[..] == Written(mem, start, done)
    {
      EncodingAt(items, bs, i);
      FlatNext(done, bs, i, whole);
      var m;
      next, m := WriteNext(buf, next, items[i], bs[i], mem, start, done);
      done := done + bs[i];
      rc := rc + m;
      i := i + 1;
    }
    FlatDone(done, bs, i, whole);
  }

  lemma {:induction false} FlatDone(done: seq<Byte>, bs: seq<seq<Byte>>, i: nat, whole: seq<Byte>)
    requires i == |bs| && done + FlatFrom(bs, i) == whole
    ensures done == whole
  {
  }

  lemma FlatNext(done: seq<Byte>, bs: seq<seq<Byte>>, i: nat, whole: seq<Byte>)
    requires i < |bs| && done + FlatFrom(bs, i) == whole
    ensures (done + bs[i]) + FlatFrom(bs, i + 1) == whole
  {
    Assoc(done, bs[i], FlatFrom(bs, i + 1));
  }

  method WriteNext(buf: array<Byte>, pos: nat, prop: Property, ghost b: seq<Byte>,
      ghost mem: seq<Byte>, ghost start: nat, ghost done: seq<Byte>)
    returns (next: nat, rc: int)
    requires WellTyped(prop) && b == PropertyBytes(prop) && pos + |b| <= buf.Length == |mem|
    requires pos == start + |done| && buf[..] == Written(mem, start, done)
    modifies buf
    ensures next == pos + |b| && rc == |b| && buf[..] == Written(mem, start, done + b)
  {
    ghost var before := buf[..];
    next, rc := WriteProperty(buf, pos, prop);
    WrittenNext(mem, start, done, pos, b, before, buf[..]);
  }

  /** MQTTProperty_write. */
  method WriteProperty(buf: array<Byte>, pos: nat, prop: Property) returns (next: nat, rc: int)
    requires WellTyped(prop) && pos + |PropertyBytes(prop)| <= buf.Length
    modifies buf
    ensures next == pos + |PropertyBytes(prop)| && rc == |PropertyBytes(prop)|
    ensures buf[..] == Written(old(buf[..]), pos, PropertyBytes(prop))
  {
    next := WriteChar(buf, pos, prop.identifier);
    ghost var was := buf[..];
    match GetType(prop.identifier).value {
      case TypeByte =>
        next := WriteChar(buf, next, prop.value.byte);
        rc := 1;
      case TypeTwoByteInteger =>
        next := WriteInt(buf, next, prop.value.integer2);
        rc := 2;
      case TypeFourByteInteger =>
        next := WriteInt4(buf, next, prop.value.integer4);
        rc := 4;
      case TypeVariableByteInteger =>
        rc := Encode(buf, next, prop.value.integer4);
        next := next + rc;
      case TypeUtf8StringPair =>
        next := WriteMQTTLenString(buf, next, prop.value.name);
        next := WriteMQTTLenString(buf, next, prop.value.value);
        WrittenTwice(was, pos + 1, LenBytes(prop.value.name), LenBytes(prop.value.value));
        rc := |prop.value.name| + |prop.value.value| + 4;
      case _ =>
        next := WriteMQTTLenString(buf, next, prop.value.data);
        rc := |prop.value.data| + 2;
    }
    WrittenTwice(old(buf[..]), pos, [prop.identifier], ValueBytes(prop));
    rc := rc + 1;
  }
}
