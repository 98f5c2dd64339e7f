/** Queued commands in the persistent store: MQTTAsync_persistCommand and MQTTAsync_restoreCommand
    (src/MQTTAsyncUtils.c).

    An int of the source is four bytes, in any fixed order; a subscribe option structure is a block of
    bytes.  Counts and lengths are those persistCommand writes, never negative. */
module CommandStore {
  import opened Wrappers
  import opened Types
  import opened Wire
  import opened Properties

  const PUBLISH := 3
  const SUBSCRIBE := 8
  const UNSUBSCRIBE := 10
  const INT_LIMIT := 0x8000_0000
  const OPTIONS_SIZE := 12

  datatype Topic = Topic(name: seq<Byte>, qos: nat, options: seq<Byte>)

  datatype Details =
    | Subscribe(topics: seq<Topic>)
    | Unsubscribe(names: seq<seq<Byte>>)
    | Publish(destination: seq<Byte>, payload: seq<Byte>, qos: nat, retained: nat)

  datatype Saved = Saved(token: nat, details: Details, properties: seq<Property>)

  // ----- What is written -----

  /** A string of C: no zero byte inside. */
  ghost predicate CString(s: seq<Byte>) {
    forall i :: 0 <= i < |s| ==> s[i] != 0
  }

  ghost predicate SavableTopic(v5: bool, t: Topic) {
    CString(t.name) && t.qos < INT_LIMIT && |t.options| == if v5 then OPTIONS_SIZE else 0
  }

  ghost predicate SavableDetails(v5: bool, d: Details) {
    match d
    case Subscribe(ts) => |ts| < INT_LIMIT && forall i :: 0 <= i < |ts| ==> SavableTopic(v5, ts[i])
    case Unsubscribe(ns) => |ns| < INT_LIMIT && forall i :: 0 <= i < |ns| ==> CString(ns[i])
    case Publish(destination, payload, qos, retained) =>
      CString(destination) && |payload| < INT_LIMIT && qos < INT_LIMIT && retained < INT_LIMIT
  }

  ghost predicate Savable(v5: bool, c: Saved) {
    && c.token < INT_LIMIT && SavableDetails(v5, c.details)
    && AllWellTyped(c.properties) && |ListBytes(c.properties)| < VBI_LIMIT && (!v5 ==> c.properties == [])
  }

  function StringBytes(s: seq<Byte>): seq<Byte> { s + [0] }

  function TopicBytes(t: Topic): seq<Byte> { StringBytes(t.name) + (Int4(t.qos) + t.options) }

  function TopicEncodings(ts: seq<Topic>): (bs: seq<seq<Byte>>)
    ensures |bs| == |ts|
  {
    seq(|ts|, i requires 0 <= i < |ts| => TopicBytes(ts[i]))
  }

  function NameEncodings(ns: seq<seq<Byte>>): (bs: seq<seq<Byte>>)
    ensures |bs| == |ns|
  {
    seq(|ns|, i requires 0 <= i < |ns| => StringBytes(ns[i]))
  }

  function TypeOf(d: Details): nat {
    match d
    case Subscribe(_) => SUBSCRIBE
    case Unsubscribe(_) => UNSUBSCRIBE
    case Publish(_, _, _, _) => PUBLISH
  }

  function DetailBytes(d: Details): seq<Byte> {
    match d
    case Subscribe(ts) => Int4(|ts|) + FlatFrom(TopicEncodings(ts), 0)
    case Unsubscribe(ns) => Int4(|ns|) + FlatFrom(NameEncodings(ns), 0)
    case Publish(destination, payload, qos, retained) =>
      StringBytes(destination) + (Int4(|payload|) + (payload + (Int4(qos) + Int4(retained))))
  }

  function PropertyTail(v5: bool, ps: seq<Property>): seq<Byte>
    requires AllWellTyped(ps)
  {
    if v5 then EncodedList(ps) else []
  }

  function SavedBytes(v5: bool, c: Saved): seq<Byte>
    requires AllWellTyped(c.properties)
  {
    Int4(TypeOf(c.details)) + (Int4(c.token) + (DetailBytes(c.details) + PropertyTail(v5, c.properties)))
  }

  // ----- What is read -----

  datatype Read<T> = Read(item: T, next: nat)

  /** strnlen up to the end. */
  function StrNLen(mem: seq<Byte>, pos: nat): (n: nat)
    requires pos <= |mem|
    ensures pos + n <= |mem| && (pos + n < |mem| ==> mem[pos + n] == 0)
    ensures forall i :: pos <= i < pos + n ==> mem[i] != 0
    decreases |mem| - pos
  {
    if pos == |mem| || mem[pos] == 0 then 0 else 1 + StrNLen(mem, pos + 1)
  }

  /** A string.  The test for a missing zero byte is off by one: it fails when the zero byte is the
      last byte of the record.  Without any, the source reads past the record, which is failure here. */
  function StringAt(mem: seq<Byte>, pos: nat): Option<Read<seq<Byte>>>
    requires pos <= |mem|
  {
    var n := StrNLen(mem, pos);
    if n + 1 == |mem| - pos || n == |mem| - pos then None else Some(Read(mem[pos..pos + n], pos + n + 1))
  }

  function IntAt(mem: seq<Byte>, pos: nat): Option<Read<nat>> {
    if pos + 4 > |mem| then None else Some(Read(ReadInt4(mem, pos), pos + 4))
  }

  function BytesAt(mem: seq<Byte>, pos: nat, n: nat): Option<Read<seq<Byte>>> {
    if pos + n > |mem| then None else Some(Read(mem[pos..pos + n], pos + n))
  }

  function TopicAt(v5: bool, mem: seq<Byte>, pos: nat): Option<Read<Topic>>
    requires pos <= |mem|
  {
    match StringAt(mem, pos)
    case None => None
    case Some(name) =>
      match IntAt(mem, name.next)
      case None => None
      case Some(qos) =>
        match BytesAt(mem, qos.next, if v5 then OPTIONS_SIZE else 0)
        case None => None
        case Some(options) => Some(Read(Topic(name.item, qos.item, options.item), options.next))
  }

  /** count items, one after the other. */
  function ItemsAt<T>(read: nat -> Option<Read<T>>, count: nat, pos: nat): Option<Read<seq<T>>> {
    if count == 0 then Some(Read([], pos))
    else
      match read(pos)
      case None => None
      case Some(first) =>
        match ItemsAt(read, count - 1, first.next)
        case None => None
        case Some(rest) => Some(Read([first.item] + rest.item, rest.next))
  }

  function TopicReader(v5: bool, mem: seq<Byte>): nat -> Option<Read<Topic>> {
    (pos: nat) => if pos <= |mem| then TopicAt(v5, mem, pos) else None
  }

  function NameReader(mem: seq<Byte>): nat -> Option<Read<seq<Byte>>> {
    (pos: nat) => if pos <= |mem| then StringAt(mem, pos) else None
  }

  function PublishAt(mem: seq<Byte>, pos: nat): Option<Read<Details>>
    requires pos <= |mem|
  {
    match StringAt(mem, pos)
    case None => None
    case Some(destination) =>
      match IntAt(mem, destination.next)
      case None => None
      case Some(payloadlen) =>
        match BytesAt(mem, payloadlen.next, payloadlen.item)
        case None => None
        case Some(payload) =>
          if payload.next + 8 > |mem| then None
          else Some(Read(Publish(destination.item, payload.item, ReadInt4(mem, payload.next), ReadInt4(mem, payload.next + 4)),
                         payload.next + 8))
  }

  /** The part of a record that depends on its type. */
  function DetailsAt(v5: bool, kind: nat, mem: seq<Byte>, pos: nat): Option<Read<Details>>
    requires pos <= |mem|
  {
    if kind == PUBLISH then PublishAt(mem, pos)
    else if kind == SUBSCRIBE || kind == UNSUBSCRIBE then
      match IntAt(mem, pos)
      case None => None
      case Some(count) =>
        if kind == SUBSCRIBE then
          match ItemsAt(TopicReader(v5, mem), count.item, count.next)
          case None => None
          case Some(ts) => Some(Read(Subscribe(ts.item), ts.next))
        else
          match ItemsAt(NameReader(mem), count.item, count.next)
          case None => None
          case Some(ns) => Some(Read(Unsubscribe(ns.item), ns.next))
    else None
  }

  function WithProperties(v5: bool, mem: seq<Byte>, token: nat, d: Read<Details>): Option<Saved> {
    if !v5 then Some(Saved(token, d.item, []))
    else
      match ListAt(mem, d.next, |mem|)
      case None => None
      case Some(l) => Some(Saved(token, d.item, l.properties))
  }

  /** Everything at once. */
  function Restored(v5: bool, mem: seq<Byte>): Option<Saved> {
    if |mem| < 8 then None
    else
      match DetailsAt(v5, ReadInt4(mem, 0), mem, 8)
      case None => None
      case Some(d) => WithProperties(v5, mem, ReadInt4(mem, 4), d)
  }

  /** The queued command a restore fills in, zero to begin with; lazy is not_restored.  The parts that
      depend on the type are a union in the source. */
  datatype Queued = Queued(lazy: bool, kind: nat, token: nat, topics: seq<Topic>, names: seq<seq<Byte>>, destination: seq<Byte>,
                           payload: seq<Byte>, payloadlen: nat, qos: nat, retained: nat, properties: seq<Property>)

  const BLANK := Queued(true, 0, 0, [], [], [], [], 0, 0, 0, [])

  /** The first pass starts with a new command, the second with the one the first has left. */
  function Begun(qcommand: Option<Queued>): Queued {
    match qcommand
    case None => BLANK
    case Some(c) => c.(lazy := false)
  }

  /** Topic and payload of a PUBLISH are copied in the second pass only. */
  function FilledIn(c: Queued, d: Details): Queued {
    match d
    case Subscribe(ts) => c.(topics := ts)
    case Unsubscribe(ns) => c.(names := ns)
    case Publish(destination, payload, qos, retained) =>
      var e := c.(payloadlen := |payload|, qos := qos, retained := retained);
      if c.lazy then e else e.(destination := destination, payload := payload)
  }

  /** One call of restoreCommand: the first passes over the details of a SUBSCRIBE or UNSUBSCRIBE, and
      leaves the properties alone. */
  function Pass(v5: bool, mem: seq<Byte>, qcommand: Option<Queued>): Option<Queued> {
    if |mem| < 8 then None
    else
      var c := Begun(qcommand).(kind := ReadInt4(mem, 0), token := ReadInt4(mem, 4));
      if c.lazy && (c.kind == SUBSCRIBE || c.kind == UNSUBSCRIBE) then Some(c)
      else
        match DetailsAt(v5, c.kind, mem, 8)
        case None => None
        case Some(d) => WithTail(v5, mem, FilledIn(c, d.item), d.next)
  }

  function WithTail(v5: bool, mem: seq<Byte>, c: Queued, pos: nat): Option<Queued> {
    if c.lazy || !v5 then Some(c)
    else
      match ListAt(mem, pos, |mem|)
      case None => None
      case Some(l) => Some(c.(properties := l.properties))
  }

  /** The command that the fields stand for. */
  function CommandOf(c: Queued): Saved {
    Saved(c.token,
          if c.kind == PUBLISH then Publish(c.destination, c.payload, c.qos, c.retained)
          else if c.kind == SUBSCRIBE then Subscribe(c.topics)
          else Unsubscribe(c.names),
          c.properties)
  }

  /** The lazy restore: one pass when the client is created, one more, into the same queued command, when
      it is started. */
  function TwoPasses(v5: bool, mem: seq<Byte>): Option<Saved> {
    match Pass(v5, mem, None)
    case None => None
    case Some(c) =>
      match Pass(v5, mem, Some(c))
      case None => None
      case Some(e) => Some(CommandOf(e))
  }

  /** A pass into a queued command leaves nothing of what was there, except that the properties are not
      read below version 5. */
  lemma SecondPass(v5: bool, mem: seq<Byte>, c: Queued)
    requires !v5 ==> c.properties == []
    ensures Pass(v5, mem, Some(c)).Some? <==> Restored(v5, mem).Some?
    ensures Restored(v5, mem).Some? ==> CommandOf(Pass(v5, mem, Some(c)).value) == Restored(v5, mem).value
  {
  }

  /** The first pass succeeds on every record that can be restored and keeps its type and token, and of a
      PUBLISH the length, the quality of service and the retain flag. */
  lemma FirstPass(v5: bool, mem: seq<Byte>)
    requires Restored(v5, mem).Some?
    ensures var c := Restored(v5, mem).value;
            var h := BLANK.(kind := TypeOf(c.details), token := c.token);
            Pass(v5, mem, None) ==
            Some(if c.details.Publish?
                 then h.(payloadlen := |c.details.payload|, qos := c.details.qos, retained := c.details.retained) else h)
  {
  }

  /** When the first pass succeeds: eight bytes are enough for a SUBSCRIBE or UNSUBSCRIBE, types 8 and 10, and
      a PUBLISH, type 3, has to be readable to its end. */
  lemma FirstPassSucceeds(v5: bool, mem: seq<Byte>)
    ensures Pass(v5, mem, None).Some? <==>
            |mem| >= 8 && (ReadInt4(mem, 0) == 8 || ReadInt4(mem, 0) == 10 || (ReadInt4(mem, 0) == 3 && PublishAt(mem, 8).Some?))
  {
  }

  /** The two passes give what reading everything at once gives, for every record whatever is in it. */
  lemma TwoPassesAreOne(v5: bool, mem: seq<Byte>)
    ensures TwoPasses(v5, mem) == Restored(v5, mem)
  {
    if Restored(v5, mem).Some? {
      FirstPass(v5, mem);
    }
    if Pass(v5, mem, None).Some? {
      FirstPassReadsNone(v5, mem);
      SecondPass(v5, mem, Pass(v5, mem, None).value);
    }
  }

  lemma FirstPassReadsNone(v5: bool, mem: seq<Byte>)
    requires Pass(v5, mem, None).Some?
    ensures Pass(v5, mem, None).value.properties == []
  {
  }

  /** A record begins with the type of its command and the token; a subscribe option block is one of twelve
      bytes. */
  lemma RecordBegins(v5: bool, c: Saved)
    requires Savable(v5, c)
    ensures var mem := SavedBytes(v5, c);
            && |mem| >= 8 && ReadInt4(mem, 4) == c.token
            && ReadInt4(mem, 0) == match c.details case Publish(_, _, _, _) => 3 case Subscribe(_) => 8 case Unsubscribe(_) => 10
    ensures v5 && c.details.Subscribe? ==> forall i :: 0 <= i < |c.details.topics| ==> |c.details.topics[i].options| == 12
  {
    Parts(SavedBytes(v5, c), TypeOf(c.details), c.token, DetailBytes(c.details), PropertyTail(v5, c.properties));
  }

  // ----- Round trip -----

  lemma {:induction false} StrNLenIs(mem: seq<Byte>, pos: nat, n: nat)
    requires pos + n < |mem| && mem[pos + n] == 0 && forall i :: pos <= i < pos + n ==> mem[i] != 0
    ensures StrNLen(mem, pos) == n
    decreases n
  {
    if n > 0 {
      StrNLenIs(mem, pos + 1, n - 1);
    }
  }

  /** A string comes back unless its zero byte ends the record. */
  lemma StringRoundTrip(mem: seq<Byte>, pos: nat, s: seq<Byte>)
    requires CString(s) && Present(mem, pos, StringBytes(s))
    ensures StringAt(mem, pos) == if pos + |s| + 1 == |mem| then None else Some(Read(s, pos + |s| + 1))
  {
    PresentSplit(mem, pos, s, [0]);
    assert mem[pos + |s|] == [0][0];
    assert forall i :: pos <= i < pos + |s| ==> mem[i] == s[i - pos];
    StrNLenIs(mem, pos, |s|);
    PresentSlice(mem, pos, s);
  }

  lemma IntRoundTrip(mem: seq<Byte>, pos: nat, v: nat)
    requires v < INT_LIMIT && Present(mem, pos, Int4(v))
    ensures IntAt(mem, pos) == Some(Read(v, pos + 4))
  {
    Int4RoundTrip(mem, pos, v);
  }

  lemma TopicRoundTrip(v5: bool, mem: seq<Byte>, pos: nat, t: Topic)
    requires SavableTopic(v5, t) && Present(mem, pos, TopicBytes(t))
    ensures TopicAt(v5, mem, pos) == Some(Read(t, pos + |TopicBytes(t)|))
  {
    PresentSplit(mem, pos, StringBytes(t.name), Int4(t.qos) + t.options);
    var at := pos + |t.name| + 1;
    PresentSplit(mem, at, Int4(t.qos), t.options);
    StringRoundTrip(mem, pos, t.name);
    IntRoundTrip(mem, at, t.qos);
    PresentSlice(mem, at + 4, t.options);
  }

  /** Reading from pos on meets these items, encoded so, one after the other. */
  ghost predicate Meets<T>(read: nat -> Option<Read<T>>, pos: nat, ts: seq<T>, bs: seq<seq<Byte>>, i: nat)
    requires i <= |ts| == |bs|
    decreases |ts| - i
  {
    i < |ts| ==> read(pos) == Some(Read(ts[i], pos + |bs[i]|)) && Meets(read, pos + |bs[i]|, ts, bs, i + 1)
  }

  lemma {:induction false} MeetsReadsAll<T>(read: nat -> Option<Read<T>>, pos: nat, ts: seq<T>, bs: seq<seq<Byte>>, i: nat)
    requires i <= |ts| == |bs| && Meets(read, pos, ts, bs, i)
    ensures ItemsAt(read, |ts| - i, pos) == Some(Read(ts[i..], pos + |FlatFrom(bs, i)|))
    decreases |ts| - i
  {
    if i < |ts| {
      MeetsReadsAll(read, pos + |bs[i]|, ts, bs, i + 1);
      assert [ts[i]] + ts[i + 1..] == ts[i..];
    } else {
      assert ts[i..] == [];
    }
  }

  /** A reader that reads every item wherever its bytes are. */
  ghost predicate ReadsEach<T(!new)>(read: nat -> Option<Read<T>>, mem: seq<Byte>, ts: seq<T>, bs: seq<seq<Byte>>) {
    |ts| == |bs| && forall pos: nat, j: nat {:trigger Present(mem, pos, bs[j])} ::
      j < |bs| && Present(mem, pos, bs[j]) ==> ReadsItem(read, pos, ts[j], |bs[j]|)
  }

  ghost predicate ReadsItem<T(!new)>(read: nat -> Option<Read<T>>, pos: nat, t: T, n: nat) {
    read(pos) == Some(Read(t, pos + n))
  }

  lemma {:induction false} ItemsAreMet<T(!new)>(read: nat -> Option<Read<T>>, mem: seq<Byte>, pos: nat, ts: seq<T>, bs: seq<seq<Byte>>, i: nat)
    requires ReadsEach(read, mem, ts, bs) && i <= |ts| && Laid(mem, pos, |mem|, bs, i)
    ensures Meets(read, pos, ts, bs, i)
    decreases |ts| - i
  {
    if i < |ts| {
      ItemsAreMet(read, mem, pos + |bs[i]|, ts, bs, i + 1);
    }
  }

  lemma {:induction false} ItemsRead<T(!new)>(read: nat -> Option<Read<T>>, mem: seq<Byte>, pos: nat, ts: seq<T>, bs: seq<seq<Byte>>,
                           items: seq<Byte>, found: Option<Read<seq<T>>>)
    requires ReadsEach(read, mem, ts, bs) && items == FlatFrom(bs, 0) && Present(mem, pos, items)
    requires found == Some(Read(ts, pos + |items|))
    ensures ItemsAt(read, |ts|, pos) == found
  {
    PresentIsLaid(mem, pos, |mem|, bs, 0);
    ItemsAreMet(read, mem, pos, ts, bs, 0);
    AllMet(read, pos, ts, bs, items, found);
  }

  lemma {:induction false} AllMet<T>(read: nat -> Option<Read<T>>, pos: nat, ts: seq<T>, bs: seq<seq<Byte>>, items: seq<Byte>, found: Option<Read<seq<T>>>)
    requires |ts| == |bs| && Meets(read, pos, ts, bs, 0) && items == FlatFrom(bs, 0) && found == Some(Read(ts, pos + |items|))
    ensures ItemsAt(read, |ts|, pos) == found
  {
    MeetsReadsAll(read, pos, ts, bs, 0);
    assert ts[0..] == ts;
  }

  lemma TopicReaderReads(v5: bool, mem: seq<Byte>, ts: seq<Topic>)
    requires forall j :: 0 <= j < |ts| ==> SavableTopic(v5, ts[j])
    ensures ReadsEach(TopicReader(v5, mem), mem, ts, TopicEncodings(ts))
  {
    var bs := TopicEncodings(ts);
    forall pos: nat, j: nat | j < |bs| && Present(mem, pos, bs[j])
      ensures ReadsItem(TopicReader(v5, mem), pos, ts[j], |bs[j]|)
    {
      TopicReaderReadsOne(v5, mem, pos, ts[j], bs[j]);
    }
  }

  lemma TopicReaderReadsOne(v5: bool, mem: seq<Byte>, pos: nat, t: Topic, b: seq<Byte>)
    requires SavableTopic(v5, t) && b == TopicBytes(t) && Present(mem, pos, b)
    ensures ReadsItem(TopicReader(v5, mem), pos, t, |b|)
  {
    TopicRoundTrip(v5, mem, pos, t);
  }

  /** A reader that reads every name wherever its bytes are, unless they end the record. */
  ghost predicate ReadsNames(read: nat -> Option<Read<seq<Byte>>>, mem: seq<Byte>, ns: seq<seq<Byte>>, bs: seq<seq<Byte>>) {
    |ns| == |bs| && forall pos: nat, j: nat {:trigger Present(mem, pos, bs[j])} ::
      j < |bs| && Present(mem, pos, bs[j]) ==> ReadsName(read, mem, pos, ns[j], |bs[j]|)
  }

  ghost predicate ReadsName(read: nat -> Option<Read<seq<Byte>>>, mem: seq<Byte>, pos: nat, name: seq<Byte>, n: nat) {
    n > 0 && read(pos) == if pos + n == |mem| then None else Some(Read(name, pos + n))
  }

  lemma NameReaderReads(mem: seq<Byte>, ns: seq<seq<Byte>>)
    requires forall j :: 0 <= j < |ns| ==> CString(ns[j])
    ensures ReadsNames(NameReader(mem), mem, ns, NameEncodings(ns))
  {
    var bs := NameEncodings(ns);
    forall pos: nat, j: nat | j < |bs| && Present(mem, pos, bs[j])
      ensures ReadsName(NameReader(mem), mem, pos, ns[j], |bs[j]|)
    {
      NameReaderReadsOne(mem, pos, ns[j], bs[j]);
    }
  }

  lemma NameReaderReadsOne(mem: seq<Byte>, pos: nat, name: seq<Byte>, b: seq<Byte>)
    requires CString(name) && b == StringBytes(name) && Present(mem, pos, b)
    ensures ReadsName(NameReader(mem), mem, pos, name, |b|)
  {
    StringRoundTrip(mem, pos, name);
  }

  /** Names come back unless the last of them ends the record. */
  lemma {:induction false} NamesRoundTrip(read: nat -> Option<Read<seq<Byte>>>, mem: seq<Byte>, pos: nat, ns: seq<seq<Byte>>,
                                          bs: seq<seq<Byte>>, i: nat, end: nat)
    requires ReadsNames(read, mem, ns, bs) && i <= |ns|
    requires Laid(mem, pos, |mem|, bs, i) && end == pos + |FlatFrom(bs, i)| <= |mem|
    ensures ItemsAt(read, |ns| - i, pos) == if i < |ns| && end == |mem| then None else Some(Read(ns[i..], end))
    decreases |ns| - i
  {
    if i < |ns| {
      NamesRoundTrip(read, mem, pos + |bs[i]|, ns, bs, i + 1, end);
      assert ReadsName(read, mem, pos, ns[i], |bs[i]|);
      assert [ns[i]] + ns[i + 1..] == ns[i..];
    } else {
      assert ns[i..] == [];
    }
  }

  lemma PublishFrom(mem: seq<Byte>, pos: nat, d: Details, at: nat, len: nat, end: nat)
    requires d.Publish? && pos <= |mem| && len == |d.payload| && end == at + 4 + len && end + 8 <= |mem|
    requires StringAt(mem, pos) == Some(Read(d.destination, at)) && IntAt(mem, at) == Some(Read(len, at + 4))
    requires mem[at + 4..end] == d.payload && ReadInt4(mem, end) == d.qos && ReadInt4(mem, end + 4) == d.retained
    ensures PublishAt(mem, pos) == Some(Read(d, end + 8))
  {
  }

  lemma PublishParts(mem: seq<Byte>, pos: nat, destination: seq<Byte>, len: seq<Byte>, payload: seq<Byte>, qos: seq<Byte>, retained: seq<Byte>)
    requires Present(mem, pos, StringBytes(destination) + (len + (payload + (qos + retained))))
    requires |len| == 4 && |qos| == 4 && |retained| == 4
    ensures var at := pos + |destination| + 1;
            && Present(mem, pos, StringBytes(destination)) && Present(mem, at, len) && Present(mem, at + 4, payload)
            && Present(mem, at + 4 + |payload|, qos) && Present(mem, at + 4 + |payload| + 4, retained)
            && mem[at + 4..at + 4 + |payload|] == payload
  {
    var at := pos + |destination| + 1;
    PresentSplit(mem, pos, StringBytes(destination), len + (payload + (qos + retained)));
    PresentSplit(mem, at, len, payload + (qos + retained));
    PresentSplit(mem, at + 4, payload, qos + retained);
    PresentSplit(mem, at + 4 + |payload|, qos, retained);
    PresentSlice(mem, at + 4, payload);
  }

  lemma PublishInts(mem: seq<Byte>, at: nat, len: nat, end: nat, qos: nat, retained: nat)
    requires len < INT_LIMIT && qos < INT_LIMIT && retained < INT_LIMIT
    requires Present(mem, at, Int4(len)) && Present(mem, end, Int4(qos)) && Present(mem, end + 4, Int4(retained))
    ensures IntAt(mem, at) == Some(Read(len, at + 4)) && end + 8 <= |mem|
    ensures ReadInt4(mem, end) == qos && ReadInt4(mem, end + 4) == retained
  {
    IntRoundTrip(mem, at, len);
    Int4RoundTrip(mem, end, qos);
    Int4RoundTrip(mem, end + 4, retained);
  }

  lemma PublishRoundTrip(v5: bool, mem: seq<Byte>, pos: nat, d: Details, bytes: seq<Byte>, r: Option<Read<Details>>)
    requires d.Publish? && SavableDetails(v5, d) && bytes == DetailBytes(d) && Present(mem, pos, bytes)
    requires r == Some(Read(d, pos + |bytes|))
    ensures DetailsAt(v5, PUBLISH, mem, pos) == r
  {
    var at := pos + |d.destination| + 1;
    var end := at + 4 + |d.payload|;
    PublishParts(mem, pos, d.destination, Int4(|d.payload|), d.payload, Int4(d.qos), Int4(d.retained));
    StringRoundTrip(mem, pos, d.destination);
    PublishInts(mem, at, |d.payload|, end, d.qos, d.retained);
    PublishFrom(mem, pos, d, at, |d.payload|, end);
  }

  /** The one kind of record that does not come back: without properties behind them, the topics of an
      UNSUBSCRIBE end the record. */
  predicate EndsWithName(v5: bool, d: Details) {
    !v5 && d.Unsubscribe? && d.names != []
  }

  /** A count and what follows it. */
  lemma CountFound(mem: seq<Byte>, pos: nat, count: nat, items: seq<Byte>, bytes: seq<Byte>)
    requires count < INT_LIMIT && bytes == Int4(count) + items && Present(mem, pos, bytes)
    ensures IntAt(mem, pos) == Some(Read(count, pos + 4)) && Present(mem, pos + 4, items) && |bytes| == 4 + |items|
  {
    PresentSplit(mem, pos, Int4(count), items);
    IntRoundTrip(mem, pos, count);
  }

  lemma {:induction false} SubscribeFrom(v5: bool, mem: seq<Byte>, pos: nat, d: Details, found: Option<Read<seq<Topic>>>, r: Option<Read<Details>>)
    requires d.Subscribe? && pos <= |mem| && IntAt(mem, pos) == Some(Read(|d.topics| as nat, pos + 4))
    requires ItemsAt(TopicReader(v5, mem), |d.topics|, pos + 4) == found && found.Some? && found.value.item == d.topics
    requires r == Some(Read(d, found.value.next))
    ensures DetailsAt(v5, SUBSCRIBE, mem, pos) == r
  {
  }

  lemma SubscribeRoundTrip(v5: bool, mem: seq<Byte>, pos: nat, d: Details, bytes: seq<Byte>, r: Option<Read<Details>>)
    requires d.Subscribe? && SavableDetails(v5, d) && bytes == DetailBytes(d) && Present(mem, pos, bytes)
    requires r == Some(Read(d, pos + |bytes|))
    ensures DetailsAt(v5, SUBSCRIBE, mem, pos) == r
  {
    var bs := TopicEncodings(d.topics);
    TopicReaderReads(v5, mem, d.topics);
    SubscribeRead(v5, mem, pos, d, bs, FlatFrom(bs, 0), bytes, r);
  }

  lemma {:induction false} SubscribeRead(v5: bool, mem: seq<Byte>, pos: nat, d: Details, bs: seq<seq<Byte>>, items: seq<Byte>, bytes: seq<Byte>, r: Option<Read<Details>>)
    requires d.Subscribe? && |d.topics| < INT_LIMIT && items == FlatFrom(bs, 0) && ReadsEach(TopicReader(v5, mem), mem, d.topics, bs)
    requires bytes == Int4(|d.topics|) + items && Present(mem, pos, bytes) && r == Some(Read(d, pos + |bytes|))
    ensures DetailsAt(v5, SUBSCRIBE, mem, pos) == r
  {
    var found := Some(Read(d.topics, pos + 4 + |items|));
    CountFound(mem, pos, |d.topics|, items, bytes);
    ItemsRead(TopicReader(v5, mem), mem, pos + 4, d.topics, bs, items, found);
    SubscribeFrom(v5, mem, pos, d, found, r);
  }

  lemma {:induction false} UnsubscribeFrom(v5: bool, mem: seq<Byte>, pos: nat, d: Details, found: Option<Read<seq<seq<Byte>>>>, r: Option<Read<Details>>)
    requires d.Unsubscribe? && pos <= |mem| && IntAt(mem, pos) == Some(Read(|d.names| as nat, pos + 4))
    requires ItemsAt(NameReader(mem), |d.names|, pos + 4) == found && (found.Some? ==> found.value.item == d.names)
    requires r == if found.Some? then Some(Read(d, found.value.next)) else None
    ensures DetailsAt(v5, UNSUBSCRIBE, mem, pos) == r
  {
  }

  lemma UnsubscribeRoundTrip(v5: bool, mem: seq<Byte>, pos: nat, d: Details, bytes: seq<Byte>, r: Option<Read<Details>>)
    requires d.Unsubscribe? && SavableDetails(v5, d) && bytes == DetailBytes(d) && Present(mem, pos, bytes)
    requires pos + |bytes| == |mem| <==> !v5
    requires r == if EndsWithName(v5, d) then None else Some(Read(d, pos + |bytes|))
    ensures DetailsAt(v5, UNSUBSCRIBE, mem, pos) == r
  {
    var bs := NameEncodings(d.names);
    NameReaderReads(mem, d.names);
    UnsubscribeRead(v5, mem, pos, d, bs, FlatFrom(bs, 0), bytes, r);
  }

  lemma {:induction false} UnsubscribeRead(v5: bool, mem: seq<Byte>, pos: nat, d: Details, bs: seq<seq<Byte>>, items: seq<Byte>, bytes: seq<Byte>, r: Option<Read<Details>>)
    requires d.Unsubscribe? && |d.names| < INT_LIMIT && items == FlatFrom(bs, 0) && ReadsNames(NameReader(mem), mem, d.names, bs)
    requires bytes == Int4(|d.names|) + items && Present(mem, pos, bytes) && (pos + |bytes| == |mem| <==> !v5)
    requires r == if EndsWithName(v5, d) then None else Some(Read(d, pos + |bytes|))
    ensures DetailsAt(v5, UNSUBSCRIBE, mem, pos) == r
  {
    var found := if EndsWithName(v5, d) then None else Some(Read(d.names, pos + 4 + |items|));
    CountFound(mem, pos, |d.names|, items, bytes);
    NamesRead(NameReader(mem), mem, pos + 4, d.names, bs, items, found);
    UnsubscribeFrom(v5, mem, pos, d, found, r);
  }

  lemma {:induction false} NamesRead(read: nat -> Option<Read<seq<Byte>>>, mem: seq<Byte>, pos: nat, ns: seq<seq<Byte>>, bs: seq<seq<Byte>>,
                  items: seq<Byte>, found: Option<Read<seq<seq<Byte>>>>)
    requires ReadsNames(read, mem, ns, bs) && items == FlatFrom(bs, 0) && Present(mem, pos, items)
    requires found == if ns != [] && pos + |items| == |mem| then None else Some(Read(ns, pos + |items|))
    ensures ItemsAt(read, |ns|, pos) == found
  {
    PresentIsLaid(mem, pos, |mem|, bs, 0);
    NamesRoundTrip(read, mem, pos, ns, bs, 0, pos + |items|);
    assert ns[0..] == ns;
  }

  lemma DetailsRoundTrip(v5: bool, mem: seq<Byte>, pos: nat, d: Details, bytes: seq<Byte>, r: Option<Read<Details>>)
    requires SavableDetails(v5, d) && bytes == DetailBytes(d) && Present(mem, pos, bytes)
    requires pos + |bytes| == |mem| <==> !v5
    requires r == if EndsWithName(v5, d) then None else Some(Read(d, pos + |bytes|))
    ensures DetailsAt(v5, TypeOf(d), mem, pos) == r
  {
    match d {
      case Subscribe(_) => SubscribeRoundTrip(v5, mem, pos, d, bytes, r);
      case Unsubscribe(_) => UnsubscribeRoundTrip(v5, mem, pos, d, bytes, r);
      case Publish(_, _, _, _) => PublishRoundTrip(v5, mem, pos, d, bytes, r);
    }
  }

  lemma RestoredFrom(v5: bool, mem: seq<Byte>, kind: nat, token: nat, found: Option<Read<Details>>)
    requires |mem| >= 8 && ReadInt4(mem, 0) == kind && ReadInt4(mem, 4) == token && DetailsAt(v5, kind, mem, 8) == found
    ensures Restored(v5, mem) == if found.Some? then WithProperties(v5, mem, token, found.value) else None
  {
  }

  lemma TailRead(v5: bool, mem: seq<Byte>, token: nat, d: Read<Details>, ps: seq<Property>)
    requires AllWellTyped(ps) && |ListBytes(ps)| < VBI_LIMIT && (!v5 ==> ps == [])
    requires Present(mem, d.next, PropertyTail(v5, ps)) && d.next + |PropertyTail(v5, ps)| == |mem|
    ensures WithProperties(v5, mem, token, d) == Some(Saved(token, d.item, ps))
  {
    if v5 {
      ListRoundTrip(mem, d.next, |mem|, ps);
    }
  }

  /** Where the parts of a record lie. */
  lemma Parts(mem: seq<Byte>, kind: nat, token: nat, details: seq<Byte>, tail: seq<Byte>)
    requires mem == Int4(kind) + (Int4(token) + (details + tail)) && kind < INT_LIMIT && token < INT_LIMIT
    ensures |mem| == 8 + |details| + |tail| && ReadInt4(mem, 0) == kind && ReadInt4(mem, 4) == token
    ensures Present(mem, 8, details) && Present(mem, 8 + |details|, tail)
  {
    assert Present(mem, 0, mem);
    PresentSplit(mem, 0, Int4(kind), Int4(token) + (details + tail));
    PresentSplit(mem, 4, Int4(token), details + tail);
    PresentSplit(mem, 8, details, tail);
    Int4RoundTrip(mem, 0, kind);
    Int4RoundTrip(mem, 4, token);
  }

  /** Restoring undoes persisting, for every command of every version, with one exception: an
      UNSUBSCRIBE below version 5 never comes back, unless it has no topics. */
  lemma CommandRoundTrip(v5: bool, c: Saved)
    requires Savable(v5, c)
    ensures Restored(v5, SavedBytes(v5, c)) == if EndsWithName(v5, c.details) then None else Some(c)
  {
    var mem, kind, tail := SavedBytes(v5, c), TypeOf(c.details), PropertyTail(v5, c.properties);
    Parts(mem, kind, c.token, DetailBytes(c.details), tail);
    TailSize(v5, c.properties);
    var found := DetailsAt(v5, kind, mem, 8);
    RestoredFrom(v5, mem, kind, c.token, found);
    DetailsRoundTrip(v5, mem, 8, c.details, DetailBytes(c.details),
                     if EndsWithName(v5, c.details) then None else Some(Read(c.details, 8 + |DetailBytes(c.details)|)));
    if found.Some? {
      TailRead(v5, mem, c.token, found.value, c.properties);
    }
  }

  lemma TailSize(v5: bool, ps: seq<Property>)
    requires AllWellTyped(ps)
    ensures |PropertyTail(v5, ps)| == 0 <==> !v5
  {
  }

  // ----- The code -----

  /** Items read so far, in front of the rest. */
  function Prefixed<T>(items: seq<T>, rest: Option<Read<seq<T>>>): Option<Read<seq<T>>> {
    match rest
    case None => None
    case Some(r) => Some(Read(items + r.item, r.next))
  }

  lemma PrefixedNext<T>(read: nat -> Option<Read<T>>, items: seq<T>, count: nat, pos: nat)
    requires count > 0
    ensures Prefixed(items, ItemsAt(read, count, pos)) ==
            if read(pos).None? then None
            else Prefixed(items + [read(pos).value.item], ItemsAt(read, count - 1, read(pos).value.next))
  {
    if read(pos).Some? && ItemsAt(read, count - 1, read(pos).value.next).Some? {
      Assoc(items, [read(pos).value.item], ItemsAt(read, count - 1, read(pos).value.next).value.item);
    }
  }

  /** The loop over the topics of a SUBSCRIBE or the names of an UNSUBSCRIBE. */
  method ReadItems<T>(read: nat -> Option<Read<T>>, count: nat, start: nat) returns (r: Option<Read<seq<T>>>)
    ensures r == ItemsAt(read, count, start)
  {
    var items: seq<T>, pos, i := [], start, 0;
    assert Prefixed([], ItemsAt(read, count, start)) == ItemsAt(read, count, start) by {
      if ItemsAt(read, count, start).Some? {
        assert [] + ItemsAt(read, count, start).value.item == ItemsAt(read, count, start).value.item;
      }
    }
    while i < count
      invariant i <= count && Prefixed(items, ItemsAt(read, count - i, pos)) == ItemsAt(read, count, start)
    {
      PrefixedNext(read, items, count - i, pos);
      var item := read(pos);
      if item == None {
        return None;
      }
      items, pos := items + [item.value.item], item.value.next;
      i := i + 1;
    }
    assert items + [] == items;
    r := Some(Read(items, pos));
  }

  /** MQTTAsync_restoreCommand. */
  method RestoreCommand(v5: bool, mem: seq<Byte>, qcommand: Option<Queued>) returns (r: Option<Queued>)
    ensures r == Pass(v5, mem, qcommand)
  {
    if |mem| < 8 {
      return None;
    }
    var c := Begun(qcommand);
    c := c.(kind := ReadInt4(mem, 0), token := ReadInt4(mem, 4));
    if c.lazy && (c.kind == SUBSCRIBE || c.kind == UNSUBSCRIBE) {
      return Some(c);
    }
    var d := ReadDetails(v5, c.kind, mem, 8);
    if d == None {
      return None;
    }
    c := FilledIn(c, d.value.item);
    if !c.lazy && v5 {
      var l := ListAt(mem, d.value.next, |mem|);
      if l == None {
        return None;
      }
      c := c.(properties := l.value.properties);
    }
    r := Some(c);
  }

  /** The cases of its switch. */
  method ReadDetails(v5: bool, kind: nat, mem: seq<Byte>, ptr: nat) returns (d: Option<Read<Details>>)
    requires ptr <= |mem|
    ensures d == DetailsAt(v5, kind, mem, ptr)
  {
    d := None;
    if kind == PUBLISH {
      d := PublishAt(mem, ptr);
    } else if kind == SUBSCRIBE || kind == UNSUBSCRIBE {
      var count := IntAt(mem, ptr);
      if count == None {
        return None;
      }
      if kind == SUBSCRIBE {
        var ts := ReadItems(TopicReader(v5, mem), count.value.item, count.value.next);
        d := if ts == None then None else Some(Read(Subscribe(ts.value.item), ts.value.next));
      } else {
        var ns := ReadItems(NameReader(mem), count.value.item, count.value.next);
        d := if ns == None then None else Some(Read(Unsubscribe(ns.value.item), ns.value.next));
      }
    }
  }

  lemma {:induction false} Flat3(bufs: seq<seq<Byte>>, a: seq<Byte>, b: seq<Byte>, c: seq<Byte>)
    ensures FlatFrom(bufs + [a] + [b] + [c], 0) == FlatFrom(bufs, 0) + (a + (b + c))
  {
    FlatAppend(bufs, a, 0);
    FlatAppend(bufs + [a], b, 0);
    FlatAppend(bufs + [a] + [b], c, 0);
    Assoc(FlatFrom(bufs, 0), a, b);
    Assoc(FlatFrom(bufs, 0), a + b, c);
    Assoc(a, b, c);
  }

  /** The buffers of the topics of a SUBSCRIBE; below version 5 their options are no buffer at all,
      an empty one here. */
  method PersistTopics(ts: seq<Topic>) returns (bufs: seq<seq<Byte>>)
    ensures FlatFrom(bufs, 0) == FlatFrom(TopicEncodings(ts), 0)
  {
    ghost var bs := TopicEncodings(ts);
    bufs := [];
    for i := 0 to |ts|
      invariant FlatFrom(bufs, 0) + FlatFrom(bs, i) == FlatFrom(bs, 0)
    {
      Flat3(bufs, StringBytes(ts[i].name), Int4(ts[i].qos), ts[i].options);
      Assoc(FlatFrom(bufs, 0), bs[i], FlatFrom(bs, i + 1));
      bufs := bufs + [StringBytes(ts[i].name)] + [Int4(ts[i].qos)] + [ts[i].options];
    }
    assert FlatFrom(bufs, 0) + [] == FlatFrom(bufs, 0);
  }

  method PersistNames(ns: seq<seq<Byte>>) returns (bufs: seq<seq<Byte>>)
    ensures FlatFrom(bufs, 0) == FlatFrom(NameEncodings(ns), 0)
  {
    ghost var bs := NameEncodings(ns);
    bufs := [];
    for i := 0 to |ns|
      invariant FlatFrom(bufs, 0) + FlatFrom(bs, i) == FlatFrom(bs, 0)
    {
      FlatAppend(bufs, StringBytes(ns[i]), 0);
      Assoc(FlatFrom(bufs, 0), bs[i], FlatFrom(bs, i + 1));
      bufs := bufs + [StringBytes(ns[i])];
    }
    assert FlatFrom(bufs, 0) + [] == FlatFrom(bufs, 0);
  }

  lemma {:induction false} FlatJoin(a: seq<seq<Byte>>, b: seq<seq<Byte>>)
    ensures FlatFrom(a + b, 0) == FlatFrom(a, 0) + FlatFrom(b, 0)
    decreases |b|
  {
    if b == [] {
      assert a + b == a && FlatFrom(a, 0) + [] == FlatFrom(a, 0);
    } else {
      var b', last := b[..|b| - 1], b[|b| - 1];
      assert a + b == (a + b') + [last] && b == b' + [last];
      FlatJoin(a, b');
      FlatAppend(a + b', last, 0);
      FlatAppend(b', last, 0);
      Assoc(FlatFrom(a, 0), FlatFrom(b', 0), last);
    }
  }

  lemma Flat1(a: seq<Byte>)
    ensures FlatFrom([a], 0) == a
  {
    assert FlatFrom([a], 1) == [] && a + [] == a;
  }

  lemma {:induction false} FlatCons(a: seq<Byte>, bufs: seq<seq<Byte>>)
    ensures FlatFrom([a] + bufs, 0) == a + FlatFrom(bufs, 0)
  {
    FlatJoin([a], bufs);
    Flat1(a);
  }

  /** The buffers of what depends on the type. */
  method PersistDetails(d: Details) returns (bufs: seq<seq<Byte>>)
    ensures FlatFrom(bufs, 0) == DetailBytes(d)
  {
    match d {
      case Subscribe(ts) =>
        bufs := PersistTopics(ts);
        FlatCons(Int4(|ts|), bufs);
        bufs := [Int4(|ts|)] + bufs;
      case Unsubscribe(ns) =>
        bufs := PersistNames(ns);
        FlatCons(Int4(|ns|), bufs);
        bufs := [Int4(|ns|)] + bufs;
      case Publish(destination, payload, qos, retained) =>
        Flat1(Int4(retained));
        FlatCons(Int4(qos), [Int4(retained)]);
        FlatCons(payload, [Int4(qos)] + [Int4(retained)]);
        FlatCons(Int4(|payload|), [payload] + ([Int4(qos)] + [Int4(retained)]));
        FlatCons(StringBytes(destination), [Int4(|payload|)] + ([payload] + ([Int4(qos)] + [Int4(retained)])));
        bufs := [StringBytes(destination)] + ([Int4(|payload|)] + ([payload] + ([Int4(qos)] + [Int4(retained)])));
    }
  }

  /** MQTTAsync_persistCommand: the buffers handed to the store. */
  method PersistCommand(v5: bool, c: Saved) returns (bufs: seq<seq<Byte>>)
    requires AllWellTyped(c.properties)
    ensures FlatFrom(bufs, 0) == SavedBytes(v5, c)
  {
    bufs := PersistDetails(c.details);
    ghost var tail := PropertyTail(v5, c.properties);
    if v5 {
      FlatAppend(bufs, EncodedList(c.properties), 0);
      bufs := bufs + [EncodedList(c.properties)];
    }
    assert FlatFrom(bufs, 0) == DetailBytes(c.details) + tail;
    FlatCons(Int4(c.token), bufs);
    FlatCons(Int4(TypeOf(c.details)), [Int4(c.token)] + bufs);
    bufs := [Int4(TypeOf(c.details))] + ([Int4(c.token)] + bufs);
  }
}
