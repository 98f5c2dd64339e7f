/** The names of persisted records (src/MQTTPersistence.h): a stem that tells the kind of record and
    the protocol version, followed by the message id in decimal. */
module Keys {
  import opened MessageIds

  const PERSISTENCE_MAX_KEY_LENGTH := 10

  datatype Kind = SentPublish | SentPubrel | ReceivedPublish

  /** What a key starts with decides what it holds.  Commands and queued messages are skipped when
      packets are restored. */
  datatype Class = Skipped | Session(kind: Kind, v5: bool) | Unknown

  /** A key of the store: of a session record, or of something else kept beside them. */
  datatype RecordKey =
    | RecordKey(kind: Kind, v5: bool, id: nat)
    | CommandOrQueueKey(v5: bool, command: bool, seqno: nat)

  /** The name a key has in the store. */
  function Name(key: RecordKey): string {
    match key
    case RecordKey(kind, v5, id) => Key(kind, v5, id)
    case CommandOrQueueKey(v5, command, seqno) =>
      (if command then (if v5 then "c5-" else "c-") else (if v5 then "q5-" else "q-")) + Decimal(seqno)
  }

  function Stem(kind: Kind, v5: bool): string {
    match kind
    case SentPublish => if v5 then "s5-" else "s-"
    case SentPubrel => if v5 then "sc5-" else "sc-"
    case ReceivedPublish => if v5 then "r5-" else "r-"
  }

  function Digit(d: nat): char
    requires d < 10
  {
    "0123456789"[d]
  }

  /** snprintf's %d. */
  function Decimal(n: nat): (s: string)
    ensures |s| > 0
  {
    if n < 10 then [Digit(n)] else Decimal(n / 10) + [Digit(n % 10)]
  }

  function Key(kind: Kind, v5: bool, id: nat): string {
    Stem(kind, v5) + Decimal(id)
  }

  predicate StartsWith(key: string, stem: string) {
    |stem| <= |key| && forall i :: 0 <= i < |stem| ==> key[i] == stem[i]
  }

  /** The chain of prefix tests of MQTTPersistence_restorePackets. */
  function Classify(key: string): Class {
    if StartsWith(key, "c-") || StartsWith(key, "c5-") then Skipped
    else if StartsWith(key, "q-") || StartsWith(key, "q5-") then Skipped
    else if StartsWith(key, "r5-") then Session(ReceivedPublish, true)
    else if StartsWith(key, "s5-") then Session(SentPublish, true)
    else if StartsWith(key, "sc5-") then Session(SentPubrel, true)
    else if StartsWith(key, "r-") then Session(ReceivedPublish, false)
    else if StartsWith(key, "s-") then Session(SentPublish, false)
    else if StartsWith(key, "sc-") then Session(SentPubrel, false)
    else Unknown
  }

  /** No stem is mistaken for another: a key is classified as the kind it was made for. */
  lemma KeyClass(kind: Kind, v5: bool, id: nat)
    ensures Classify(Key(kind, v5, id)) == Session(kind, v5)
  {
    var key, stem := Key(kind, v5, id), Stem(kind, v5);
    DigitsFirst(id);
    assert key[|stem|] == Decimal(id)[0];
    assert key[0] == stem[0] && key[1] == stem[1];
    assert |stem| >= 3 ==> key[2] == stem[2];
    assert |stem| >= 4 ==> key[3] == stem[3];
  }

  lemma {:induction false} DigitsFirst(n: nat)
    ensures '0' <= Decimal(n)[0] <= '9'
  {
    if n >= 10 {
      DigitsFirst(n / 10);
    }
  }

  /** The number that a string of digits gives. */
  function ValueOf(s: string): int {
    if s == [] then 0 else 10 * ValueOf(s[..|s| - 1]) + (s[|s| - 1] as int - '0' as int)
  }

  lemma {:induction false} DecimalGives(n: nat)
    ensures ValueOf(Decimal(n)) == n
    ensures n > 0 ==> Decimal(n)[0] != '0'
  {
    var s := Decimal(n);
    if n >= 10 {
      DecimalGives(n / 10);
      assert s[..|s| - 1] == Decimal(n / 10);
    } else {
      assert s[..0] == [];
    }
  }

  lemma {:induction false} DecimalInjective(m: nat, n: nat)
    requires Decimal(m) == Decimal(n)
    ensures m == n
  {
    var s, t := Decimal(m), Decimal(n);
    if m < 10 || n < 10 {
      assert |s| == 1;
      assert m < 10 && n < 10;
      assert s[0] == t[0];
    } else {
      assert s[|s| - 1] == t[|t| - 1];
      assert s[..|s| - 1] == t[..|t| - 1];
      assert Decimal(m / 10) == s[..|s| - 1] && Decimal(n / 10) == t[..|t| - 1];
      DecimalInjective(m / 10, n / 10);
    }
  }

  /** Different records have different keys. */
  lemma KeyInjective(kind: Kind, v5: bool, id: nat, kind': Kind, v5': bool, id': nat)
    requires Key(kind, v5, id) == Key(kind', v5', id')
    ensures kind == kind' && v5 == v5' && id == id'
  {
    KeyClass(kind, v5, id);
    KeyClass(kind', v5', id');
    var stem := Stem(kind, v5);
    assert Decimal(id) == Key(kind, v5, id)[|stem|..] == Decimal(id');
    DecimalInjective(id, id');
  }

  lemma OtherClass(v5: bool, command: bool, seqno: nat)
    ensures Classify(Name(CommandOrQueueKey(v5, command, seqno))) == Skipped
  {
    var name := Name(CommandOrQueueKey(v5, command, seqno));
    DigitsFirst(seqno);
    assert name[0] == (if command then 'c' else 'q');
    assert name[1] == (if v5 then '5' else '-');
    assert v5 ==> name[2] == '-';
  }

  /** Names tell session records apart from one another and from everything else. */
  lemma NamesDiffer(a: RecordKey, b: RecordKey)
    requires a.RecordKey? && Name(a) == Name(b)
    ensures a == b
  {
    KeyClass(a.kind, a.v5, a.id);
    if b.RecordKey? {
      KeyInjective(a.kind, a.v5, a.id, b.kind, b.v5, b.id);
    } else {
      OtherClass(b.v5, b.command, b.seqno);
    }
  }

  /** The key of a message id always fits the buffer it is printed into. */
  lemma KeyFits(kind: Kind, v5: bool, id: nat)
    requires IsId(id)
    ensures |Key(kind, v5, id)| <= PERSISTENCE_MAX_KEY_LENGTH
  {
    var a := id / 10;
    var b := a / 10;
    var c := b / 10;
    assert c / 10 < 10;
    assert |Decimal(c)| <= 2 && |Decimal(b)| <= 3 && |Decimal(a)| <= 4;
  }
}
