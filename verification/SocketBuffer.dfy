/** The restartable packet reader: src/SocketBuffer.c keeps, per socket, what an interrupted attempt
    has read so far, and the next attempt replays it (driven as in src/Socket.c, src/SSLSocket.c and
    MQTTPacket_Factory). */
module SocketBuffer {
  import opened Wrappers
  import opened Types
  import opened Wire

  /** header is fixed_header up to headerlen, of which index bytes have been handed out in this
      attempt; the first datalen bytes of buf have been read.  Socket 0 is no socket. */
  datatype SocketQueue = SocketQueue(socket: int, index: nat, header: seq<Byte>, datalen: nat, buf: seq<Byte>)

  function Cleared(q: SocketQueue): SocketQueue {
    q.(socket := 0, index := 0, header := [], datalen := 0)
  }

  datatype ReadCode = Complete | Interrupted | Failed

  /** fixed_header with one more byte put in at index, unless it is full. */
  function Queued(q: SocketQueue, c: Byte): SocketQueue
    requires q.index <= |q.header|
  {
    if q.index > 4 then q else q.(index := q.index + 1, header := q.header[..q.index] + [c])
  }

  /** The length that a whole fixed header gives; None while length bytes are missing. */
  function HeaderLength(h: seq<Byte>): Option<nat> {
    if |h| < 2 then None
    else
      match VbiAt(h, 1, 4)
      case None => None
      case Some(d) => if d.len == |h| - 1 then Some(d.value) else None
  }

  /** Header bytes as they are read: every length byte before the last has its continuation bit. */
  ghost predicate HeaderShape(h: seq<Byte>) {
    |h| <= 5 && forall i :: 1 <= i < |h| - 1 ==> h[i] >= 128
  }

  /** Data is only there behind a whole header, and less of it than the header announces. */
  ghost predicate WellFormed(q: SocketQueue) {
    && q.index <= |q.header| && HeaderShape(q.header) && q.datalen <= |q.buf|
    && (q.datalen > 0 ==> HeaderLength(q.header).Some? && q.datalen < HeaderLength(q.header).value)
  }

  function Pending(q: SocketQueue): seq<Byte>
    requires q.datalen <= |q.buf|
  {
    q.header + q.buf[..q.datalen]
  }

  // ----- Packets in a stream -----

  datatype Packet = Packet(header: Byte, data: seq<Byte>)

  /** The packet at the front of a stream; None: too short, or a length of more than four bytes. */
  function NextPacket(u: seq<Byte>): Option<Packet> {
    if u == [] then None
    else
      match VbiAt(u, 1, 4)
      case None => None
      case Some(d) =>
        if d.len > 4 || 1 + d.len + d.value > |u| then None
        else Some(Packet(u[0], u[1 + d.len..1 + d.len + d.value]))
  }

  function PacketSize(u: seq<Byte>): (n: nat)
    requires NextPacket(u).Some?
    ensures n <= |u|
  {
    var d := VbiAt(u, 1, 4).value;
    1 + d.len + d.value
  }

  /** How many bytes recv gives: no more than asked for, nor than are there now. */
  function Least(wanted: nat, ready: nat, available: nat): (k: nat)
    ensures k <= wanted && k <= available && (k < wanted <= ready ==> k == available)
  {
    var k := if ready < wanted then ready else wanted;
    if available < k then available else k
  }

  class SocketBuffers {
    var queues: map<int, SocketQueue>
    var defQueue: SocketQueue
    /** What each socket will still deliver. */
    var streams: map<int, seq<Byte>>

    ghost predicate Valid()
      reads this
    {
      && (forall s :: s in queues ==> s != 0 && queues[s].socket == s && WellFormed(queues[s]))
      && WellFormed(defQueue) && defQueue.socket !in queues
      && defQueue.index == |defQueue.header| && defQueue.datalen == 0 && (defQueue.socket == 0 ==> defQueue.header == [])
    }

    /** Between attempts, as far as sockets other than s go. */
    ghost predicate IdleBut(s: int)
      reads this
    {
      && (forall t :: t in queues && t != s ==> queues[t].index == 0)
      && (defQueue.socket == 0 || defQueue.socket == s)
    }

    ghost predicate Idle()
      reads this
    {
      IdleBut(0) && Valid()
    }

    /** The queue an attempt on s works on. */
    ghost function Queue(s: int): SocketQueue
      reads this
    {
      if s in queues then queues[s] else if defQueue.socket == s then defQueue else SocketQueue(s, 0, [], 0, [])
    }

    ghost function Stream(s: int): seq<Byte>
      reads this
    {
      if s in streams then streams[s] else []
    }

    /** What a fresh reader would have to read: the bytes kept for the socket, then its stream. */
    ghost function Unread(s: int): seq<Byte>
      reads this
      requires Valid()
    {
      Pending(Queue(s)) + Stream(s)
    }

    /** Nothing about any other socket has changed. */
    twostate predicate OthersStay(s: int)
      reads this
    {
      queues - {s} == old(queues) - {s} && streams - {s} == old(streams) - {s}
    }

    constructor (streams: map<int, seq<Byte>>)
      ensures Idle() && this.streams == streams && queues == map[]
    {
      queues := map[];
      defQueue := SocketQueue(0, 0, [], 0, []);
      this.streams := streams;
    }

    /** The byte of the fixed header that comes next from the queue, if one is left; a queue whose
        five bytes are all used up is an error. */
    method GetQueuedChar(socket: int) returns (rc: ReadCode, c: Byte)
      requires Valid()
      modifies `queues
      ensures if socket in old(queues) && old(queues)[socket].index < |old(queues)[socket].header|
              then var q := old(queues)[socket];
                   rc == Complete && c == q.header[q.index] && queues == old(queues)[socket := q.(index := q.index + 1)]
              else queues == old(queues) &&
                   rc == if socket in old(queues) && old(queues)[socket].index > 4 then Failed else Interrupted
    {
      rc, c := Interrupted, 0;
      if socket in queues {
        var queue := queues[socket];
        if queue.index < |queue.header| {
          c := queue.header[queue.index];
          queues := queues[socket := queue.(index := queue.index + 1)];
          rc := Complete;
        } else if queue.index > 4 {
          rc := Failed;
        }
      }
    }

    /** A header byte has been read.  It is dropped when the default queue is another socket's, or
        when five bytes are there already. */
    method QueueChar(socket: int, c: Byte)
      requires Valid()
      modifies `queues, `defQueue
      ensures if socket in old(queues)
              then defQueue == old(defQueue) && queues == old(queues)[socket := Queued(old(queues)[socket], c)]
              else && queues == old(queues)
                   && defQueue == if old(defQueue).socket == 0
                                  then Queued(old(defQueue).(socket := socket, index := 0, datalen := 0), c)
                                  else if old(defQueue).socket == socket then Queued(old(defQueue), c)
                                  else old(defQueue)
    {
      if socket in queues {
        queues := queues[socket := Queued(queues[socket], c)];
      } else if defQueue.socket == 0 {
        defQueue := Queued(defQueue.(socket := socket, index := 0, datalen := 0), c);
      } else if defQueue.socket == socket {
        defQueue := Queued(defQueue, c);
      }
    }

    /** The attempt could not finish: what it has read is kept for the next one. */
    method ReadInterrupted(socket: int, actualLen: nat)
      requires socket in queues || defQueue.socket == 0 || defQueue.socket == socket
      modifies `queues, `defQueue
      ensures if socket in old(queues)
              then defQueue == old(defQueue) && queues == old(queues)[socket := old(queues)[socket].(index := 0, datalen := actualLen)]
              else && queues == old(queues)[socket := old(defQueue).(socket := socket, index := 0, datalen := actualLen)]
                   && defQueue == SocketQueue(0, 0, [], 0, [])
      ensures OthersStay(socket)
    {
      if socket in queues {
        queues := queues[socket := queues[socket].(index := 0, datalen := actualLen)];
      } else {
        queues := queues[socket := defQueue.(socket := socket, index := 0, datalen := actualLen)];
        defQueue := SocketQueue(0, 0, [], 0, []);
      }
    }

    /** The packet is complete: the queue is the new default queue, with nothing in it. */
    method ReadComplete(socket: int)
      modifies `queues, `defQueue
      ensures queues == old(queues) - {socket}
      ensures defQueue == Cleared(if socket in old(queues) then old(queues)[socket] else old(defQueue))
      ensures OthersStay(socket)
    {
      if socket in queues {
        defQueue := queues[socket];
        queues := queues - {socket};
      }
      defQueue := Cleared(defQueue);
    }

    /** A socket goes away with everything kept for it. */
    method Cleanup(socket: int)
      requires Valid() && IdleBut(socket) && socket != 0
      modifies `queues, `defQueue
      ensures Idle() && socket !in queues && OthersStay(socket)
    {
      if socket in queues {
        queues := queues - {socket};
      }
      if defQueue.socket == socket {
        defQueue := Cleared(defQueue);
      }
    }

    /** Reads one byte of the fixed header (Socket_getch); ready: the socket has a byte now.  More
        header is wanted, so one that is used up is not whole. */
    method Getch(socket: int, ready: bool) returns (rc: ReadCode, c: Byte)
      requires Valid() && socket != 0 && IdleBut(socket)
      requires WantsHeader(Queue(socket))
      modifies this
      ensures Valid() && OthersStay(socket) && Unread(socket) == old(Unread(socket))
      ensures rc == Interrupted ==> Idle() && (ready ==> |Unread(socket)| == old(Queue(socket).index))
      ensures rc == Complete ==>
                && IdleBut(socket) && Queue(socket).index == old(Queue(socket).index) + 1
                && Queue(socket).index <= |Unread(socket)| && c == Unread(socket)[old(Queue(socket).index)]
      ensures rc != Failed
    {
      rc, c := GetQueuedChar(socket);
      if rc == Interrupted {
        if !ready || socket !in streams || streams[socket] == [] {
          ReadInterrupted(socket, 0);
        } else {
          c := ReceiveChar(socket);
          rc := Complete;
        }
      }
    }

    /** recv of one byte, and its queueing. */
    method ReceiveChar(socket: int) returns (c: Byte)
      requires Valid() && socket != 0 && IdleBut(socket) && Stream(socket) != []
      requires WantsHeader(Queue(socket)) && Queue(socket).index == |Queue(socket).header|
      modifies this
      ensures Valid() && IdleBut(socket) && OthersStay(socket) && Unread(socket) == old(Unread(socket))
      ensures Queue(socket).index == old(Queue(socket).index) + 1 <= |Unread(socket)|
      ensures c == Unread(socket)[old(Queue(socket).index)]
    {
      c := streams[socket][0];
      ByteMoves(Queue(socket), c, streams[socket]);
      streams := streams[socket := streams[socket][1..]];
      QueueChar(socket, c);
    }

    /** The buffer that the rest of a packet of so many bytes is read into, and how much of it is
        there already. */
    method GetQueuedData(socket: int, bytes: nat) returns (actualLen: nat)
      requires Valid()
      modifies `queues, `defQueue
      ensures if socket in old(queues)
              then var q := old(queues)[socket];
                   actualLen == q.datalen && defQueue == old(defQueue) && queues == old(queues)[socket := Grown(q, bytes)]
              else actualLen == 0 && queues == old(queues) && defQueue == Grown(old(defQueue), bytes)
      ensures Valid() && OthersStay(socket)
    {
      if socket in queues {
        actualLen := queues[socket].datalen;
        queues := queues[socket := Grown(queues[socket], bytes)];
      } else {
        actualLen := 0;
        defQueue := Grown(defQueue, bytes);
      }
    }

    /** recv into the buffer: bytes of the stream go behind what is there. */
    method Receive(socket: int, at: nat, k: nat)
      requires Valid() && 0 < k <= |Stream(socket)|
      requires (socket in queues || defQueue.socket == socket) && at + k <= |Queue(socket).buf|
      requires at == Queue(socket).datalen
      modifies this
      ensures streams == old(streams)[socket := old(streams)[socket][k..]]
      ensures if socket in old(queues)
              then defQueue == old(defQueue) && queues == old(queues)[socket := Filled(old(queues)[socket], at, old(streams)[socket][..k])]
              else queues == old(queues) && defQueue == Filled(old(defQueue), at, old(streams)[socket][..k])
      ensures Valid() && OthersStay(socket)
    {
      var bytes := streams[socket][..k];
      streams := streams[socket := streams[socket][k..]];
      if socket in queues {
        queues := queues[socket := Filled(queues[socket], at, bytes)];
      } else {
        defQueue := Filled(defQueue, at, bytes);
      }
    }

    /** Reads the rest of a packet (Socket_getdata); ready: how many bytes the socket has now. */
    method Getdata(socket: int, bytes: nat, ready: nat) returns (rc: ReadCode, data: seq<Byte>)
      requires Valid() && socket != 0 && IdleBut(socket) && (socket in queues || defQueue.socket == socket)
      requires Queue(socket).index == |Queue(socket).header| && HeaderLength(Queue(socket).header) == Some(bytes)
      modifies this
      ensures Idle() && OthersStay(socket)
      ensures rc == Interrupted ==> Unread(socket) == old(Unread(socket))
      ensures rc == Interrupted && bytes <= ready ==> |Unread(socket)| < |old(Queue(socket).header)| + bytes
      ensures rc == Complete ==>
                var u, h := old(Unread(socket)), |old(Queue(socket).header)|;
                && h + bytes <= |u| && data == u[h..h + bytes] && Unread(socket) == u[h + bytes..] && socket !in queues
      ensures rc != Failed
    {
      data := [];
      if bytes == 0 {
        ReadComplete(socket);
        rc := Complete;
        return;
      }
      ghost var u := Unread(socket);
      var actualLen := ReceiveUpTo(socket, bytes, ready);
      if actualLen == bytes {
        data := TakeData(socket, bytes, u);
        rc := Complete;
      } else {
        PartOf(Queue(socket), actualLen, Stream(socket), u);
        ReadInterrupted(socket, actualLen);
        rc := Interrupted;
      }
    }

    /** All of the data is in the buffer. */
    method TakeData(socket: int, bytes: nat, ghost u: seq<Byte>) returns (data: seq<Byte>)
      requires Valid() && IdleBut(socket) && socket != 0 && (socket in queues || defQueue.socket == socket)
      requires bytes <= |Queue(socket).buf| && Queue(socket).header + Queue(socket).buf[..bytes] + Stream(socket) == u
      modifies `queues, `defQueue
      ensures Idle() && OthersStay(socket) && socket !in queues
      ensures var h := |old(Queue(socket).header)|;
              h + bytes <= |u| && data == u[h..h + bytes] && Unread(socket) == u[h + bytes..]
    {
      Divided(u, Queue(socket), bytes, Stream(socket));
      data := (if socket in queues then queues[socket].buf else defQueue.buf)[..bytes];
      ReadComplete(socket);
    }

    /** What the socket has of the missing bytes goes into the buffer. */
    method ReceiveUpTo(socket: int, bytes: nat, ready: nat) returns (actualLen: nat)
      requires Valid() && socket != 0 && IdleBut(socket) && (socket in queues || defQueue.socket == socket)
      requires Queue(socket).datalen < bytes
      modifies this
      ensures Valid() && IdleBut(socket) && OthersStay(socket) && (socket in queues || defQueue.socket == socket)
      ensures var q := Queue(socket);
              && q == old(Queue(socket)).(buf := q.buf) && q.datalen <= actualLen <= bytes <= |q.buf|
              && q.header + q.buf[..actualLen] + Stream(socket) == old(Unread(socket))
              && (actualLen < bytes <= ready ==> Stream(socket) == [])
    {
      ghost var q, stream := Queue(socket), Stream(socket);
      actualLen := GetQueuedData(socket, bytes);
      var k := Least(bytes - actualLen, ready, if socket in streams then |streams[socket]| else 0);
      BytesMove(q, bytes, stream, k, if k == 0 then Grown(q, bytes) else Filled(Grown(q, bytes), q.datalen, stream[..k]));
      if k > 0 {
        Receive(socket, actualLen, k);
        actualLen := actualLen + k;
      }
    }

    /** MQTTPacket_decode: reads the remaining length byte by byte. */
    method ReadLength(socket: int, ready: nat -> nat) returns (rc: ReadCode, len: nat, value: nat)
      requires Valid() && IdleBut(socket) && socket != 0 && Queue(socket).index == 1
      requires socket in queues || defQueue.socket == socket
      modifies this
      ensures Valid() && IdleBut(socket) && OthersStay(socket) && Unread(socket) == old(Unread(socket))
      ensures rc == Interrupted ==> Idle() && (Ready(ready, 1) ==> VbiAt(Unread(socket), 1, 4) == None)
      ensures rc == Complete ==>
                && (socket in queues || defQueue.socket == socket)
                && VbiAt(Unread(socket), 1, 4) == Some(Decoded(value, len)) && len <= 4
                && Queue(socket).index == |Queue(socket).header| == len + 1 && HeaderLength(Queue(socket).header) == Some(value)
      ensures rc == Failed ==> VbiAt(Unread(socket), 1, 4).Some? && VbiAt(Unread(socket), 1, 4).value.len == 5
    {
      ghost var u := Unread(socket);
      var multiplier, more := 1, true;
      rc, len, value := Complete, 0, 0;
      DecodingIsVbiAt(u, 1, 0, 0);
      while more
        invariant InHeader(socket, u, len) && OthersStay(socket) && rc == Complete
        invariant Ongoing(u, len, value, more) && multiplier == Weighted(len, 1)
        decreases more, 4 - len
      {
        if len + 1 > MAX_NO_OF_REMAINING_LENGTH_BYTES {
          rc := Failed;
          return;
        }
        rc, value, multiplier, more := ReadDigit(socket, ready(len + 1) > 0, u, len, value, multiplier);
        if rc != Complete {
          return;
        }
        len := len + 1;
      }
      WholeHeader(Queue(socket), u, len, value);
    }

    /** The header byte and so many bytes of the length have been handed out; u is what the attempt
        started with. */
    ghost predicate InHeader(socket: int, u: seq<Byte>, len: nat)
      reads this
    {
      && Valid() && IdleBut(socket) && Unread(socket) == u && (socket in queues || defQueue.socket == socket)
      && Queue(socket).index == len + 1 <= |u|
    }

    /** One more byte of the length. */
    method ReadDigit(socket: int, ready: bool, ghost u: seq<Byte>, ghost len: nat, value: nat, multiplier: nat)
      returns (rc: ReadCode, newValue: nat, newMultiplier: nat, more: bool)
      requires InHeader(socket, u, len) && socket != 0 && len < 4
      requires Ongoing(u, len, value, true) && multiplier == Weighted(len, 1)
      modifies this
      ensures rc != Failed && OthersStay(socket)
      ensures rc == Interrupted ==> Idle() && Unread(socket) == u && (ready ==> |u| == len + 1)
      ensures rc == Complete ==>
                InHeader(socket, u, len + 1) && Ongoing(u, len + 1, newValue, more) && newMultiplier == Weighted(len + 1, 1)
    {
      newValue, newMultiplier, more := 0, 0, false;
      MoreHeader(Queue(socket), u, len);
      var c;
      rc, c := Getch(socket, ready);
      if rc == Complete {
        newValue, newMultiplier := Accumulate(c, len, value, multiplier, u);
        more := c >= 128;
      }
    }

    static method Accumulate(c: Byte, ghost len: nat, value: nat, multiplier: nat, ghost u: seq<Byte>)
      returns (newValue: nat, newMultiplier: nat)
      requires Ongoing(u, len, value, true) && len < 4 && len + 1 < |u| && u[len + 1] == c && multiplier == Weighted(len, 1)
      ensures Ongoing(u, len + 1, newValue, c >= 128) && newMultiplier == Weighted(len + 1, 1)
    {
      newValue := value + c % 128 * multiplier;
      newMultiplier := multiplier * 128;
    }

    /** The reading half of MQTTPacket_Factory: header byte, remaining length, the rest.  ready tells,
        for each read of this attempt, how many bytes the socket has when it comes. */
    method ReadPacket(socket: int, ready: nat -> nat) returns (rc: ReadCode, header: Byte, data: seq<Byte>)
      requires Idle() && socket != 0
      modifies this
      ensures Valid() && IdleBut(socket) && OthersStay(socket)
      ensures rc == Interrupted ==> Idle() && Unread(socket) == old(Unread(socket))
      ensures rc == Interrupted && Ready(ready, |Unread(socket)| + 1) ==> NextPacket(Unread(socket)) == None
      ensures rc == Complete ==> Idle() && socket !in queues && Took(old(Unread(socket)), header, data, Unread(socket))
      ensures rc == Failed ==>
                && Unread(socket) == old(Unread(socket))
                && var d := VbiAt(old(Unread(socket)), 1, 4); d.Some? && d.value.len == 5
    {
      data := [];
      ghost var u := Unread(socket);
      rc, header := Getch(socket, ready(0) > 0);
      if rc != Complete {
        return;
      }
      var len, value;
      rc, len, value := ReadLength(socket, ready);
      if rc != Complete {
        return;
      }
      rc, data := ReadRest(socket, len, value, ready(len + 1));
    }

    /** The rest of the packet, and with it the whole of it. */
    method ReadRest(socket: int, ghost len: nat, value: nat, ready: nat) returns (rc: ReadCode, data: seq<Byte>)
      requires Valid() && socket != 0 && IdleBut(socket) && (socket in queues || defQueue.socket == socket)
      requires Queue(socket).index == |Queue(socket).header| == len + 1 && HeaderLength(Queue(socket).header) == Some(value)
      requires Unread(socket) != [] && VbiAt(Unread(socket), 1, 4) == Some(Decoded(value, len)) && len <= 4
      modifies this
      ensures Idle() && OthersStay(socket) && rc != Failed
      ensures rc == Interrupted ==> Unread(socket) == old(Unread(socket))
      ensures rc == Interrupted && ready > |Unread(socket)| ==> NextPacket(Unread(socket)) == None
      ensures rc == Complete ==> socket !in queues && Took(old(Unread(socket)), old(Unread(socket))[0], data, Unread(socket))
    {
      ghost var u := Unread(socket);
      rc, data := Getdata(socket, value, ready);
      if rc == Complete {
        PacketTaken(u, u[0], len, value, data, Unread(socket));
      } else {
        PacketMissing(u, len, value);
      }
    }

    /** A malformed length ends a connection: the socket is closed, and what is kept for it goes. */
    method CloseSocket(socket: int)
      requires Valid() && IdleBut(socket) && socket != 0
      modifies this
      ensures Idle() && OthersStay(socket)
    {
      Cleanup(socket);
      streams := streams - {socket};
    }

    /** What is unread of every socket. */
    ghost function AllUnread(): (m: imap<int, seq<Byte>>)
      requires Valid()
      reads this
      ensures forall s: int :: s in m && m[s] == Unread(s)
    {
      imap s: int | true :: Unread(s)
    }

    /** Any number of attempts, on any sockets in any order, each interrupted anywhere or not; log
        holds the packets in the order they were completed.  On every socket exactly its next packets
        have been read, and nothing else; exactly those with a malformed length next are closed. */
    method ReadAll(attempts: seq<(int, nat -> nat)>) returns (log: seq<(int, Packet)>, closed: set<int>)
      requires Idle() && forall i :: 0 <= i < |attempts| ==> attempts[i].0 != 0
      modifies this
      ensures Idle()
      ensures Tracked(log, closed, old(AllUnread()), AllUnread())
    {
      log, closed := [], {};
      ghost var start := AllUnread();
      forall s: int | s != 0 ensures TrackedAt(log, closed, start, start, s) {
        assert Of(log, s) == [];
      }
      for i := 0 to |attempts|
        invariant Idle() && Tracked(log, closed, start, AllUnread())
      {
        var (socket, ready) := attempts[i];
        if socket !in closed {
          log, closed := Attempt(socket, ready, log, closed, start);
        }
      }
    }

    /** One attempt on an open socket. */
    method Attempt(socket: int, ready: nat -> nat, log: seq<(int, Packet)>, closed: set<int>, ghost start: imap<int, seq<Byte>>)
      returns (log': seq<(int, Packet)>, closed': set<int>)
      requires Idle() && Tracked(log, closed, start, AllUnread()) && socket != 0 && socket !in closed
      modifies this
      ensures Idle() && Tracked(log', closed', start, AllUnread())
    {
      ghost var before := AllUnread();
      assert TrackedAt(log, closed, start, before, socket);
      var rc, header, data := ReadOrClose(socket, ready);
      var p := Packet(header, data);
      log' := if rc == Complete then log + [(socket, p)] else log;
      closed' := if rc == Failed then closed + {socket} else closed;
      ServedHere(log, closed, start, before, AllUnread(), socket, rc, p);
      NextTracked(log, log', closed, closed', start, before, AllUnread(), socket);
    }

    /** A socket with a malformed length is closed. */
    method ReadOrClose(socket: int, ready: nat -> nat) returns (rc: ReadCode, header: Byte, data: seq<Byte>)
      requires Idle() && socket != 0
      modifies this
      ensures Idle()
      ensures forall s: int {:trigger Unread(s)} :: s != 0 && s != socket ==> Unread(s) == old(Unread(s))
      ensures Served(rc, Packet(header, data), old(Unread(socket)), Unread(socket))
    {
      rc, header, data := ReadPacket(socket, ready);
      if rc == Failed {
        CloseSocket(socket);
      }
      forall s: int | s != 0 && s != socket ensures Unread(s) == old(Unread(s)) {
        Elsewhere(queues, old(queues), socket, s);
        Elsewhere(streams, old(streams), socket, s);
      }
    }
  }

  /** What an attempt makes of what is unread. */
  ghost predicate Served(rc: ReadCode, p: Packet, was: seq<Byte>, now: seq<Byte>) {
    match rc
    case Complete => Took(was, p.header, p.data, now)
    case Interrupted => now == was
    case Failed => Malformed(Some(was))
  }

  lemma ServedHere(log: seq<(int, Packet)>, closed: set<int>, start: imap<int, seq<Byte>>, before: imap<int, seq<Byte>>,
                   now: imap<int, seq<Byte>>, socket: int, rc: ReadCode, p: Packet)
    requires TrackedAt(log, closed, start, before, socket) && socket in now && socket !in closed
    requires Served(rc, p, before[socket], now[socket])
    ensures TrackedAt(if rc == Complete then log + [(socket, p)] else log, if rc == Failed then closed + {socket} else closed,
                      start, now, socket)
  {
    OfAppend(log, socket, p, socket);
  }

  /** Of a socket that delivered start[s] from the beginning and has now[s] left: the packets in log are
      exactly its next ones in order, and the rest is still to be read -- or, once it is closed, begins
      with a malformed length. */
  ghost predicate TrackedAt(log: seq<(int, Packet)>, closed: set<int>, start: imap<int, seq<Byte>>, now: imap<int, seq<Byte>>, s: int) {
    && s in start && s in now
    && if s in closed then Malformed(Remainder(Of(log, s), start[s])) else Remainder(Of(log, s), start[s]) == Some(now[s])
  }

  ghost predicate Tracked(log: seq<(int, Packet)>, closed: set<int>, start: imap<int, seq<Byte>>, now: imap<int, seq<Byte>>) {
    forall s: int :: s != 0 ==> TrackedAt(log, closed, start, now, s)
  }

  /** An attempt concerns its own socket only. */
  lemma NextTracked(log: seq<(int, Packet)>, log': seq<(int, Packet)>, closed: set<int>, closed': set<int>,
                    start: imap<int, seq<Byte>>, before: imap<int, seq<Byte>>, now: imap<int, seq<Byte>>, socket: int)
    requires Tracked(log, closed, start, before) && TrackedAt(log', closed', start, now, socket)
    requires forall s: int :: s in now && (s != 0 && s != socket && s in before ==> now[s] == before[s])
    requires log' == log || (|log'| == |log| + 1 && log' == log + [(socket, log'[|log|].1)])
    requires closed <= closed' <= closed + {socket}
    ensures Tracked(log', closed', start, now)
  {
    forall s: int | s != 0 ensures TrackedAt(log', closed', start, now, s) {
      assert TrackedAt(log, closed, start, before, s);
      if log' != log {
        OfAppend(log, socket, log'[|log|].1, s);
      }
    }
  }

  /** What is left begins with a header byte and a length of more than four bytes. */
  ghost predicate Malformed(rest: Option<seq<Byte>>) {
    rest.Some? && VbiAt(rest.value, 1, 4).Some? && VbiAt(rest.value, 1, 4).value.len == 5
  }

  lemma Elsewhere<V>(m: map<int, V>, n: map<int, V>, s: int, t: int)
    requires m - {s} == n - {s} && t != s
    ensures (t in m <==> t in n) && (t in m ==> m[t] == n[t])
  {
    assert t in m <==> t in m - {s};
    assert t in n <==> t in n - {s};
  }

  lemma {:induction false} PacketTaken(u: seq<Byte>, header: Byte, len: nat, value: nat, data: seq<Byte>, rest: seq<Byte>)
    requires u != [] && header == u[0] && VbiAt(u, 1, 4) == Some(Decoded(value, len)) && len <= 4
    requires 1 + len + value <= |u| && data == u[1 + len..1 + len + value] && rest == u[1 + len + value..]
    ensures Took(u, header, data, rest)
  {
    NextIs(u, len, value, Some(Packet(header, data)), rest);
  }

  lemma {:induction false} NextIs(u: seq<Byte>, len: nat, value: nat, r: Option<Packet>, rest: seq<Byte>)
    requires u != [] && VbiAt(u, 1, 4) == Some(Decoded(value, len)) && len <= 4 && 1 + len + value <= |u|
    requires r == Some(Packet(u[0], u[1 + len..1 + len + value])) && rest == u[1 + len + value..]
    ensures NextPacket(u) == r && u[PacketSize(u)..] == rest
  {
  }

  lemma {:induction false} PacketMissing(u: seq<Byte>, len: nat, value: nat)
    requires u != [] && VbiAt(u, 1, 4) == Some(Decoded(value, len)) && len <= 4
    ensures NextPacket(u) == None <==> |u| < 1 + len + value
  {
  }

  /** What is left of a stream after these packets in turn; None when they are not its next ones. */
  function Remainder(ps: seq<Packet>, u: seq<Byte>): Option<seq<Byte>> {
    if ps == [] then Some(u)
    else
      match Remainder(ps[..|ps| - 1], u)
      case None => None
      case Some(mid) =>
        var p := ps[|ps| - 1];
        if NextPacket(mid) == Some(p) then Some(mid[PacketSize(mid)..]) else None
  }

  /** The packets of one socket. */
  function Of(log: seq<(int, Packet)>, s: int): seq<Packet> {
    if log == [] then []
    else
      var earlier, last := Of(log[..|log| - 1], s), log[|log| - 1];
      if last.0 == s then earlier + [last.1] else earlier
  }

  lemma {:induction false} OfAppend(log: seq<(int, Packet)>, socket: int, p: Packet, s: int)
    ensures Of(log + [(socket, p)], s) == if s == socket then Of(log, s) + [p] else Of(log, s)
    ensures (Of(log, s) + [p])[..|Of(log, s)|] == Of(log, s)
  {
    assert (log + [(socket, p)])[..|log|] == log;
  }

  /** Every read finds at least so many bytes. */
  ghost predicate Ready(ready: nat -> nat, least: nat) {
    forall i: nat :: ready(i) >= least
  }

  /** The packet at the front of u, and what comes after it. */
  ghost predicate Took(u: seq<Byte>, header: Byte, data: seq<Byte>, rest: seq<Byte>) {
    NextPacket(u) == Some(Packet(header, data)) && rest == u[PacketSize(u)..]
  }

  /** The decoding loop after len bytes of the length. */
  ghost predicate Ongoing(u: seq<Byte>, len: nat, value: nat, more: bool) {
    && len <= 4 && len < |u|
    && (if more then forall i :: 1 <= i <= len ==> u[i] >= 128 else len > 0 && u[len] < 128)
    && Decoding(u, 1, 0, 0) == if more then Decoding(u, 1, len, value) else Some(Decoded(value, len))
  }

  /** A buffer of at least so many bytes with the data it had. */
  function Grown(q: SocketQueue, bytes: nat): SocketQueue
    requires q.datalen <= |q.buf|
  {
    if bytes > |q.buf| then q.(buf := q.buf[..q.datalen] + seq(bytes - q.datalen, _ => 0)) else q
  }

  function Filled(q: SocketQueue, at: nat, bytes: seq<Byte>): SocketQueue
    requires at + |bytes| <= |q.buf|
  {
    q.(buf := q.buf[..at] + bytes + q.buf[at + |bytes|..])
  }

  lemma Divided(u: seq<Byte>, q: SocketQueue, bytes: nat, stream: seq<Byte>)
    requires bytes <= |q.buf| && q.header + q.buf[..bytes] + stream == u
    ensures var h := |q.header|; h + bytes <= |u| && u[h..h + bytes] == q.buf[..bytes] && u[h + bytes..] == stream
  {
  }

  /** So much of the data is kept. */
  lemma PartOf(q: SocketQueue, actualLen: nat, stream: seq<Byte>, u: seq<Byte>)
    requires actualLen <= |q.buf| && q.header + q.buf[..actualLen] + stream == u
    ensures Pending(q.(index := 0, datalen := actualLen)) + stream == u
    ensures |u| == |q.header| + actualLen + |stream|
  {
  }

  /** Bytes go from the stream into the buffer. */
  lemma BytesMove(q: SocketQueue, bytes: nat, stream: seq<Byte>, k: nat, now: SocketQueue)
    requires WellFormed(q) && q.datalen < bytes && k <= bytes - q.datalen && k <= |stream|
    requires now == if k == 0 then Grown(q, bytes) else Filled(Grown(q, bytes), q.datalen, stream[..k])
    ensures bytes <= |now.buf| && now.header == q.header && now.socket == q.socket && now.index == q.index && now.datalen == q.datalen
    ensures now.buf[..q.datalen + k] == q.buf[..q.datalen] + stream[..k]
    ensures q.header + now.buf[..q.datalen + k] + stream[k..] == Pending(q) + stream
  {
    assert now.buf[..q.datalen + k] == q.buf[..q.datalen] + stream[..k];
    assert stream[..k] + stream[k..] == stream;
  }

  ghost predicate WantsHeader(q: SocketQueue) {
    && q.index <= 4
    && (q.index == |q.header| ==> q.datalen == 0 && (|q.header| >= 2 ==> q.header[|q.header| - 1] >= 128))
  }

  /** A byte goes from the stream into the header. */
  lemma ByteMoves(q: SocketQueue, c: Byte, stream: seq<Byte>)
    requires WellFormed(q) && WantsHeader(q) && q.index == |q.header| && stream != [] && c == stream[0]
    ensures Queued(q, c).header == q.header + [c] && WellFormed(Queued(q, c))
    ensures Pending(Queued(q, c)) + stream[1..] == Pending(q) + stream
    ensures (Pending(q) + stream)[q.index] == c
  {
  }

  lemma {:induction false} WholeEnds(h: seq<Byte>, pos: nat, left: nat)
    requires VbiAt(h, pos, left).Some? && pos + VbiAt(h, pos, left).value.len == |h| && VbiAt(h, pos, left).value.len <= left
    ensures h[|h| - 1] < 128
    decreases left
  {
    if h[pos] >= 128 {
      WholeEnds(h, pos + 1, left - 1);
    }
  }

  /** While the length goes on, what is used up of the header is not the whole of it. */
  lemma MoreHeader(q: SocketQueue, u: seq<Byte>, len: nat)
    requires WellFormed(q) && Pending(q) <= u && q.index == len + 1 <= 4
    requires forall i :: 1 <= i <= len && i < |u| ==> u[i] >= 128
    ensures WantsHeader(q)
  {
    if q.index == |q.header| {
      assert forall i :: 0 <= i < |q.header| ==> q.header[i] == u[i];
      if HeaderLength(q.header).Some? {
        WholeEnds(q.header, 1, 4);
      }
    }
  }

  lemma {:induction false} VbiOfTake(u: seq<Byte>, n: nat, pos: nat, left: nat)
    requires VbiAt(u, pos, left).Some? && VbiAt(u, pos, left).value.len <= left
    requires pos + VbiAt(u, pos, left).value.len <= n <= |u|
    ensures VbiAt(u[..n], pos, left) == VbiAt(u, pos, left)
    decreases left
  {
    if u[pos] >= 128 {
      VbiOfTake(u, n, pos + 1, left - 1);
    }
  }

  /** When the length ends, the header is used up, and whole. */
  lemma {:induction false} WholeHeader(q: SocketQueue, u: seq<Byte>, len: nat, value: nat)
    requires WellFormed(q) && Pending(q) <= u && q.index == len + 1 && 0 < len <= 4 && len < |u| && u[len] < 128
    requires VbiAt(u, 1, 4) == Some(Decoded(value, len))
    ensures q.index == |q.header| && HeaderLength(q.header) == Some(value)
  {
    assert forall i :: 0 <= i < |q.header| ==> q.header[i] == u[i];
    assert q.header == u[..len + 1];
    VbiOfTake(u, len + 1, 1, 4);
  }
}
