/** PDUs through buffers: dump_pdu (lib/rpki-rtr/pdu.c), and how a connection cuts its
    input into PDUs (read_block, read_nonblock and read_and_parse_pdu in
    bin/rpki-rtr/connection.c). */
module PduStream {
  import opened NetworkBytes
  import opened Pdu

  const MAX_PDU_SIZE := 1024

  // ----- dump_pdu -----

  /** INCR_OFFSET and the copy after it. */
  method Put(buffer: array<byte>, offset: int, bytes: seq<byte>) returns (next: int)
    requires offset <= buffer.Length
    modifies buffer
    ensures next == if offset < 0 || offset + |bytes| > buffer.Length then -1 else offset + |bytes|
    ensures next >= 0 ==> buffer[..next] == old(buffer[..offset]) + bytes
    ensures next >= 0 ==> forall i :: next <= i < buffer.Length ==> buffer[i] == old(buffer[i])
  {
    if offset < 0 || offset + |bytes| > buffer.Length {
      return -1;
    }
    for i := 0 to |bytes|
      invariant buffer[..offset] == old(buffer[..offset])
      invariant buffer[offset..offset + i] == bytes[..i]
      invariant forall k :: offset + |bytes| <= k < buffer.Length ==> buffer[k] == old(buffer[k])
    {
      buffer[offset + i] := bytes[i];
    }
    next := offset + |bytes|;
    assert buffer[..next] == buffer[..offset] + buffer[offset..next];
  }

  method PutHeader(buffer: array<byte>, p: PDU) returns (next: int)
    modifies buffer
    ensures next == if HEADER_LENGTH > buffer.Length then -1 else HEADER_LENGTH
    ensures next >= 0 ==> buffer[..next] == [p.version, p.pduType] + Bytes(p.field, 2) + Bytes(p.length, 4)
    ensures next >= 0 ==> forall i :: next <= i < buffer.Length ==> buffer[i] == old(buffer[i])
  {
    next := Put(buffer, 0, [p.version, p.pduType]);
    next := Put(buffer, next, Bytes(p.field, 2));
    next := Put(buffer, next, Bytes(p.length, 4));
  }

  method PutError(buffer: array<byte>, offset: int, body: Body) returns (next: int)
    requires offset <= buffer.Length && body.Error?
    modifies buffer
    ensures next == if offset < 0 || offset + |BodyBytes(body)| > buffer.Length then -1 else offset + |BodyBytes(body)|
    ensures next >= 0 ==> buffer[..next] == old(buffer[..offset]) + BodyBytes(body)
    ensures next >= 0 ==> forall i :: next <= i < buffer.Length ==> buffer[i] == old(buffer[i])
  {
    next := Put(buffer, offset, Bytes(|body.encapsulated|, 4));
    next := Put(buffer, next, body.encapsulated);
    next := Put(buffer, next, Bytes(|body.text|, 4));
    next := Put(buffer, next, body.text);
  }

  /** dump_pdu of a valid PDU. */
  method DumpPdu(buffer: array<byte>, p: PDU) returns (n: int)
    requires WellFormed(p)
    modifies buffer
    ensures n == if |Encode(p)| > buffer.Length then -1 else |Encode(p)|
    ensures n >= 0 ==> buffer[..n] == Encode(p) && forall i :: n <= i < buffer.Length ==> buffer[i] == old(buffer[i])
  {
    n := PutHeader(buffer, p);
    if p.pduType == ERROR_REPORT {
      n := PutError(buffer, n, p.body);
    } else {
      n := Put(buffer, n, BodyBytes(p.body));
    }
  }

  // ----- reading -----

  /** The peer's end of the connection.  How many bytes a call of read or recv returns
      is left open. */
  class Socket {
    var incoming: seq<byte>

    constructor (bytes: seq<byte>)
      ensures incoming == bytes
    {
      incoming := bytes;
    }

    /** Nothing is read only if nothing was asked for or the peer closed. */
    method Read(count: nat) returns (chunk: seq<byte>)
      modifies this
      ensures old(incoming) == chunk + incoming && |chunk| <= count
      ensures chunk == [] <==> count == 0 || old(incoming) == []
    {
      var most := if count < |incoming| then count else |incoming|;
      var k: nat :| k <= most && (k == 0 <==> most == 0);
      chunk, incoming := incoming[..k], incoming[k..];
    }
  }

  /** Why the thread ends in read_block. */
  datatype Stop = PastEnd | BadPdu(verdict: Parsed) | Closed

  datatype Outcome = Returned(result: Parsed) | Exited(why: Stop) | TooLarge

  class Receiver {
    const socket: Socket
    const buffer: array<byte>
    var length: nat               // pdu_recv_buffer_length

    ghost predicate Valid()
      reads this
    {
      buffer.Length == MAX_PDU_SIZE && length <= MAX_PDU_SIZE
    }

    /** What was received of the current PDU. */
    function Got(): seq<byte>
      requires Valid()
      reads this, buffer
    {
      buffer[..length]
    }

    /** What was received, and all that is still to come. */
    ghost function Stream(): seq<byte>
      requires Valid()
      reads this, buffer, socket
    {
      Got() + socket.incoming
    }

    constructor (socket: Socket)
      ensures Valid() && length == 0 && this.socket == socket && fresh(buffer)
    {
      this.socket := socket;
      buffer := new byte[MAX_PDU_SIZE](_ => 0);
      length := 0;
    }

    /** read or recv into the buffer behind what is there. */
    method Fill(count: nat) returns (n: nat)
      requires Valid() && length + count <= MAX_PDU_SIZE
      modifies this, buffer, socket
      ensures Valid() && length == old(length) + n && n <= count && old(Got()) <= Got()
      ensures Stream() == old(Stream())
      ensures n == 0 <==> count == 0 || old(socket.incoming) == []
    {
      var chunk := socket.Read(count);
      n := |chunk|;
      for i := 0 to n
        invariant length == old(length) && old(socket.incoming) == chunk + socket.incoming
        invariant buffer[..length] == old(buffer[..length])
        invariant buffer[length..length + i] == chunk[..i]
      {
        buffer[length + i] := chunk[i];
      }
      length := length + n;
      assert buffer[..length] == old(buffer[..length]) + chunk;
    }

    /** read_block. */
    method ReadBlock(count: nat) returns (stop: bool, why: Stop)
      requires Valid() && length + count <= MAX_PDU_SIZE
      modifies this, buffer, socket
      ensures Valid() && Stream() == old(Stream()) && old(Got()) <= Got()
      ensures if stop then length < old(length) + count else length == old(length) + count
      ensures stop ==>
                match why
                case PastEnd => IsPdu(Parse(Got()))
                case BadPdu(v) => Parse(Got()) == v && v != Truncated && !IsPdu(v)
                case Closed => Parse(Got()) == Truncated && Got() == Stream()
    {
      stop, why := false, Closed;
      var rest := count;
      while rest > 0
        invariant Valid() && length + rest == old(length) + count
        invariant Stream() == old(Stream()) && old(Got()) <= Got()
        decreases rest
      {
        var verdict := Parse(Got());
        if verdict.Good? || verdict.Warning? {
          return true, PastEnd;
        } else if verdict != Truncated {
          return true, BadPdu(verdict);
        }
        ghost var before := Got();
        var n := Fill(rest);
        if n == 0 {
          assert Got() == before;
          return true, Closed;
        }
        rest := rest - n;
      }
    }

    /** read_and_parse_pdu once the header is there. */
    method ReadRest() returns (o: Outcome)
      requires Valid() && length == HEADER_LENGTH
      modifies this, buffer, socket
      ensures Valid() && Stream() == old(Stream())
      ensures Agrees(o, Got(), Stream())
    {
      Framing(Got(), Stream());
      var verdict := Parse(Got());
      if verdict == Truncated {
        ghost var header := Got();
        var total := UInt(Got()[4..8]);
        if total > MAX_PDU_SIZE {
          SameLength(header, Stream());
          return TooLarge;
        }
        var stop, why := ReadBlock(total - length);
        SameLength(header, Got());
        Framing(Got(), Stream());
        if stop {
          return Exited(why);
        }
        verdict := Parse(Got());
      }
      return Returned(verdict);
    }

    /** read_and_parse_pdu: whatever the input and however it is cut, the outcome agrees
        with the whole stream. */
    method ReadAndParsePdu() returns (o: Outcome)
      requires Valid() && length <= HEADER_LENGTH
      modifies this, buffer, socket
      ensures Valid() && Stream() == old(Stream())
      ensures Agrees(o, Got(), Stream())
    {
      Framing(Got(), Stream());
      var verdict := Parse(Got());
      if !verdict.Good? && !verdict.Warning? && verdict != Truncated {
        return Returned(verdict);
      }
      var stop, why := ReadBlock(HEADER_LENGTH - length);
      Framing(Got(), Stream());
      if stop {
        return Exited(why);
      }
      o := ReadRest();
    }
  }

  /** The outcome is the verdict on the whole stream, unless the PDU is too large; a PDU
      is consumed to its last byte and not beyond; the thread never ends for having tried
      to read past one. */
  ghost predicate Agrees(o: Outcome, got: seq<byte>, stream: seq<byte>) {
    match o
    case Returned(r) => r == Parse(stream) && r != Truncated && (IsPdu(r) ==> got == Encode(r.pdu))
    case Exited(PastEnd) => false
    case Exited(BadPdu(v)) => v == Parse(stream) && v != Truncated && !IsPdu(v)
    case Exited(Closed) => Parse(stream) == Truncated
    case TooLarge => |stream| >= 8 && UInt(stream[4..8]) > MAX_PDU_SIZE
  }

  lemma SameLength(b: seq<byte>, longer: seq<byte>)
    requires 8 <= |b| && b <= longer
    ensures longer[4..8] == b[4..8]
  {
  }

  /** What the bytes received so far say about the whole stream. */
  lemma Framing(got: seq<byte>, stream: seq<byte>)
    requires got <= stream
    ensures Parse(got) != Truncated ==> Parse(stream) == Parse(got)
    ensures Parse(got) == Truncated && |got| >= 8 ==> |got| < UInt(got[4..8])
    ensures IsPdu(Parse(got)) ==>
              var p := Parse(got).pdu;
              8 <= |got| && p.length == UInt(got[4..8]) <= |got| && Encode(p) == got[..p.length]
  {
    if Parse(got) != Truncated {
      ParseExtends(got, stream[|got|..]);
      assert stream == got + stream[|got|..];
    } else if |got| >= 8 {
      TruncatedIsShort(got);
    }
    if IsPdu(Parse(got)) {
      PduIsThere(got, Parse(got).pdu);
    }
  }

  lemma PduIsThere(got: seq<byte>, p: PDU)
    requires IsPdu(Parse(got)) && p == Parse(got).pdu
    ensures 8 <= |got| && p.length == UInt(got[4..8]) <= |got| && Encode(p) == got[..p.length]
  {
    EncodeOfParse(got);
    var rest := got[p.length..];
    assert got == Encode(p) + rest;
    HeaderOfEncode(p, rest);
    assert Header(got).length == p.length;
  }

  // ----- end to end -----

  function EncodeAll(ps: seq<PDU>): seq<byte> {
    if ps == [] then [] else Encode(ps[0]) + EncodeAll(ps[1..])
  }

  lemma Associative(a: seq<byte>, b: seq<byte>, c: seq<byte>)
    ensures (a + b) + c == a + (b + c)
  {
  }

  lemma {:induction false} EncodeAllSnoc(ps: seq<PDU>, p: PDU)
    ensures EncodeAll(ps + [p]) == EncodeAll(ps) + Encode(p)
  {
    if ps == [] {
      assert ([p])[1..] == [];
    } else {
      EncodeAllSnoc(ps[1..], p);
      assert (ps + [p])[1..] == ps[1..] + [p];
      Associative(Encode(ps[0]), EncodeAll(ps[1..]), Encode(p));
    }
  }

  predicate Sendable(p: PDU) {
    WellFormed(p) && p.length <= MAX_PDU_SIZE
  }

  /** send_pdu, up to the write; a PDU that does not fit ends the thread. */
  method SendPdu(buffer: array<byte>, p: PDU) returns (bytes: seq<byte>, ended: bool)
    requires buffer.Length == MAX_PDU_SIZE && WellFormed(p)
    modifies buffer
    ensures ended == (p.length > MAX_PDU_SIZE)
    ensures bytes == if ended then [] else Encode(p)
  {
    var n := DumpPdu(buffer, p);
    ended := n < 0;
    bytes := if ended then [] else buffer[..n];
  }

  /** How many PDUs go out before one that does not fit. */
  function Fitting(ps: seq<PDU>): (n: nat)
    ensures n <= |ps|
  {
    if ps == [] || ps[0].length > MAX_PDU_SIZE then 0 else 1 + Fitting(ps[1..])
  }

  lemma {:induction false} AllFit(ps: seq<PDU>, p: PDU)
    requires (forall x :: x in ps ==> WellFormed(x)) && p in ps[..Fitting(ps)]
    ensures Sendable(p)
  {
    if p == ps[0] {
    } else {
      assert ps[..Fitting(ps)] == [ps[0]] + ps[1..][..Fitting(ps[1..])];
      AllFit(ps[1..], p);
    }
  }

  lemma FittingStep(ps: seq<PDU>, i: nat)
    requires i < |ps| && Fitting(ps) == i + Fitting(ps[i..])
    ensures if ps[i].length > MAX_PDU_SIZE then Fitting(ps) == i else Fitting(ps) == i + 1 + Fitting(ps[i + 1..])
  {
    assert ps[i..][1..] == ps[i + 1..];
  }

  lemma EncodeNext(ps: seq<PDU>, i: nat)
    requires i < |ps|
    ensures EncodeAll(ps[..i + 1]) == EncodeAll(ps[..i]) + Encode(ps[i])
  {
    assert ps[..i + 1] == ps[..i] + [ps[i]];
    EncodeAllSnoc(ps[..i], ps[i]);
  }

  /** send_pdu, once for each PDU. */
  method Send(ps: seq<PDU>) returns (stream: seq<byte>, ended: bool)
    requires forall p :: p in ps ==> WellFormed(p)
    ensures stream == EncodeAll(ps[..Fitting(ps)]) && ended == (Fitting(ps) < |ps|)
  {
    var buffer := new byte[MAX_PDU_SIZE](_ => 0);
    stream, ended := [], false;
    for i := 0 to |ps|
      invariant stream == EncodeAll(ps[..i]) && Fitting(ps) == i + Fitting(ps[i..])
    {
      assert ps[i] in ps;
      FittingStep(ps, i);
      EncodeNext(ps, i);
      var bytes;
      bytes, ended := SendPdu(buffer, ps[i]);
      if ended {
        return;
      }
      stream := stream + bytes;
    }
    assert ps[..|ps|] == ps;
  }

  /** If the stream starts with a PDU, that is what is read. */
  lemma FirstIsRead(o: Outcome, got: seq<byte>, incoming: seq<byte>, p: PDU, rest: seq<byte>)
    requires Agrees(o, got, Encode(p) + rest) && got + incoming == Encode(p) + rest && Sendable(p)
    ensures o == Returned(Verdict(p)) && incoming == rest
  {
    ParseOfEncode(p, rest);
    HeaderOfEncode(p, rest);
    if o.Returned? {
      assert incoming == (got + incoming)[|got|..];
      assert rest == (Encode(p) + rest)[|got|..];
    }
  }

  /** One turn of connection_main_loop that finds input. */
  method ReceiveOne(r: Receiver, ghost todo: seq<PDU>) returns (closed: bool, o: Outcome)
    requires r.Valid() && r.socket.incoming == EncodeAll(todo) && forall p :: p in todo ==> Sendable(p)
    modifies r, r.buffer, r.socket
    ensures r.Valid() && closed == (todo == [])
    ensures !closed ==> o == Returned(Verdict(todo[0])) && r.socket.incoming == EncodeAll(todo[1..])
  {
    r.length := 0;
    assert r.Stream() == EncodeAll(todo);
    var n := r.Fill(HEADER_LENGTH);
    if n == 0 {
      return true, TooLarge;
    }
    o := r.ReadAndParsePdu();
    closed := false;
    assert todo[0] in todo;
    FirstIsRead(o, r.Got(), r.socket.incoming, todo[0], EncodeAll(todo[1..]));
  }

  /** The connection's reading of a stream of PDUs. */
  method Receive(stream: seq<byte>, ghost ps: seq<PDU>) returns (received: seq<PDU>)
    requires stream == EncodeAll(ps) && forall p :: p in ps ==> Sendable(p)
    ensures received == ps
  {
    var socket := new Socket(stream);
    var r := new Receiver(socket);
    received := [];
    while true
      invariant r.Valid() && fresh(r) && fresh(r.buffer) && fresh(r.socket)
      invariant |received| <= |ps| && received == ps[..|received|]
      invariant r.socket.incoming == EncodeAll(ps[|received|..])
      decreases |ps| - |received|
    {
      ghost var todo := ps[|received|..];
      var closed, o := ReceiveOne(r, todo);
      if closed {
        break;
      }
      assert todo[1..] == ps[|received| + 1..];
      received := received + [o.result.pdu];
    }
  }

  /** Whatever PDUs one side sends, and however the stream is cut on the way, the other
      side reads exactly those PDUs, in order, up to the first that is too large to send. */
  method Transfer(ps: seq<PDU>) returns (received: seq<PDU>)
    requires forall p :: p in ps ==> WellFormed(p)
    ensures received == ps[..Fitting(ps)]
  {
    var stream, _ := Send(ps);
    forall p | p in ps[..Fitting(ps)] ensures Sendable(p) {
      AllFit(ps, p);
    }
    received := Receive(stream, ps[..Fitting(ps)]);
  }
}
