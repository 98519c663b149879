/** The framing of Network.java: messages as runs of bytes that end in a divider. The
    writer refuses messages that contain the divider; the reader collects bytes, read by
    read, in a buffer of 1024 numbers. */
module SerialFraming {
  import opened Words

  type Byte = x: int | -0x80 <= x < 0x80

  const BUFFER := 1024

  /** Messages are passed as numbers. */
  type Message = seq<int>

  /** What the constructor makes of its argument. */
  function Divider(requested: int): (d: u8)
    ensures 0 <= requested <= 255 ==> d == requested
    ensures requested > 255 ==> d == 255
    ensures requested < 0 ==> d == 0
  {
    if requested > 255 then 255 else if requested < 0 then 0 else requested
  }

  /** changeToByte: the nearest number from 0 to 255, as a signed byte. */
  function ToByte(num: int): (b: Byte)
    ensures num > 255 ==> FromByte(b) == 255
    ensures num < 0 ==> FromByte(b) == 0
    ensures 0 <= num <= 255 ==> FromByte(b) == num
  {
    var n := if num > 255 then 255 else if num < 0 then 0 else num;
    if n > 127 then n - 256 else n
  }

  /** The reader's adjustment of Java's signed bytes. */
  function FromByte(b: Byte): u8 {
    if b < 0 then b + 256 else b
  }

  // ---------------------------------------------------------------- the writer

  function Bytes(message: Message): (bytes: seq<Byte>)
    ensures |bytes| == |message|
    ensures forall i :: 0 <= i < |message| ==> bytes[i] == ToByte(message[i])
  {
    seq(|message|, i requires 0 <= i < |message| => ToByte(message[i]))
  }

  /** The bytes of one call of writeSerial on an open connection. */
  function Encoded(divider: u8, message: Message): seq<Byte> {
    if divider in message then [] else Bytes(message) + [ToByte(divider)]
  }

  function EncodedAll(divider: u8, messages: seq<Message>): seq<Byte> {
    if messages == [] then [] else Encoded(divider, messages[0]) + EncodedAll(divider, messages[1..])
  }

  // ---------------------------------------------------------------- the reader

  /** The reader thread dies of the exception when the buffer overflows. */
  datatype Reader = Reader(pending: Message, alive: bool)

  const IDLE := Reader([], true)

  predicate Fits(r: Reader) {
    |r.pending| <= BUFFER
  }

  /** The reader afterwards, and the calls of parseInput. */
  datatype Outcome = Outcome(reader: Reader, calls: seq<Message>)

  /** One byte. */
  function Receive(divider: u8, r: Reader, b: Byte): (after: Outcome)
    requires Fits(r)
    ensures Fits(after.reader)
  {
    if !r.alive then Outcome(r, [])
    else if FromByte(b) == divider then Outcome(r.(pending := []), if r.pending != [] then [r.pending] else [])
    else if |r.pending| == BUFFER then Outcome(r.(alive := false), [])
    else Outcome(r.(pending := r.pending + [FromByte(b)]), [])
  }

  function ReceiveAll(divider: u8, r: Reader, bytes: seq<Byte>): (after: Outcome)
    requires Fits(r)
    ensures Fits(after.reader)
    decreases |bytes|
  {
    if bytes == [] then Outcome(r, [])
    else
      var first := Receive(divider, r, bytes[0]);
      var rest := ReceiveAll(divider, first.reader, bytes[1..]);
      Outcome(rest.reader, first.calls + rest.calls)
  }

  /** The stream arrives in any number of reads of any length. */
  function ReceiveReads(divider: u8, r: Reader, chunks: seq<seq<Byte>>): (after: Outcome)
    requires Fits(r)
    ensures Fits(after.reader)
    decreases |chunks|
  {
    if chunks == [] then Outcome(r, [])
    else
      var first := ReceiveAll(divider, r, chunks[0]);
      var rest := ReceiveReads(divider, first.reader, chunks[1..]);
      Outcome(rest.reader, first.calls + rest.calls)
  }

  function Concat(chunks: seq<seq<Byte>>): seq<Byte> {
    if chunks == [] then [] else chunks[0] + Concat(chunks[1..])
  }

  // ---------------------------------------------------------------- chunking

  /** Decoding two chunks is decoding their concatenation. */
  lemma {:induction false} ReceiveAppend(divider: u8, r: Reader, a: seq<Byte>, b: seq<Byte>)
    requires Fits(r)
    ensures var first := ReceiveAll(divider, r, a);
      var second := ReceiveAll(divider, first.reader, b);
      ReceiveAll(divider, r, a + b) == Outcome(second.reader, first.calls + second.calls)
    decreases |a|
  {
    if a == [] {
      assert a + b == b;
    } else {
      var next := Receive(divider, r, a[0]).reader;
      ReceiveAppend(divider, next, a[1..], b);
      assert (a + b)[1..] == a[1..] + b;
    }
  }

  /** The division of the stream into reads does not matter. */
  lemma {:induction false} AnyChunking(divider: u8, r: Reader, chunks: seq<seq<Byte>>)
    requires Fits(r)
    ensures ReceiveReads(divider, r, chunks) == ReceiveAll(divider, r, Concat(chunks))
    decreases |chunks|
  {
    if chunks != [] {
      AnyChunking(divider, ReceiveAll(divider, r, chunks[0]).reader, chunks[1..]);
      ReceiveAppend(divider, r, chunks[0], Concat(chunks[1..]));
    }
  }

  // ---------------------------------------------------------------- round trip

  predicate Plain(divider: u8, message: Message) {
    forall i :: 0 <= i < |message| ==> 0 <= message[i] <= 255 && message[i] != divider
  }

  predicate Sendable(divider: u8, message: Message) {
    1 <= |message| <= BUFFER && Plain(divider, message)
  }

  predicate AllSendable(divider: u8, messages: seq<Message>) {
    forall i :: 0 <= i < |messages| ==> Sendable(divider, messages[i])
  }

  /** Whatever bytes arrive, only sendable messages are delivered. */
  lemma {:induction false} DeliversSendable(divider: u8, r: Reader, bytes: seq<Byte>)
    requires Fits(r) && Plain(divider, r.pending)
    ensures AllSendable(divider, ReceiveAll(divider, r, bytes).calls)
    ensures Plain(divider, ReceiveAll(divider, r, bytes).reader.pending)
    decreases |bytes|
  {
    if bytes != [] {
      DeliversSendable(divider, Receive(divider, r, bytes[0]).reader, bytes[1..]);
    }
  }

  /** The numbers of a plain message are collected as they are. */
  lemma {:induction false} CollectsPlain(divider: u8, r: Reader, message: Message)
    requires r.alive && Plain(divider, message) && |r.pending| + |message| <= BUFFER
    ensures ReceiveAll(divider, r, Bytes(message)) == Outcome(r.(pending := r.pending + message), [])
    decreases |message|
  {
    if message == [] {
      assert r.pending + message == r.pending;
    } else {
      var next := r.(pending := r.pending + [message[0]]);
      assert FromByte(Bytes(message)[0]) == message[0];
      assert Bytes(message)[1..] == Bytes(message[1..]);
      CollectsPlain(divider, next, message[1..]);
      assert next.pending + message[1..] == r.pending + message;
    }
  }

  lemma OneMessage(divider: u8, message: Message)
    requires Sendable(divider, message)
    ensures ReceiveAll(divider, IDLE, Encoded(divider, message)) == Outcome(IDLE, [message])
  {
    CollectsPlain(divider, IDLE, message);
    ReceiveAppend(divider, IDLE, Bytes(message), [ToByte(divider)]);
    assert [] + message == message;
    var full := IDLE.(pending := message);
    assert FromByte(ToByte(divider)) == divider;
    assert ReceiveAll(divider, IDLE, []) == Outcome(IDLE, []);
    assert ReceiveAll(divider, full, [ToByte(divider)]) == Outcome(IDLE, [message]);
  }

  /** What a reader can get of a message: the numbers cut off at 0 and 255. */
  ghost predicate CutOff(message: Message, got: Message) {
    && |got| == |message|
    && forall i :: 0 <= i < |message| ==>
      got[i] == if message[i] > 255 then 255 else if message[i] < 0 then 0 else message[i]
  }

  /** Numbers outside 0..255 arrive as the nearest end of that range, unless that is the
      divider, which the writer does not notice. */
  lemma ArrivesCutOff(divider: u8, message: Message, got: Message)
    requires CutOff(message, got) && 1 <= |message| <= BUFFER && divider !in message && divider !in got
    ensures ReceiveAll(divider, IDLE, Encoded(divider, message)) == Outcome(IDLE, [got])
  {
    assert Bytes(message) == Bytes(got);
    OneMessage(divider, got);
  }

  lemma {:induction false} SendableArrive(divider: u8, messages: seq<Message>)
    requires AllSendable(divider, messages)
    ensures ReceiveAll(divider, IDLE, EncodedAll(divider, messages)) == Outcome(IDLE, messages)
    decreases |messages|
  {
    if messages != [] {
      OneMessage(divider, messages[0]);
      SendableArrive(divider, messages[1..]);
      ReceiveAppend(divider, IDLE, Encoded(divider, messages[0]), EncodedAll(divider, messages[1..]));
    }
  }

  /** The round trip: the reader delivers exactly the messages written, in order and for
      any division of the stream into reads, if and only if every message has 1 to 1024
      numbers, all from 0 to 255 and none the divider. It is then ready for more. */
  lemma RoundTrip(divider: u8, messages: seq<Message>, chunks: seq<seq<Byte>>)
    requires Concat(chunks) == EncodedAll(divider, messages)
    ensures ReceiveReads(divider, IDLE, chunks).calls == messages <==> AllSendable(divider, messages)
    ensures AllSendable(divider, messages) ==> ReceiveReads(divider, IDLE, chunks).reader == IDLE
  {
    AnyChunking(divider, IDLE, chunks);
    DeliversSendable(divider, IDLE, Concat(chunks));
    if AllSendable(divider, messages) {
      SendableArrive(divider, messages);
    }
  }

  /** A reader that is alive recovers at the next divider, whatever it has collected. */
  lemma Recovers(divider: u8, r: Reader, messages: seq<Message>)
    requires Fits(r) && r.alive && AllSendable(divider, messages)
    ensures ReceiveAll(divider, r, [ToByte(divider)] + EncodedAll(divider, messages))
         == Outcome(IDLE, (if r.pending != [] then [r.pending] else []) + messages)
  {
    var divided := [ToByte(divider)];
    assert FromByte(ToByte(divider)) == divider;
    assert divided[1..] == [];
    assert ReceiveAll(divider, r, divided) == Outcome(IDLE, if r.pending != [] then [r.pending] else []);
    ReceiveAppend(divider, r, divided, EncodedAll(divider, messages));
    SendableArrive(divider, messages);
  }

  /** A message one number too long ends the reader: nothing is ever delivered again. */
  lemma {:induction false} DeadForever(divider: u8, r: Reader, bytes: seq<Byte>)
    requires Fits(r) && !r.alive
    ensures ReceiveAll(divider, r, bytes) == Outcome(r, [])
    decreases |bytes|
  {
    if bytes != [] {
      DeadForever(divider, r, bytes[1..]);
    }
  }

  lemma TooLongKills(divider: u8, message: Message, more: seq<Byte>)
    requires Plain(divider, message) && |message| > BUFFER
    ensures !ReceiveAll(divider, IDLE, Encoded(divider, message) + more).reader.alive
    ensures ReceiveAll(divider, IDLE, Encoded(divider, message) + more).calls == []
  {
    var head, tail := message[..BUFFER], message[BUFFER..];
    CollectsPlain(divider, IDLE, head);
    assert [] + head == head;
    var full := Reader(head, true);
    var rest := Bytes(tail) + [ToByte(divider)] + more;
    assert Encoded(divider, message) + more == Bytes(head) + rest;
    ReceiveAppend(divider, IDLE, Bytes(head), rest);
    assert FromByte(rest[0]) == message[BUFFER];
    DeadForever(divider, full.(alive := false), rest[1..]);
  }

  // ---------------------------------------------------------------- the class

  class Network {
    const divider: int
    const tempBytes: array<int>
    var numTempBytes: int
    var alive: bool
    var connected: bool
    /** The calls of parseInput, the bytes given to the output stream, the log entries. */
    var parsed: seq<Message>
    var written: seq<Byte>
    var logged: seq<string>

    ghost predicate Valid()
      reads this, tempBytes
    {
      0 <= divider <= 255 && tempBytes.Length == BUFFER && 0 <= numTempBytes <= BUFFER
    }

    ghost function View(): Reader
      requires Valid()
      reads this, tempBytes
    {
      Reader(tempBytes[..numTempBytes], alive)
    }

    constructor (divider: int)
      ensures Valid() && this.divider == Divider(divider) && fresh(tempBytes)
      ensures View() == IDLE && parsed == [] && written == [] && !connected
    {
      this.divider := if divider > 255 then 255 else if divider < 0 then 0 else divider;
      tempBytes := new int[1024];
      numTempBytes, alive, connected := 0, true, false;
      parsed, written, logged := [], [], [];
    }

    /** One byte in the loop of run. */
    method TakeByte(b: Byte)
      requires Valid() && alive
      modifies this`numTempBytes, this`alive, this`parsed, tempBytes
      ensures Valid() && Fits(old(View())) && View() == Receive(divider, old(View()), b).reader
      ensures parsed == old(parsed) + Receive(divider, old(View()), b).calls
    {
      var temp: int := b;
      if temp < 0 {
        temp := temp + 256;
      }
      if temp == divider {
        if numTempBytes > 0 {
          parsed := parsed + [tempBytes[..numTempBytes]];
        }
        numTempBytes := 0;
      } else if numTempBytes == tempBytes.Length {
        // the store raises ArrayIndexOutOfBoundsException, and the thread ends
        alive := false;
      } else {
        tempBytes[numTempBytes] := temp;
        numTempBytes := numTempBytes + 1;
      }
    }

    /** What run does with one read of len bytes. */
    method TakeRead(buffer: array<Byte>, len: nat)
      requires Valid() && len <= buffer.Length
      modifies this`numTempBytes, this`alive, this`parsed, tempBytes
      ensures Valid() && Fits(old(View())) && View() == ReceiveAll(divider, old(View()), old(buffer[..len])).reader
      ensures parsed == old(parsed) + ReceiveAll(divider, old(View()), old(buffer[..len])).calls
    {
      ghost var start, bytes := View(), buffer[..len];
      var i := 0;
      assert bytes[..0] == [];
      while i < len && alive
        invariant Valid() && i <= len && bytes == buffer[..len]
        invariant View() == ReceiveAll(divider, start, bytes[..i]).reader
        invariant parsed == old(parsed) + ReceiveAll(divider, start, bytes[..i]).calls
      {
        TakeByte(buffer[i]);
        ReceiveAppend(divider, start, bytes[..i], [bytes[i]]);
        assert bytes[..i] + [bytes[i]] == bytes[..i + 1];
        i := i + 1;
      }
      ReceiveAppend(divider, start, bytes[..i], bytes[i..]);
      assert bytes[..i] + bytes[i..] == bytes;
      if !alive {
        DeadForever(divider, View(), bytes[i..]);
      }
    }

    /** writeSerial. It answers true also when no port is connected. */
    method WriteSerial(numBytes: int, message: array<int>) returns (success: bool)
      requires Valid() && numBytes <= message.Length
      modifies this`written, this`logged
      ensures var m := message[..if numBytes < 0 then 0 else numBytes];
        && success == (divider !in m)
        && written == old(written) + (if connected then Encoded(divider, m) else [])
      ensures logged == old(logged) +
        (if !success then ["The message contains the divider."]
         else if !connected then ["No port is connected."] else [])
    {
      ghost var m := message[..if numBytes < 0 then 0 else numBytes];
      success := true;
      var i := 0;
      while i < numBytes && success
        invariant 0 <= i <= |m|
        invariant success ==> divider !in m[..i]
        invariant !success ==> divider in m
      {
        if message[i] == divider {
          assert m[i] == divider;
          success := false;
        }
        i := i + 1;
      }
      if success && connected {
        i := 0;
        ghost var before := written;
        while i < numBytes
          invariant 0 <= i <= |m| && logged == old(logged) && written == before + Bytes(m)[..i]
        {
          written := written + [ToByte(message[i])];
          i := i + 1;
        }
        written := written + [ToByte(divider)];
      } else if !success {
        logged := logged + ["The message contains the divider."];
      } else {
        logged := logged + ["No port is connected."];
      }
    }
  }
}
