/** The byte buffers of the real-time message store: every message is preceded by its size in two bytes. */
module RisCodec {
  import opened Options

  type Byte = x: int | 0 <= x < 0x100
  type Bytes = seq<Byte>

  const SIZE_LIMIT: nat := 0x1_0000

  /** The size prefix keeps 16 bits, the low byte first. */
  function SizePrefix(size: nat): (prefix: Bytes)
    ensures |prefix| == 2
  {
    [size % 0x100, size / 0x100 % 0x100]
  }

  function ReadSize(prefix: Bytes): (size: nat)
    requires |prefix| == 2
    ensures size < SIZE_LIMIT
  {
    var low: int, high: int := prefix[0], prefix[1];
    low + 0x100 * high
  }

  function Frame(message: Bytes): Bytes {
    SizePrefix(|message|) + message
  }

  lemma SizeTruncated(size: nat)
    ensures ReadSize(SizePrefix(size)) == size % SIZE_LIMIT
  {
    var q := size / 0x1_0000;
    assert size / 0x100 == 0x100 * q + (size - 0x1_0000 * q) / 0x100;
  }

  /** The buffer for a list of messages. */
  function Encode(messages: seq<Bytes>): Bytes {
    if messages == [] then [] else Encode(messages[..|messages| - 1]) + Frame(messages[|messages| - 1])
  }

  /** The messages from position k on; nothing if the buffer ends inside a message. */
  function Decode(buffer: Bytes, k: nat): Option<seq<Bytes>>
    requires k <= |buffer|
    decreases |buffer| - k
  {
    if k == |buffer| then Some([])
    else if k + 2 > |buffer| then None
    else
      var size := ReadSize(buffer[k..k + 2]);
      if k + 2 + size > |buffer| then None
      else match Decode(buffer, k + 2 + size)
        case None => None
        case Some(rest) => Some([buffer[k + 2..k + 2 + size]] + rest)
  }

  lemma EncodeOne(message: Bytes)
    ensures Encode([message]) == Frame(message)
  {
    var messages: seq<Bytes> := [message];
    assert Encode(messages[..0]) == [];
  }

  /** The bytes of one message below the limit: its size, low byte first, and the message. */
  lemma OneMessage(message: Bytes)
    requires |message| < SIZE_LIMIT
    ensures var buffer := Encode([message]);
            |buffer| == 2 + |message| && (buffer[0] as int) + 256 * (buffer[1] as int) == |message| && buffer[2..] == message
  {
    EncodeOne(message);
    SizeTruncated(|message|);
  }

  predicate Fits(messages: seq<Bytes>) {
    forall i :: 0 <= i < |messages| ==> |messages[i]| < SIZE_LIMIT
  }

  lemma {:induction false} EncodeAppends(a: seq<Bytes>, b: seq<Bytes>)
    ensures Encode(a + b) == Encode(a) + Encode(b)
  {
    hide *;
    if b == [] {
      assert a + b == a;
      EncodeNothing();
    } else {
      var n := |b| - 1;
      var front, message := b[..n], b[n];
      EncodeAppends(a, front);
      EncodeNext(a + front, message);
      EncodeNext(front, message);
      assert b == front + [message];
      assert a + b == (a + front) + [message];
      Associative(Encode(a), Encode(front), Frame(message));
    }
  }

  lemma Associative(a: Bytes, b: Bytes, c: Bytes)
    ensures (a + b) + c == a + (b + c)
  {
  }

  lemma EncodeNothing()
    ensures Encode([]) == []
  {
  }

  lemma EncodeNext(messages: seq<Bytes>, message: Bytes)
    ensures Encode(messages + [message]) == Encode(messages) + Frame(message)
  {
    assert (messages + [message])[..|messages|] == messages;
  }

  /** Reading does not depend on what stands before the position. */
  lemma {:induction false} DecodeShift(front: Bytes, buffer: Bytes, k: nat)
    requires k <= |buffer|
    ensures Decode(front + buffer, |front| + k) == Decode(buffer, k)
    decreases |buffer| - k
  {
    if k + 2 <= |buffer| {
      var whole := front + buffer;
      assert whole[|front| + k..|front| + k + 2] == buffer[k..k + 2];
      var size := ReadSize(buffer[k..k + 2]);
      if k + 2 + size <= |buffer| {
        assert whole[|front| + k + 2..|front| + k + 2 + size] == buffer[k + 2..k + 2 + size];
        DecodeShift(front, buffer, k + 2 + size);
      }
    }
  }

  lemma DecodeFrame(message: Bytes, buffer: Bytes)
    requires |message| < SIZE_LIMIT
    ensures Decode(Frame(message) + buffer, 0) == match Decode(buffer, 0) case None => None case Some(rest) => Some([message] + rest)
  {
    hide Frame, ReadSize;
    FrameBytes(message, buffer);
    DecodeShift(Frame(message), buffer, 0);
  }

  /** Where size and message of a frame stand. */
  lemma FrameBytes(message: Bytes, buffer: Bytes)
    requires |message| < SIZE_LIMIT
    ensures var whole := Frame(message) + buffer;
            && |Frame(message)| == 2 + |message| && ReadSize(whole[0..2]) == |message| && whole[2..2 + |message|] == message
  {
    var whole := Frame(message) + buffer;
    SizeTruncated(|message|);
    assert whole[0..2] == SizePrefix(|message|);
  }

  lemma {:induction false} DecodeEncode(messages: seq<Bytes>)
    requires Fits(messages)
    ensures Decode(Encode(messages), 0) == Some(messages)
  {
    if messages != [] {
      var first, rest := messages[0], messages[1..];
      DecodeEncode(rest);
      EncodeAppends([first], rest);
      assert [first] + rest == messages;
      EncodeOne(first);
      DecodeFrame(first, Encode(rest));
    }
  }

  lemma {:induction false} DecodedFits(buffer: Bytes, k: nat)
    requires k <= |buffer| && Decode(buffer, k).Some?
    ensures Fits(Decode(buffer, k).value)
    decreases |buffer| - k
  {
    if k < |buffer| {
      DecodedFits(buffer, k + 2 + ReadSize(buffer[k..k + 2]));
    }
  }

  /** Exactly lists of messages below 65536 bytes come back from their buffer. */
  lemma RoundTripIff(messages: seq<Bytes>)
    ensures Decode(Encode(messages), 0) == Some(messages) <==> Fits(messages)
  {
    if Fits(messages) {
      DecodeEncode(messages);
    }
    if Decode(Encode(messages), 0) == Some(messages) {
      DecodedFits(Encode(messages), 0);
    }
  }
}
