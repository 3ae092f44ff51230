/** The GDL 90 frame transport: a message is its id byte, its payload bytes
    and a 16-bit frame check sequence, sent between two 0x7E flag bytes with
    every 0x7E or 0x7D inside the payload and the checksum sent as 0x7D
    followed by the byte XOR 0x20.  The id byte itself is sent as is. */
module Framing {
  import opened Common
  import opened Crc16

  const FLAG: byte := 0x7E
  const ESCAPE: byte := 0x7D

  /** A decoded frame: the id, the unescaped payload and the checksum it
      carried (or was given when it was built). */
  datatype Message = Message(messageId: byte, data: seq<byte>, checksum: u16)

  /** The checksum of a message covers its id byte followed by its payload. */
  predicate ChecksumValid(m: Message) {
    m.checksum == Crc([m.messageId] + m.data)
  }

  /** `b` XOR 0x20, that is `b` with bit 5 toggled. */
  function Xor20(b: byte): byte {
    if (b as int / 32) % 2 == 1 then b - 32 else b + 32
  }

  lemma Xor20Involution(b: byte)
    ensures Xor20(Xor20(b)) == b
  {}

  predicate Special(b: byte) {
    b == FLAG || b == ESCAPE
  }

  /** One byte as it goes on the wire. */
  function EscapeByte(b: byte): (r: seq<byte>)
    ensures FLAG !in r
    ensures Special(b) ==> r == [ESCAPE, Xor20(b)]
    ensures !Special(b) ==> r == [b]
  {
    if Special(b) then [ESCAPE, Xor20(b)] else [b]
  }

  /** A byte sequence as it goes on the wire, byte by byte. */
  function Escape(s: seq<byte>): seq<byte> {
    if s == [] then [] else Escape(s[..|s| - 1]) + EscapeByte(s[|s| - 1])
  }

  /** The escaped form never holds a flag byte, and grows by at most one
      byte per byte escaped. */
  lemma {:induction false} EscapeNoFlag(s: seq<byte>)
    ensures FLAG !in Escape(s)
    ensures |s| <= |Escape(s)| <= 2 * |s|
  {
    if s != [] {
      EscapeNoFlag(s[..|s| - 1]);
    }
  }

  lemma {:induction false} EscapeAppend(a: seq<byte>, b: seq<byte>)
    ensures Escape(a + b) == Escape(a) + Escape(b)
  {
    if b == [] {
      assert a + b == a;
    } else {
      var k := |b| - 1;
      assert (a + b)[..|a + b| - 1] == a + b[..k];
      EscapeAppend(a, b[..k]);
    }
  }

  /** A sequence without flag or escape bytes goes on the wire unchanged. */
  lemma {:induction false} EscapePlain(s: seq<byte>)
    requires forall i | 0 <= i < |s| :: !Special(s[i])
    ensures Escape(s) == s
  {
    if s != [] {
      EscapePlain(s[..|s| - 1]);
    }
  }

  /** The checksum bytes, least significant first (Rust `to_le_bytes`). */
  function LeBytes(c: u16): (r: seq<byte>)
    ensures |r| == 2 && r[0] as int + 256 * r[1] as int == c as int
  {
    [(c % 256) as int as byte, (c / 256) as int as byte]
  }

  /** Two bytes read as a little-endian word (Rust `u16::from_le_bytes`). */
  function FromLeBytes(lo: byte, hi: byte): (c: u16)
    ensures LeBytes(c) == [lo, hi]
  {
    (lo as int + 256 * hi as int) as u16
  }

  /** The frame for a message: flag, id, escaped payload, escaped checksum
      low byte first, flag. */
  function Encoded(m: Message): seq<byte> {
    [FLAG, m.messageId] + Escape(m.data) + Escape(LeBytes(m.checksum)) + [FLAG]
  }

  /** Appends one byte as it goes on the wire. */
  method PushEscaped(result: seq<byte>, b: byte) returns (r: seq<byte>)
    ensures r == result + EscapeByte(b)
  {
    if b == FLAG || b == ESCAPE {
      r := result + [ESCAPE, Xor20(b)];
    } else {
      r := result + [b];
    }
  }

  /** Writes the frame for a message byte by byte. */
  method Encode(m: Message) returns (result: seq<byte>)
    ensures result == Encoded(m)
  {
    result := [FLAG, m.messageId];
    for k := 0 to |m.data|
      invariant result == [FLAG, m.messageId] + Escape(m.data[..k])
    {
      assert m.data[..k + 1][..k] == m.data[..k];
      result := PushEscaped(result, m.data[k]);
    }
    assert m.data[..|m.data|] == m.data;
    var crc := LeBytes(m.checksum);
    for k := 0 to 2
      invariant result == [FLAG, m.messageId] + Escape(m.data) + Escape(crc[..k])
    {
      assert crc[..k + 1][..k] == crc[..k];
      result := PushEscaped(result, crc[k]);
    }
    assert crc[..2] == crc;
    result := result + [FLAG];
  }

  /** The state of the unescaper: the bytes emitted so far, and whether the
      last byte read was an escape marker still waiting for its byte. */
  datatype UnescapeState = UnescapeState(out: seq<byte>, pending: bool)

  const START := UnescapeState([], false)

  /** One byte through the unescaper. */
  function UnescapeStep(st: UnescapeState, b: byte): UnescapeState {
    if st.pending then UnescapeState(st.out + [Xor20(b)], false)
    else if b == ESCAPE then UnescapeState(st.out, true)
    else UnescapeState(st.out + [b], false)
  }

  /** The unescaper after reading `s` from the state `st`, left to right. */
  function Run(st: UnescapeState, s: seq<byte>): UnescapeState {
    if s == [] then st else UnescapeStep(Run(st, s[..|s| - 1]), s[|s| - 1])
  }

  /** The unescaped bytes of `s`.  An escape marker at the very end has no
      byte after it and is dropped without an error. */
  function Unescaped(s: seq<byte>): seq<byte> {
    Run(START, s).out
  }

  lemma {:induction false} RunAppend(st: UnescapeState, a: seq<byte>, b: seq<byte>)
    ensures Run(st, a + b) == Run(Run(st, a), b)
  {
    if b == [] {
      assert a + b == a;
    } else {
      var k := |b| - 1;
      assert (a + b)[..|a + b| - 1] == a + b[..k];
      RunAppend(st, a, b[..k]);
    }
  }

  /** The unescaper emits at most one byte per byte read. */
  lemma {:induction false} RunLength(st: UnescapeState, s: seq<byte>)
    ensures |Run(st, s).out| <= |st.out| + |s|
  {
    if s != [] {
      RunLength(st, s[..|s| - 1]);
    }
  }

  lemma UnescapedShorter(s: seq<byte>)
    ensures |Unescaped(s)| <= |s|
  {
    RunLength(START, s);
  }

  /** A lone escape marker at the end of the input is dropped. */
  lemma TrailingEscapeDropped(s: seq<byte>)
    requires !Run(START, s).pending
    ensures Unescaped(s + [ESCAPE]) == Unescaped(s)
    ensures Run(START, s + [ESCAPE]).pending
  {
    assert (s + [ESCAPE])[..|s|] == s;
  }

  lemma RunOne(st: UnescapeState, a: byte)
    ensures Run(st, [a]) == UnescapeStep(st, a)
  {
    assert [a][..0] == [];
  }

  lemma RunTwo(st: UnescapeState, a: byte, b: byte)
    ensures Run(st, [a, b]) == UnescapeStep(UnescapeStep(st, a), b)
  {
    assert [a, b][..1] == [a];
    RunOne(st, a);
  }

  lemma RunEscapeByte(st: UnescapeState, b: byte)
    requires !st.pending
    ensures Run(st, EscapeByte(b)) == UnescapeState(st.out + [b], false)
  {
    if Special(b) {
      RunTwo(st, ESCAPE, Xor20(b));
      Xor20Involution(b);
    } else {
      RunOne(st, b);
    }
  }

  /** From a state not waiting for a byte, the unescaper turns the escaped
      form of `t` back into `t`. */
  lemma {:induction false} RunEscape(st: UnescapeState, t: seq<byte>)
    requires !st.pending
    ensures Run(st, Escape(t)) == UnescapeState(st.out + t, false)
  {
    if t == [] {
      assert st.out + t == st.out;
    } else {
      var k := |t| - 1;
      var mid := UnescapeState(st.out + t[..k], false);
      assert Run(st, Escape(t)) == Run(Run(st, Escape(t[..k])), EscapeByte(t[k])) by {
        RunAppend(st, Escape(t[..k]), EscapeByte(t[k]));
      }
      assert Run(st, Escape(t[..k])) == mid by {
        RunEscape(st, t[..k]);
      }
      assert Run(mid, EscapeByte(t[k])) == UnescapeState(mid.out + [t[k]], false) by {
        RunEscapeByte(mid, t[k]);
      }
      assert mid.out + [t[k]] == st.out + t by {
        assert t[..k] + [t[k]] == t;
      }
    }
  }

  /** Unescaping undoes escaping, for every byte sequence. */
  lemma UnescapeEscape(s: seq<byte>)
    ensures Unescaped(Escape(s)) == s
  {
    RunEscape(START, s);
  }

  /** Runs the unescaper over `data`, left to right. */
  method Unescape(data: seq<byte>) returns (messageData: seq<byte>)
    ensures messageData == Unescaped(data)
  {
    messageData := [];
    var isEscape := false;
    for k := 0 to |data|
      invariant Run(START, data[..k]) == UnescapeState(messageData, isEscape)
    {
      assert data[..k + 1][..k] == data[..k];
      var b := data[k];
      if isEscape {
        messageData := messageData + [Xor20(b)];
        isEscape := false;
      } else if b == ESCAPE {
        isEscape := true;
      } else {
        messageData := messageData + [b];
      }
    }
    assert data[..|data|] == data;
  }

  /** The unescaped bytes of a frame carrying `m`: id, payload, checksum
      low byte first. */
  function Unstuffed(m: Message): seq<byte> {
    [m.messageId] + m.data + LeBytes(m.checksum)
  }

  /** The checksum computed over all but the last two unescaped bytes. */
  function Computed(u: seq<byte>): u16
    requires |u| >= 2
  {
    Crc(u[..|u| - 2])
  }

  /** The checksum the last two unescaped bytes claim. */
  function Claimed(u: seq<byte>): u16
    requires |u| >= 2
  {
    FromLeBytes(u[|u| - 2], u[|u| - 1])
  }

  lemma SplitUnstuffed(u: seq<byte>)
    requires |u| >= 3
    ensures [u[0]] + u[1..|u| - 2] == u[..|u| - 2]
    ensures Unstuffed(Message(u[0], u[1..|u| - 2], Claimed(u))) == u
  {
    assert u[..|u| - 2] + [u[|u| - 2], u[|u| - 1]] == u;
  }

  /** Decodes the bytes between the flags: unescape, then split into id,
      payload and claimed checksum and compare it with the computed one. */
  function BuildMessage(body: seq<byte>): (r: Result<Message>)
    ensures |Unescaped(body)| < 3 ==> r == Err(IncorrectlyFormatted)
    ensures |Unescaped(body)| >= 3 ==>
      (r.Ok? <==> Computed(Unescaped(body)) == Claimed(Unescaped(body)))
    ensures |Unescaped(body)| >= 3 && r.Err? ==>
      r.error == ChecksumMismatch(Computed(Unescaped(body)), Claimed(Unescaped(body)))
    ensures r.Ok? ==> ChecksumValid(r.value) && Unstuffed(r.value) == Unescaped(body)
  {
    var u := Unescaped(body);
    if |u| < 3 then Err(IncorrectlyFormatted)
    else if Computed(u) != Claimed(u) then Err(ChecksumMismatch(Computed(u), Claimed(u)))
    else
      SplitUnstuffed(u);
      Ok(Message(u[0], u[1..|u| - 2], Claimed(u)))
  }

  predicate Delimited(data: seq<byte>) {
    |data| >= 2 && data[0] == FLAG && data[|data| - 1] == FLAG
  }

  /** Decodes one frame: an empty buffer and a buffer that does not start
      and end with a flag byte are rejected before anything is unescaped. */
  function ReadMessage(data: seq<byte>): (r: Result<Message>)
    ensures data == [] ==> r == Err(EmptyData)
    ensures data != [] && !Delimited(data) ==> r == Err(IncorrectlyFormatted)
    ensures Delimited(data) ==> r == BuildMessage(data[1..|data| - 1])
    ensures r.Ok? ==> ChecksumValid(r.value)
  {
    if data == [] then Err(EmptyData)
    else if Delimited(data) then BuildMessage(data[1..|data| - 1])
    else Err(IncorrectlyFormatted)
  }

  lemma Interior(a: byte, x: seq<byte>, b: byte)
    ensures ([a] + x + [b])[1..|x| + 1] == x
  {}

  /** The id byte, the escaped payload and the escaped checksum: what lies
      between the two flags of an encoded frame. */
  lemma EncodedBody(m: Message)
    ensures Delimited(Encoded(m))
    ensures Encoded(m)[1..|Encoded(m)| - 1] == [m.messageId] + Escape(m.data + LeBytes(m.checksum))
  {
    var x := [m.messageId] + Escape(m.data) + Escape(LeBytes(m.checksum));
    assert Encoded(m) == [FLAG] + x + [FLAG];
    assert Encoded(m)[1..|Encoded(m)| - 1] == x by {
      Interior(FLAG, x, FLAG);
    }
    assert x == [m.messageId] + Escape(m.data + LeBytes(m.checksum)) by {
      EscapeAppend(m.data, LeBytes(m.checksum));
    }
  }

  /** The parts of the unescaped bytes of a frame carrying `m`. */
  lemma UnstuffedParts(m: Message)
    ensures |Unstuffed(m)| >= 3
    ensures Unstuffed(m)[0] == m.messageId
    ensures Unstuffed(m)[1..|Unstuffed(m)| - 2] == m.data
    ensures Unstuffed(m)[..|Unstuffed(m)| - 2] == [m.messageId] + m.data
    ensures Claimed(Unstuffed(m)) == m.checksum
  {
    var u := Unstuffed(m);
    var le := LeBytes(m.checksum);
    assert u == [m.messageId] + m.data + le;
    assert u[|u| - 2] == le[0] && u[|u| - 1] == le[1];
  }

  /** Whatever the bytes between the flags, when they unescape to the bytes
      of a message with a valid checksum, decoding yields that message. */
  lemma BuildUnstuffed(body: seq<byte>, m: Message)
    requires Unescaped(body) == Unstuffed(m) && ChecksumValid(m)
    ensures BuildMessage(body) == Ok(m)
  {
    UnstuffedParts(m);
  }

  /** An id byte other than the escape marker, followed by escaped bytes,
      unescapes to itself followed by the bytes. */
  lemma UnescapePlainHead(id: byte, t: seq<byte>)
    requires id != ESCAPE
    ensures Unescaped([id] + Escape(t)) == [id] + t
  {
    var first := UnescapeState([id], false);
    assert Run(START, [id]) == first by {
      RunOne(START, id);
    }
    RunAppend(START, [id], Escape(t));
    RunEscape(first, t);
  }

  /** Decoding an encoded frame gives the message back, provided its
      checksum is right and its id is not the escape marker. */
  lemma ReadEncoded(m: Message)
    requires ChecksumValid(m) && m.messageId != ESCAPE
    ensures ReadMessage(Encoded(m)) == Ok(m)
  {
    var t := m.data + LeBytes(m.checksum);
    var body := [m.messageId] + Escape(t);
    EncodedBody(m);
    UnescapePlainHead(m.messageId, t);
    BuildUnstuffed(body, m);
  }

  /** What the unescaper emits for the escape marker followed by the first
      escaped byte `x`: the marker swallows the first byte sent for `x`. */
  lemma EscapeThenByte(x: byte)
    ensures !Run(START, [ESCAPE] + EscapeByte(x)).pending
    ensures Special(x) ==> Run(START, [ESCAPE] + EscapeByte(x)).out == [Xor20(ESCAPE), Xor20(x)]
    ensures !Special(x) ==> Run(START, [ESCAPE] + EscapeByte(x)).out == [Xor20(x)]
  {
    var head := [ESCAPE] + EscapeByte(x);
    if Special(x) {
      assert head == [ESCAPE, ESCAPE] + [Xor20(x)];
      RunTwo(START, ESCAPE, ESCAPE);
      RunAppend(START, [ESCAPE, ESCAPE], [Xor20(x)]);
      RunOne(Run(START, [ESCAPE, ESCAPE]), Xor20(x));
    } else {
      assert head == [ESCAPE, x];
      RunTwo(START, ESCAPE, x);
    }
  }

  /** The bytes between the flags of a frame whose id is the escape
      marker, with the first payload or checksum byte `x` split off. */
  lemma EscapeIdBody(m: Message)
    requires m.messageId == ESCAPE
    ensures var t := m.data + LeBytes(m.checksum);
      Encoded(m)[1..|Encoded(m)| - 1] == ([ESCAPE] + EscapeByte(t[0])) + Escape(t[1..])
  {
    var t := m.data + LeBytes(m.checksum);
    assert Encoded(m)[1..|Encoded(m)| - 1] == [ESCAPE] + Escape(t) by {
      EncodedBody(m);
    }
    assert Escape(t) == Escape([t[0]]) + Escape(t[1..]) by {
      assert t == [t[0]] + t[1..];
      EscapeAppend([t[0]], t[1..]);
    }
    assert Escape([t[0]]) == EscapeByte(t[0]) by {
      assert [t[0]][..0] == [];
    }
  }

  /** The id byte is not escaped, so a message whose id is the escape marker
      never survives a round trip: the unescaper takes the id for a marker. */
  lemma EscapeIdBreaksRoundTrip(m: Message)
    requires m.messageId == ESCAPE
    ensures ReadMessage(Encoded(m)) != Ok(m)
  {
    var t := m.data + LeBytes(m.checksum);
    var head := [ESCAPE] + EscapeByte(t[0]);
    var body := head + Escape(t[1..]);
    var u := Unescaped(body);
    assert Delimited(Encoded(m)) && Encoded(m)[1..|Encoded(m)| - 1] == body by {
      EncodedBody(m);
      EscapeIdBody(m);
    }
    EscapeThenByte(t[0]);
    assert u == Run(START, head).out + t[1..] by {
      RunAppend(START, head, Escape(t[1..]));
      RunEscape(Run(START, head), t[1..]);
    }
    UnstuffedParts(m);
    if ReadMessage(Encoded(m)) == Ok(m) {
      // u is either one byte short of id + t, or starts with 0x5D, not the id
      assert false;
    }
  }

  /** Inside an encoded frame a flag byte can only be the id. */
  lemma EncodedFlagsAtEnds(m: Message)
    ensures forall i | 2 <= i < |Encoded(m)| - 1 :: Encoded(m)[i] != FLAG
  {
    var x := Escape(m.data) + Escape(LeBytes(m.checksum));
    assert FLAG !in x by {
      EscapeNoFlag(m.data);
      EscapeNoFlag(LeBytes(m.checksum));
    }
    assert Encoded(m) == [FLAG, m.messageId] + x + [FLAG];
    FlagFreeMiddle(FLAG, m.messageId, x, FLAG);
  }

  lemma FlagFreeMiddle(a: byte, b: byte, x: seq<byte>, c: byte)
    requires FLAG !in x
    ensures forall i | 2 <= i < |x| + 2 :: ([a, b] + x + [c])[i] != FLAG
  {
    forall i | 2 <= i < |x| + 2
      ensures ([a, b] + x + [c])[i] != FLAG
    {
      assert ([a, b] + x + [c])[i] == x[i - 2];
    }
  }

  /** The heartbeat frame 7E 00 81 41 DB D0 08 02 B3 8B 7E. */
  const HEARTBEAT_FRAME: seq<byte> := [0x7E, 0x00, 0x81, 0x41, 0xDB, 0xD0, 0x08, 0x02, 0xB3, 0x8B, 0x7E]

  /** The heartbeat frame decodes to id 0 with the payload 81 41 DB D0 08 02
      and checksum 0x8BB3, and encoding that message gives the frame back. */
  lemma HeartbeatFrameRoundTrip()
    ensures ReadMessage(HEARTBEAT_FRAME) == Ok(Message(0x00, [0x81, 0x41, 0xDB, 0xD0, 0x08, 0x02], 0x8BB3))
    ensures Encoded(ReadMessage(HEARTBEAT_FRAME).value) == HEARTBEAT_FRAME
  {
    var data: seq<byte> := [0x81, 0x41, 0xDB, 0xD0, 0x08, 0x02];
    var m := Message(0x00, data, 0x8BB3);
    HeartbeatChecksum();
    assert [m.messageId] + m.data == [0x00, 0x81, 0x41, 0xDB, 0xD0, 0x08, 0x02];
    var le := LeBytes(m.checksum);
    assert le == [0xB3, 0x8B];
    EscapePlain(data);
    EscapePlain(le);
    assert Encoded(m) == [FLAG, 0x00] + data + le + [FLAG];
    assert Encoded(m) == HEARTBEAT_FRAME;
    ReadEncoded(m);
  }
}
