/** The packet header the stress harness reads (`_parsePacketData`): a
    little-endian uint32 method tag, then for a state reset a little-endian
    uint32 clock and the encoded state, for a transaction the encoded
    transaction. The two body decoders belong to the engine and are passed in
    as opaque functions. */
module PacketFormat {
  import opened Base

  type byte = x: int | 0 <= x < 256
  type uint32 = x: int | 0 <= x < 0x1_0000_0000

  /** `Uint32Array.BYTES_PER_ELEMENT` */
  const Uint32Size: nat := 4

  /** `MESSAGES`: the method tags, counted up from 1. */
  const StateReset: uint32 := 1
  const Transaction: uint32 := 2

  /** A `Uint8Array`: `byteLength` bytes seen at `byteOffset` inside an
      `ArrayBuffer`. */
  datatype ByteView = ByteView(buffer: seq<byte>, byteOffset: nat, byteLength: nat)
  type Uint8Array = v: ByteView | v.byteOffset + v.byteLength <= |v.buffer|
    witness ByteView([], 0, 0)

  /** The bytes the view shows (and the bytes a `DataView` over it reads). */
  function Contents(v: Uint8Array): (s: seq<byte>)
    ensures |s| == v.byteLength
  {
    v.buffer[v.byteOffset..v.byteOffset + v.byteLength]
  }

  /** `getUint32` throws a `RangeError` when the four bytes are not all inside the view. */
  datatype ParseError = RangeError

  function DecodeUint32(b: seq<byte>): uint32
    requires |b| == Uint32Size
  {
    b[0] as int + 0x100 * (b[1] as int + 0x100 * (b[2] as int + 0x100 * b[3] as int))
  }

  function EncodeUint32(n: uint32): (b: seq<byte>)
    ensures |b| == Uint32Size
  {
    [n % 0x100, n / 0x100 % 0x100, n / 0x1_0000 % 0x100, n / 0x100_0000]
  }

  /** `dataView.getUint32(index, true)`: the four bytes at `index`, least
      significant first, or a `RangeError` when they do not all lie in the view. */
  function GetUint32(bytes: seq<byte>, index: nat): (r: Result<uint32, ParseError>)
    ensures r.Success? <==> index + Uint32Size <= |bytes|
    ensures r.Success? ==> EncodeUint32(r.value) == bytes[index..index + Uint32Size]
  {
    if index + Uint32Size <= |bytes| then
      EncodeDecode(bytes[index..index + Uint32Size]);
      Success(DecodeUint32(bytes[index..index + Uint32Size]))
    else Failure(RangeError)
  }

  lemma DivModByte(x: int, lo: int, hi: int)
    requires 0 <= lo < 0x100 && x == lo + 0x100 * hi
    ensures x % 0x100 == lo && x / 0x100 == hi
  {
  }

  /** Little-endian decoding inverts encoding ... */
  lemma DecodeEncode(n: uint32)
    ensures DecodeUint32(EncodeUint32(n)) == n
  {
  }

  /** ... and encoding inverts decoding, so the tag is exactly bytes 0..4. */
  lemma EncodeDecode(b: seq<byte>)
    requires |b| == Uint32Size
    ensures EncodeUint32(DecodeUint32(b)) == b
  {
    var n := DecodeUint32(b);
    DivModByte(n, b[0], b[1] as int + 0x100 * (b[2] as int + 0x100 * b[3] as int));
    DivModByte(n / 0x100, b[1], b[2] as int + 0x100 * b[3] as int);
    DivModByte(n / 0x100 / 0x100, b[2], b[3]);
    assert n / 0x1_0000 == n / 0x100 / 0x100;
    assert n / 0x100_0000 == n / 0x100 / 0x100 / 0x100;
  }

  /** What the header selects: the branch of the `switch (method)`. */
  datatype Header = StateResetHeader(clock: uint32) | TransactionHeader | UnknownMethod(tag: uint32)

  /** The method tag and, for a state reset, the clock, read with the running
      `index` of `_parsePacketData`. */
  function ParseHeader(bytes: seq<byte>): (r: Result<Header, ParseError>)
    ensures r.Success? ==> WellFormed(r.value) && HeaderSize(r.value) <= |bytes|
    ensures r.Success? ==> bytes[..HeaderSize(r.value)] == EncodeHeader(r.value)
  {
    match GetUint32(bytes, 0)
    case Failure(e) => Failure(e)
    case Success(tag) =>
      var index := Uint32Size;
      if tag == StateReset then
        match GetUint32(bytes, index)
        case Failure(e) => Failure(e)
        case Success(clock) =>
          assert bytes[..2 * Uint32Size] == bytes[0..Uint32Size] + bytes[Uint32Size..2 * Uint32Size];
          Success(StateResetHeader(clock))
      else if tag == Transaction then Success(TransactionHeader)
      else Success(UnknownMethod(tag))
  }

  /** Number of bytes a header occupies before the body. */
  function HeaderSize(h: Header): nat {
    if h.StateResetHeader? then 2 * Uint32Size else Uint32Size
  }

  /** The header a sender writes; an unknown method is any tag but 1 and 2. */
  predicate WellFormed(h: Header) {
    h.UnknownMethod? ==> h.tag != StateReset && h.tag != Transaction
  }

  function EncodeHeader(h: Header): (b: seq<byte>)
    ensures |b| == HeaderSize(h)
  {
    match h
    case StateResetHeader(clock) => EncodeUint32(StateReset) + EncodeUint32(clock)
    case TransactionHeader => EncodeUint32(Transaction)
    case UnknownMethod(m) => EncodeUint32(m)
  }

  /** Every well-formed header is read back from its encoding, whatever follows it. */
  lemma ParseEncodedHeader(h: Header, body: seq<byte>)
    requires WellFormed(h)
    ensures ParseHeader(EncodeHeader(h) + body) == Success(h)
  {
    var bytes := EncodeHeader(h) + body;
    match h
    case StateResetHeader(clock) =>
      assert bytes[..4] == EncodeUint32(StateReset);
      assert bytes[4..8] == EncodeUint32(clock);
      DecodeEncode(StateReset);
      DecodeEncode(clock);
    case TransactionHeader =>
      assert bytes[..4] == EncodeUint32(Transaction);
      DecodeEncode(Transaction);
    case UnknownMethod(m) =>
      assert bytes[..4] == EncodeUint32(m);
      DecodeEncode(m);
  }

  /** Conversely, a header that parses is exactly the header encoded at the
      front of the packet, and it is well formed. */
  lemma ParsedHeaderIsPrefix(bytes: seq<byte>)
    requires ParseHeader(bytes).Success?
    ensures WellFormed(ParseHeader(bytes).value)
    ensures HeaderSize(ParseHeader(bytes).value) <= |bytes|
    ensures bytes == EncodeHeader(ParseHeader(bytes).value) + bytes[HeaderSize(ParseHeader(bytes).value)..]
  {
    var h := ParseHeader(bytes).value;
    EncodeDecode(bytes[..4]);
    if h.StateResetHeader? {
      EncodeDecode(bytes[4..8]);
      assert bytes == bytes[..4] + bytes[4..8] + bytes[8..];
    } else {
      assert bytes == bytes[..4] + bytes[4..];
    }
  }

  /** The packets on which one of the two `getUint32` reads throws: fewer
      than four bytes, or a state reset cut off before its clock. */
  predicate ThrowsRangeError(bytes: seq<byte>) {
    |bytes| < Uint32Size || (|bytes| < 2 * Uint32Size && DecodeUint32(bytes[..Uint32Size]) == StateReset)
  }

  /** Reading the header fails on exactly those packets. */
  lemma ParseHeaderFails(bytes: seq<byte>)
    ensures ParseHeader(bytes).Failure? <==> ThrowsRangeError(bytes)
  {
  }

  /** The value `_parsePacketData` returns: `{clock, state}`, the list of
      transaction events, or `null` for an unknown method. */
  datatype Message<S, R> = StateMessage(clock: uint32, state: S) | TransactionMessage(events: seq<R>) | NullMessage

  /** `transactionCache.events.map(...)`: each decoded event summarised in order. */
  function DescribeEvents<E, R>(events: seq<E>, describe: E -> R): (r: seq<R>)
    ensures |r| == |events|
    ensures forall i :: 0 <= i < |events| ==> r[i] == describe(events[i])
  {
    seq(|events|, i requires 0 <= i < |events| => describe(events[i]))
  }

  /** The message for a parsed header, given the bytes the state decoder is handed. */
  function Dispatch<S, E, R>(h: Header, packet: seq<byte>, stateBody: seq<byte>,
                             zbdecode: seq<byte> -> S, deserializeUpdate: seq<byte> -> seq<E>,
                             describe: E -> R): Message<S, R>
  {
    match h
    case StateResetHeader(clock) => StateMessage(clock, zbdecode(stateBody))
    case TransactionHeader => TransactionMessage(DescribeEvents(deserializeUpdate(packet), describe))
    case UnknownMethod(_) => NullMessage
  }

  /** `_parsePacketData` as written: the state is decoded from
      `new Uint8Array(buffer, byteOffset + 8)`, a view that runs to the end
      of the underlying buffer rather than to the end of the packet. */
  function ParsePacketData<S, E, R>(packet: Uint8Array, zbdecode: seq<byte> -> S,
                                    deserializeUpdate: seq<byte> -> seq<E>, describe: E -> R): (r: Result<Message<S, R>, ParseError>)
    ensures r.Failure? <==> ThrowsRangeError(Contents(packet))
  {
    var bytes := Contents(packet);
    ParseHeaderFails(bytes);
    match ParseHeader(bytes)
    case Failure(e) => Failure(e)
    case Success(h) =>
      var start := packet.byteOffset + HeaderSize(h);
      var tail := if start <= |packet.buffer| then packet.buffer[start..] else [];
      Success(Dispatch(h, bytes, tail, zbdecode, deserializeUpdate, describe))
  }

  /** `_parsePacketData` with the state view bounded by the packet: the state
      is decoded from the packet's own bytes after the header. */
  function ParsePacketDataBounded<S, E, R>(packet: Uint8Array, zbdecode: seq<byte> -> S,
                                           deserializeUpdate: seq<byte> -> seq<E>, describe: E -> R): (r: Result<Message<S, R>, ParseError>)
    ensures r.Failure? <==> ThrowsRangeError(Contents(packet))
  {
    var bytes := Contents(packet);
    ParseHeaderFails(bytes);
    match ParseHeader(bytes)
    case Failure(e) => Failure(e)
    case Success(h) =>
      ParsedHeaderIsPrefix(bytes);
      Success(Dispatch(h, bytes, bytes[HeaderSize(h)..], zbdecode, deserializeUpdate, describe))
  }

  /** A state reset packet carries its clock and its state: the bounded parser
      returns `{clock, state}` with the state decoded from byte 8 to the end
      of the packet, wherever the packet sits in its buffer. */
  lemma StateResetRoundTrip<S, E, R>(packet: Uint8Array, clock: uint32, body: seq<byte>,
                                     zbdecode: seq<byte> -> S, deserializeUpdate: seq<byte> -> seq<E>, describe: E -> R)
    requires Contents(packet) == EncodeHeader(StateResetHeader(clock)) + body
    ensures ParsePacketDataBounded(packet, zbdecode, deserializeUpdate, describe)
            == Success(StateMessage(clock, zbdecode(body)))
  {
    ParseEncodedHeader(StateResetHeader(clock), body);
    assert Contents(packet)[8..] == body;
  }

  /** A packet tagged 2 yields the summaries of the decoded transaction's
      events, one per event and in order; the decoder sees the whole packet. */
  lemma TransactionRoundTrip<S, E, R>(packet: Uint8Array, body: seq<byte>,
                                      zbdecode: seq<byte> -> S, deserializeUpdate: seq<byte> -> seq<E>, describe: E -> R)
    requires Contents(packet) == EncodeHeader(TransactionHeader) + body
    ensures ParsePacketData(packet, zbdecode, deserializeUpdate, describe)
            == Success(TransactionMessage(DescribeEvents(deserializeUpdate(Contents(packet)), describe)))
    ensures ParsePacketDataBounded(packet, zbdecode, deserializeUpdate, describe)
            == Success(TransactionMessage(DescribeEvents(deserializeUpdate(Contents(packet)), describe)))
  {
    ParseEncodedHeader(TransactionHeader, body);
  }

  /** Any other tag yields `null`. */
  lemma UnknownMethodIsNull<S, E, R>(packet: Uint8Array, m: uint32, body: seq<byte>,
                                     zbdecode: seq<byte> -> S, deserializeUpdate: seq<byte> -> seq<E>, describe: E -> R)
    requires m != StateReset && m != Transaction
    requires Contents(packet) == EncodeUint32(m) + body
    ensures ParsePacketData(packet, zbdecode, deserializeUpdate, describe) == Success(NullMessage)
    ensures ParsePacketDataBounded(packet, zbdecode, deserializeUpdate, describe) == Success(NullMessage)
  {
    ParseEncodedHeader(UnknownMethod(m), body);
  }

  /** As written, a state reset packet carries its clock, but the state is
      decoded from the packet's bytes after the header followed by every
      byte of the buffer after the packet. */
  lemma StateResetAsWritten<S, E, R>(packet: Uint8Array, clock: uint32, body: seq<byte>,
                                     zbdecode: seq<byte> -> S, deserializeUpdate: seq<byte> -> seq<E>, describe: E -> R)
    requires Contents(packet) == EncodeHeader(StateResetHeader(clock)) + body
    ensures ParsePacketData(packet, zbdecode, deserializeUpdate, describe)
            == Success(StateMessage(clock, zbdecode(body + packet.buffer[packet.byteOffset + packet.byteLength..])))
  {
    ParseEncodedHeader(StateResetHeader(clock), body);
    var start := packet.byteOffset + 2 * Uint32Size;
    var end := packet.byteOffset + packet.byteLength;
    assert packet.buffer[start..] == packet.buffer[start..end] + packet.buffer[end..];
    assert packet.buffer[start..end] == Contents(packet)[2 * Uint32Size..] == body;
  }

  /** The two parsers agree whenever the packet's view reaches the end of
      its buffer (the usual case of a freshly allocated packet). */
  lemma ParsersAgreeAtBufferEnd<S, E, R>(packet: Uint8Array, zbdecode: seq<byte> -> S,
                                         deserializeUpdate: seq<byte> -> seq<E>, describe: E -> R)
    requires packet.byteOffset + packet.byteLength == |packet.buffer|
    ensures ParsePacketData(packet, zbdecode, deserializeUpdate, describe)
            == ParsePacketDataBounded(packet, zbdecode, deserializeUpdate, describe)
  {
    var bytes := Contents(packet);
    if ParseHeader(bytes).Success? {
      var h := ParseHeader(bytes).value;
      ParsedHeaderIsPrefix(bytes);
      assert packet.buffer[packet.byteOffset + HeaderSize(h)..] == bytes[HeaderSize(h)..];
    }
  }

  /** A state reset packet that is a sub-view of a larger buffer: as written,
      the state decoder is handed the bytes after the packet too. */
  lemma StateViewOverrunsPacket()
    ensures var packet: Uint8Array := ByteView([1, 0, 0, 0, 0, 0, 0, 0, 7], 0, 8);
            var asWritten := ParsePacketData<seq<byte>, byte, byte>(packet, (s: seq<byte>) => s, (s: seq<byte>) => [], (e: byte) => e);
            var bounded := ParsePacketDataBounded<seq<byte>, byte, byte>(packet, (s: seq<byte>) => s, (s: seq<byte>) => [], (e: byte) => e);
            && asWritten == Success(StateMessage(0, [7]))
            && bounded == Success(StateMessage(0, []))
  {
    var packet: Uint8Array := ByteView([1, 0, 0, 0, 0, 0, 0, 0, 7], 0, 8);
    assert Contents(packet) == EncodeHeader(StateResetHeader(0)) + [];
    ParseEncodedHeader(StateResetHeader(0), []);
  }
}
