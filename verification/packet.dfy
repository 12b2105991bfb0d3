/**
  The TFTP packet codec. The client and the server each keep a textual copy of these helpers; the copies
  agree on everything modelled here, so each helper appears once. Only the client encodes requests and
  decodes ERROR packets, and only the server decodes a file name.
 */
module Packet {

  type byte = x: int | 0 <= x < 256
  type u16 = x: int | 0 <= x < 65536
  type Bytes = seq<byte>

  datatype Opcode = Unknown | Rrq | Wrq | Data | Ack | Error

  // The transfer mode every request carries, "octet".
  const OCTET: Bytes := [111, 99, 116, 101, 116]

  function OpcodeValue(op: Opcode): u16 {
    match op
    case Unknown => 0
    case Rrq => 1
    case Wrq => 2
    case Data => 3
    case Ack => 4
    case Error => 5
  }

  function BigEndian(value: u16): Bytes {
    [value / 256, value % 256]
  }

  function Word(high: byte, low: byte): u16 {
    256 * (high as int) + (low as int)
  }

  function EncodeRequest(op: Opcode, filename: Bytes): Bytes {
    BigEndian(OpcodeValue(op)) + (filename + [0]) + (OCTET + [0])
  }

  function EncodeData(block: u16, data: Bytes): Bytes {
    BigEndian(OpcodeValue(Data)) + BigEndian(block) + data
  }

  function EncodeAck(block: u16): Bytes {
    BigEndian(OpcodeValue(Ack)) + BigEndian(block)
  }

  function EncodeError(code: u16, message: Bytes): Bytes {
    BigEndian(OpcodeValue(Error)) + BigEndian(code) + (message + [0])
  }

  function GetOpcode(buffer: Bytes): Opcode {
    if |buffer| < 2 then Unknown else
    var value := Word(buffer[0], buffer[1]);
    if value == 1 then Rrq
    else if value == 2 then Wrq
    else if value == 3 then Data
    else if value == 4 then Ack
    else if value == 5 then Error
    else Unknown
  }

  function GetBlockNumber(buffer: Bytes): u16 {
    if |buffer| < 4 then 0 else Word(buffer[2], buffer[3])
  }

  function GetData(buffer: Bytes): Bytes {
    if |buffer| <= 4 then [] else buffer[4..]
  }

  function GetError(buffer: Bytes): (Opcode, u16, Bytes) {
    if |buffer| <= 5 then (Unknown, 0, [])
    else if GetOpcode(buffer) != Error then (GetOpcode(buffer), 0, [])
    else (Error, GetBlockNumber(buffer), buffer[4..|buffer| - 1])
  }

  function UntilNul(bytes: Bytes): Bytes {
    if bytes == [] || bytes[0] == 0 then [] else [bytes[0]] + UntilNul(bytes[1..])
  }

  function Filename(buffer: Bytes): Bytes {
    if |buffer| < 3 then [] else UntilNul(buffer[2..])
  }

  /** The take-while copy of `get_filename`. */
  method GetFilename(buffer: Bytes) returns (filename: Bytes)
    ensures filename == Filename(buffer)
  {
    filename := [];
    if |buffer| < 3 {
      return;
    }
    var i := 2;
    while i < |buffer| && buffer[i] != 0
      invariant 2 <= i <= |buffer|
      invariant filename + UntilNul(buffer[i..]) == Filename(buffer)
    {
      filename := filename + [buffer[i]];
      assert buffer[i..][1..] == buffer[i + 1..];
      i := i + 1;
    }
  }

  /** The vector that `make_buffer` fills by appending one argument after another. */
  class SendBuffer {
    var bytes: Bytes

    constructor ()
      ensures bytes == []
    {
      bytes := [];
    }

    method CopyRange(range: Bytes)
      modifies this
      ensures bytes == old(bytes) + range
    {
      bytes := bytes + range;
    }

    // The host stores an integer with its low byte first, and the copy walks it backwards.
    method CopyInteger(value: u16)
      modifies this
      ensures bytes == old(bytes) + BigEndian(value)
    {
      var littleEndian: Bytes := [value % 256, value / 256];
      var i := |littleEndian|;
      while i > 0
        invariant 0 <= i <= 2
        invariant bytes == old(bytes) + BigEndian(value)[..2 - i]
      {
        i := i - 1;
        bytes := bytes + [littleEndian[i]];
      }
    }

    method CopyString(text: Bytes)
      modifies this
      ensures bytes == old(bytes) + (text + [0])
    {
      bytes := bytes + text;
      bytes := bytes + [0];
    }
  }

  method DataToBuffer(block: u16, data: Bytes) returns (buffer: Bytes)
    ensures buffer == EncodeData(block, data)
  {
    var vector := new SendBuffer();
    vector.CopyInteger(OpcodeValue(Data));
    vector.CopyInteger(block);
    vector.CopyRange(data);
    buffer := vector.bytes;
  }

  method AckToBuffer(block: u16) returns (buffer: Bytes)
    ensures buffer == EncodeAck(block)
  {
    var vector := new SendBuffer();
    vector.CopyInteger(OpcodeValue(Ack));
    vector.CopyInteger(block);
    buffer := vector.bytes;
  }

  method ErrorToBuffer(code: u16, message: Bytes) returns (buffer: Bytes)
    ensures buffer == EncodeError(code, message)
  {
    var vector := new SendBuffer();
    vector.CopyInteger(OpcodeValue(Error));
    vector.CopyInteger(code);
    vector.CopyString(message);
    buffer := vector.bytes;
  }

  method RequestToBuffer(op: Opcode, filename: Bytes) returns (buffer: Bytes)
    ensures buffer == EncodeRequest(op, filename)
  {
    var vector := new SendBuffer();
    vector.CopyInteger(OpcodeValue(op));
    vector.CopyString(filename);
    vector.CopyString(OCTET);
    buffer := vector.bytes;
  }

  // ----- The bytes on the wire -----

  /** Every packet as RFC 1350 draws it: opcode, then block or code high byte first; "octet" is the only mode. */
  lemma WireFormat(filename: Bytes, block: u16, data: Bytes, message: Bytes)
    ensures EncodeRequest(Rrq, filename) == [0, 1] + filename + [0, 111, 99, 116, 101, 116, 0]
    ensures EncodeRequest(Wrq, filename) == [0, 2] + filename + [0, 111, 99, 116, 101, 116, 0]
    ensures EncodeData(block, data) == [0, 3, block / 256, block % 256] + data
    ensures EncodeAck(block) == [0, 4, block / 256, block % 256]
    ensures EncodeError(block, message) == [0, 5, block / 256, block % 256] + message + [0]
  {
  }

  // ----- Round trips -----

  lemma WordIsBigEndian(high: byte, low: byte, value: u16)
    ensures Word(high, low) == value <==> [high, low] == BigEndian(value)
  {
    assert [high, low] == BigEndian(value) <==> high == value / 256 && low == value % 256;
  }

  lemma DataRoundTrip(block: u16, data: Bytes)
    ensures GetOpcode(EncodeData(block, data)) == Data
    ensures GetBlockNumber(EncodeData(block, data)) == block
    ensures GetData(EncodeData(block, data)) == data
  {
  }

  lemma AckRoundTrip(block: u16)
    ensures GetOpcode(EncodeAck(block)) == Ack
    ensures GetBlockNumber(EncodeAck(block)) == block
  {
  }

  /** A buffer is the encoding of what it decodes to exactly when it is a DATA packet with room for a block number. */
  lemma DataReencodes(buffer: Bytes)
    ensures (GetOpcode(buffer) == Data && |buffer| >= 4)
       <==> buffer == EncodeData(GetBlockNumber(buffer), GetData(buffer))
  {
    if |buffer| >= 4 {
      var opcode, number: Bytes := [buffer[0], buffer[1]], [buffer[2], buffer[3]];
      WordIsBigEndian(buffer[0], buffer[1], OpcodeValue(Data));
      WordIsBigEndian(buffer[2], buffer[3], GetBlockNumber(buffer));
      hide Word, BigEndian;
      assert buffer == opcode + number + buffer[4..] && GetData(buffer) == buffer[4..];
      if buffer == EncodeData(GetBlockNumber(buffer), GetData(buffer)) {
        assert opcode == buffer[..2] == BigEndian(OpcodeValue(Data));
      }
    }
  }

  lemma {:induction false} UntilNulStops(text: Bytes, rest: Bytes)
    ensures UntilNul(text + [0] + rest) == UntilNul(text)
    ensures UntilNul(text) == text <==> 0 !in text
  {
    if text != [] {
      assert (text + [0] + rest)[1..] == text[1..] + [0] + rest;
      UntilNulStops(text[1..], rest);
      assert text == [text[0]] + text[1..];
    }
  }

  /** The server reads back the file name of a client request exactly when the name holds no NUL. */
  lemma FilenameRoundTrip(op: Opcode, filename: Bytes)
    ensures Filename(EncodeRequest(op, filename)) == filename <==> 0 !in filename
    ensures op != Unknown ==> GetOpcode(EncodeRequest(op, filename)) == op
  {
    var b := EncodeRequest(op, filename);
    assert b[0] == 0 && b[1] == OpcodeValue(op);
    assert b[2..] == filename + [0] + (OCTET + [0]);
    UntilNulStops(filename, OCTET + [0]);
  }

  /** The client reads back a server ERROR exactly when its message is not empty. */
  lemma ErrorRoundTrip(code: u16, message: Bytes)
    ensures GetError(EncodeError(code, message)) == (Error, code, message) <==> message != []
    ensures message == [] ==> GetError(EncodeError(code, message)) == (Unknown, 0, [])
  {
    var b := EncodeError(code, message);
    assert b[0] == 0 && b[1] == 5 && b[2] == code / 256 && b[3] == code % 256;
    assert |b| == 5 + |message|;
    assert b[4..|b| - 1] == message;
  }
}
