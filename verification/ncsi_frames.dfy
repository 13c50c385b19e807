/** NC-SI frames as byte strings: the layout of DSP0222 1.0.0 section 8.2.1 behind an
    Ethernet header, the commands the daemon sends, and what a response must look like. */
module NcsiFrames {
  import opened Bytes

  /** A command type: a standard one, or a subtype of the OEM command. */
  datatype Command = Std(code: byte) | Oem(sub: byte)

  /** A command addressed to a channel. */
  datatype Request = Request(cmd: Command, channel: byte)

  datatype ResponseType =
    | NoResponse
    | Ack
    | Nack
    | Undersized
    | UnexpectedType
    | UnexpectedSize
    | OemFormatError
    | UnexpectedParams

  type Mac = m: seq<byte> | |m| == 6 witness [0, 0, 0, 0, 0, 0]

  // Sizes of the packed structures, the Ethernet header included.
  const HEADER_SIZE := 30
  const SIMPLE_RESPONSE_SIZE := 34
  const OEM_RESPONSE_SIZE := 42
  const FILTER_SIZE := 24
  const PATTERN_SIZE := 64

  // Offsets inside a frame.
  const AT_TYPE := 18
  const AT_CHANNEL := 19
  const AT_LENGTH := 20
  const AT_CODES := 30
  const AT_REQUEST_OEM := 30
  const AT_REQUEST_SUB := 37
  const AT_RESPONSE_OEM := 34
  const AT_RESPONSE_SUB := 41

  const CLEAR_INITIAL_STATE: byte := 0x00
  const ENABLE_CHANNEL: byte := 0x03
  const RESET_CHANNEL: byte := 0x05
  const ENABLE_TX: byte := 0x06
  const GET_LINK_STATUS: byte := 0x0A
  const SET_MAC_ADDRESS: byte := 0x0E
  const GET_VERSION_ID: byte := 0x15
  const GET_CAPABILITIES: byte := 0x16
  const GET_PASSTHROUGH_STATISTICS: byte := 0x1A
  const OEM_COMMAND: byte := 0x50

  const OEM_GET_HOST_MAC: byte := 0
  const OEM_SET_FILTER: byte := 1
  const OEM_GET_FILTER: byte := 2
  const OEM_ECHO: byte := 3

  /** Manufacturer id 11129 in network order. */
  const MANUFACTURER: seq<byte> := [0, 0, 0x2B, 0x79]

  /** `x | 0x80`, the response bit of a packet type. */
  function ResponseBit(x: byte): byte { if x < 128 then x + 128 else x }

  // ----- commands -----

  function HeaderByte(code: byte, channel: byte, payload: nat, i: nat): byte
    requires payload < 0x1_0000
  {
    if i < 6 then 0xFF
    else if i < 12 then 0xAB
    else if i == 12 then 0x88
    else if i == 13 then 0xF8
    else if i == 15 then 1
    else if i == AT_TYPE then code
    else if i == AT_CHANNEL then channel
    else if i == AT_LENGTH then payload / 256
    else if i == AT_LENGTH + 1 then payload % 256
    else 0
  }

  /** Broadcast destination, fixed source, the NC-SI ethertype; then controller id 0, header
      revision 1, instance id 0, packet type, channel, payload length and reserved bytes. */
  function Header(code: byte, channel: byte, payload: nat): (h: seq<byte>)
    requires payload < 0x1_0000
    ensures |h| == HEADER_SIZE
  {
    seq(HEADER_SIZE, i requires 0 <= i < HEADER_SIZE => HeaderByte(code, channel, payload, i))
  }

  function OemHeader(sub: byte): (h: seq<byte>)
    ensures |h| == 8
  {
    MANUFACTURER + [0, 0, 0, sub]
  }

  function SimpleFrame(code: byte, channel: byte): seq<byte> { Header(code, channel, 0) }

  function SetMacFrame(channel: byte, mac: Mac): seq<byte> {
    Header(SET_MAC_ADDRESS, channel, 8) + mac + [1, 1]
  }

  function OemFrame(sub: byte, channel: byte, body: seq<byte>): seq<byte>
    requires |body| < 0x1000
  {
    Header(OEM_COMMAND, channel, 8 + |body|) + OemHeader(sub) + body
  }

  function FilterBody(mac: Mac, port: nat, flags: byte): (f: seq<byte>)
    requires port < 0x1_0000
    ensures |f| == FILTER_SIZE
  {
    [0, 0] + mac + [0, 0, 0, 0, port / 256, port % 256, 0, flags] + Zeros(8)
  }

  /** The command a frame carries and the channel it is addressed to. */
  function RequestOf(frame: seq<byte>): Request
    requires |frame| >= HEADER_SIZE
  {
    if frame[AT_TYPE] == OEM_COMMAND && |frame| >= HEADER_SIZE + 8
    then Request(Oem(frame[AT_REQUEST_SUB]), frame[AT_CHANNEL])
    else Request(Std(frame[AT_TYPE]), frame[AT_CHANNEL])
  }

  // ----- responses -----

  /** Size of the response to a standard command, 0 when it is unknown or unsupported. */
  function StdResponseSize(code: byte): nat {
    if code == GET_LINK_STATUS then 46
    else if code == GET_VERSION_ID then 70
    else if code == GET_CAPABILITIES then 62
    else if code == 0x17 then 78
    else if code == GET_PASSTHROUGH_STATISTICS then 78
    else if code == 0x0F || code == 0x18 || code == 0x19 || code > 0x1A then 0
    else SIMPLE_RESPONSE_SIZE
  }

  function OemResponseSize(sub: byte): nat {
    if sub == OEM_GET_HOST_MAC then 50
    else if sub == OEM_SET_FILTER then OEM_RESPONSE_SIZE
    else if sub == OEM_GET_FILTER then 66
    else if sub == OEM_ECHO then 106
    else 0
  }

  function ResponseSize(cmd: Command): nat {
    match cmd
    case Std(code) => StdResponseSize(code)
    case Oem(sub) => OemResponseSize(sub)
  }

  /** Checks a received frame against a command type and the size its response should have. */
  function ValidateSized(rx: seq<byte>, cmd: Command, expected: nat): ResponseType
    requires cmd.Oem? && expected != 0 ==> expected >= OEM_RESPONSE_SIZE
  {
    if |rx| < SIMPLE_RESPONSE_SIZE then Undersized
    else if rx[30] != 0 || rx[31] != 0 || rx[32] != 0 || rx[33] != 0 then Nack
    else if rx[AT_TYPE] != ResponseBit(if cmd.Oem? then OEM_COMMAND else cmd.code) then UnexpectedType
    else if |rx| < expected || Be16(rx, AT_LENGTH) != expected - HEADER_SIZE then UnexpectedSize
    else if cmd.Oem? && (rx[34..38] != MANUFACTURER || rx[AT_RESPONSE_SUB] != cmd.sub) then OemFormatError
    else Ack
  }

  function Validate(rx: seq<byte>, cmd: Command): ResponseType {
    ValidateSized(rx, cmd, ResponseSize(cmd))
  }

  /** A frame is accepted exactly if it has the size and packet type of the response to a command
      that is known, reports no error, and for an OEM command carries its header. */
  lemma AckMeans(rx: seq<byte>, cmd: Command)
    ensures Validate(rx, cmd) == Ack
            <==> && |rx| >= ResponseSize(cmd) >= SIMPLE_RESPONSE_SIZE
                 && rx[AT_CODES..AT_CODES + 4] == [0, 0, 0, 0]
                 && rx[AT_TYPE] == ResponseBit(if cmd.Std? then cmd.code else OEM_COMMAND)
                 && HEADER_SIZE + Be16(rx, AT_LENGTH) == ResponseSize(cmd)
                 && (cmd.Oem? ==> rx[AT_RESPONSE_OEM..AT_RESPONSE_OEM + 4] == MANUFACTURER && rx[AT_RESPONSE_SUB] == cmd.sub)
  {
    if |rx| >= SIMPLE_RESPONSE_SIZE {
      assert rx[AT_CODES..AT_CODES + 4] == [rx[30], rx[31], rx[32], rx[33]];
    }
  }

  /** A frame is accepted as the response to at most one command type, of whatever family. */
  lemma AckDeterminesCommand(rx: seq<byte>, c: Command, d: Command)
    requires Validate(rx, c) == Ack && Validate(rx, d) == Ack
    ensures c == d
  {
  }

  /** No frame whose packet type lacks the response bit is ever accepted: in particular a
      command that comes back unchanged is not. */
  lemma CommandIsNoAck(frame: seq<byte>, c: Command, expected: nat)
    requires |frame| >= HEADER_SIZE && frame[AT_TYPE] < 0x80
    requires c.Oem? && expected != 0 ==> expected >= OEM_RESPONSE_SIZE
    ensures ValidateSized(frame, c, expected) != Ack
  {
  }
}
