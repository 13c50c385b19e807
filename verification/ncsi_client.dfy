/** The management controller's side: command builders that write a frame into a buffer. */
module NcsiClient {
  import opened Bytes
  import opened NcsiFrames

  /** Fills in the Ethernet and NC-SI headers with an empty payload length. */
  method SetHeaderFields(buf: array<byte>, channel: byte, code: byte)
    requires buf.Length >= HEADER_SIZE
    modifies buf
    ensures buf[..HEADER_SIZE] == Header(code, channel, 0)
    ensures buf[HEADER_SIZE..] == old(buf[HEADER_SIZE..])
  {
    forall k | 0 <= k < 6 { buf[k] := 0xFF; }
    forall k | 6 <= k < 12 { buf[k] := 0xAB; }
    buf[12], buf[13] := 0x88, 0xF8;
    buf[14], buf[15], buf[16], buf[17] := 0, 1, 0, 0;
    buf[AT_TYPE], buf[AT_CHANNEL] := code, channel;
    forall k | 20 <= k < 30 { buf[k] := 0; }
    assert forall k :: HEADER_SIZE <= k < buf.Length ==> buf[k] == old(buf[k]);
  }

  /** Every command without a payload: they differ in the packet type only. */
  method CmdSimple(buf: array<byte>, channel: byte, code: byte) returns (len: nat)
    requires buf.Length >= HEADER_SIZE
    modifies buf
    ensures len == HEADER_SIZE && buf[..len] == SimpleFrame(code, channel)
  {
    SetHeaderFields(buf, channel, code);
    len := HEADER_SIZE;
  }

  method CmdSetMac(buf: array<byte>, channel: byte, mac: Mac) returns (len: nat)
    requires buf.Length >= 38
    modifies buf
    ensures len == 38 && buf[..len] == SetMacFrame(channel, mac)
  {
    SetHeaderFields(buf, channel, SET_MAC_ADDRESS);
    ghost var head := buf[..HEADER_SIZE];
    assert forall k :: 0 <= k < 30 ==> buf[k] == head[k];
    buf[AT_LENGTH], buf[AT_LENGTH + 1] := 0, 8;
    forall k | 0 <= k < 6 { buf[30 + k] := mac[k]; }
    buf[36], buf[37] := 1, 1;
    len := 38;
  }

  /** The part every OEM command shares: header, payload length, extension header. */
  method OemStart(buf: array<byte>, channel: byte, sub: byte, size: nat)
    requires buf.Length >= 38 && size < 0x1000
    modifies buf
    ensures buf[..38] == Header(OEM_COMMAND, channel, 8 + size) + OemHeader(sub)
    ensures buf[38..] == old(buf[38..])
  {
    ghost var rest := buf[38..];
    SetHeaderFields(buf, channel, OEM_COMMAND);
    ghost var head := buf[..HEADER_SIZE];
    assert buf[HEADER_SIZE..][8..] == rest;
    assert forall k :: 0 <= k < 30 ==> buf[k] == head[k];
    assert forall k :: 38 <= k < buf.Length ==> buf[k] == rest[k - 38];
    buf[AT_LENGTH], buf[AT_LENGTH + 1] := (8 + size) / 256, (8 + size) % 256;
    buf[30], buf[31], buf[32], buf[33] := 0, 0, 0x2B, 0x79;
    buf[34], buf[35], buf[36] := 0, 0, 0;
    buf[37] := sub;
  }

  method OemCmd(buf: array<byte>, channel: byte, sub: byte, body: seq<byte>) returns (len: nat)
    requires |body| < 0x1000 && buf.Length >= 38 + |body|
    modifies buf
    ensures len == 38 + |body| && buf[..len] == OemFrame(sub, channel, body)
  {
    OemStart(buf, channel, sub, |body|);
    ghost var head := buf[..38];
    assert forall k :: 0 <= k < 38 ==> buf[k] == head[k];
    forall k | 0 <= k < |body| { buf[38 + k] := body[k]; }
    len := 38 + |body|;
    assert buf[..len] == head + body;
  }
}
