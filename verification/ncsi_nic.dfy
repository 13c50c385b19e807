/** A NIC that answers one frame to every request, as the daemon's peer. */
module NcsiNic {
  import opened Bytes
  import opened NcsiFrames
  import opened NcsiServer

  /** `version`, `link`, `stats` and the filters are response payloads as they go on the wire;
      `capabilities` is the capabilities payload up to the channel count. */
  datatype Nic = Nic(
    channels: byte, legacy: bool, mac: Mac, reserved: seq<byte>,
    version: seq<byte>, capabilities: seq<byte>, link: seq<byte>,
    stats: seq<byte>, legacyStats: seq<byte>,
    filter0: seq<byte>, filter1: seq<byte>)
  {
    ghost predicate Valid() {
      && |reserved| == 2 && |version| == 36 && |capabilities| == 27 && |link| == 12
      && |stats| == 44 && |legacyStats| == 40 && |filter0| == FILTER_SIZE && |filter1| == FILTER_SIZE
    }

    function Filter(channel: byte): seq<byte> { if channel == 0 then filter0 else filter1 }

    /** Takes over address and port of a filter and matches any IP address. */
    function SetFilter(channel: byte, wanted: seq<byte>): (n: Nic)
      requires Valid() && |wanted| == FILTER_SIZE
      ensures n.Valid() && n.channels == channels
    {
      var was := Filter(channel);
      var now := was[..2] + wanted[2..8] + [0, 0, 0, 0] + wanted[12..14] + was[14..];
      if channel == 0 then this.(filter0 := now) else this.(filter1 := now)
    }
  }

  type ValidNic = n: Nic | n.Valid() ghost witness
    Nic(1, false, Zeros(6), Zeros(2), Zeros(36), Zeros(27), Zeros(12), Zeros(44), Zeros(40), Zeros(24), Zeros(24))

  /** Commands answered without a payload. */
  predicate IsSimple(code: byte) {
    code <= 0x09 || 0x0B <= code <= 0x0E || 0x10 <= code <= 0x14
  }

  function Reject(frame: seq<byte>, response: nat, reason: nat): seq<byte>
    requires |frame| >= HEADER_SIZE && response < 0x1_0000 && reason < 0x1_0000
  {
    ResponseHeader(frame, response, reason, 4)
  }

  /** The NIC's reaction to a request: its new state and its answer. */
  function Reply(nic: ValidNic, frame: seq<byte>): (r: (ValidNic, seq<byte>))
    requires |frame| >= HEADER_SIZE
    ensures r.0.channels == nic.channels
  {
    var code := frame[AT_TYPE];
    if IsSimple(code) then (nic, StdReply(frame, []))
    else if code == GET_VERSION_ID then (nic, StdReply(frame, nic.version))
    else if code == GET_CAPABILITIES then (nic, StdReply(frame, nic.capabilities + [nic.channels]))
    else if code == GET_PASSTHROUGH_STATISTICS then
      (nic, StdReply(frame, if nic.legacy then nic.legacyStats else nic.stats))
    else if code == GET_LINK_STATUS then (nic, StdReply(frame, nic.link))
    else if code == OEM_COMMAND && |frame| >= 38 then OemReaction(nic, frame)
    else (nic, Reject(frame, 1, 1))
  }

  function OemReaction(nic: ValidNic, frame: seq<byte>): (r: (ValidNic, seq<byte>))
    requires |frame| >= 38
    ensures r.0.channels == nic.channels
  {
    var sub, channel := frame[AT_REQUEST_SUB], frame[AT_CHANNEL];
    if sub == OEM_GET_HOST_MAC then (nic, OemReply(frame, nic.reserved + nic.mac))
    else if sub == OEM_SET_FILTER && |frame| >= 62 && channel <= 1 then
      (nic.SetFilter(channel, frame[38..62]), OemReply(frame, []))
    else if sub == OEM_ECHO && |frame| >= 102 then (nic, EchoReply(frame))
    else if sub == OEM_GET_FILTER then
      (nic, if channel <= 1 then OemReply(frame, nic.Filter(channel)) else Reject(frame, 3, 4))
    else (nic, Reject(frame, 1, 2))
  }

  /** The answer to an NC-SI frame is an NC-SI frame that fits the receive buffer. */
  lemma ReplyFits(nic: ValidNic, frame: seq<byte>)
    requires |frame| >= HEADER_SIZE
    ensures var r := Reply(nic, frame).1;
            SIMPLE_RESPONSE_SIZE <= |r| <= 106 && r[..AT_TYPE] == frame[..AT_TYPE]
  {
  }
}
