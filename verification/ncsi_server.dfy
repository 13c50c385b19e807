/** The NIC side: response builders, which may be given one buffer for both the request
    and the response. */
module NcsiServer {
  import opened Bytes
  import opened NcsiFrames

  // ----- what the builders produce -----

  /** The command's header turned into a response header, then the two status codes. */
  function ResponseHeader(req: seq<byte>, response: nat, reason: nat, payload: nat): (r: seq<byte>)
    requires |req| >= HEADER_SIZE && payload < 0x1_0000 && response < 0x1_0000 && reason < 0x1_0000
    ensures |r| == SIMPLE_RESPONSE_SIZE
  {
    req[..AT_TYPE] + [ResponseBit(req[AT_TYPE]), req[AT_CHANNEL], payload / 256, payload % 256]
    + req[22..HEADER_SIZE] + [response % 256, response / 256, reason % 256, reason / 256]
  }

  /** A standard response with the given payload behind the status codes. */
  function StdReply(req: seq<byte>, body: seq<byte>): (r: seq<byte>)
    requires |req| >= HEADER_SIZE && |body| < 0x1000
    ensures |r| == SIMPLE_RESPONSE_SIZE + |body|
  {
    ResponseHeader(req, 0, 0, 4 + |body|) + body
  }

  /** An OEM response: the request's extension header with this manufacturer's id, then `body`. */
  function OemReply(req: seq<byte>, body: seq<byte>): (r: seq<byte>)
    requires |req| >= HEADER_SIZE + 8 && |body| < 0x1000
    ensures |r| == OEM_RESPONSE_SIZE + |body|
  {
    ResponseHeader(req, 0, 0, 12 + |body|) + MANUFACTURER + req[34..38] + body
  }

  function EchoReply(req: seq<byte>): seq<byte>
    requires |req| >= HEADER_SIZE + 8 + PATTERN_SIZE
  {
    OemReply(req, req[38..102])
  }

  /** The codes are put in with the lower byte first, the length with the higher one. */
  lemma ResponseCodes(req: seq<byte>, response: nat, reason: nat, payload: nat)
    requires |req| >= HEADER_SIZE && payload < 0x1_0000 && response < 0x1_0000 && reason < 0x1_0000
    ensures var r := ResponseHeader(req, response, reason, payload);
            Le16(r, 30) == response && Le16(r, 32) == reason && Be16(r, 20) == payload
  {
    var r := ResponseHeader(req, response, reason, payload);
    TwoBytes(r, 30, response);
    TwoBytes(r, 32, reason);
  }

  lemma TwoBytes(s: seq<byte>, i: nat, x: nat)
    requires x < 0x1_0000 && i + 2 <= |s| && s[i] == x % 256 && s[i + 1] == x / 256
    ensures Le16(s, i) == x
  {
    var t := s[i..i + 2];
    assert t[1..] == [s[i + 1]] && t[1..][1..] == [];
    assert LeValue(t[1..]) == s[i + 1];
  }

  /** Byte by byte, a positive response is its request with the response bit set, the channel and the
      reserved bytes kept, and the length, the status codes and the payload put in. */
  lemma StdReplyBytes(req: seq<byte>, body: seq<byte>)
    requires |req| >= HEADER_SIZE && |body| < 0x1000
    ensures var r := StdReply(req, body);
            && r[..18] == req[..18] && r[18] == (if req[18] < 128 then req[18] + 128 else req[18]) && r[19] == req[19]
            && r[20..22] == [(|r| - 30) / 256, (|r| - 30) % 256] && r[22..30] == req[22..30] && r[30..34] == [0, 0, 0, 0] && r[34..] == body
  {
  }

  lemma OemReplyBytes(req: seq<byte>, body: seq<byte>)
    requires |req| >= HEADER_SIZE + 8 && |body| < 0x1000
    ensures var r := OemReply(req, body);
            && r[..18] == req[..18] && r[18] == (if req[18] < 128 then req[18] + 128 else req[18]) && r[19] == req[19]
            && r[20..22] == [(|r| - 30) / 256, (|r| - 30) % 256] && r[22..30] == req[22..30] && r[30..34] == [0, 0, 0, 0]
            && r[34..38] == [0, 0, 0x2B, 0x79] && r[38..42] == req[34..38] && r[42..] == body
  {
    var head := ResponseHeader(req, 0, 0, 12 + |body|);
    assert OemReply(req, body)[..34] == head;
    assert head[..18] == req[..18] && head[22..30] == req[22..30] && head[30..34] == [0, 0, 0, 0];
  }

  // ----- the builders -----

  /** `memmove`: copies within or between buffers as if through a temporary. */
  method Move(dst: array<byte>, to: nat, src: array<byte>, from: nat, n: nat)
    requires to + n <= dst.Length && from + n <= src.Length
    modifies dst
    ensures dst[to..to + n] == old(src[from..from + n])
    ensures dst[..to] == old(dst[..to]) && dst[to + n..] == old(dst[to + n..])
  {
    forall k | 0 <= k < n { dst[to + k] := src[from + k]; }
  }

  method BuildResponseHeader(req: array<byte>, resp: array<byte>, response: nat, reason: nat, payload: nat)
    requires req.Length >= HEADER_SIZE && resp.Length >= SIMPLE_RESPONSE_SIZE
    requires payload < 0x1_0000 && response < 0x1_0000 && reason < 0x1_0000
    modifies resp
    ensures resp[..SIMPLE_RESPONSE_SIZE] == ResponseHeader(old(req[..]), response, reason, payload)
    ensures resp[SIMPLE_RESPONSE_SIZE..] == old(resp[SIMPLE_RESPONSE_SIZE..])
  {
    ghost var was := req[..];
    Move(resp, 0, req, 0, HEADER_SIZE);
    assert resp[..HEADER_SIZE] == was[..HEADER_SIZE];
    assert forall k :: 0 <= k < HEADER_SIZE ==> resp[k] == resp[..HEADER_SIZE][k];
    resp[30], resp[31] := response % 256, response / 256;
    resp[32], resp[33] := reason % 256, reason / 256;
    resp[AT_TYPE] := ResponseBit(req[AT_TYPE]);
    resp[AT_LENGTH], resp[AT_LENGTH + 1] := payload / 256, payload % 256;
  }

  method BuildOemAck(req: array<byte>, resp: array<byte>, size: nat)
    requires req.Length >= HEADER_SIZE + 8 && resp.Length >= OEM_RESPONSE_SIZE
    requires OEM_RESPONSE_SIZE <= size < 0x1000
    modifies resp
    ensures resp[..OEM_RESPONSE_SIZE] == ResponseHeader(old(req[..]), 0, 0, size - HEADER_SIZE) + MANUFACTURER + old(req[34..38])
    ensures resp[OEM_RESPONSE_SIZE..] == old(resp[OEM_RESPONSE_SIZE..])
  {
    ghost var was := resp[..];
    BuildResponseHeader(req, resp, 0, 0, size - HEADER_SIZE);
    ghost var head := resp[..SIMPLE_RESPONSE_SIZE];
    assert forall k :: 34 <= k < resp.Length ==> resp[k] == resp[34..][k - 34] == was[34..][k - 34];
    ghost var ext := req[30..38];
    assert ext[4..] == old(req[34..38]);
    Move(resp, AT_RESPONSE_OEM, req, AT_REQUEST_OEM, 8);
    assert resp[34..42] == ext;
    assert forall k :: 0 <= k < 34 ==> resp[k] == resp[..34][k] == head[k];
    assert forall k :: 42 <= k < resp.Length ==> resp[k] == resp[42..][k - 42] == was[k];
    assert forall k :: 38 <= k < 42 ==> resp[k] == resp[34..42][k - 34] == ext[k - 34];
    resp[34], resp[35], resp[36], resp[37] := 0, 0, 0x2B, 0x79;
    assert resp[..OEM_RESPONSE_SIZE] == head + MANUFACTURER + ext[4..];
  }

  method BuildSimpleAck(req: array<byte>, resp: array<byte>) returns (len: nat)
    requires req.Length >= HEADER_SIZE && resp.Length >= SIMPLE_RESPONSE_SIZE
    modifies resp
    ensures len <= resp.Length && resp[..len] == StdReply(old(req[..]), [])
    ensures resp[len..] == old(resp[len..])
  {
    BuildResponseHeader(req, resp, 0, 0, 4);
    len := SIMPLE_RESPONSE_SIZE;
  }

  /** The simple OEM acknowledgement: the result depends on the request's bytes only, not on
      whether the response is built over it. */
  method BuildOemSimpleAck(req: array<byte>, resp: array<byte>) returns (len: nat)
    requires req.Length >= HEADER_SIZE + 8 && resp.Length >= OEM_RESPONSE_SIZE
    modifies resp
    ensures len <= resp.Length && resp[..len] == OemReply(old(req[..]), [])
    ensures resp[len..] == old(resp[len..])
  {
    BuildOemAck(req, resp, OEM_RESPONSE_SIZE);
    len := OEM_RESPONSE_SIZE;
  }

  /** The echo acknowledgement. The pattern moves up by four bytes and the extension header by
      four, over each other when `req == resp`. */
  method BuildOemEchoAck(req: array<byte>, resp: array<byte>) returns (len: nat)
    requires req.Length >= 102 && resp.Length >= 106
    modifies resp
    ensures len == 106 && resp[..len] == EchoReply(old(req[..]))
    ensures resp[len..] == old(resp[len..])
  {
    ghost var was := req[..];
    ghost var rest := resp[106..];
    Move(resp, OEM_RESPONSE_SIZE, req, 38, PATTERN_SIZE);
    assert resp[42..106] == was[38..102] && resp[106..] == rest;
    assert req[..38] == was[..38] by {
      if req == resp {
        assert req[..38] == resp[..42][..38];
      }
    }
    HeaderReadsPrefix(req[..], was);
    ghost var tail := resp[42..];
    assert tail[..64] == was[38..102] && tail[64..] == rest;
    BuildOemAck(req, resp, 106);
    assert resp[42..] == tail;
    assert resp[..106] == resp[..42] + tail[..64];
    assert resp[106..] == tail[64..];
    len := 106;
  }

  /** The reply header and extension header come from the first 38 request bytes alone. */
  lemma HeaderReadsPrefix(a: seq<byte>, b: seq<byte>)
    requires |a| >= 38 && |b| >= 38 && a[..38] == b[..38]
    ensures ResponseHeader(a, 0, 0, 76) == ResponseHeader(b, 0, 0, 76) && a[34..38] == b[34..38]
  {
    assert forall k :: 0 <= k < 38 ==> a[k] == a[..38][k] == b[..38][k] == b[k];
  }

  /** The host MAC acknowledgement; the two reserved bytes before the address keep whatever the
      response buffer held. */
  method BuildOemGetMacAck(req: array<byte>, resp: array<byte>, mac: Mac) returns (len: nat)
    requires req.Length >= HEADER_SIZE + 8 && resp.Length >= 50
    modifies resp
    ensures len == 50 && resp[..len] == OemReply(old(req[..]), old(resp[42..44]) + mac)
    ensures resp[len..] == old(resp[len..])
  {
    ghost var reserved := resp[42..44];
    ghost var rest := resp[50..];
    BuildOemAck(req, resp, 50);
    ghost var head := resp[..42];
    assert resp[42..][..2] == reserved && resp[42..][8..] == rest;
    assert forall k :: 0 <= k < 42 ==> resp[k] == head[k];
    assert forall k :: 42 <= k < 44 ==> resp[k] == reserved[k - 42];
    assert forall k :: 50 <= k < resp.Length ==> resp[k] == rest[k - 50];
    forall k | 0 <= k < 6 { resp[44 + k] := mac[k]; }
    assert resp[..50] == head + (reserved + mac);
    len := 50;
  }

  /** The filter acknowledgement, for a filter that does not live in the response buffer. */
  method BuildOemGetFilterAck(req: array<byte>, resp: array<byte>, filter: seq<byte>) returns (len: nat)
    requires req.Length >= HEADER_SIZE + 8 && resp.Length >= 66 && |filter| == FILTER_SIZE
    modifies resp
    ensures len == 66 && resp[..len] == OemReply(old(req[..]), filter)
    ensures resp[len..] == old(resp[len..])
  {
    ghost var rest := resp[66..];
    BuildOemAck(req, resp, 66);
    ghost var head := resp[..42];
    assert resp[42..][24..] == rest;
    assert forall k :: 0 <= k < 42 ==> resp[k] == head[k];
    assert forall k :: 66 <= k < resp.Length ==> resp[k] == rest[k - 66];
    forall k | 0 <= k < FILTER_SIZE { resp[42 + k] := filter[k]; }
    assert resp[..66] == head + filter;
    len := 66;
  }

  /** The standard acknowledgements that carry a payload: version, passthrough statistics in
      either layout, link status. */
  method BuildStdAck(req: array<byte>, resp: array<byte>, body: seq<byte>) returns (len: nat)
    requires req.Length >= HEADER_SIZE && |body| < 0x1000 && resp.Length >= SIMPLE_RESPONSE_SIZE + |body|
    modifies resp
    ensures len == SIMPLE_RESPONSE_SIZE + |body| && resp[..len] == StdReply(old(req[..]), body)
    ensures resp[len..] == old(resp[len..])
  {
    ghost var rest := resp[34 + |body|..];
    BuildResponseHeader(req, resp, 0, 0, 4 + |body|);
    ghost var head := resp[..34];
    assert resp[34..][|body|..] == rest;
    assert forall k :: 0 <= k < 34 ==> resp[k] == head[k];
    assert forall k :: 34 + |body| <= k < resp.Length ==> resp[k] == rest[k - 34 - |body|];
    forall k | 0 <= k < |body| { resp[34 + k] := body[k]; }
    len := SIMPLE_RESPONSE_SIZE + |body|;
    assert resp[..len] == head + body;
  }

  // ----- agreement with the client -----

  /** A reply built over a request that carries `cmd` is accepted as the response to `cmd`, and
      to no other command type, provided its body has the size the client expects. */
  lemma StdReplyAgrees(req: seq<byte>, code: byte, body: seq<byte>, other: Command)
    requires |req| >= HEADER_SIZE && req[AT_TYPE] == code < 0x80
    requires |body| < 0x1000 && StdResponseSize(code) == SIMPLE_RESPONSE_SIZE + |body|
    ensures Validate(StdReply(req, body), other) == Ack <==> other == Std(code)
  {
    var r := StdReply(req, body);
    assert r[AT_TYPE] == ResponseBit(code) && Be16(r, AT_LENGTH) == 4 + |body|;
    if Validate(r, other) == Ack {
      AckDeterminesCommand(r, other, Std(code));
    }
  }

  lemma OemReplyAgrees(req: seq<byte>, sub: byte, body: seq<byte>, other: Command)
    requires |req| >= HEADER_SIZE + 8 && req[AT_TYPE] == OEM_COMMAND && req[AT_REQUEST_SUB] == sub
    requires |body| < 0x1000 && OemResponseSize(sub) == OEM_RESPONSE_SIZE + |body|
    ensures Validate(OemReply(req, body), other) == Ack <==> other == Oem(sub)
  {
    var r := OemReply(req, body);
    assert r[AT_TYPE] == ResponseBit(OEM_COMMAND) && Be16(r, AT_LENGTH) == 12 + |body|;
    assert r[34..38] == MANUFACTURER && r[AT_RESPONSE_SUB] == req[34..38][3] == sub;
    if Validate(r, other) == Ack {
      AckDeterminesCommand(r, other, Oem(sub));
    }
  }

  /** The daemon's echo test compares what comes back with what it sent: the reply to any echo
      command carries that command's pattern. */
  lemma EchoCarriesPattern(channel: byte, pattern: seq<byte>, other: Command)
    requires |pattern| == PATTERN_SIZE
    ensures var r := EchoReply(OemFrame(OEM_ECHO, channel, pattern));
            r[42..106] == pattern && (Validate(r, other) == Ack <==> other == Oem(OEM_ECHO))
  {
    var req := OemFrame(OEM_ECHO, channel, pattern);
    assert req[38..102] == pattern;
    OemReplyAgrees(req, OEM_ECHO, req[38..102], other);
  }
}
