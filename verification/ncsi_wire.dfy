/** What stands on the wire, byte by byte: every frame the daemon sends, and which of the frames
    that it receives pass its health checks. */
module NcsiWire {
  import opened Bytes
  import opened NcsiFrames
  import opened NcsiFsm
  import opened NcsiSafety
  import opened NcsiRetry
  import opened NcsiRecovery
  import opened Options
  import T = NcsiTheorems

  // ----- sent -----

  /** A command as it goes out: broadcast from a fixed address, ethertype 0x88F8, header revision 1,
      the packet type, the channel, the payload's length in network order, eight zeros, the payload. */
  predicate Sent(tx: seq<byte>, code: byte, channel: byte, payload: seq<byte>) {
    && |payload| < 256
    && tx == [0xFF, 0xFF, 0xFF, 0xFF, 0xFF, 0xFF, 0xAB, 0xAB, 0xAB, 0xAB, 0xAB, 0xAB, 0x88, 0xF8, 0, 1, 0, 0]
             + [code, channel, 0, |payload|] + [0, 0, 0, 0, 0, 0, 0, 0] + payload
  }

  /** The payload of an OEM command: the manufacturer, three zeros, the subtype, the body. */
  predicate SentOem(tx: seq<byte>, sub: byte, channel: byte, body: seq<byte>) {
    |body| < 200 && Sent(tx, 0x50, channel, [0, 0, 0x2B, 0x79, 0, 0, 0, sub] + body)
  }

  /** Port 3959, at the given address, enabled, whatever the IP address. */
  function FilterFor(mac: Mac): seq<byte> {
    [0, 0] + mac + [0, 0, 0, 0, 15, 119, 0, 1, 0, 0, 0, 0, 0, 0, 0, 0]
  }

  /** The frames there are, with the daemon's records: an address filter, the OEM commands, and
      those without a payload. A channel is asked for its health as the channel under test, but for
      the link, which is always channel 0's. */
  predicate WellSent(tx: seq<byte>, dbg: Debug, mac: Mac)
    requires |tx| > AT_CHANNEL
  {
    var code, channel := tx[18], tx[19];
    if code == 0x0E then Sent(tx, 0x0E, channel, mac + [1, 1])
    else if code == 0x50 then
      || SentOem(tx, 0, 0, []) || SentOem(tx, 1, channel, FilterFor(mac))
      || SentOem(tx, 2, dbg.chUnderTest, []) || SentOem(tx, 3, dbg.chUnderTest, dbg.ping)
    else if code == 0x1A then Sent(tx, 0x1A, dbg.chUnderTest, [])
    else if code in {0x06, 0x0A, 0x15, 0x16} then Sent(tx, code, 0, [])
    else code in {0x00, 0x03, 0x05} && Sent(tx, code, channel, [])
  }

  lemma HeaderIs(code: byte, channel: byte, payload: seq<byte>)
    requires |payload| < 256
    ensures Sent(Header(code, channel, |payload|) + payload, code, channel, payload)
  {
    var h := Header(code, channel, |payload|);
    assert h[..18] == [0xFF, 0xFF, 0xFF, 0xFF, 0xFF, 0xFF, 0xAB, 0xAB, 0xAB, 0xAB, 0xAB, 0xAB, 0x88, 0xF8, 0, 1, 0, 0];
    assert h[18..22] == [code, channel, 0, |payload|];
    assert h[22..30] == [0, 0, 0, 0, 0, 0, 0, 0];
    assert h == h[..18] + h[18..22] + h[22..30];
  }

  lemma SimpleIsSent(code: byte, channel: byte)
    ensures Sent(SimpleFrame(code, channel), code, channel, [])
  {
    hide Header;
    HeaderIs(code, channel, []);
    assert SimpleFrame(code, channel) == Header(code, channel, 0) + [];
  }

  lemma SetMacIsSent(channel: byte, mac: Mac)
    ensures Sent(SetMacFrame(channel, mac), 0x0E, channel, mac + [1, 1])
  {
    hide Header;
    HeaderIs(0x0E, channel, mac + [1, 1]);
    assert SetMacFrame(channel, mac) == Header(0x0E, channel, 8) + (mac + [1, 1]);
  }

  lemma OemIsSent(sub: byte, channel: byte, body: seq<byte>)
    requires |body| < 200
    ensures SentOem(OemFrame(sub, channel, body), sub, channel, body)
  {
    hide Header;
    var payload := [0, 0, 0x2B, 0x79, 0, 0, 0, sub] + body;
    HeaderIs(0x50, channel, payload);
    assert OemHeader(sub) == [0, 0, 0x2B, 0x79, 0, 0, 0, sub];
    assert OemFrame(sub, channel, body) == Header(0x50, channel, 8 + |body|) + payload;
  }

  lemma FilterIs(dbg: Debug, mac: Mac)
    requires !dbg.filterDisable
    ensures ConfigFilter(dbg, mac) == FilterFor(mac)
  {
    assert Zeros(8) == [0, 0, 0, 0, 0, 0, 0, 0];
  }

  lemma SentShows(tx: seq<byte>, code: byte, channel: byte, payload: seq<byte>)
    requires Sent(tx, code, channel, payload)
    ensures |tx| == 30 + |payload| && tx[18] == code && tx[19] == channel && tx[20] == 0 && tx[21] == |payload| && tx[30..] == payload
  {
  }

  lemma CommandIsWellSent(cmd: Command, channel: byte, dbg: Debug, mac: Mac)
    requires cmd in [CLEAR, Std(GET_VERSION_ID), Std(GET_CAPABILITIES), RESET, Oem(OEM_GET_HOST_MAC), SET_MAC, ENABLE, Std(ENABLE_TX)]
    requires cmd !in [CLEAR, RESET, SET_MAC, ENABLE] ==> channel == 0
    ensures |L2Frame(cmd, channel, mac)| >= HEADER_SIZE && WellSent(L2Frame(cmd, channel, mac), dbg, mac)
  {
    hide Sent, SimpleFrame, OemFrame, SetMacFrame;
    match cmd
    case Oem(sub) =>
      OemIsSent(sub, channel, []);
      SentShows(L2Frame(cmd, channel, mac), 0x50, channel, [0, 0, 0x2B, 0x79, 0, 0, 0, sub] + []);
    case Std(code) =>
      if code == SET_MAC_ADDRESS {
        SetMacIsSent(channel, mac);
        SentShows(L2Frame(cmd, channel, mac), code, channel, mac + [1, 1]);
      } else {
        SimpleIsSent(code, channel);
        SentShows(L2Frame(cmd, channel, mac), code, channel, []);
      }
  }

  lemma L2IsWellSent(st: NcsiState, dbg: Debug, mac: Mac, rx: seq<byte>)
    requires Joint(st, dbg) && L2Spec(st, dbg, mac, rx).tx != []
    ensures var tx := L2Spec(st, dbg, mac, rx).tx; |tx| >= HEADER_SIZE && WellSent(tx, dbg, mac)
  {
    hide WellSent, L2Answer, SimpleFrame, OemFrame, SetMacFrame, Validate;
    var role := L2RoleOf(st.l2);
    if role.Send? {
      CommandIsWellSent(role.cmd, role.channel, dbg, mac);
    } else if role.StopGate? {
      CommandIsWellSent(RESET, 0, dbg, mac);
    } else if role.Await? {
      L2AnswerSendsNothing(Sys(st, dbg, mac), rx, role.cmd, role.perChannel, L2Spec(st, dbg, mac, rx));
    }
  }

  lemma L3L4IsWellSent(st: NcsiState, dbg: Debug, mac: Mac, rx: seq<byte>)
    requires !dbg.filterDisable && L3L4Spec(st, dbg, mac, rx).tx != []
    ensures var tx := L3L4Spec(st, dbg, mac, rx).tx; |tx| >= HEADER_SIZE && WellSent(tx, dbg, mac)
  {
    hide Sent, OemFrame, Validate, ConfigFilter;
    var tx := L3L4Spec(st, dbg, mac, rx).tx;
    var channel := if st.l3l4 == L3L4_BEGIN then 0 else st.l3l4Channel;
    FilterIs(dbg, mac);
    OemIsSent(OEM_SET_FILTER, channel, FilterFor(mac));
    SentShows(tx, 0x50, channel, [0, 0, 0x2B, 0x79, 0, 0, 0, 1] + FilterFor(mac));
  }

  lemma TestIsWellSent(st: NcsiState, dbg: Debug, mac: Mac, rx: seq<byte>)
    requires TestSpec(st, dbg, mac, rx).tx != []
    ensures var tx := TestSpec(st, dbg, mac, rx).tx; |tx| >= HEADER_SIZE && WellSent(tx, dbg, mac)
  {
    hide Sent, SimpleFrame, OemFrame, TestVerdict, MayRetry;
    var tx, cmd := TestSpec(st, dbg, mac, rx).tx, TestRoleOf(st.test).cmd;
    var channel := TestChannel(cmd, dbg);
    match cmd
    case Std(code) =>
      SimpleIsSent(code, channel);
      SentShows(tx, code, channel, []);
    case Oem(sub) =>
      var body := if sub == OEM_ECHO then dbg.ping else [];
      OemIsSent(sub, channel, body);
      SentShows(tx, 0x50, channel, [0, 0, 0x2B, 0x79, 0, 0, 0, sub] + body);
  }

  lemma RoundIsWellSent(s: Sys, rx: seq<byte>)
    requires Joint(s.st, s.dbg) && !s.dbg.filterDisable && RoundSpec(s, rx).tx != []
    ensures var tx := RoundSpec(s, rx).tx; |tx| >= HEADER_SIZE && WellSent(tx, s.dbg, s.mac)
  {
    hide L2Spec, L3L4Spec, TestSpec, WellSent;
    match Scheduled(s.st, s.dbg)
    case L2Machine => L2IsWellSent(s.st, s.dbg, s.mac, rx);
    case L3L4Machine => L3L4IsWellSent(s.st, s.dbg, s.mac, rx);
    case TestMachine =>
      TestIsWellSent(if s.st.test == TEST_END then s.st.(retestDelay := RESTART_DELAY_COUNT) else s.st, s.dbg, s.mac, rx);
    case NoMachine =>
  }

  /** Every frame the daemon sends is one of those, byte for byte: a filter, be it of addresses or of
      the host's traffic, is for the address from the NIC's host MAC response, and the latter is sent
      only if some channel does not count as hostless. */
  lemma WireFormat(w: World, rx: seq<byte>)
    requires Reachable(w) && RoundSpec(w.sys, rx).tx != []
    ensures var tx := RoundSpec(w.sys, rx).tx;
            && |tx| >= HEADER_SIZE && WellSent(tx, w.sys.dbg, w.sys.mac)
            && (tx[18] == 0x0E || SetsFilter(tx) ==> w.hist.hostMac == Some(w.sys.mac))
            && (SetsFilter(tx) ==> exists c: byte :: c < w.hist.reported && !SaidHostless(w.hist, c))
  {
    hide Plausible, Inv, RoundSpec, WellSent;
    ReachableIsSafe(w);
    ReachableIsOrderly(w);
    InvIsJoint(w);
    RoundIsWellSent(w.sys, rx);
    FiltersAreForHost(w, rx);
  }

  predicate SetsFilter(tx: seq<byte>) { |tx| > 37 && tx[18] == 0x50 && tx[37] == 1 }

  predicate SaidHostless(h: History, c: byte) { c in h.seenHostless && h.seenHostless[c] }

  lemma L2SetsNoFilter(st: NcsiState, dbg: Debug, mac: Mac, rx: seq<byte>)
    ensures !SetsFilter(L2Spec(st, dbg, mac, rx).tx)
  {
    hide L2Answer, Validate;
    var role := L2RoleOf(st.l2);
    if role.Send? {
      L2FrameCarries(role.cmd, role.channel, mac);
    } else if role.Await? {
      L2AnswerSendsNothing(Sys(st, dbg, mac), rx, role.cmd, role.perChannel, L2Spec(st, dbg, mac, rx));
    }
  }

  lemma TestSetsNoFilter(st: NcsiState, dbg: Debug, mac: Mac, rx: seq<byte>)
    ensures !SetsFilter(TestSpec(st, dbg, mac, rx).tx)
  {
    hide TestVerdict, MayRetry;
    if TestRoleOf(st.test).Ask? {
      TestFrameCarries(TestRoleOf(st.test).cmd, dbg);
    }
  }

  lemma FiltersAreForHost(w: World, rx: seq<byte>)
    requires Inv(w)
    ensures var tx := RoundSpec(w.sys, rx).tx;
            && (|tx| >= HEADER_SIZE && (tx[18] == 0x0E || SetsFilter(tx)) ==> w.hist.hostMac == Some(w.sys.mac))
            && (SetsFilter(tx) ==> exists c: byte :: c < w.hist.reported && !SaidHostless(w.hist, c))
  {
    hide L2Spec, L3L4Spec, TestSpec, ScriptFollowed;
    T.RoundSetsMac(w.sys, rx);
    match Scheduled(w.sys.st, w.sys.dbg)
    case L2Machine => L2SetsNoFilter(w.sys.st, w.sys.dbg, w.sys.mac, rx);
    case L3L4Machine =>
      assert !SaidHostless(w.hist, 0) || !SaidHostless(w.hist, 1);
    case TestMachine =>
      TestSetsNoFilter(if w.sys.st.test == TEST_END then w.sys.st.(retestDelay := RESTART_DELAY_COUNT) else w.sys.st,
                       w.sys.dbg, w.sys.mac, rx);
    case NoMachine =>
  }

  // ----- received -----

  /** A positive response of `size` bytes to a command without subtypes. */
  predicate Good(rx: seq<byte>, size: nat, code: byte) {
    && 34 <= size < 200 && |rx| >= size && rx[30..34] == [0, 0, 0, 0]
    && code < 128 && rx[18] == code + 128 && rx[20..22] == [0, size - 30]
  }

  predicate GoodOem(rx: seq<byte>, size: nat, sub: byte) {
    size >= 42 && Good(rx, size, 0x50) && rx[34..38] == [0, 0, 0x2B, 0x79] && rx[41] == sub
  }

  /** The hostless flags of every channel the NIC has, with that of the channel under test taken
      from the response. */
  predicate AllHostless(s: Sys, flags: byte) {
    var flags0, flags1 := if s.dbg.chUnderTest == 0 then flags else s.st.flags0, if s.dbg.chUnderTest == 0 then s.st.flags1 else flags;
    flags0 / 4 % 2 == 1 && (s.st.channelCount > 1 ==> flags1 / 4 % 2 == 1)
  }

  /** The frames that pass the health check under way: the pattern comes back; the filter is the one
      that was configured, if one was and the NIC is not hostless; the statistics have the
      size the firmware gives them; the link is up. */
  predicate Passes(s: Sys, rx: seq<byte>) {
    if s.st.test == 2 then GoodOem(rx, 106, 3) && rx[42..106] == s.dbg.ping
    else if s.st.test == 4 then
      && GoodOem(rx, 66, 2)
      && (s.st.l3l4 < 2 || AllHostless(s, rx[57])
          || (rx[44..50] == s.mac && rx[50..54] == [0, 0, 0, 0] && rx[54..56] == [15, 119]))
    else if s.st.test == 6 then Good(rx, if s.dbg.mlxLegacy then 74 else 78, 0x1A)
    else s.st.test == 8 && Good(rx, 46, 0x0A) && rx[37] % 2 == 1
  }

  lemma GoodMeans(rx: seq<byte>, code: byte, size: nat)
    requires code < 128 && 34 <= size < 200
    ensures ValidateSized(rx, Std(code), size) == Ack <==> Good(rx, size, code)
  {
    if |rx| >= 34 {
      assert rx[30..34] == [rx[30], rx[31], rx[32], rx[33]];
      assert rx[20..22] == [rx[20], rx[21]];
    }
  }

  lemma GoodOemMeans(rx: seq<byte>, sub: byte, size: nat)
    requires 42 <= size < 200
    ensures ValidateSized(rx, Oem(sub), size) == Ack <==> GoodOem(rx, size, sub)
  {
    if |rx| >= 34 {
      assert rx[30..34] == [rx[30], rx[31], rx[32], rx[33]];
      assert rx[20..22] == [rx[20], rx[21]];
    }
  }

  /** What a round of a health check does: on with the run; or, with tries left, a new run; or the
      clear. A valid filter response leaves its flags behind. */
  predicate Checked(s: Sys, rx: seq<byte>, p: Poll) {
    var flagged := s.st.test == 4 && GoodOem(rx, 66, 2);
    var st := if !flagged then s.st else if s.dbg.chUnderTest == 0 then s.st.(flags0 := rx[57]) else s.st.(flags1 := rx[57]);
    && p.tx == [] && p.mac == s.mac
    && if Passes(s, rx) then p.st == st.(test := st.test + 1) && p.dbg == s.dbg
       else if s.dbg.tries != 4 then p.st == st.(test := 0) && p.dbg == s.dbg.(tries := (s.dbg.tries + 1) % 256)
       else p.st == CLEARED && p.dbg == s.dbg.(tries := 0, failCount := (s.dbg.failCount + 1) % 0x1_0000_0000)
  }

  lemma FilterPasses(s: Sys, rx: seq<byte>)
    requires s.st.test == 4 && s.st.l3l4 <= L3L4_END && !s.dbg.filterDisable && GoodOem(rx, 66, 2)
    ensures Passes(s, rx)
            <==> s.st.l3l4 != L3L4_END || IsHostless(StashFlags(s.st, s.dbg.chUnderTest, rx[57])) || FilterMatches(rx, s.dbg, s.mac)
  {
    FilterIs(s.dbg, s.mac);
    var want := FilterFor(s.mac);
    assert want[2..8] == s.mac && want[8..12] == [0, 0, 0, 0] && want[12..14] == [15, 119];
  }

  lemma VerdictMeans(s: Sys, rx: seq<byte>, cmd: Command)
    requires TestRoleOf(s.st.test) == Check(cmd) && s.st.l3l4 <= L3L4_END && !s.dbg.filterDisable
    ensures TestVerdict(s.st, s.dbg, s.mac, rx, cmd).1 <==> Passes(s, rx)
    ensures cmd == Oem(OEM_GET_FILTER) ==> (Validate(rx, cmd) == Ack <==> GoodOem(rx, 66, 2))
  {
    hide ValidateSized, Good, GoodOem, IsHostless, FilterMatches, AllHostless;
    if cmd == Oem(OEM_ECHO) {
      GoodOemMeans(rx, OEM_ECHO, 106);
    } else if cmd == Oem(OEM_GET_FILTER) {
      GoodOemMeans(rx, OEM_GET_FILTER, 66);
      if GoodOem(rx, 66, 2) { FilterPasses(s, rx); }
    } else if cmd == Std(GET_PASSTHROUGH_STATISTICS) {
      GoodMeans(rx, GET_PASSTHROUGH_STATISTICS, if s.dbg.mlxLegacy then 74 else 78);
    } else {
      GoodMeans(rx, GET_LINK_STATUS, 46);
    }
  }

  lemma CheckIs(s: Sys, rx: seq<byte>, cmd: Command, p: Poll)
    requires TestRoleOf(s.st.test) == Check(cmd) && s.dbg.maxTries == MAX_TRIES
    requires p == TestCheck(s.st, s.dbg, s.mac, rx, cmd) && (TestVerdict(s.st, s.dbg, s.mac, rx, cmd).1 <==> Passes(s, rx))
    requires cmd == Oem(OEM_GET_FILTER) ==> (Validate(rx, cmd) == Ack <==> GoodOem(rx, 66, 2))
    ensures Checked(s, rx, p)
  {
    hide TestVerdict, Passes, GoodOem, Validate, MayRetry;
    RetryUnlessSpent(s.dbg);
  }

  /** In every reachable state, the round that looks at the answer to a health check. */
  lemma CheckMeans(w: World, rx: seq<byte>)
    requires Reachable(w) && w.sys.st.test in {2, 4, 6, 8}
    ensures Checked(w.sys, rx, RoundSpec(w.sys, rx))
  {
    hide Plausible, Inv, TestVerdict, Passes, Checked;
    ReachableIsSafe(w);
    ReachableIsOrderly(w);
    InvIsJoint(w);
    CheckedWhenJoint(w.sys, rx);
  }

  lemma CheckedWhenJoint(s: Sys, rx: seq<byte>)
    requires Joint(s.st, s.dbg) && !s.dbg.filterDisable && s.st.test in {2, 4, 6, 8}
    ensures Checked(s, rx, RoundSpec(s, rx))
  {
    hide TestVerdict, Passes, Checked, TestCheck;
    T.SenderIsScheduled(s.st, s.dbg);
    var cmd := TestRoleOf(s.st.test).cmd;
    VerdictMeans(s, rx, cmd);
    CheckIs(s, rx, cmd, RoundSpec(s, rx));
  }

  /** The frames that L2 configuration takes for the answer it waits for: the version, the
      capabilities with one or two channels, the host's address, or a plain acknowledgement. */
  predicate Answers(l2: nat, rx: seq<byte>) {
    if l2 == 4 then Good(rx, 70, 0x15)
    else if l2 == 6 then Good(rx, 62, 0x16) && 1 <= rx[61] <= 2
    else if l2 == 15 then GoodOem(rx, 50, 0)
    else Good(rx, 34, if l2 in {2, 8} then 0x00 else if l2 in {10, 12} then 0x05 else if l2 in {17, 19} then 0x0E
                      else if l2 in {21, 23} then 0x03 else 0x06)
  }

  /** What a round of L2 configuration does with the frame it was waiting for: one step on, or past the
      second channel's pair on a NIC with one channel; what is learned; or the clear. */
  predicate Answered(s: Sys, rx: seq<byte>, p: Poll) {
    var l2 := s.st.l2;
    && p.tx == []
    && if Answers(l2, rx) then
         var count := if l2 == 6 then rx[61] else s.st.channelCount;
         && p.st == s.st.(channelCount := count, l2 := l2 + if l2 in {6, 10, 17, 21} && count == 1 then 3 else 1)
         && p.mac == (if l2 == 15 then rx[44..50] else s.mac)
         && p.dbg == s.dbg.(loopback := l2 != 2 && s.dbg.loopback, mlxLegacy := if l2 == 4 then rx[54] == 8 else s.dbg.mlxLegacy)
       else
         && p.st == CLEARED && p.mac == s.mac
         && p.dbg == s.dbg.(failCount := (s.dbg.failCount + 1) % 0x1_0000_0000,
                            loopback := if l2 == 2 then Echoed(rx) else s.dbg.loopback)
  }

  /** The first command, come back. */
  predicate Echoed(rx: seq<byte>) { |rx| >= 30 && Sent(rx[..30], 0x00, 0, []) }

  lemma EchoedMeans(rx: seq<byte>)
    ensures IsLoopback(rx) <==> Echoed(rx)
  {
    SimpleIsSent(CLEAR_INITIAL_STATE, 0);
  }

  lemma AnswersMean(l2: nat, cmd: Command, rx: seq<byte>)
    requires L2RoleOf(l2).Await? && L2RoleOf(l2).cmd == cmd
    ensures Accepts(rx, cmd, Validate(rx, cmd)) <==> Answers(l2, rx)
  {
    hide ValidateSized, Good, GoodOem;
    match cmd
    case Std(code) => GoodMeans(rx, code, StdResponseSize(code));
    case Oem(sub) => GoodOemMeans(rx, sub, OemResponseSize(sub));
  }

  lemma AckIsLong(rx: seq<byte>, cmd: Command)
    ensures Validate(rx, cmd) == Ack ==> |rx| >= ResponseSize(cmd)
  {
  }

  lemma AcceptedIs(s: Sys, rx: seq<byte>, cmd: Command, perChannel: bool, p: Poll)
    requires Joint(s.st, s.dbg) && L2RoleOf(s.st.l2).Await? && L2RoleOf(s.st.l2).cmd == cmd && L2RoleOf(s.st.l2).perChannel == perChannel
    requires Validate(rx, cmd) == Ack && Answers(s.st.l2, rx) && Accepts(rx, cmd, Ack)
    requires p == L2Answer(s.st, s.dbg, s.mac, rx, cmd, perChannel, Ack)
    ensures Answered(s, rx, p)
  {
    hide Answers, Validate, L2Answer;
    AckIsLong(rx, cmd);
    L2AcceptShape(s.st, s.dbg, s.mac, rx, cmd, perChannel, p);
    HeardIs(s.st, s.dbg, s.mac, rx, cmd, perChannel, Ack, p);
  }

  lemma HeardIs(st: NcsiState, dbg: Debug, mac: Mac, rx: seq<byte>, cmd: Command, perChannel: bool, resp: ResponseType, p: Poll)
    requires (resp == Ack ==> |rx| >= ResponseSize(cmd)) && p == L2Answer(st, dbg, mac, rx, cmd, perChannel, resp)
    ensures p.dbg.loopback == if st.l2 == L2_CLEAR_0_RESPONSE then resp != Ack && IsLoopback(rx) else dbg.loopback
  {
    hide IsLoopback;
    HeardStays(st, dbg, mac, rx, cmd, perChannel, resp, p);
  }

  lemma HeardStays(st: NcsiState, dbg: Debug, mac: Mac, rx: seq<byte>, cmd: Command, perChannel: bool, resp: ResponseType, p: Poll)
    requires (resp == Ack ==> |rx| >= ResponseSize(cmd)) && p == L2Answer(st, dbg, mac, rx, cmd, perChannel, resp)
    ensures p.dbg.loopback == Heard(st, dbg, rx, resp).loopback
  {
    hide Heard, ChannelStep, CountFailure;
    if resp != Ack { FailureKeepsLoopback(Heard(st, dbg, rx, resp)); }
    else if cmd == Std(GET_CAPABILITIES) { FailureKeepsLoopback(Heard(st, dbg, rx, resp)); }
  }

  lemma FailureKeepsLoopback(dbg: Debug)
    ensures CountFailure(dbg).loopback == dbg.loopback
  {
  }

  lemma RefusedIs(s: Sys, rx: seq<byte>, cmd: Command, perChannel: bool, p: Poll)
    requires L2RoleOf(s.st.l2).Await? && L2RoleOf(s.st.l2).cmd == cmd && L2RoleOf(s.st.l2).perChannel == perChannel
    requires !Answers(s.st.l2, rx) && !Accepts(rx, cmd, Validate(rx, cmd))
    requires p == L2Answer(s.st, s.dbg, s.mac, rx, cmd, perChannel, Validate(rx, cmd))
    ensures Answered(s, rx, p)
  {
    hide Answers, Validate, L2Answer, Echoed, IsLoopback;
    AckIsLong(rx, cmd);
    L2ClearShape(s.st, s.dbg, s.mac, rx, cmd, perChannel, Validate(rx, cmd), p);
    HeardIs(s.st, s.dbg, s.mac, rx, cmd, perChannel, Validate(rx, cmd), p);
    EchoedMeans(rx);
  }

  lemma AnsweredWhenJoint(s: Sys, rx: seq<byte>)
    requires Joint(s.st, s.dbg) && s.st.l2 in {2, 4, 6, 8, 10, 12, 15, 17, 19, 21, 23, 25}
    ensures Answered(s, rx, RoundSpec(s, rx))
  {
    hide Answered, Answers, Validate, L2Answer;
    T.SenderIsScheduled(s.st, s.dbg);
    var role := L2RoleOf(s.st.l2);
    AnswersMean(s.st.l2, role.cmd, rx);
    if Answers(s.st.l2, rx) {
      AcceptedIs(s, rx, role.cmd, role.perChannel, RoundSpec(s, rx));
    } else {
      RefusedIs(s, rx, role.cmd, role.perChannel, RoundSpec(s, rx));
    }
  }

  /** In every reachable state, the round that looks at the answer to an L2 command. */
  lemma AnswerMeans(w: World, rx: seq<byte>)
    requires Reachable(w) && w.sys.st.l2 in {2, 4, 6, 8, 10, 12, 15, 17, 19, 21, 23, 25}
    ensures Answered(w.sys, rx, RoundSpec(w.sys, rx))
  {
    hide Inv, Answered, RoundSpec, Joint;
    ReachableIsSafe(w);
    InvIsJoint(w);
    AnsweredWhenJoint(w.sys, rx);
  }

  /** The round that looks at the answer to a filter: on to the next channel, or done, or the clear. */
  lemma FilterAnswerMeans(w: World, rx: seq<byte>)
    requires Reachable(w) && w.sys.st.l3l4Waiting
    ensures var s, p := w.sys, RoundSpec(w.sys, rx);
            && p.tx == [] && p.mac == s.mac
            && if !GoodOem(rx, 42, 1) then p.st == CLEARED && p.dbg == s.dbg.(failCount := (s.dbg.failCount + 1) % 0x1_0000_0000)
               else p.dbg == s.dbg && p.st == if s.st.l3l4Channel + 1 < s.st.channelCount
                                              then s.st.(l3l4Channel := s.st.l3l4Channel + 1, l3l4Waiting := false)
                                              else s.st.(l3l4 := 2, l3l4Channel := 0, l3l4Waiting := false)
  {
    hide Inv, RoundSpec, L3L4Spec, GoodOem;
    ReachableIsSafe(w);
    InvIsJoint(w);
    FilterAnswered(w.sys, rx);
  }

  lemma FilterAnswered(s: Sys, rx: seq<byte>)
    requires Joint(s.st, s.dbg) && s.st.l3l4Waiting
    ensures var p := RoundSpec(s, rx);
            && p.tx == [] && p.mac == s.mac
            && if !GoodOem(rx, 42, 1) then p.st == CLEARED && p.dbg == s.dbg.(failCount := (s.dbg.failCount + 1) % 0x1_0000_0000)
               else p.dbg == s.dbg && p.st == if s.st.l3l4Channel + 1 < s.st.channelCount
                                              then s.st.(l3l4Channel := s.st.l3l4Channel + 1, l3l4Waiting := false)
                                              else s.st.(l3l4 := 2, l3l4Channel := 0, l3l4Waiting := false)
  {
    hide ValidateSized, GoodOem;
    GoodOemMeans(rx, OEM_SET_FILTER, 42);
  }

  // ----- the other rounds -----

  predicate Asks(tx: seq<byte>, code: byte, channel: byte) { |tx| >= 30 && tx[18] == code && tx[19] == channel }

  predicate AsksOem(tx: seq<byte>, sub: byte, channel: byte) { |tx| >= 38 && Asks(tx, 0x50, channel) && tx[37] == sub }

  /** What L2 configuration asks for in the states in which it asks. */
  predicate L2Asks(l2: nat, tx: seq<byte>) {
    if l2 == 14 then AsksOem(tx, 0, 0)
    else Asks(tx, if l2 in {1, 7} then 0x00 else if l2 == 3 then 0x15 else if l2 == 5 then 0x16 else if l2 in {9, 11} then 0x05
                  else if l2 in {16, 18} then 0x0E else if l2 in {20, 22} then 0x03 else 0x06,
              if l2 in {7, 11, 18, 22} then 1 else 0)
  }

  /** A round of L2 configuration that awaits nothing: the delay before it starts, the decision whether
      to stop, the end of a stop, or the next request. */
  predicate L2Quiet(s: Sys, p: Poll) {
    var st, dbg := s.st, s.dbg;
    if st.l2 == 0 then
      && p.tx == []
      && if st.restartDelay >= 99 then p.st == st.(l2 := 1, restartDelay := 0) && p.dbg == dbg.(pendingRestart := false)
         else p.st == st.(restartDelay := st.restartDelay + 1) && p.dbg == dbg
    else if st.l2 == 13 then
      p.tx == [] && p.st == CLEARED
      && p.dbg == dbg.(pendingStop := false, enabled := false, failCount := (dbg.failCount + 1) % 0x1_0000_0000)
    else if st.l2 == 9 && !dbg.pendingStop then p.tx == [] && p.st == st.(l2 := 14) && p.dbg == dbg
    else L2Asks(st.l2, p.tx) && p.st == st.(l2 := st.l2 + 1) && p.dbg == dbg
  }

  predicate TestAsks(s: Sys, tx: seq<byte>) {
    if s.st.test == 1 then AsksOem(tx, 3, s.dbg.chUnderTest)
    else if s.st.test == 3 then AsksOem(tx, 2, s.dbg.chUnderTest)
    else if s.st.test == 5 then Asks(tx, 0x1A, s.dbg.chUnderTest)
    else Asks(tx, 0x0A, 0)
  }

  /** A round of the health checks that awaits nothing: the next channel, the next request, or the end
      of a run, with the restart that was asked for. */
  predicate TestQuiet(s: Sys, p: Poll) {
    var st, dbg := s.st, s.dbg;
    if st.test == 0 then
      && p.tx == [] && p.st == st.(test := 1)
      && p.dbg == dbg.(runs := (dbg.runs + 1) % 0x1_0000_0000,
                       chUnderTest := if st.channelCount == 2 && dbg.chUnderTest == 0 then 1 else 0)
    else if st.test == 9 then
      && p.tx == []
      && if dbg.pendingRestart
         then p.st == CLEARED.(retestDelay := 1) && p.dbg == dbg.(tries := 0, failCount := (dbg.failCount + 1) % 0x1_0000_0000)
         else p.st == st.(test := 0, retestDelay := 0) && p.dbg == dbg.(tries := 0)
    else TestAsks(s, p.tx) && p.st == st.(test := st.test + 1) && p.dbg == dbg
  }

  /** The flags of every channel the NIC has say hostless. */
  predicate CountsAsHostless(st: NcsiState) { st.flags0 / 4 % 2 == 1 && (st.channelCount > 1 ==> st.flags1 / 4 % 2 == 1) }

  /** A round without an answer to look at: first L2 configuration, then a run of the health checks,
      then, unless the NIC is hostless, the filters, and then the health checks for ever; and nothing
      for a daemon that is off, but that a restart switches it on. */
  predicate Quiet(s: Sys, p: Poll) {
    && p.resp == NoResponse && p.mac == s.mac
    && if !s.dbg.enabled then p.tx == [] && p.st == s.st && p.dbg == s.dbg.(enabled := s.dbg.pendingRestart)
       else if s.st.l2 < 26 then L2Quiet(s, p)
       else if s.st.l3l4 == 2 || s.st.test != 9 || CountsAsHostless(s.st) then TestQuiet(s, p)
       else
         var channel := if s.st.l3l4 == 0 then 0 else s.st.l3l4Channel;
         && AsksOem(p.tx, 1, channel) && p.dbg == s.dbg
         && p.st == s.st.(l3l4 := 1, l3l4Channel := channel, l3l4Waiting := true, l3l4Command := 1)
  }

  lemma L2IsQuiet(s: Sys, rx: seq<byte>, p: Poll)
    requires Joint(s.st, s.dbg) && s.st.l2 < L2_END && !L2Awaits(s.st) && p == L2Spec(s.st, s.dbg, s.mac, rx)
    requires s.st.l2 == L2_RESTART ==> s.st.restartDelay < RESTART_DELAY_COUNT
    ensures L2Quiet(s, p) && p.resp == NoResponse && p.mac == s.mac
  {
    hide L2Frame, L2Answer, Validate, SimpleFrame;
    var role := L2RoleOf(s.st.l2);
    if role.Send? {
      L2FrameCarries(role.cmd, role.channel, s.mac);
      OemFramesAreLong(role.cmd, role.channel, s.mac);
    } else if role.StopGate? {
      SimpleIsSent(RESET_CHANNEL, 0);
      SentShows(SimpleFrame(RESET_CHANNEL, 0), RESET_CHANNEL, 0, []);
    }
  }

  lemma OemFramesAreLong(cmd: Command, channel: byte, mac: Mac)
    ensures cmd.Oem? ==> |L2Frame(cmd, channel, mac)| == 38
  {
  }

  lemma TestIsQuiet(s: Sys, rx: seq<byte>, p: Poll)
    requires Joint(s.st, s.dbg) && s.st.l2 == L2_END && !TestAwaits(s.st)
    requires p == TestSpec(if s.st.test == TEST_END then s.st.(retestDelay := RESTART_DELAY_COUNT) else s.st, s.dbg, s.mac, rx)
    ensures TestQuiet(s, p) && p.resp == NoResponse && p.mac == s.mac
  {
    hide TestFrame, TestCheck;
    var role := TestRoleOf(s.st.test);
    if role.Ask? {
      TestFrameCarries(role.cmd, s.dbg);
      OemChecksAreLong(role.cmd, s.dbg);
    }
  }

  lemma OemChecksAreLong(cmd: Command, dbg: Debug)
    ensures cmd.Oem? ==> |TestFrame(cmd, dbg)| >= 38
  {
  }

  lemma FilterIsQuiet(s: Sys, rx: seq<byte>, p: Poll)
    requires Joint(s.st, s.dbg) && Scheduled(s.st, s.dbg) == L3L4Machine && !L3L4Awaits(s.st)
    requires p == L3L4Spec(s.st, s.dbg, s.mac, rx)
    ensures p.resp == NoResponse && p.mac == s.mac && p.dbg == s.dbg
    ensures var channel := if s.st.l3l4 == 0 then 0 else s.st.l3l4Channel;
            AsksOem(p.tx, 1, channel) && p.st == s.st.(l3l4 := 1, l3l4Channel := channel, l3l4Waiting := true, l3l4Command := 1)
  {
    hide Validate, IsHostless, ConfigFilter;
  }

  lemma JointIsQuiet(s: Sys, rx: seq<byte>)
    requires Joint(s.st, s.dbg) && Orderly(s) && Awaited(s.st, s.dbg) == None
    ensures Quiet(s, RoundSpec(s, rx))
  {
    hide L2Spec, L3L4Spec, TestSpec, L2Quiet, TestQuiet, AsksOem;
    match Scheduled(s.st, s.dbg)
    case L2Machine => L2IsQuiet(s, rx, RoundSpec(s, rx));
    case L3L4Machine => FilterIsQuiet(s, rx, RoundSpec(s, rx));
    case TestMachine => TestIsQuiet(s, rx, RoundSpec(s, rx));
    case NoMachine =>
  }

  /** In every reachable state without a command outstanding, the round that follows. */
  lemma QuietRoundMeans(w: World, rx: seq<byte>)
    requires Reachable(w) && w.hist.outstanding == None
    ensures Quiet(w.sys, RoundSpec(w.sys, rx))
  {
    hide Inv, Orderly, Plausible, Quiet, RoundSpec, Awaited;
    ReachableIsSafe(w);
    ReachableIsOrderly(w);
    InvIsJoint(w);
    T.OneOutstandingCommand(w);
    JointIsQuiet(w.sys, rx);
  }
}
