/** The daemon facing a NIC that answers every request by the next round: it comes up in a
    number of rounds fixed by the channel count, and stays up. */
module NcsiClosedLoop {
  import opened Bytes
  import opened NcsiFrames
  import opened NcsiServer
  import opened NcsiFsm
  import opened NcsiNic
  import opened Iteration
  import S = NcsiSafety
  import M = NcsiMachine

  datatype Loop = Loop(sys: Sys, nic: ValidNic, reply: seq<byte>)

  /** One round: the daemon reads the pending reply, if any, and the NIC answers what it sends. */
  function Turn(l: Loop): Loop {
    var p := RoundSpec(l.sys, l.reply);
    if |p.tx| < HEADER_SIZE then Loop(After(p), l.nic, [])
    else var (nic, reply) := Reply(l.nic, p.tx); Loop(After(p), nic, reply)
  }

  /** Up, hostful, with one or two channels, and a firmware version that matches its layout of
      the statistics. */
  ghost predicate Cooperative(nic: ValidNic) {
    && 1 <= nic.channels <= 2
    && nic.legacy == (nic.version[20] == 8)
    && nic.link[3] % 2 == 1
    && !HostlessBit(nic.filter0[15]) && !HostlessBit(nic.filter1[15])
  }

  predicate HasFilter(nic: ValidNic, channel: byte, mac: Mac) {
    var f := nic.Filter(channel);
    |f| == FILTER_SIZE && f[2..8] == mac && f[8..12] == [0, 0, 0, 0] && f[12..14] == Be16Bytes(RX_PORT)
  }

  /** The filters the NIC already has: those of the channels the daemon has sent them to. */
  ghost predicate FiltersInPlace(s: Sys, nic: ValidNic) {
    && (s.st.l3l4 == L3L4_CONFIG_FILTERS && (s.st.l3l4Channel > 0 || s.st.l3l4Waiting) ==> HasFilter(nic, 0, s.mac))
    && (s.st.l3l4 == L3L4_CONFIG_FILTERS && s.st.l3l4Channel == 1 && s.st.l3l4Waiting ==> HasFilter(nic, 1, s.mac))
    && (s.st.l3l4 == L3L4_END ==> HasFilter(nic, 0, s.mac) && (nic.channels == 2 ==> HasFilter(nic, 1, s.mac)))
  }

  ghost predicate Learned(s: Sys, nic: ValidNic) {
    && (s.st.channelCount != 0 ==> s.st.channelCount == nic.channels)
    && (s.st.l2 > 4 ==> s.dbg.mlxLegacy == nic.legacy)
    && (s.st.l2 > 15 ==> s.mac == nic.mac)
    && !HostlessBit(s.st.flags0) && !HostlessBit(s.st.flags1)
  }

  ghost predicate Calm(s: Sys) {
    && S.Joint(s.st, s.dbg) && !S.OnStopBranch(s.st)
    && s.dbg.enabled && !s.dbg.pendingStop && !s.dbg.filterDisable
    && (if s.st.l2 == L2_RESTART then s.st.restartDelay < RESTART_DELAY_COUNT else !s.dbg.pendingRestart)
  }

  predicate GoodL2Answer(cmd: Command, nic: ValidNic, rx: seq<byte>) {
    && Validate(rx, cmd) == Ack
    && (cmd == Std(GET_VERSION_ID) ==> (rx[54] == 8) == nic.legacy)
    && (cmd == Std(GET_CAPABILITIES) ==> rx[61] == nic.channels)
    && (cmd == Oem(OEM_GET_HOST_MAC) ==> rx[44..50] == nic.mac)
  }

  predicate GoodTestAnswer(cmd: Command, s: Sys, rx: seq<byte>) {
    && TestVerdict(s.st, s.dbg, s.mac, rx, cmd) == (Ack, true)
    && (cmd == Oem(OEM_GET_FILTER) ==> Validate(rx, cmd) == Ack && !HostlessBit(rx[57]))
  }

  /** The answer on its way, if one is awaited, is the right one. */
  predicate GoodReply(s: Sys, nic: ValidNic, rx: seq<byte>) {
    && (S.L2Awaits(s.st) ==> GoodL2Answer(L2RoleOf(s.st.l2).cmd, nic, rx))
    && (S.L3L4Awaits(s.st) ==> Validate(rx, Oem(OEM_SET_FILTER)) == Ack)
    && (S.TestAwaits(s.st) ==> GoodTestAnswer(TestRoleOf(s.st.test).cmd, s, rx))
  }

  ghost predicate Steady(s: Sys, nic: ValidNic) {
    Cooperative(nic) && Calm(s) && Learned(s, nic)
  }

  /** Everything has gone well so far. */
  ghost predicate Healthy(s: Sys, nic: ValidNic) {
    Steady(s, nic) && FiltersInPlace(s, nic)
  }

  ghost predicate OnTrack(l: Loop) {
    Healthy(l.sys, l.nic) && GoodReply(l.sys, l.nic, l.reply)
  }

  /** Rounds from L2 state `l2` to the end: one a state, without the stop branch and, on a NIC
      with one channel, without the second channel's pairs. */
  function L2Rounds(l2: nat, channels: byte): int {
    if channels == 2 then (if l2 <= L2_RESET_CHANNEL_0 then 22 - l2 else 26 - l2)
    else if l2 <= L2_GET_CAPABILITIES_RESPONSE then 16 - l2
    else if l2 == L2_RESET_CHANNEL_0 then 9
    else if l2 <= 17 then 22 - l2
    else if l2 <= 21 then 24 - l2
    else 26 - l2
  }

  /** Rounds until the connection is up and configured. */
  function RoundsToGo(st: NcsiState, channels: byte): int {
    if st.l2 == L2_RESTART then RESTART_DELAY_COUNT - st.restartDelay + L2Rounds(1, channels) + 9 + 2 * channels
    else if st.l2 < L2_END then L2Rounds(st.l2, channels) + 9 + 2 * channels
    else if st.l3l4 == L3L4_BEGIN then 9 - st.test + 2 * channels
    else if st.l3l4 == L3L4_CONFIG_FILTERS then 2 * (channels - st.l3l4Channel) - if st.l3l4Waiting then 1 else 0
    else 0
  }

  // ----- the answers the NIC gives are the ones the daemon wants -----

  predicate IsL2Command(cmd: Command) {
    cmd in [S.CLEAR, Std(GET_VERSION_ID), Std(GET_CAPABILITIES), Oem(OEM_GET_HOST_MAC), S.SET_MAC, S.ENABLE, Std(ENABLE_TX)]
  }

  lemma L2AnswerIsGood(nic: ValidNic, cmd: Command, channel: byte, mac: Mac)
    requires Cooperative(nic) && IsL2Command(cmd)
    ensures var (n, r) := Reply(nic, L2Frame(cmd, channel, mac));
            n == nic && GoodL2Answer(cmd, nic, r)
  {
    var frame := L2Frame(cmd, channel, mac);
    S.L2FrameCarries(cmd, channel, mac);
    match cmd
    case Std(code) =>
      var body := if code == GET_VERSION_ID then nic.version
                  else if code == GET_CAPABILITIES then nic.capabilities + [nic.channels] else [];
      StdReplyAgrees(frame, code, body, cmd);
    case Oem(sub) =>
      OemReplyAgrees(frame, sub, nic.reserved + nic.mac, cmd);
      assert OemReply(frame, nic.reserved + nic.mac)[44..50] == nic.mac;
  }

  lemma FilterFields(mac: Mac, port: nat, flags: byte)
    requires port < 0x1_0000
    ensures var f := FilterBody(mac, port, flags);
            f[2..8] == mac && f[8..12] == [0, 0, 0, 0] && f[12..14] == Be16Bytes(port)
  {
  }

  lemma SetFilterStores(nic: ValidNic, channel: byte, mac: Mac)
    requires Cooperative(nic) && channel <= 1
    ensures var n := nic.SetFilter(channel, FilterBody(mac, RX_PORT, 1));
            && Cooperative(n) && HasFilter(n, channel, mac)
            && n == nic.(filter0 := n.filter0, filter1 := n.filter1) && n.Filter(1 - channel) == nic.Filter(1 - channel)
  {
    FilterFields(mac, RX_PORT, 1);
    var wanted := FilterBody(mac, RX_PORT, 1);
    var was := nic.Filter(channel);
    var now := was[..2] + wanted[2..8] + [0, 0, 0, 0] + wanted[12..14] + was[14..];
    assert now[2..8] == wanted[2..8] && now[8..12] == [0, 0, 0, 0] && now[12..14] == wanted[12..14] && now[15] == was[15];
  }

  lemma SetFilterIsGood(nic: ValidNic, channel: byte, dbg: Debug, mac: Mac)
    requires Cooperative(nic) && channel <= 1 && !dbg.filterDisable
    ensures var (n, r) := Reply(nic, OemFrame(OEM_SET_FILTER, channel, ConfigFilter(dbg, mac)));
            && Validate(r, Oem(OEM_SET_FILTER)) == Ack
            && n == nic.SetFilter(channel, FilterBody(mac, RX_PORT, 1))
  {
    var frame := OemFrame(OEM_SET_FILTER, channel, ConfigFilter(dbg, mac));
    OemReplyAgrees(frame, OEM_SET_FILTER, [], Oem(OEM_SET_FILTER));
    assert frame[38..62] == ConfigFilter(dbg, mac);
  }

  lemma FilterAnswerIsGood(nic: ValidNic, st: NcsiState, dbg: Debug, mac: Mac)
    requires Cooperative(nic) && dbg.chUnderTest <= 1 && !dbg.filterDisable
    requires st.l3l4 == L3L4_END ==> HasFilter(nic, dbg.chUnderTest, mac)
    ensures var (n, r) := Reply(nic, TestFrame(Oem(OEM_GET_FILTER), dbg));
            n == nic && GoodTestAnswer(Oem(OEM_GET_FILTER), Sys(st, dbg, mac), r)
  {
    var frame := TestFrame(Oem(OEM_GET_FILTER), dbg);
    S.TestFrameCarries(Oem(OEM_GET_FILTER), dbg);
    var f := nic.Filter(dbg.chUnderTest);
    OemReplyAgrees(frame, OEM_GET_FILTER, f, Oem(OEM_GET_FILTER));
    var r := OemReply(frame, f);
    assert r[57] == f[15] && r[44..50] == f[2..8] && r[50..54] == f[8..12] && r[54..56] == f[12..14];
    FilterFields(mac, RX_PORT, 1);
  }

  lemma StatsAnswerIsGood(nic: ValidNic, st: NcsiState, dbg: Debug, mac: Mac)
    requires Cooperative(nic) && dbg.mlxLegacy == nic.legacy
    ensures var (n, r) := Reply(nic, TestFrame(Std(GET_PASSTHROUGH_STATISTICS), dbg));
            n == nic && GoodTestAnswer(Std(GET_PASSTHROUGH_STATISTICS), Sys(st, dbg, mac), r)
  {
    var frame := TestFrame(Std(GET_PASSTHROUGH_STATISTICS), dbg);
    if nic.legacy {
      var r := StdReply(frame, nic.legacyStats);
      assert Be16(r, AT_LENGTH) == 44 && |r| == 74;
    } else {
      StdReplyAgrees(frame, GET_PASSTHROUGH_STATISTICS, nic.stats, Std(GET_PASSTHROUGH_STATISTICS));
    }
  }

  lemma EchoAndLinkAnswersAreGood(nic: ValidNic, cmd: Command, st: NcsiState, dbg: Debug, mac: Mac)
    requires Cooperative(nic) && (cmd == Oem(OEM_ECHO) || cmd == Std(GET_LINK_STATUS))
    ensures var (n, r) := Reply(nic, TestFrame(cmd, dbg)); n == nic && GoodTestAnswer(cmd, Sys(st, dbg, mac), r)
  {
    S.TestFrameCarries(cmd, dbg);
    if cmd == Oem(OEM_ECHO) {
      EchoCarriesPattern(dbg.chUnderTest, dbg.ping, cmd);
    } else {
      StdReplyAgrees(TestFrame(cmd, dbg), GET_LINK_STATUS, nic.link, cmd);
    }
  }

  lemma TestAnswerIsGood(nic: ValidNic, cmd: Command, st: NcsiState, dbg: Debug, mac: Mac)
    requires Cooperative(nic) && dbg.chUnderTest <= 1 && dbg.mlxLegacy == nic.legacy && !dbg.filterDisable
    requires cmd in [Oem(OEM_ECHO), Oem(OEM_GET_FILTER), Std(GET_PASSTHROUGH_STATISTICS), Std(GET_LINK_STATUS)]
    requires st.l3l4 == L3L4_END ==> HasFilter(nic, dbg.chUnderTest, mac)
    ensures var (n, r) := Reply(nic, TestFrame(cmd, dbg)); n == nic && GoodTestAnswer(cmd, Sys(st, dbg, mac), r)
  {
    if cmd == Oem(OEM_GET_FILTER) { FilterAnswerIsGood(nic, st, dbg, mac); }
    else if cmd == Std(GET_PASSTHROUGH_STATISTICS) { StatsAnswerIsGood(nic, st, dbg, mac); }
    else { EchoAndLinkAnswersAreGood(nic, cmd, st, dbg, mac); }
  }

  // ----- one round -----

  /** One step closer, or configured and staying so. */
  ghost predicate Closer(st: NcsiState, st': NcsiState, channels: byte) {
    && (if st.l3l4 == L3L4_END then st'.l3l4 == L3L4_END && st'.l2 == L2_END
        else RoundsToGo(st', channels) == RoundsToGo(st, channels) - 1)
  }

  ghost predicate Progress(l: Loop, l': Loop) {
    && OnTrack(l') && l'.nic.channels == l.nic.channels && l'.sys.dbg.failCount == l.sys.dbg.failCount
    && Closer(l.sys.st, l'.sys.st, l.nic.channels)
  }

  lemma SendersAreFollowed(l2: nat)
    requires L2RoleOf(l2).Send? && !(L2_RESET_CHANNEL_0 < l2 <= L2_STOPPED)
    ensures IsL2Command(L2RoleOf(l2).cmd) && l2 < L2_END - 1
    ensures L2RoleOf(l2 + 1).Await? && L2RoleOf(l2 + 1).cmd == L2RoleOf(l2).cmd
  {
  }

  lemma L2SendSteady(s: Sys, nic: ValidNic)
    requires Steady(s, nic) && L2RoleOf(s.st.l2).Send?
    ensures Steady(s.(st := s.st.(l2 := s.st.l2 + 1)), nic)
    ensures Closer(s.st, s.st.(l2 := s.st.l2 + 1), nic.channels)
  {
    SendersAreFollowed(s.st.l2);
  }

  lemma L2SendIs(l: Loop, cmd: Command, channel: byte)
    requires Scheduled(l.sys.st, l.sys.dbg) == L2Machine && L2RoleOf(l.sys.st.l2) == Send(cmd, channel)
    requires cmd.Oem? || cmd.code != OEM_COMMAND
    ensures Turn(l).sys == l.sys.(st := l.sys.st.(l2 := l.sys.st.l2 + 1))
    ensures (Turn(l).nic, Turn(l).reply) == Reply(l.nic, L2Frame(cmd, channel, l.sys.mac))
  {
    S.L2FrameCarries(cmd, channel, l.sys.mac);
  }

  lemma L2SendTurn(l: Loop, l': Loop, cmd: Command, channel: byte)
    requires OnTrack(l) && L2RoleOf(l.sys.st.l2) == Send(cmd, channel)
    requires l'.sys == l.sys.(st := l.sys.st.(l2 := l.sys.st.l2 + 1))
    requires (l'.nic, l'.reply) == Reply(l.nic, L2Frame(cmd, channel, l.sys.mac))
    ensures Progress(l, l')
  {
    L2SendSteady(l.sys, l.nic);
    SendersAreFollowed(l.sys.st.l2);
    L2AnswerIsGood(l.nic, cmd, channel, l.sys.mac);
  }

  lemma CountSteady(s: Sys, s': Sys, nic: ValidNic)
    requires Steady(s, nic) && s.st.l2 == L2_GET_CAPABILITIES_RESPONSE
    requires s' == s.(st := s.st.(channelCount := nic.channels, l2 := s.st.l2 + if nic.channels == 1 then 3 else 1), dbg := s'.dbg)
    requires s'.dbg == s.dbg.(loopback := s'.dbg.loopback)
    ensures Steady(s', nic) && Closer(s.st, s'.st, nic.channels)
    ensures s'.st.l3l4 == L3L4_BEGIN && !S.L2Awaits(s'.st) && !S.L3L4Awaits(s'.st) && !S.TestAwaits(s'.st)
  {
  }

  lemma L2AckSteady(s: Sys, s': Sys, nic: ValidNic, cmd: Command, perChannel: bool)
    requires Steady(s, nic) && L2RoleOf(s.st.l2).Await? && s.st.l2 != L2_GET_CAPABILITIES_RESPONSE
    requires L2RoleOf(s.st.l2).cmd == cmd && L2RoleOf(s.st.l2).perChannel == perChannel
    requires s'.st == s.st.(l2 := s.st.l2 + if perChannel then ChannelStep(s.st) else 1)
    requires s'.mac == if cmd == Oem(OEM_GET_HOST_MAC) then nic.mac else s.mac
    requires s'.dbg == s.dbg.(loopback := s'.dbg.loopback, mlxLegacy := if cmd == Std(GET_VERSION_ID) then nic.legacy else s.dbg.mlxLegacy)
    ensures Steady(s', nic) && Closer(s.st, s'.st, nic.channels)
    ensures s'.st.l3l4 == L3L4_BEGIN && !S.L2Awaits(s'.st) && !S.L3L4Awaits(s'.st) && !S.TestAwaits(s'.st)
  {
  }

  lemma L2AnswerSteady(s: Sys, nic: ValidNic, rx: seq<byte>, cmd: Command, perChannel: bool, p: Poll)
    requires Steady(s, nic) && L2RoleOf(s.st.l2).Await? && GoodL2Answer(cmd, nic, rx)
    requires L2RoleOf(s.st.l2).cmd == cmd && L2RoleOf(s.st.l2).perChannel == perChannel
    requires p == L2Answer(s.st, s.dbg, s.mac, rx, cmd, perChannel, Ack)
    ensures p.tx == [] && p.dbg.failCount == s.dbg.failCount
    ensures Steady(After(p), nic) && Closer(s.st, p.st, nic.channels)
    ensures p.st.l3l4 == L3L4_BEGIN && !S.L2Awaits(p.st) && !S.L3L4Awaits(p.st) && !S.TestAwaits(p.st)
  {
    S.L2AcceptShape(s.st, s.dbg, s.mac, rx, cmd, perChannel, p);
    if s.st.l2 == L2_GET_CAPABILITIES_RESPONSE {
      CountSteady(s, After(p), nic);
    } else {
      L2AckSteady(s, After(p), nic, cmd, perChannel);
    }
  }

  lemma L2AwaitTurn(l: Loop)
    requires OnTrack(l) && L2RoleOf(l.sys.st.l2).Await?
    ensures Progress(l, Turn(l))
  {
    var role := L2RoleOf(l.sys.st.l2);
    L2AnswerSteady(l.sys, l.nic, l.reply, role.cmd, role.perChannel, RoundSpec(l.sys, l.reply));
  }

  lemma RestartSteady(s: Sys, nic: ValidNic)
    requires Steady(s, nic) && s.st.l2 == L2_RESTART
    ensures var p := L2Spec(s.st, s.dbg, s.mac, []);
            Steady(After(p), nic) && Closer(s.st, p.st, nic.channels) && p.st.l3l4 == L3L4_BEGIN
  {
  }

  lemma RestartTurn(l: Loop)
    requires OnTrack(l) && l.sys.st.l2 == L2_RESTART
    ensures Progress(l, Turn(l))
  {
    RestartSteady(l.sys, l.nic);
  }

  lemma StopGateTurn(l: Loop)
    requires OnTrack(l) && l.sys.st.l2 == L2_RESET_CHANNEL_0
    ensures Progress(l, Turn(l))
  {
  }

  /** Sending a filter puts it in place; the other channel's stays as it was. */
  lemma FilterSent(s: Sys, nic: ValidNic, n: ValidNic, st': NcsiState)
    requires Healthy(s, nic) && Scheduled(s.st, s.dbg) == L3L4Machine && !s.st.l3l4Waiting
    requires var channel := if s.st.l3l4 == L3L4_BEGIN then 0 else s.st.l3l4Channel;
             && st' == s.st.(l3l4 := L3L4_CONFIG_FILTERS, l3l4Channel := channel, l3l4Waiting := true, l3l4Command := OEM_SET_FILTER)
             && Cooperative(n) && n == nic.(filter0 := n.filter0, filter1 := n.filter1)
             && HasFilter(n, channel, s.mac) && n.Filter(1 - channel) == nic.Filter(1 - channel)
    ensures Healthy(s.(st := st'), n) && Closer(s.st, st', nic.channels)
    ensures !S.L2Awaits(st') && !S.TestAwaits(st')
  {
  }

  lemma L3L4SendTurn(l: Loop)
    requires OnTrack(l) && Scheduled(l.sys.st, l.sys.dbg) == L3L4Machine && !l.sys.st.l3l4Waiting
    ensures Progress(l, Turn(l))
  {
    var channel := if l.sys.st.l3l4 == L3L4_BEGIN then 0 else l.sys.st.l3l4Channel;
    SetFilterIsGood(l.nic, channel, l.sys.dbg, l.sys.mac);
    SetFilterStores(l.nic, channel, l.sys.mac);
    var frame := OemFrame(OEM_SET_FILTER, channel, ConfigFilter(l.sys.dbg, l.sys.mac));
    var (n, r) := Reply(l.nic, frame);
    FilterSent(l.sys, l.nic, n, Turn(l).sys.st);
  }

  lemma L3L4AwaitTurn(l: Loop)
    requires OnTrack(l) && Scheduled(l.sys.st, l.sys.dbg) == L3L4Machine && l.sys.st.l3l4Waiting
    ensures Progress(l, Turn(l))
  {
  }

  lemma TestAskHealthy(s: Sys, nic: ValidNic)
    requires Healthy(s, nic) && Scheduled(s.st, s.dbg) == TestMachine && TestRoleOf(s.st.test).Ask?
    ensures Healthy(s.(st := s.st.(test := s.st.test + 1)), nic) && Closer(s.st, s.st.(test := s.st.test + 1), nic.channels)
    ensures TestRoleOf(s.st.test + 1) == Check(TestRoleOf(s.st.test).cmd)
    ensures s.st.l2 == L2_END && !s.st.l3l4Waiting
  {
  }

  lemma TestAskIs(l: Loop, cmd: Command)
    requires Scheduled(l.sys.st, l.sys.dbg) == TestMachine && TestRoleOf(l.sys.st.test) == Ask(cmd)
    requires cmd.Oem? || cmd.code != OEM_COMMAND
    ensures Turn(l).sys == l.sys.(st := l.sys.st.(test := l.sys.st.test + 1))
    ensures (Turn(l).nic, Turn(l).reply) == Reply(l.nic, TestFrame(cmd, l.sys.dbg))
  {
    S.TestFrameCarries(cmd, l.sys.dbg);
  }

  lemma TestAskTurn(l: Loop, l': Loop, cmd: Command)
    requires OnTrack(l) && Scheduled(l.sys.st, l.sys.dbg) == TestMachine && TestRoleOf(l.sys.st.test) == Ask(cmd)
    requires l'.sys == l.sys.(st := l.sys.st.(test := l.sys.st.test + 1))
    requires (l'.nic, l'.reply) == Reply(l.nic, TestFrame(cmd, l.sys.dbg))
    ensures Progress(l, l')
  {
    TestAskHealthy(l.sys, l.nic);
    TestAnswerIsGood(l.nic, cmd, l'.sys.st, l.sys.dbg, l.sys.mac);
  }

  lemma TestCheckIs(l: Loop, cmd: Command)
    requires Scheduled(l.sys.st, l.sys.dbg) == TestMachine && TestRoleOf(l.sys.st.test) == Check(cmd)
    requires GoodTestAnswer(cmd, l.sys, l.reply)
    ensures var seen := Seen(l.sys.st, l.sys.dbg, l.reply, cmd);
            Turn(l) == Loop(l.sys.(st := seen.(test := l.sys.st.test + 1)), l.nic, [])
  {
  }

  lemma TestCheckTurn(l: Loop, l': Loop, cmd: Command)
    requires OnTrack(l) && Scheduled(l.sys.st, l.sys.dbg) == TestMachine && TestRoleOf(l.sys.st.test) == Check(cmd)
    requires l' == Loop(l.sys.(st := Seen(l.sys.st, l.sys.dbg, l.reply, cmd).(test := l.sys.st.test + 1)), l.nic, [])
    ensures Progress(l, l')
  {
  }

  lemma TestParamsTurn(l: Loop)
    requires OnTrack(l) && Scheduled(l.sys.st, l.sys.dbg) == TestMachine && l.sys.st.test == TEST_BEGIN
    ensures Progress(l, Turn(l))
  {
  }

  lemma TestFinishedTurn(l: Loop)
    requires OnTrack(l) && Scheduled(l.sys.st, l.sys.dbg) == TestMachine && l.sys.st.test == TEST_END
    ensures Progress(l, Turn(l))
  {
    hide HasFilter, Validate, TestVerdict, GoodL2Answer, GoodTestAnswer, L2Spec, L3L4Spec;
  }

  lemma TurnProgresses(l: Loop)
    requires OnTrack(l)
    ensures Progress(l, Turn(l))
  {
    match Scheduled(l.sys.st, l.sys.dbg)
    case L2Machine =>
      var role := L2RoleOf(l.sys.st.l2);
      if role.Send? {
        L2SendIs(l, role.cmd, role.channel);
        L2SendTurn(l, Turn(l), role.cmd, role.channel);
      } else if role.Await? {
        L2AwaitTurn(l);
      } else if role.StopGate? {
        StopGateTurn(l);
      } else {
        RestartTurn(l);
      }
    case L3L4Machine => if l.sys.st.l3l4Waiting { L3L4AwaitTurn(l); } else { L3L4SendTurn(l); }
    case TestMachine =>
      var role := TestRoleOf(l.sys.st.test);
      if role.Ask? {
        TestAskIs(l, role.cmd);
        TestAskTurn(l, Turn(l), role.cmd);
      } else if role.Check? {
        TestCheckIs(l, role.cmd);
        TestCheckTurn(l, Turn(l), role.cmd);
      } else if role.Params? {
        TestParamsTurn(l);
      } else {
        TestFinishedTurn(l);
      }
    case NoMachine =>
  }

  // ----- whole runs -----

  function Turns(l: Loop, rounds: nat): Loop { Iterate(Turn, l, rounds) }

  /** Rounds from a cleared state with `delay` of the restart delay already spent. */
  function BringUp(delay: nat, channels: byte): int {
    RESTART_DELAY_COUNT - delay + (if channels == 1 then 15 + 9 + 2 else 21 + 9 + 4)
  }

  lemma ConfiguredWhenDone(l: Loop)
    requires OnTrack(l)
    ensures RoundsToGo(l.sys.st, l.nic.channels) >= 0
    ensures ConnectionState(l.sys.st, l.sys.dbg) == UpAndConfigured <==> RoundsToGo(l.sys.st, l.nic.channels) == 0
    ensures ConnectionState(l.sys.st, l.sys.dbg) == UpAndConfigured <==> l.sys.st.l3l4 == L3L4_END
  {
  }

  /** What a run looks like after some rounds, seen from its start. */
  ghost predicate Ahead(l: Loop, l': Loop, rounds: nat) {
    var togo := RoundsToGo(l.sys.st, l.nic.channels) - rounds;
    && OnTrack(l') && l'.nic.channels == l.nic.channels && l'.sys.dbg.failCount == l.sys.dbg.failCount
    && RoundsToGo(l'.sys.st, l.nic.channels) == if togo > 0 then togo else 0
  }

  lemma OneRoundAhead(l: Loop, before: Loop, after: Loop, rounds: nat)
    requires Ahead(l, before, rounds) && Progress(before, after)
    ensures Ahead(l, after, rounds + 1)
  {
    ConfiguredWhenDone(before);
    ConfiguredWhenDone(after);
  }

  /** Any step that makes progress leads where `Ahead` says. */
  lemma {:induction false} IterateProgress(step: Loop -> Loop, l: Loop, rounds: nat)
    requires OnTrack(l) && forall x {:trigger step(x)} :: OnTrack(x) ==> Progress(x, step(x))
    ensures Ahead(l, Iterate(step, l, rounds), rounds)
  {
    if rounds == 0 {
      ConfiguredWhenDone(l);
    } else {
      IterateProgress(step, l, rounds - 1);
      OneRoundAhead(l, Iterate(step, l, rounds - 1), Iterate(step, l, rounds), rounds - 1);
    }
  }

  lemma TurnsProgress(l: Loop, rounds: nat)
    requires OnTrack(l)
    ensures Ahead(l, Turns(l, rounds), rounds)
  {
    forall x | OnTrack(x) ensures Progress(x, Turn(x)) { TurnProgresses(x); }
    IterateProgress(Turn, l, rounds);
  }

  /** Cleared, with nobody asking for a stop. */
  ghost predicate ReadyToStart(s: Sys) {
    && s.st == CLEARED.(restartDelay := s.st.restartDelay, retestDelay := s.st.retestDelay)
    && s.st.restartDelay < RESTART_DELAY_COUNT && s.dbg.enabled && !s.dbg.pendingStop && !s.dbg.filterDisable
    && s.dbg.maxTries == MAX_TRIES && s.dbg.chUnderTest <= 1
  }

  lemma StartIsOnTrack(s: Sys, nic: ValidNic)
    requires Cooperative(nic) && ReadyToStart(s)
    ensures OnTrack(Loop(s, nic, [])) && RoundsToGo(s.st, nic.channels) == BringUp(s.st.restartDelay, nic.channels)
  {
  }

  lemma AheadTells(l: Loop, l': Loop, rounds: nat)
    requires Ahead(l, l', rounds)
    ensures ConnectionState(l'.sys.st, l'.sys.dbg) == UpAndConfigured <==> rounds >= RoundsToGo(l.sys.st, l.nic.channels)
    ensures l'.sys.dbg.failCount == l.sys.dbg.failCount
    ensures l'.sys.st.l2 == L2_END ==> l'.sys.mac == l'.nic.mac
  {
    ConfiguredWhenDone(l');
  }

  /** From a clear the daemon is up and configured after exactly the expected number of rounds,
      stays so for ever, and never fails on the way: every later test run passes. */
  lemma ComesUpAndStaysUp(s: Sys, nic: ValidNic, rounds: nat)
    requires Cooperative(nic) && ReadyToStart(s)
    ensures var l := Turns(Loop(s, nic, []), rounds);
            && (ConnectionState(l.sys.st, l.sys.dbg) == UpAndConfigured <==> rounds >= BringUp(s.st.restartDelay, nic.channels))
            && l.sys.dbg.failCount == s.dbg.failCount
            && (l.sys.st.l2 == L2_END ==> l.sys.mac == l.nic.mac)
  {
    StartIsOnTrack(s, nic);
    TurnsProgress(Loop(s, nic, []), rounds);
    AheadTells(Loop(s, nic, []), Turns(Loop(s, nic, []), rounds), rounds);
  }

  /** The daemon as constructed is up after 27 rounds on one channel, after 35 on two. */
  lemma ConstructedComesUp(dbg: Debug, mac: Mac, nic: ValidNic, rounds: nat)
    requires Cooperative(nic)
    ensures var l := Turns(Loop(Constructed(dbg, mac), nic, []), rounds);
            && (ConnectionState(l.sys.st, l.sys.dbg) == UpAndConfigured <==> rounds >= if nic.channels == 1 then 27 else 35)
            && l.sys.dbg.failCount == dbg.failCount
  {
    ComesUpAndStaysUp(Constructed(dbg, mac), nic, rounds);
  }

  // ----- the loop is a run of the scheduler -----

  /** What the daemon receives in each of the first rounds. */
  ghost function Deliveries(turn: Loop -> Loop, l: Loop, rounds: nat): seq<M.Outcome> {
    if rounds == 0 then [] else Deliveries(turn, l, rounds - 1) + [Delivered(Iterate(turn, l, rounds - 1).reply)]
  }

  ghost function Delivered(reply: seq<byte>): M.Outcome {
    if M.IsNcsi(reply) && |reply| <= M.BUFFER_SIZE then reply else []
  }

  lemma ReplyIsDelivered(l: Loop)
    ensures Delivered(Turn(l).reply) == Turn(l).reply
  {
    var tx := RoundSpec(l.sys, l.reply).tx;
    M.SentIsNcsi(l.sys, l.reply);
    if |tx| >= HEADER_SIZE {
      ReplyFits(l.nic, tx);
      var r := Reply(l.nic, tx).1;
      assert r[12] == r[..AT_TYPE][12] && r[13] == r[..AT_TYPE][13];
    }
  }

  /** A delivery is the next thing received, and the only one. */
  lemma DeliveryIsReceived(reply: seq<byte>, later: seq<M.Outcome>, field: M.TypeField)
    ensures var received := M.Received([Delivered(reply)] + later, field); received.0 == Delivered(reply) && received.1 == later
  {
    assert ([Delivered(reply)] + later)[1..] == later;
  }

  /** `step` does to the daemon what `turn` does, whenever it receives the pending reply. */
  ghost predicate Simulates(step: M.Trace -> M.Trace, turn: Loop -> Loop) {
    && (forall x {:trigger turn(x)} :: Delivered(turn(x).reply) == turn(x).reply)
    && (forall t: M.Trace, x: Loop {:trigger step(t), turn(x)} :: t.sys == x.sys && M.Received(t.inbound, t.field).0 == x.reply ==>
          step(t).sys == turn(x).sys && step(t).inbound == M.Received(t.inbound, t.field).1)
  }

  lemma {:induction false} SimulationHolds(step: M.Trace -> M.Trace, turn: Loop -> Loop, l: Loop, rounds: nat, field: M.TypeField,
                                           later: seq<M.Outcome>)
    requires Simulates(step, turn) && l.reply == []
    ensures var t := Iterate(step, M.Trace(l.sys, field, Deliveries(turn, l, rounds) + later, []), rounds);
            t.sys == Iterate(turn, l, rounds).sys && t.inbound == later
  {
    hide M.Received;
    if rounds > 0 {
      var last := Iterate(turn, l, rounds - 1);
      var rest := [Delivered(last.reply)] + later;
      assert Deliveries(turn, l, rounds) + later == Deliveries(turn, l, rounds - 1) + rest;
      SimulationHolds(step, turn, l, rounds - 1, field, rest);
      DeliveryIsReceived(last.reply, later, Iterate(step, M.Trace(l.sys, field, Deliveries(turn, l, rounds - 1) + rest, []), rounds - 1).field);
      assert Delivered(last.reply) == last.reply;
    }
  }

  /** Fed with the NIC's replies, the scheduler's loop goes through exactly these states. */
  lemma LoopIsRun(l: Loop, rounds: nat, field: M.TypeField, later: seq<M.Outcome>)
    requires l.reply == []
    ensures var t := M.RunSpec(M.Trace(l.sys, field, Deliveries(Turn, l, rounds) + later, []), rounds);
            t.sys == Turns(l, rounds).sys && t.inbound == later
  {
    forall x ensures Delivered(Turn(x).reply) == Turn(x).reply { ReplyIsDelivered(x); }
    assert Simulates(M.Step, Turn);
    SimulationHolds(M.Step, Turn, l, rounds, field, later);
  }
}
