/** The three NC-SI state machines as functions from one poll to the next: which command a
    state sends, which one it waits for, and where the answer leads. */
module NcsiFsm {
  import opened Bytes
  import opened NcsiFrames

  // States of the L2 machine that the code refers to by more than their place in the order.
  const L2_RESTART := 0
  const L2_CLEAR_0_RESPONSE := 2
  const L2_GET_CAPABILITIES_RESPONSE := 6
  const L2_RESET_CHANNEL_0 := 9
  const L2_STOPPED := 13
  const L2_GET_MAC := 14
  const L2_END := 26

  const L3L4_BEGIN := 0
  const L3L4_CONFIG_FILTERS := 1
  const L3L4_END := 2

  const TEST_BEGIN := 0
  const TEST_END := 9

  const RESTART_DELAY_COUNT := 100
  const RETEST_DELAY_COUNT := 100
  const MAX_TRIES: byte := 5
  const RX_PORT := 3959

  type Pattern = p: seq<byte> | |p| == PATTERN_SIZE witness seq(PATTERN_SIZE, _ => 0)

  datatype NcsiState = NcsiState(
    l2: nat, l3l4: nat, test: nat,
    l3l4Command: byte, l3l4Channel: byte, l3l4Waiting: bool,
    channelCount: byte, restartDelay: byte, retestDelay: byte,
    flags0: byte, flags1: byte)

  datatype Debug = Debug(
    enabled: bool, pendingStop: bool, pendingRestart: bool, filterDisable: bool,
    loopback: bool, mlxLegacy: bool, failCount: u32,
    runs: u32, chUnderTest: byte, tries: byte, maxTries: byte, ping: Pattern)

  const CLEARED := NcsiState(0, 0, 0, 0, 0, false, 0, 0, 0, 0, 0)

  /** Outcome of one poll: the new records, the frame to send (empty if none), the verdict on
      the response (NoResponse if none was looked at). */
  datatype Poll = Poll(st: NcsiState, dbg: Debug, mac: Mac, tx: seq<byte>, resp: ResponseType)

  function CountFailure(dbg: Debug): Debug { dbg.(failCount := Wrap32(dbg.failCount + 1)) }

  function FailPoll(dbg: Debug, mac: Mac, resp: ResponseType): Poll {
    Poll(CLEARED, CountFailure(dbg), mac, [], resp)
  }

  function HostlessBit(flags: byte): bool { (flags / 4) % 2 == 1 }

  predicate IsHostless(st: NcsiState) {
    HostlessBit(st.flags0) && (st.channelCount > 1 ==> HostlessBit(st.flags1))
  }

  /** The distance to the next request when the second channel's pair may have to be skipped. */
  function ChannelStep(st: NcsiState): nat { if st.channelCount == 1 then 3 else 1 }

  // ----- L2 -----

  datatype L2Role =
    | RestartWait
    | Send(cmd: Command, channel: byte)
    | Await(cmd: Command, channel: byte, perChannel: bool)
    | StopGate
    | Stopped
    | Done
    | Unknown

  function L2RoleOf(l2: nat): L2Role {
    match l2
    case 0 => RestartWait
    case 1 => Send(Std(CLEAR_INITIAL_STATE), 0)
    case 2 => Await(Std(CLEAR_INITIAL_STATE), 0, false)
    case 3 => Send(Std(GET_VERSION_ID), 0)
    case 4 => Await(Std(GET_VERSION_ID), 0, true)
    case 5 => Send(Std(GET_CAPABILITIES), 0)
    case 6 => Await(Std(GET_CAPABILITIES), 0, true)
    case 7 => Send(Std(CLEAR_INITIAL_STATE), 1)
    case 8 => Await(Std(CLEAR_INITIAL_STATE), 1, false)
    case 9 => StopGate
    case 10 => Await(Std(RESET_CHANNEL), 0, true)
    case 11 => Send(Std(RESET_CHANNEL), 1)
    case 12 => Await(Std(RESET_CHANNEL), 1, false)
    case 13 => Stopped
    case 14 => Send(Oem(OEM_GET_HOST_MAC), 0)
    case 15 => Await(Oem(OEM_GET_HOST_MAC), 0, false)
    case 16 => Send(Std(SET_MAC_ADDRESS), 0)
    case 17 => Await(Std(SET_MAC_ADDRESS), 0, true)
    case 18 => Send(Std(SET_MAC_ADDRESS), 1)
    case 19 => Await(Std(SET_MAC_ADDRESS), 1, false)
    case 20 => Send(Std(ENABLE_CHANNEL), 0)
    case 21 => Await(Std(ENABLE_CHANNEL), 0, true)
    case 22 => Send(Std(ENABLE_CHANNEL), 1)
    case 23 => Await(Std(ENABLE_CHANNEL), 1, false)
    case 24 => Send(Std(ENABLE_TX), 0)
    case 25 => Await(Std(ENABLE_TX), 0, false)
    case 26 => Done
    case _ => Unknown
  }

  /** The frame of an L2 command. */
  function L2Frame(cmd: Command, channel: byte, mac: Mac): seq<byte> {
    match cmd
    case Oem(sub) => OemFrame(sub, channel, [])
    case Std(code) => if code == SET_MAC_ADDRESS then SetMacFrame(channel, mac) else SimpleFrame(code, channel)
  }

  predicate IsLoopback(rx: seq<byte>) {
    |rx| >= HEADER_SIZE && rx[..HEADER_SIZE] == SimpleFrame(CLEAR_INITIAL_STATE, 0)
  }

  function L2Spec(st: NcsiState, dbg: Debug, mac: Mac, rx: seq<byte>): Poll {
    match L2RoleOf(st.l2)
    case RestartWait =>
      var delay := Wrap8(st.restartDelay + 1);
      if delay >= RESTART_DELAY_COUNT
      then Poll(st.(l2 := 1, restartDelay := 0), dbg.(pendingRestart := false), mac, [], NoResponse)
      else Poll(st.(restartDelay := delay), dbg, mac, [], NoResponse)
    case Send(cmd, channel) => Poll(st.(l2 := st.l2 + 1), dbg, mac, L2Frame(cmd, channel, mac), NoResponse)
    case Await(cmd, channel, perChannel) => L2Answer(st, dbg, mac, rx, cmd, perChannel, Validate(rx, cmd))
    case StopGate =>
      if dbg.pendingStop
      then Poll(st.(l2 := st.l2 + 1), dbg, mac, SimpleFrame(RESET_CHANNEL, 0), NoResponse)
      else Poll(st.(l2 := L2_GET_MAC), dbg, mac, [], NoResponse)
    case Stopped => FailPoll(dbg.(pendingStop := false, enabled := false), mac, NoResponse)
    case Done => Poll(st, dbg, mac, [], NoResponse)
    case Unknown => FailPoll(dbg, mac, NoResponse)
  }

  /** An answer to the first command shows whether the wire is looped back. */
  function Heard(st: NcsiState, dbg: Debug, rx: seq<byte>, resp: ResponseType): (d: Debug)
    ensures d == dbg.(loopback := d.loopback)
  {
    if st.l2 == L2_CLEAR_0_RESPONSE then dbg.(loopback := resp != Ack && IsLoopback(rx)) else dbg
  }

  /** The effect of an answer that was judged `resp`. */
  function L2Answer(st: NcsiState, dbg: Debug, mac: Mac, rx: seq<byte>, cmd: Command, perChannel: bool,
                    resp: ResponseType): Poll
    requires resp == Ack ==> |rx| >= ResponseSize(cmd)
  {
    var dbg1 := Heard(st, dbg, rx, resp);
    if resp != Ack then FailPoll(dbg1, mac, resp)
    else if cmd == Std(GET_CAPABILITIES) then
      if rx[61] != 1 && rx[61] != 2 then FailPoll(dbg1, mac, resp)
      else
        var counted := st.(channelCount := rx[61]);
        Poll(counted.(l2 := st.l2 + ChannelStep(counted)), dbg1, mac, [], resp)
    else
      Poll(st.(l2 := st.l2 + if perChannel then ChannelStep(st) else 1),
           if cmd == Std(GET_VERSION_ID) then dbg1.(mlxLegacy := rx[54] == 8) else dbg1,
           if cmd == Oem(OEM_GET_HOST_MAC) then (assert |rx| >= 50; rx[44..50]) else mac, [], resp)
  }

  // ----- L3/L4 -----

  /** The filter the daemon configures and expects to find again. */
  function ConfigFilter(dbg: Debug, mac: Mac): seq<byte> {
    if dbg.filterDisable then FilterBody(Zeros(6), 0, 0) else FilterBody(mac, RX_PORT, 1)
  }

  function L3L4Spec(st0: NcsiState, dbg: Debug, mac: Mac, rx: seq<byte>): Poll {
    var st := if st0.l3l4 == L3L4_BEGIN
              then st0.(l3l4Channel := 0, l3l4Waiting := false, l3l4 := L3L4_CONFIG_FILTERS) else st0;
    if st.l3l4Waiting then
      var resp := Validate(rx, Oem(st.l3l4Command));
      if resp != Ack then FailPoll(dbg, mac, resp)
      else
        var next := Wrap8(st.l3l4Channel + 1);
        if next >= st.channelCount
        then Poll(st.(l3l4 := st.l3l4 + 1, l3l4Channel := 0, l3l4Waiting := false), dbg, mac, [], resp)
        else Poll(st.(l3l4Channel := next, l3l4Waiting := false), dbg, mac, [], resp)
    else if st.l3l4 == L3L4_CONFIG_FILTERS then
      Poll(st.(l3l4Command := OEM_SET_FILTER, l3l4Waiting := true), dbg, mac,
           OemFrame(OEM_SET_FILTER, st.l3l4Channel, ConfigFilter(dbg, mac)), NoResponse)
    else FailPoll(dbg, mac, NoResponse)
  }

  // ----- Test -----

  datatype TestRole = Params | Ask(cmd: Command) | Check(cmd: Command) | Finished | UnknownTest

  function TestRoleOf(test: nat): TestRole {
    match test
    case 0 => Params
    case 1 => Ask(Oem(OEM_ECHO))
    case 2 => Check(Oem(OEM_ECHO))
    case 3 => Ask(Oem(OEM_GET_FILTER))
    case 4 => Check(Oem(OEM_GET_FILTER))
    case 5 => Ask(Std(GET_PASSTHROUGH_STATISTICS))
    case 6 => Check(Std(GET_PASSTHROUGH_STATISTICS))
    case 7 => Ask(Std(GET_LINK_STATUS))
    case 8 => Check(Std(GET_LINK_STATUS))
    case 9 => Finished
    case _ => UnknownTest
  }

  /** Link status is always asked of channel 0, the rest of the channel under test. */
  function TestChannel(cmd: Command, dbg: Debug): byte {
    if cmd == Std(GET_LINK_STATUS) then 0 else dbg.chUnderTest
  }

  function TestFrame(cmd: Command, dbg: Debug): seq<byte> {
    match cmd
    case Std(code) => SimpleFrame(code, TestChannel(cmd, dbg))
    case Oem(sub) => OemFrame(sub, TestChannel(cmd, dbg), if sub == OEM_ECHO then dbg.ping else [])
  }

  /** The channel the next test run looks at. */
  function NextChannelUnderTest(st: NcsiState, dbg: Debug): byte {
    if st.channelCount != 2 then 0
    else if dbg.chUnderTest % 2 == 0 then dbg.chUnderTest + 1 else dbg.chUnderTest - 1
  }

  function StashFlags(st: NcsiState, channel: byte, flags: byte): NcsiState {
    if channel == 0 then st.(flags0 := flags) else st.(flags1 := flags)
  }

  predicate FilterMatches(rx: seq<byte>, dbg: Debug, mac: Mac)
    requires |rx| >= 66
  {
    var want := ConfigFilter(dbg, mac);
    rx[44..50] == want[2..8] && rx[50..54] == want[8..12] && rx[54..56] == want[12..14]
  }

  /** The verdict on a test response and whether the test goes on. */
  function TestVerdict(st: NcsiState, dbg: Debug, mac: Mac, rx: seq<byte>, cmd: Command): (v: (ResponseType, bool))
    ensures v.0 != NoResponse && (v.1 ==> v.0 == Ack)
    ensures cmd == Oem(OEM_GET_FILTER) && v.1 ==> Validate(rx, cmd) == Ack
  {
    var resp :=
      if cmd == Std(GET_PASSTHROUGH_STATISTICS) && dbg.mlxLegacy then ValidateSized(rx, cmd, 74) else Validate(rx, cmd);
    if resp != Ack then (resp, false)
    else if cmd == Oem(OEM_ECHO) then (resp, rx[42..106] == dbg.ping)
    else if cmd == Oem(OEM_GET_FILTER) then
      if st.l3l4 != L3L4_END || IsHostless(StashFlags(st, dbg.chUnderTest, rx[57])) then (resp, true)
      else if FilterMatches(rx, dbg, mac) then (resp, true) else (UnexpectedParams, false)
    else if cmd == Std(GET_LINK_STATUS) then (resp, rx[37] % 2 == 1)
    else (resp, true)
  }

  predicate MayRetry(dbg: Debug) {
    dbg.maxTries != 0 && Wrap8(dbg.maxTries - 1 - dbg.tries) > 0
  }

  /** The state after a response was looked at: a valid filter response leaves its flags behind. */
  function Seen(st: NcsiState, dbg: Debug, rx: seq<byte>, cmd: Command): NcsiState {
    if cmd == Oem(OEM_GET_FILTER) && Validate(rx, cmd) == Ack then StashFlags(st, dbg.chUnderTest, rx[57]) else st
  }

  /** Goes on, starts once more, or gives up. */
  function TestOutcome(seen: NcsiState, dbg: Debug, mac: Mac, verdict: (ResponseType, bool)): Poll {
    if verdict.1 then Poll(seen.(test := seen.test + 1), dbg, mac, [], verdict.0)
    else if MayRetry(dbg) then Poll(seen.(test := TEST_BEGIN), dbg.(tries := Wrap8(dbg.tries + 1)), mac, [], verdict.0)
    else FailPoll(dbg.(tries := 0), mac, verdict.0)
  }

  function TestCheck(st: NcsiState, dbg: Debug, mac: Mac, rx: seq<byte>, cmd: Command): Poll {
    TestOutcome(Seen(st, dbg, rx, cmd), dbg, mac, TestVerdict(st, dbg, mac, rx, cmd))
  }

  function TestSpec(st: NcsiState, dbg: Debug, mac: Mac, rx: seq<byte>): Poll {
    match TestRoleOf(st.test)
    case Params =>
      if dbg.maxTries > 0
      then Poll(st.(test := st.test + 1),
                dbg.(runs := Wrap32(dbg.runs + 1), chUnderTest := NextChannelUnderTest(st, dbg)), mac, [], NoResponse)
      else Poll(st.(test := TEST_END), dbg, mac, [], NoResponse)
    case Ask(cmd) => Poll(st.(test := st.test + 1), dbg, mac, TestFrame(cmd, dbg), NoResponse)
    case Check(cmd) => TestCheck(st, dbg, mac, rx, cmd)
    case Finished =>
      var rested := dbg.(tries := 0);
      var (st1, dbg1) := if dbg.pendingRestart then (CLEARED, CountFailure(rested)) else (st, rested);
      var delay := Wrap8(st1.retestDelay + 1);
      if delay >= RETEST_DELAY_COUNT
      then Poll(st1.(test := TEST_BEGIN, retestDelay := 0), dbg1, mac, [], NoResponse)
      else Poll(st1.(retestDelay := delay), dbg1, mac, [], NoResponse)
    case UnknownTest => FailPoll(dbg, mac, NoResponse)
  }

  // ----- scheduling -----

  datatype Connection = Down | LoopbackConnection | Up | UpAndConfigured | Disabled

  function ConnectionState(st: NcsiState, dbg: Debug): Connection {
    if !dbg.enabled then Disabled
    else if st.l2 != L2_END then (if dbg.loopback then LoopbackConnection else Down)
    else if st.l3l4 != L3L4_END then Up
    else UpAndConfigured
  }

  datatype Machine = L2Machine | L3L4Machine | TestMachine | NoMachine

  /** The machine the scheduler polls in a round. */
  function Scheduled(st: NcsiState, dbg: Debug): Machine {
    match ConnectionState(st, dbg)
    case Down => L2Machine
    case LoopbackConnection => L2Machine
    case Up => if st.test != TEST_END || IsHostless(st) then TestMachine else L3L4Machine
    case UpAndConfigured => TestMachine
    case Disabled => NoMachine
  }

  datatype Sys = Sys(st: NcsiState, dbg: Debug, mac: Mac)

  const ECHO_PATTERN: Pattern :=
    [0x00, 0x00, 0x00, 0x00, 0x00, 0x00, 0x00, 0x00, 0xFF, 0xFF, 0xFF, 0xFF, 0xFF, 0xFF, 0xFF, 0xFF,
     0x5A, 0x5A, 0x5A, 0x5A, 0x5A, 0x5A, 0x5A, 0x5A, 0xA5, 0xA5, 0xA5, 0xA5, 0xA5, 0xA5, 0xA5, 0xA5]
    + [0x12, 0x34, 0x56, 0x78, 0x9A, 0xBC, 0xDE, 0xF0, 0xFE, 0xDC, 0xBA, 0x98, 0x76, 0x54, 0x32, 0x10]
    + Zeros(16)

  /** The daemon as constructed. The debug fields that construction does not set are whatever
      `dbg` holds: the counters, `mlxLegacy` and `tries`. */
  function Constructed(dbg: Debug, mac: Mac): Sys {
    Sys(CLEARED.(restartDelay := RESTART_DELAY_COUNT - 1),
        dbg.(maxTries := MAX_TRIES, chUnderTest := 0, filterDisable := false, pendingStop := false,
             enabled := true, loopback := false, pendingRestart := true, ping := ECHO_PATTERN), mac)
  }

  /** One round of the scheduler on the frame `rx` it received (empty if none). */
  function RoundSpec(s: Sys, rx: seq<byte>): Poll {
    match Scheduled(s.st, s.dbg)
    case L2Machine => L2Spec(s.st, s.dbg, s.mac, rx)
    case L3L4Machine => L3L4Spec(s.st, s.dbg, s.mac, rx)
    case TestMachine =>
      TestSpec(if s.st.test == TEST_END then s.st.(retestDelay := RESTART_DELAY_COUNT) else s.st, s.dbg, s.mac, rx)
    case NoMachine =>
      Poll(s.st, if s.dbg.pendingRestart then s.dbg.(enabled := true) else s.dbg, s.mac, [], NoResponse)
  }

  function After(p: Poll): Sys { Sys(p.st, p.dbg, p.mac) }
}
