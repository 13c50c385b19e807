/** What holds in every state the daemon can reach, whatever arrives on the wire and whenever a
    stop or a restart is asked for. */
module NcsiSafety {
  import opened Bytes
  import opened NcsiFrames
  import opened NcsiFsm
  import opened Options
  import opened Iteration

  // ----- runs, with what an observer of the wire knows -----

  /** Facts about the frames exchanged since the machines were last cleared. */
  datatype History = History(
    outstanding: Option<Request>,  // sent, and its response not yet looked at
    l2Sent: seq<Request>,          // commands sent by the L2 machine
    l2Acked: nat,                  // how many of them were accepted
    reported: byte,                // channel count of the accepted capabilities response, or 0
    stopAtReset: Option<bool>,     // whether a stop was pending when the reset of channel 0 was due
    hostMac: Option<Mac>,          // address in the accepted host MAC response
    seenHostless: map<byte, bool>, // per channel, the flag in the last accepted GET_FILTER response
    configured: set<byte>,         // channels whose SET_FILTER was accepted
    failures: nat)                 // failed test responses since a test run last finished

  const NOTHING := History(None, [], 0, 0, None, None, map[], {}, 0)

  datatype World = World(sys: Sys, hist: History)

  datatype Event = Round(rx: seq<byte>) | AskStop | AskRestart

  /** What an accepted response to `req` tells. */
  function Learn(h: History, req: Request, rx: seq<byte>): History
    requires Validate(rx, req.cmd) == Ack
  {
    match req.cmd
    case Std(code) => if code == GET_CAPABILITIES then h.(reported := rx[61]) else h
    case Oem(sub) =>
      if sub == OEM_GET_HOST_MAC then h.(hostMac := Some(rx[44..50]))
      else if sub == OEM_GET_FILTER then h.(seenHostless := h.seenHostless[req.channel := HostlessBit(rx[57])])
      else if sub == OEM_SET_FILTER then h.(configured := h.configured + {req.channel})
      else h
  }

  /** The history after a round that received `rx` and polled with outcome `p`. */
  function Observe(h: History, s: Sys, rx: seq<byte>, p: Poll): History {
    if p.dbg.failCount != s.dbg.failCount then NOTHING
    else Exchanged(AtReset(h, s), s, rx, p)
  }

  /** Whether a stop is pending counts in the one round that decides about it. */
  function AtReset(h: History, s: Sys): History {
    if Scheduled(s.st, s.dbg) == L2Machine && s.st.l2 == L2_RESET_CHANNEL_0
    then h.(stopAtReset := Some(s.dbg.pendingStop)) else h
  }

  /** What the frames of a round add. */
  function Exchanged(h: History, s: Sys, rx: seq<byte>, p: Poll): History {
    var machine := Scheduled(s.st, s.dbg);
    if |p.tx| >= HEADER_SIZE then
      h.(outstanding := Some(RequestOf(p.tx)),
         l2Sent := if machine == L2Machine then h.l2Sent + [RequestOf(p.tx)] else h.l2Sent)
    else if p.resp != NoResponse then
      var answered := h.(outstanding := None,
                         l2Acked := if machine == L2Machine && p.resp == Ack then h.l2Acked + 1 else h.l2Acked,
                         failures := if machine == TestMachine && p.st.test == TEST_BEGIN then h.failures + 1 else h.failures);
      if h.outstanding.Some? && Validate(rx, h.outstanding.value.cmd) == Ack
      then Learn(answered, h.outstanding.value, rx) else answered
    else if machine == TestMachine && s.st.test == TEST_END then h.(failures := 0)
    else h
  }

  function Next(w: World, e: Event): World {
    match e
    case Round(rx) => var p := RoundSpec(w.sys, rx); World(After(p), Observe(w.hist, w.sys, rx, p))
    case AskStop => World(w.sys.(dbg := w.sys.dbg.(pendingStop := true)), w.hist)
    case AskRestart => World(w.sys.(dbg := w.sys.dbg.(pendingRestart := true)), w.hist)
  }

  function Exec(w: World, events: seq<Event>): World { Fold(Next, w, events) }

  /** Reachable: some run leads here from the constructed daemon, whatever the memory holds that
      construction does not initialise. */
  ghost predicate Reachable(w: World) {
    exists dbg: Debug, mac: Mac, events :: w == Exec(World(Constructed(dbg, mac), NOTHING), events)
  }

  // ----- the joint invariant -----

  predicate L2Awaits(st: NcsiState) { L2RoleOf(st.l2).Await? }

  predicate L3L4Awaits(st: NcsiState) { st.l3l4Waiting }

  predicate TestAwaits(st: NcsiState) { TestRoleOf(st.test).Check? }

  /** The request whose answer the machines are waiting for. */
  function Awaited(st: NcsiState, dbg: Debug): Option<Request> {
    if L2Awaits(st) then Some(Request(L2RoleOf(st.l2).cmd, L2RoleOf(st.l2).channel))
    else if L3L4Awaits(st) then Some(Request(Oem(st.l3l4Command), st.l3l4Channel))
    else if TestAwaits(st) then Some(Request(TestRoleOf(st.test).cmd, TestChannel(TestRoleOf(st.test).cmd, dbg)))
    else None
  }

  predicate Joint(st: NcsiState, dbg: Debug) {
    && st.l2 <= L2_END && st.l3l4 <= L3L4_END && st.test <= TEST_END
    && (if st.l2 <= L2_GET_CAPABILITIES_RESPONSE then st.channelCount == 0 else 1 <= st.channelCount <= 2)
    && (st.l2 in {7, 8, 11, 12, 18, 19, 22, 23} ==> st.channelCount == 2)
    && (st.l2 != L2_END ==> st.l3l4 == L3L4_BEGIN && st.test == TEST_BEGIN && st.flags0 == 0 && st.flags1 == 0)
    && (st.l3l4Waiting ==> st.l3l4 == L3L4_CONFIG_FILTERS && st.l3l4Command == OEM_SET_FILTER)
    && (st.l3l4 == L3L4_CONFIG_FILTERS ==> st.test == TEST_END && !IsHostless(st) && st.l3l4Channel < st.channelCount)
    && (!dbg.enabled ==> st.l2 == L2_RESTART)
    && dbg.maxTries == MAX_TRIES && dbg.chUnderTest <= 1
    && (st.test != TEST_BEGIN && st.channelCount == 1 ==> dbg.chUnderTest == 0)
  }

  // The script of the L2 machine.
  const CLEAR := Std(CLEAR_INITIAL_STATE)
  const SET_MAC := Std(SET_MAC_ADDRESS)
  const ENABLE := Std(ENABLE_CHANNEL)
  const RESET := Std(RESET_CHANNEL)

  /** Everything the L2 machine ever sends between two clears, in order. */
  function Script(channels: byte, stop: bool): seq<Request> {
    var start := [Request(CLEAR, 0), Request(Std(GET_VERSION_ID), 0), Request(Std(GET_CAPABILITIES), 0)];
    if channels == 1 then
      start + if stop then [Request(RESET, 0)]
              else [Request(Oem(OEM_GET_HOST_MAC), 0), Request(SET_MAC, 0), Request(ENABLE, 0), Request(Std(ENABLE_TX), 0)]
    else
      start + [Request(CLEAR, 1)]
      + if stop then [Request(RESET, 0), Request(RESET, 1)]
        else [Request(Oem(OEM_GET_HOST_MAC), 0), Request(SET_MAC, 0), Request(SET_MAC, 1),
              Request(ENABLE, 0), Request(ENABLE, 1), Request(Std(ENABLE_TX), 0)]
  }

  predicate OnStopBranch(st: NcsiState) { L2_RESET_CHANNEL_0 < st.l2 <= L2_STOPPED }

  /** How far into its script the L2 machine is. */
  function Sent(st: NcsiState): nat {
    var l := st.l2;
    if l <= 1 then 0 else if l <= 3 then 1 else if l <= 5 then 2 else if l <= 7 then 3
    else if st.channelCount == 1 then
      if l == 9 || l == 14 then 3 else if l <= 16 then 4 else if l <= 20 then 5 else if l <= 24 then 6 else 7
    else
      if l <= 9 || l == 14 then 4 else if l <= 11 then 5 else if l <= 13 then 6
      else if l <= 16 then 5 else if l <= 18 then 6 else if l <= 20 then 7 else if l <= 22 then 8
      else if l <= 24 then 9 else 10
  }

  predicate ScriptFollowed(st: NcsiState, h: History) {
    var script := Script(st.channelCount, OnStopBranch(st));
    && Sent(st) <= |script| && h.l2Sent == script[..Sent(st)]
    && h.l2Acked == Sent(st) - (if L2Awaits(st) then 1 else 0)
    && h.stopAtReset == if st.l2 <= L2_RESET_CHANNEL_0 then None else Some(OnStopBranch(st))
  }

  predicate FlagsSeen(st: NcsiState, h: History) {
    && HostlessBit(st.flags0) == (0 in h.seenHostless && h.seenHostless[0])
    && HostlessBit(st.flags1) == (1 in h.seenHostless && h.seenHostless[1])
  }

  predicate FiltersSet(st: NcsiState, h: History) {
    && (st.l3l4 == L3L4_CONFIG_FILTERS && 0 < st.l3l4Channel ==> 0 in h.configured)
    && (st.l3l4 == L3L4_END ==> 0 in h.configured && (st.channelCount == 2 ==> 1 in h.configured))
  }

  predicate Inv(w: World) {
    var st, dbg, h := w.sys.st, w.sys.dbg, w.hist;
    && Joint(st, dbg)
    && h.outstanding == Awaited(st, dbg)
    && h.reported == st.channelCount
    && (st.l2 > 15 ==> h.hostMac == Some(w.sys.mac))
    && ScriptFollowed(st, h)
    && FlagsSeen(st, h)
    && FiltersSet(st, h)
  }

  // ----- preservation -----

  lemma L2FrameCarries(cmd: Command, channel: byte, mac: Mac)
    requires cmd.Oem? || cmd.code != OEM_COMMAND
    ensures |L2Frame(cmd, channel, mac)| >= HEADER_SIZE && RequestOf(L2Frame(cmd, channel, mac)) == Request(cmd, channel)
  {
  }

  lemma TestFrameCarries(cmd: Command, dbg: Debug)
    requires cmd.Oem? || cmd.code != OEM_COMMAND
    ensures |TestFrame(cmd, dbg)| >= HEADER_SIZE && RequestOf(TestFrame(cmd, dbg)) == Request(cmd, TestChannel(cmd, dbg))
  {
  }

  /** A clear leaves nothing to remember, and a state that remembers nothing. */
  lemma ClearedIsSafe(s: Sys, restDelay: byte)
    requires s.st == CLEARED.(retestDelay := restDelay)
    requires s.dbg.maxTries == MAX_TRIES && s.dbg.chUnderTest <= 1
    ensures Inv(World(s, NOTHING))
  {
  }

  lemma ClearKeeps(w: World, rx: seq<byte>, p: Poll)
    requires Inv(w) && p == FailPoll(w.sys.dbg.(loopback := p.dbg.loopback), w.sys.mac, p.resp)
    ensures Inv(World(After(p), Observe(w.hist, w.sys, rx, p)))
  {
    ClearedIsSafe(After(p), 0);
  }

  /** Where the L2 machine sends, the script continues with just that request. */
  lemma ScriptContinues(st: NcsiState, dbg: Debug)
    requires Joint(st, dbg) && L2RoleOf(st.l2).Send?
    ensures var script := Script(st.channelCount, OnStopBranch(st));
            Sent(st) < |script| && script[Sent(st)] == Request(L2RoleOf(st.l2).cmd, L2RoleOf(st.l2).channel)
    ensures Sent(st.(l2 := st.l2 + 1)) == Sent(st) + 1
    ensures OnStopBranch(st.(l2 := st.l2 + 1)) == OnStopBranch(st)
  {
  }

  lemma L2RequestKeeps(w: World, st': NcsiState, h': History)
    requires Inv(w) && w.sys.dbg.enabled && L2RoleOf(w.sys.st.l2).Send? && st' == w.sys.st.(l2 := w.sys.st.l2 + 1)
    requires var req := Request(L2RoleOf(w.sys.st.l2).cmd, L2RoleOf(w.sys.st.l2).channel);
             h' == w.hist.(outstanding := Some(req), l2Sent := w.hist.l2Sent + [req])
    ensures Inv(World(w.sys.(st := st'), h'))
  {
    var st := w.sys.st;
    ScriptContinues(st, w.sys.dbg);
    var script := Script(st.channelCount, OnStopBranch(st));
    assert script[..Sent(st)] + [script[Sent(st)]] == script[..Sent(st) + 1];
  }

  lemma L2SendKeeps(w: World, rx: seq<byte>)
    requires Inv(w) && Scheduled(w.sys.st, w.sys.dbg) == L2Machine && L2RoleOf(w.sys.st.l2).Send?
    ensures Inv(Next(w, Round(rx)))
  {
    var role := L2RoleOf(w.sys.st.l2);
    L2FrameCarries(role.cmd, role.channel, w.sys.mac);
    var w' := Next(w, Round(rx));
    L2RequestKeeps(w, w'.sys.st, w'.hist);
  }

  /** Where an answer leads: past the awaited request only, and onto the same script. */
  lemma ScriptHolds(st: NcsiState, st': NcsiState, dbg: Debug, perChannel: bool)
    requires Joint(st, dbg) && L2RoleOf(st.l2).Await? && L2RoleOf(st.l2).perChannel == perChannel
    requires st.l2 != L2_GET_CAPABILITIES_RESPONSE && st' == st.(l2 := st.l2 + if perChannel then ChannelStep(st) else 1)
    ensures Joint(st', dbg) && !L2Awaits(st') && Sent(st') == Sent(st)
    ensures Script(st'.channelCount, OnStopBranch(st'))[..Sent(st')] == Script(st.channelCount, OnStopBranch(st))[..Sent(st)]
  {
  }

  /** The answers that do not clear the machines. */
  predicate Accepts(rx: seq<byte>, cmd: Command, resp: ResponseType)
    requires resp == Ack ==> |rx| >= ResponseSize(cmd)
  {
    resp == Ack && (cmd == Std(GET_CAPABILITIES) ==> 1 <= rx[61] <= 2)
  }

  /** What an accepted L2 answer does, debug flags aside. */
  lemma L2AcceptShape(st: NcsiState, dbg: Debug, mac: Mac, rx: seq<byte>, cmd: Command, perChannel: bool, p: Poll)
    requires |rx| >= ResponseSize(cmd) && Accepts(rx, cmd, Ack) && p == L2Answer(st, dbg, mac, rx, cmd, perChannel, Ack)
    ensures p.tx == [] && p.resp == Ack
    ensures p.dbg == dbg.(loopback := p.dbg.loopback, mlxLegacy := if cmd == Std(GET_VERSION_ID) then rx[54] == 8 else dbg.mlxLegacy)
    ensures p.mac == if cmd == Oem(OEM_GET_HOST_MAC) then rx[44..50] else mac
    ensures p.st == if cmd == Std(GET_CAPABILITIES)
                    then st.(channelCount := rx[61], l2 := st.l2 + if rx[61] == 1 then 3 else 1)
                    else st.(l2 := st.l2 + if perChannel then ChannelStep(st) else 1)
  {
    hide Heard;
  }

  lemma L2ClearShape(st: NcsiState, dbg: Debug, mac: Mac, rx: seq<byte>, cmd: Command, perChannel: bool, resp: ResponseType, p: Poll)
    requires (resp == Ack ==> |rx| >= ResponseSize(cmd)) && !Accepts(rx, cmd, resp)
    requires p == L2Answer(st, dbg, mac, rx, cmd, perChannel, resp)
    ensures p == FailPoll(dbg.(loopback := p.dbg.loopback), mac, resp)
  {
    hide Heard;
  }

  lemma CapabilitiesKeep(w: World, rx: seq<byte>, p: Poll)
    requires Inv(w) && w.sys.dbg.enabled && w.sys.st.l2 == L2_GET_CAPABILITIES_RESPONSE
    requires Validate(rx, Std(GET_CAPABILITIES)) == Ack && 1 <= rx[61] <= 2
    requires p.st == w.sys.st.(channelCount := rx[61], l2 := w.sys.st.l2 + if rx[61] == 1 then 3 else 1)
    requires p.tx == [] && p.resp == Ack && p.mac == w.sys.mac
    requires p.dbg == w.sys.dbg.(loopback := p.dbg.loopback, mlxLegacy := p.dbg.mlxLegacy)
    ensures Inv(World(After(p), Observe(w.hist, w.sys, rx, p)))
  {
    assert Script(rx[61], false)[..3] == Script(0, false)[..3];
  }

  lemma L2AcceptedKeeps(w: World, rx: seq<byte>, p: Poll, cmd: Command, perChannel: bool)
    requires Inv(w) && w.sys.dbg.enabled && w.sys.st.l2 != L2_GET_CAPABILITIES_RESPONSE && Validate(rx, cmd) == Ack
    requires L2RoleOf(w.sys.st.l2).Await? && L2RoleOf(w.sys.st.l2).cmd == cmd && L2RoleOf(w.sys.st.l2).perChannel == perChannel
    requires p.st == w.sys.st.(l2 := w.sys.st.l2 + if perChannel then ChannelStep(w.sys.st) else 1)
    requires p.tx == [] && p.resp == Ack && p.mac == if cmd == Oem(OEM_GET_HOST_MAC) then rx[44..50] else w.sys.mac
    requires p.dbg == w.sys.dbg.(loopback := p.dbg.loopback, mlxLegacy := p.dbg.mlxLegacy)
    ensures Inv(World(After(p), Observe(w.hist, w.sys, rx, p)))
  {
    hide Script;
    ScriptHolds(w.sys.st, p.st, w.sys.dbg, perChannel);
  }

  lemma L2AnswerKeeps(w: World, rx: seq<byte>, cmd: Command, perChannel: bool, p: Poll)
    requires Inv(w) && Scheduled(w.sys.st, w.sys.dbg) == L2Machine
    requires L2RoleOf(w.sys.st.l2).Await? && L2RoleOf(w.sys.st.l2).cmd == cmd && L2RoleOf(w.sys.st.l2).perChannel == perChannel
    requires p == L2Answer(w.sys.st, w.sys.dbg, w.sys.mac, rx, cmd, perChannel, Validate(rx, cmd))
    ensures Inv(World(After(p), Observe(w.hist, w.sys, rx, p)))
  {
    hide Inv;
    if !Accepts(rx, cmd, Validate(rx, cmd)) {
      L2ClearShape(w.sys.st, w.sys.dbg, w.sys.mac, rx, cmd, perChannel, Validate(rx, cmd), p);
      ClearKeeps(w, rx, p);
      return;
    }
    L2AcceptShape(w.sys.st, w.sys.dbg, w.sys.mac, rx, cmd, perChannel, p);
    if w.sys.st.l2 == L2_GET_CAPABILITIES_RESPONSE {
      CapabilitiesKeep(w, rx, p);
    } else {
      L2AcceptedKeeps(w, rx, p, cmd, perChannel);
    }
  }

  lemma StopGateKeeps(w: World, rx: seq<byte>)
    requires Inv(w) && Scheduled(w.sys.st, w.sys.dbg) == L2Machine && w.sys.st.l2 == L2_RESET_CHANNEL_0
    ensures Inv(Next(w, Round(rx)))
  {
    var st := w.sys.st;
    var go, stop := Script(st.channelCount, false), Script(st.channelCount, true);
    assert go[..Sent(st)] == stop[..Sent(st)];
    if w.sys.dbg.pendingStop {
      L2FrameCarries(RESET, 0, w.sys.mac);
      assert stop[..Sent(st)] + [stop[Sent(st)]] == stop[..Sent(st) + 1];
    }
  }

  lemma StoppedKeeps(w: World, rx: seq<byte>)
    requires Inv(w) && Scheduled(w.sys.st, w.sys.dbg) == L2Machine && w.sys.st.l2 == L2_STOPPED
    ensures Inv(Next(w, Round(rx)))
  {
    var p := RoundSpec(w.sys, rx);
    assert p == FailPoll(w.sys.dbg.(pendingStop := false, enabled := false), w.sys.mac, NoResponse);
    assert Observe(w.hist, w.sys, rx, p) == NOTHING;
    hide Inv, RoundSpec;
    ClearedIsSafe(After(p), 0);
  }

  lemma RestartWaitKeeps(w: World, rx: seq<byte>)
    requires Inv(w) && Scheduled(w.sys.st, w.sys.dbg) == L2Machine && w.sys.st.l2 == L2_RESTART
    ensures Inv(Next(w, Round(rx)))
  {
  }

  lemma L3L4AnswerKeeps(w: World, rx: seq<byte>)
    requires Inv(w) && Scheduled(w.sys.st, w.sys.dbg) == L3L4Machine && w.sys.st.l3l4Waiting
    ensures Inv(Next(w, Round(rx)))
  {
    hide Script, StdResponseSize;
    var p := RoundSpec(w.sys, rx);
    if p.st == CLEARED {
      ClearedIsSafe(After(p), 0);
    }
  }

  lemma FilterRequestKeeps(w: World, st': NcsiState, h': History)
    requires Inv(w) && Scheduled(w.sys.st, w.sys.dbg) == L3L4Machine && !w.sys.st.l3l4Waiting
    requires var channel := if w.sys.st.l3l4 == L3L4_BEGIN then 0 else w.sys.st.l3l4Channel;
             && st' == w.sys.st.(l3l4 := L3L4_CONFIG_FILTERS, l3l4Channel := channel, l3l4Waiting := true, l3l4Command := OEM_SET_FILTER)
             && h' == w.hist.(outstanding := Some(Request(Oem(OEM_SET_FILTER), channel)))
    ensures Inv(World(w.sys.(st := st'), h'))
  {
    hide Script;
  }

  lemma FilterFrameCarries(channel: byte, dbg: Debug, mac: Mac)
    ensures var frame := OemFrame(OEM_SET_FILTER, channel, ConfigFilter(dbg, mac));
            |frame| >= HEADER_SIZE && RequestOf(frame) == Request(Oem(OEM_SET_FILTER), channel)
  {
  }

  lemma L3L4SendKeeps(w: World, rx: seq<byte>)
    requires Inv(w) && Scheduled(w.sys.st, w.sys.dbg) == L3L4Machine && !w.sys.st.l3l4Waiting
    ensures Inv(Next(w, Round(rx)))
  {
    hide ScriptFollowed, FlagsSeen, FiltersSet, OemFrame, RequestOf, ConfigFilter;
    var w' := Next(w, Round(rx));
    FilterFrameCarries(w'.sys.st.l3l4Channel, w.sys.dbg, w.sys.mac);
    FilterRequestKeeps(w, w'.sys.st, w'.hist);
  }

  lemma TestAskKeeps(w: World, rx: seq<byte>)
    requires Inv(w) && Scheduled(w.sys.st, w.sys.dbg) == TestMachine && TestRoleOf(w.sys.st.test).Ask?
    ensures Inv(Next(w, Round(rx)))
  {
    TestFrameCarries(TestRoleOf(w.sys.st.test).cmd, w.sys.dbg);
  }

  lemma TestClearKeeps(w: World, rx: seq<byte>, p: Poll)
    requires Inv(w) && p == FailPoll(w.sys.dbg.(tries := 0), w.sys.mac, p.resp)
    ensures Inv(World(After(p), Observe(w.hist, w.sys, rx, p)))
  {
    ClearedIsSafe(After(p), 0);
  }

  /** What is seen of a channel's flags is what was stashed. */
  lemma SeenKeepsStep(w: World, rx: seq<byte>, cmd: Command, st': NcsiState, h: History, failures: nat)
    requires Inv(w) && TestRoleOf(w.sys.st.test) == Check(cmd) && w.sys.st.l2 == L2_END
    requires st' == Seen(w.sys.st, w.sys.dbg, rx, cmd).(test := st'.test) && st'.test <= TEST_END
    requires h == (if cmd == Oem(OEM_GET_FILTER) && Validate(rx, cmd) == Ack
                   then w.hist.(seenHostless := w.hist.seenHostless[w.sys.dbg.chUnderTest := HostlessBit(rx[57])])
                   else w.hist).(outstanding := None, failures := failures)
    ensures Joint(st', w.sys.dbg) && FlagsSeen(st', h) && FiltersSet(st', h) && ScriptFollowed(st', h)
    ensures st'.channelCount == w.sys.st.channelCount && st'.l2 == L2_END && !st'.l3l4Waiting
  {
  }

  /** A response that does not clear moves the test machine only, and keeps the flags and what
      was seen in step. */
  lemma TestMoveKeeps(w: World, rx: seq<byte>, cmd: Command, verdict: (ResponseType, bool), p: Poll)
    requires Inv(w) && Scheduled(w.sys.st, w.sys.dbg) == TestMachine && TestRoleOf(w.sys.st.test) == Check(cmd)
    requires p == TestOutcome(Seen(w.sys.st, w.sys.dbg, rx, cmd), w.sys.dbg, w.sys.mac, verdict)
    requires verdict.0 != NoResponse && (cmd == Oem(OEM_GET_FILTER) && verdict.1 ==> Validate(rx, cmd) == Ack)
    requires verdict.1 || MayRetry(w.sys.dbg)
    ensures Inv(World(After(p), Observe(w.hist, w.sys, rx, p)))
  {
    hide TestVerdict, ScriptFollowed, FlagsSeen, FiltersSet, IsHostless;
    assert w.hist.outstanding == Some(Request(cmd, TestChannel(cmd, w.sys.dbg)));
    var h := Observe(w.hist, w.sys, rx, p);
    SeenKeepsStep(w, rx, cmd, p.st, h, h.failures);
  }

  lemma TestRestartKeeps(w: World, rx: seq<byte>)
    requires Inv(w) && Scheduled(w.sys.st, w.sys.dbg) == TestMachine && w.sys.st.test == TEST_END && w.sys.dbg.pendingRestart
    ensures Inv(Next(w, Round(rx)))
  {
    var p := RoundSpec(w.sys, rx);
    assert p == Poll(CLEARED.(retestDelay := 1), CountFailure(w.sys.dbg.(tries := 0)), w.sys.mac, [], NoResponse);
    assert Observe(w.hist, w.sys, rx, p) == NOTHING;
    hide Inv, RoundSpec;
    ClearedIsSafe(After(p), 1);
  }

  lemma TestFinishedKeeps(w: World, rx: seq<byte>)
    requires Inv(w) && Scheduled(w.sys.st, w.sys.dbg) == TestMachine && w.sys.st.test == TEST_END && !w.sys.dbg.pendingRestart
    ensures Inv(Next(w, Round(rx)))
  {
  }

  lemma TestParamsKeeps(w: World, rx: seq<byte>)
    requires Inv(w) && Scheduled(w.sys.st, w.sys.dbg) == TestMachine && w.sys.st.test == TEST_BEGIN
    ensures Inv(Next(w, Round(rx)))
  {
  }

  lemma TestKeeps(w: World, rx: seq<byte>)
    requires Inv(w) && Scheduled(w.sys.st, w.sys.dbg) == TestMachine
    ensures Inv(Next(w, Round(rx)))
  {
    match TestRoleOf(w.sys.st.test)
    case Params => TestParamsKeeps(w, rx);
    case Ask(cmd) => TestAskKeeps(w, rx);
    case Check(cmd) =>
      var verdict := TestVerdict(w.sys.st, w.sys.dbg, w.sys.mac, rx, cmd);
      if verdict.1 || MayRetry(w.sys.dbg) {
        TestMoveKeeps(w, rx, cmd, verdict, RoundSpec(w.sys, rx));
      } else {
        TestClearKeeps(w, rx, RoundSpec(w.sys, rx));
      }
    case Finished => if w.sys.dbg.pendingRestart { TestRestartKeeps(w, rx); } else { TestFinishedKeeps(w, rx); }
    case UnknownTest =>
  }

  lemma L2Keeps(w: World, rx: seq<byte>)
    requires Inv(w) && Scheduled(w.sys.st, w.sys.dbg) == L2Machine
    ensures Inv(Next(w, Round(rx)))
  {
    match L2RoleOf(w.sys.st.l2)
    case Send(_, _) => L2SendKeeps(w, rx);
    case Await(cmd, _, perChannel) => L2AnswerKeeps(w, rx, cmd, perChannel, RoundSpec(w.sys, rx));
    case StopGate => StopGateKeeps(w, rx);
    case RestartWait => RestartWaitKeeps(w, rx);
    case Stopped => StoppedKeeps(w, rx);
    case _ =>
  }

  /** Every event keeps the joint invariant. */
  lemma StepKeeps(w: World, e: Event)
    requires Inv(w)
    ensures Inv(Next(w, e))
  {
    match e
    case Round(rx) =>
      match Scheduled(w.sys.st, w.sys.dbg) {
        case L2Machine => L2Keeps(w, rx);
        case L3L4Machine => if w.sys.st.l3l4Waiting { L3L4AnswerKeeps(w, rx); } else { L3L4SendKeeps(w, rx); }
        case TestMachine => TestKeeps(w, rx);
        case NoMachine =>
      }
    case AskStop =>
    case AskRestart =>
  }

  lemma {:induction false} ExecKeeps(w: World, events: seq<Event>)
    requires Inv(w)
    ensures Inv(Exec(w, events))
  {
    if events != [] {
      ExecKeeps(w, events[..|events| - 1]);
      StepKeeps(Exec(w, events[..|events| - 1]), events[|events| - 1]);
    }
  }

  /** Every reachable state satisfies the joint invariant. */
  lemma ReachableIsSafe(w: World)
    requires Reachable(w)
    ensures Inv(w)
  {
    var dbg: Debug, mac: Mac, events :| w == Exec(World(Constructed(dbg, mac), NOTHING), events);
    ConstructedIsSafe(dbg, mac);
    ExecKeeps(World(Constructed(dbg, mac), NOTHING), events);
  }

  lemma ConstructedIsSafe(dbg: Debug, mac: Mac)
    ensures Inv(World(Constructed(dbg, mac), NOTHING))
  {
  }
}
