/** The guarantees of the NC-SI daemon, for every reachable state and every received frame. */
module NcsiTheorems {
  import opened Bytes
  import opened NcsiFrames
  import opened NcsiFsm
  import opened NcsiSafety
  import opened Options
  import opened Iteration
  import M = NcsiMachine

  /** The verdict a response to `req` gets: the plain check, with the shorter statistics layout
      of legacy firmware, and with a filter that does not match reported as such. */
  ghost predicate JudgedFor(resp: ResponseType, rx: seq<byte>, req: Request, legacy: bool) {
    var expected := if req.cmd == Std(GET_PASSTHROUGH_STATISTICS) && legacy then 74 else ResponseSize(req.cmd);
    || resp == ValidateSized(rx, req.cmd, expected)
    || (req.cmd == Oem(OEM_GET_FILTER) && Validate(rx, req.cmd) == Ack && resp == UnexpectedParams)
  }

  lemma OneAwaits(st: NcsiState, dbg: Debug)
    requires Joint(st, dbg)
    ensures !(L2Awaits(st) && L3L4Awaits(st)) && !(L2Awaits(st) && TestAwaits(st)) && !(L3L4Awaits(st) && TestAwaits(st))
    ensures st.l2 != L2_END ==> st.l3l4 == L3L4_BEGIN && st.test == TEST_BEGIN
  {
  }

  /** At most one machine waits for an answer, and then it waits for the command last sent. */
  lemma OneOutstandingCommand(w: World)
    requires Reachable(w)
    ensures var st := w.sys.st;
            !(L2Awaits(st) && L3L4Awaits(st)) && !(L2Awaits(st) && TestAwaits(st)) && !(L3L4Awaits(st) && TestAwaits(st))
    ensures w.hist.outstanding == Awaited(w.sys.st, w.sys.dbg)
    ensures w.sys.st.l2 != L2_END ==> w.sys.st.l3l4 == L3L4_BEGIN && w.sys.st.test == TEST_BEGIN
  {
    ReachableIsSafe(w);
    OneAwaits(w.sys.st, w.sys.dbg);
  }

  lemma SenderIsScheduled(st: NcsiState, dbg: Debug)
    requires Joint(st, dbg)
    ensures L2Awaits(st) ==> Scheduled(st, dbg) == L2Machine
    ensures L3L4Awaits(st) ==> Scheduled(st, dbg) == L3L4Machine
    ensures TestAwaits(st) ==> Scheduled(st, dbg) == TestMachine
    ensures Scheduled(st, dbg) == L3L4Machine ==> !L2Awaits(st) && !TestAwaits(st)
    ensures Scheduled(st, dbg) == TestMachine ==> !L2Awaits(st) && !L3L4Awaits(st)
  {
  }

  lemma L2Judges(st: NcsiState, dbg: Debug, mac: Mac, rx: seq<byte>)
    ensures var p := L2Spec(st, dbg, mac, rx);
            if L2Awaits(st) then p.tx == [] && p.resp == Validate(rx, L2RoleOf(st.l2).cmd) else p.resp == NoResponse
  {
  }

  lemma L3L4Judges(st: NcsiState, dbg: Debug, mac: Mac, rx: seq<byte>)
    requires Joint(st, dbg)
    ensures var p := L3L4Spec(st, dbg, mac, rx);
            if st.l3l4Waiting then p.tx == [] && p.resp == Validate(rx, Oem(st.l3l4Command)) else p.resp == NoResponse
  {
  }

  lemma TestJudges(st: NcsiState, dbg: Debug, mac: Mac, rx: seq<byte>)
    ensures var p := TestSpec(st, dbg, mac, rx);
            if TestAwaits(st)
            then p.tx == [] && p.resp != NoResponse
                 && JudgedFor(p.resp, rx, Request(TestRoleOf(st.test).cmd, TestChannel(TestRoleOf(st.test).cmd, dbg)), dbg.mlxLegacy)
            else p.resp == NoResponse
  {
  }

  lemma RoundJudges(s: Sys, rx: seq<byte>)
    requires Joint(s.st, s.dbg)
    ensures var p := RoundSpec(s, rx);
            match Awaited(s.st, s.dbg)
            case None => p.resp == NoResponse
            case Some(req) => p.tx == [] && p.resp != NoResponse && JudgedFor(p.resp, rx, req, s.dbg.mlxLegacy)
  {
    SenderIsScheduled(s.st, s.dbg);
    match Scheduled(s.st, s.dbg)
    case L2Machine => L2Judges(s.st, s.dbg, s.mac, rx);
    case L3L4Machine => L3L4Judges(s.st, s.dbg, s.mac, rx);
    case TestMachine =>
      var st := if s.st.test == TEST_END then s.st.(retestDelay := RESTART_DELAY_COUNT) else s.st;
      TestJudges(st, s.dbg, s.mac, rx);
    case NoMachine =>
  }

  /** While a command is outstanding the next round polls the machine that sent it, sends
      nothing, and judges the received frame as the answer to that command; otherwise the round
      looks at no answer. */
  lemma AnswerGoesToSender(w: World, rx: seq<byte>)
    requires Reachable(w)
    ensures var machine := Scheduled(w.sys.st, w.sys.dbg);
            && (L2Awaits(w.sys.st) ==> machine == L2Machine)
            && (L3L4Awaits(w.sys.st) ==> machine == L3L4Machine)
            && (TestAwaits(w.sys.st) ==> machine == TestMachine)
    ensures var p := RoundSpec(w.sys, rx);
            match w.hist.outstanding
            case None => p.resp == NoResponse
            case Some(req) => p.tx == [] && p.resp != NoResponse && JudgedFor(p.resp, rx, req, w.sys.dbg.mlxLegacy)
  {
    ReachableIsSafe(w);
    SenderIsScheduled(w.sys.st, w.sys.dbg);
    RoundJudges(w.sys, rx);
  }

  /** A frame for channel 0, or for channel 1 of a NIC that is known to have two. */
  predicate ToKnownChannel(tx: seq<byte>, channels: byte) {
    |tx| >= HEADER_SIZE && tx[AT_CHANNEL] <= 1 && (tx[AT_CHANNEL] == 1 ==> channels == 2)
  }

  lemma L2SentFrame(st: NcsiState, dbg: Debug, mac: Mac, rx: seq<byte>)
    requires Joint(st, dbg) && L2Spec(st, dbg, mac, rx).tx != []
    ensures ToKnownChannel(L2Spec(st, dbg, mac, rx).tx, st.channelCount)
  {
    if L2RoleOf(st.l2).Send? {
      L2FrameCarries(L2RoleOf(st.l2).cmd, L2RoleOf(st.l2).channel, mac);
    }
  }

  lemma TestSentFrame(st: NcsiState, dbg: Debug, mac: Mac, rx: seq<byte>)
    requires Joint(st, dbg) && st.l2 == L2_END && TestSpec(st, dbg, mac, rx).tx != []
    ensures ToKnownChannel(TestSpec(st, dbg, mac, rx).tx, st.channelCount)
  {
    if TestRoleOf(st.test).Ask? {
      TestFrameCarries(TestRoleOf(st.test).cmd, dbg);
    }
  }

  lemma L3L4SentFrame(st: NcsiState, dbg: Debug, mac: Mac, rx: seq<byte>)
    requires Joint(st, dbg) && st.l2 == L2_END && L3L4Spec(st, dbg, mac, rx).tx != []
    ensures ToKnownChannel(L3L4Spec(st, dbg, mac, rx).tx, st.channelCount)
  {
  }

  lemma SentFrame(w: World, rx: seq<byte>)
    requires Inv(w) && RoundSpec(w.sys, rx).tx != []
    ensures ToKnownChannel(RoundSpec(w.sys, rx).tx, w.sys.st.channelCount)
  {
    hide L2Spec, L3L4Spec, TestSpec, ToKnownChannel;
    match Scheduled(w.sys.st, w.sys.dbg)
    case L2Machine => L2SentFrame(w.sys.st, w.sys.dbg, w.sys.mac, rx);
    case L3L4Machine => L3L4SentFrame(w.sys.st, w.sys.dbg, w.sys.mac, rx);
    case TestMachine =>
      TestSentFrame(if w.sys.st.test == TEST_END then w.sys.st.(retestDelay := RESTART_DELAY_COUNT) else w.sys.st,
                    w.sys.dbg, w.sys.mac, rx);
    case NoMachine =>
  }

  /** Frames go to channels 0 and 1 only, and to channel 1 only if the NIC's capabilities
      response reported two channels. */
  lemma ChannelSafety(w: World, rx: seq<byte>)
    requires Reachable(w) && RoundSpec(w.sys, rx).tx != []
    ensures var tx := RoundSpec(w.sys, rx).tx;
            |tx| >= HEADER_SIZE && tx[AT_CHANNEL] <= 1 && (tx[AT_CHANNEL] == 1 ==> w.hist.reported == 2)
  {
    ReachableIsSafe(w);
    SentFrame(w, rx);
  }

  lemma L2StepLands(s: Sys, rx: seq<byte>, cmd: Command, perChannel: bool, resp: ResponseType)
    requires Joint(s.st, s.dbg) && L2RoleOf(s.st.l2).Await? && resp == Validate(rx, cmd)
    requires L2RoleOf(s.st.l2).cmd == cmd && L2RoleOf(s.st.l2).perChannel == perChannel
    ensures var p := L2Answer(s.st, s.dbg, s.mac, rx, cmd, perChannel, resp);
            p.st == CLEARED || (p.resp == Ack && p.st.l2 > s.st.l2 && !L2Awaits(p.st) && !L2RoleOf(p.st.l2).Unknown?)
  {
    hide L2Answer;
    var p := L2Answer(s.st, s.dbg, s.mac, rx, cmd, perChannel, resp);
    if Accepts(rx, cmd, resp) {
      L2AcceptShape(s.st, s.dbg, s.mac, rx, cmd, perChannel, p);
    } else {
      L2ClearShape(s.st, s.dbg, s.mac, rx, cmd, perChannel, resp, p);
    }
  }

  /** The channel count is unknown exactly until the capabilities answer is accepted, and a step
      over an answer, by one or by three, never lands inside a request/response pair. */
  lemma StepsLandOnRequests(w: World, rx: seq<byte>)
    requires Reachable(w)
    ensures w.sys.st.channelCount == w.hist.reported
    ensures w.sys.st.l2 <= L2_GET_CAPABILITIES_RESPONSE <==> w.sys.st.channelCount == 0
    ensures L2Awaits(w.sys.st) ==>
              var p := L2Spec(w.sys.st, w.sys.dbg, w.sys.mac, rx);
              p.st == CLEARED || (p.resp == Ack && p.st.l2 > w.sys.st.l2 && !L2Awaits(p.st) && !L2RoleOf(p.st.l2).Unknown?)
  {
    ReachableIsSafe(w);
    if L2Awaits(w.sys.st) {
      var role := L2RoleOf(w.sys.st.l2);
      L2StepLands(w.sys, rx, role.cmd, role.perChannel, Validate(rx, role.cmd));
    }
  }

  /** Since the last clear the L2 machine has sent a prefix of one script, fixed by the number of
      channels and by whether a stop was pending in the round that decided about the reset of
      channel 0 (before that round both scripts agree with what was sent); it has been given an
      answer to every command but possibly the last. */
  lemma ScriptIsFollowed(w: World)
    requires Reachable(w)
    ensures match w.hist.stopAtReset
            case Some(stop) => w.hist.l2Sent <= Script(w.hist.reported, stop)
            case None => w.hist.l2Sent <= Script(w.hist.reported, false) && w.hist.l2Sent <= Script(w.hist.reported, true)
    ensures w.hist.stopAtReset.Some? <==> w.sys.st.l2 > L2_RESET_CHANNEL_0
    ensures w.hist.l2Acked == |w.hist.l2Sent| - if L2Awaits(w.sys.st) then 1 else 0
    ensures w.sys.st.l2 == L2_END ==> w.hist.l2Sent == Script(w.hist.reported, false)
    ensures w.sys.st.l2 == L2_STOPPED ==> w.hist.l2Sent == Script(w.hist.reported, true)
  {
    ReachableIsSafe(w);
    var script := Script(w.hist.reported, OnStopBranch(w.sys.st));
    assert w.hist.l2Sent <= script;
    assert Sent(w.sys.st) == |script| ==> w.hist.l2Sent == script;
  }

  lemma L2SetsMac(st: NcsiState, dbg: Debug, mac: Mac, rx: seq<byte>)
    ensures var tx := L2Spec(st, dbg, mac, rx).tx;
            |tx| >= HEADER_SIZE && tx[AT_TYPE] == SET_MAC_ADDRESS ==> st.l2 > 15 && tx == SetMacFrame(tx[AT_CHANNEL], mac)
  {
    if L2RoleOf(st.l2).Send? {
      L2FrameCarries(L2RoleOf(st.l2).cmd, L2RoleOf(st.l2).channel, mac);
    }
  }

  lemma OthersSetNoMac(st: NcsiState, dbg: Debug, mac: Mac, rx: seq<byte>)
    ensures var tx := L3L4Spec(st, dbg, mac, rx).tx; |tx| >= HEADER_SIZE ==> tx[AT_TYPE] != SET_MAC_ADDRESS
    ensures var tx := TestSpec(st, dbg, mac, rx).tx; |tx| >= HEADER_SIZE ==> tx[AT_TYPE] != SET_MAC_ADDRESS
  {
    if TestRoleOf(st.test).Ask? {
      TestFrameCarries(TestRoleOf(st.test).cmd, dbg);
    }
  }

  lemma RoundSetsMac(s: Sys, rx: seq<byte>)
    ensures var tx := RoundSpec(s, rx).tx;
            |tx| >= HEADER_SIZE && tx[AT_TYPE] == SET_MAC_ADDRESS ==> s.st.l2 > 15 && tx == SetMacFrame(tx[AT_CHANNEL], s.mac)
  {
    match Scheduled(s.st, s.dbg)
    case L2Machine => L2SetsMac(s.st, s.dbg, s.mac, rx);
    case L3L4Machine => OthersSetNoMac(s.st, s.dbg, s.mac, rx);
    case TestMachine =>
      OthersSetNoMac(if s.st.test == TEST_END then s.st.(retestDelay := RESTART_DELAY_COUNT) else s.st, s.dbg, s.mac, rx);
    case NoMachine =>
  }

  lemma SetMacBytes(channel: byte, mac: Mac)
    ensures var tx := SetMacFrame(channel, mac);
            |tx| == 38 && Be16(tx, AT_LENGTH) == 8 && tx[30..36] == mac && tx[36] == 1 && tx[37] == 1
  {
  }

  /** Every address filter the daemon sets is the one from the NIC's host MAC response, filter number 1,
      enabled, in a payload of 8 bytes. */
  lemma SetMacCarriesHostMac(w: World, rx: seq<byte>)
    requires Reachable(w)
    ensures var tx := RoundSpec(w.sys, rx).tx;
            |tx| >= HEADER_SIZE && tx[AT_TYPE] == SET_MAC_ADDRESS ==>
              && w.hist.hostMac.Some? && |tx| == 38 && Be16(tx, AT_LENGTH) == 8
              && tx[30..36] == w.hist.hostMac.value && tx[36] == 1 && tx[37] == 1
  {
    hide RoundSpec, SetMacFrame, Inv;
    ReachableIsSafe(w);
    InvKnowsMac(w);
    RoundSetsMac(w.sys, rx);
    var tx := RoundSpec(w.sys, rx).tx;
    if |tx| >= HEADER_SIZE { SetMacBytes(tx[AT_CHANNEL], w.sys.mac); }
  }

  lemma InvKnowsMac(w: World)
    requires Inv(w)
    ensures w.sys.st.l2 > 15 ==> w.hist.hostMac == Some(w.sys.mac)
  {
    hide Joint, ScriptFollowed, FlagsSeen, FiltersSet;
  }

  /** The NIC counts as hostless exactly if the last accepted filter response of every channel said so:
      with no exception for channels that were never asked. */
  lemma HostlessIsEarned(w: World)
    requires Reachable(w)
    ensures IsHostless(w.sys.st)
            <==> w.hist.reported >= 1 && forall c: byte :: c < w.hist.reported ==> c in w.hist.seenHostless && w.hist.seenHostless[c]
  {
    hide HostlessBit;
    ReachableIsSafe(w);
    FlagsTell(w.sys.st, w.sys.dbg, w.hist);
  }

  lemma FlagsTell(st: NcsiState, dbg: Debug, h: History)
    requires Joint(st, dbg) && FlagsSeen(st, h)
    ensures IsHostless(st) <==> st.channelCount >= 1 && forall c: byte :: c < st.channelCount ==> c in h.seenHostless && h.seenHostless[c]
  {
    hide HostlessBit;
    NoFlagsNoHost(st, dbg);
  }

  lemma NoFlagsNoHost(st: NcsiState, dbg: Debug)
    requires Joint(st, dbg)
    ensures IsHostless(st) ==> st.channelCount >= 1
  {
  }

  /** The connection counts as configured only if every channel has accepted its filter. */
  lemma ConfiguredIsEarned(w: World)
    requires Reachable(w) && ConnectionState(w.sys.st, w.sys.dbg) == UpAndConfigured
    ensures w.hist.reported >= 1
    ensures forall c: byte :: c < w.hist.reported ==> c in w.hist.configured
  {
    ReachableIsSafe(w);
    FiltersTell(w.sys.st, w.sys.dbg, w.hist);
  }

  lemma FiltersTell(st: NcsiState, dbg: Debug, h: History)
    requires Joint(st, dbg) && FiltersSet(st, h) && st.l2 == L2_END && st.l3l4 == L3L4_END
    ensures st.channelCount >= 1 && forall c: byte :: c < st.channelCount ==> c in h.configured
  {
  }

  // ----- a looped-back wire -----

  /** Loopback is inferred exactly when the answer to the first command is that command. */
  lemma LoopbackIsInferred(st: NcsiState, dbg: Debug, mac: Mac, rx: seq<byte>)
    requires st.l2 == L2_CLEAR_0_RESPONSE && dbg.enabled
    ensures var p := L2Spec(st, dbg, mac, rx);
            && (p.dbg.loopback <==> IsLoopback(rx))
            && (IsLoopback(rx) ==> p.st == CLEARED && ConnectionState(p.st, p.dbg) == LoopbackConnection)
  {
    if IsLoopback(rx) {
      assert rx[AT_TYPE] == rx[..HEADER_SIZE][AT_TYPE] == CLEAR_INITIAL_STATE;
      CommandIsNoAck(rx, Std(CLEAR_INITIAL_STATE), SIMPLE_RESPONSE_SIZE);
    }
  }

  /** `rounds` rounds on a wire that returns every frame: the state and the frame in flight. */
  ghost function Looped(s: Sys, rounds: nat): (Sys, seq<byte>) {
    Iterate((x: (Sys, seq<byte>)) => var p := RoundSpec(x.0, x.1); (After(p), p.tx), (s, []), rounds)
  }

  ghost predicate Fooled(x: (Sys, seq<byte>)) {
    && x.0.dbg.enabled && x.0.st.l2 <= L2_CLEAR_0_RESPONSE
    && (x.0.st.l2 == L2_CLEAR_0_RESPONSE ==> x.1 == SimpleFrame(CLEAR_INITIAL_STATE, 0))
  }

  lemma LoopedRound(x: (Sys, seq<byte>))
    requires Fooled(x)
    ensures var p := RoundSpec(x.0, x.1); Fooled((After(p), p.tx))
  {
    if x.0.st.l2 == L2_CLEAR_0_RESPONSE {
      LoopbackIsInferred(x.0.st, x.0.dbg, x.0.mac, x.1);
    }
  }

  lemma {:induction false} FooledForEver(step: ((Sys, seq<byte>)) -> (Sys, seq<byte>), x: (Sys, seq<byte>), rounds: nat)
    requires Fooled(x) && forall y {:trigger step(y)} :: Fooled(y) ==> Fooled(step(y))
    ensures Fooled(Iterate(step, x, rounds))
  {
    if rounds > 0 {
      FooledForEver(step, x, rounds - 1);
    }
  }

  /** On such a wire the daemon never takes its own frames for a NIC's: it never comes up. */
  lemma LoopbackNeverComesUp(dbg: Debug, mac: Mac, rounds: nat)
    ensures var s := Looped(Constructed(dbg, mac), rounds).0;
            ConnectionState(s.st, s.dbg) == Down || ConnectionState(s.st, s.dbg) == LoopbackConnection
  {
    var step := (x: (Sys, seq<byte>)) => var p := RoundSpec(x.0, x.1); (After(p), p.tx);
    forall y | Fooled(y) ensures Fooled(step(y)) { LoopedRound(y); }
    FooledForEver(step, (Constructed(dbg, mac), []), rounds);
  }

  // ----- the running daemon -----

  /** What the next round of a run receives. */
  function ReceivedBy(t: M.Trace): seq<byte> { M.Received(t.inbound, t.field).0 }

  /** The events of the first `rounds` rounds of a run: a frame received in each. */
  ghost function EventsOf(step: M.Trace -> M.Trace, t: M.Trace, rounds: nat): seq<Event> {
    if rounds == 0 then []
    else EventsOf(step, t, rounds - 1) + [Round(ReceivedBy(Iterate(step, t, rounds - 1)))]
  }

  ghost predicate SameSteps(step: M.Trace -> M.Trace, next: (World, Event) -> World) {
    forall t: M.Trace, w: World {:trigger next(w, Round(ReceivedBy(t)))} ::
      t.sys == w.sys ==> step(t).sys == next(w, Round(ReceivedBy(t))).sys
  }

  lemma {:induction false} FoldFollows(step: M.Trace -> M.Trace, next: (World, Event) -> World, t: M.Trace, h: History, rounds: nat)
    requires SameSteps(step, next)
    ensures Fold(next, World(t.sys, h), EventsOf(step, t, rounds)).sys == Iterate(step, t, rounds).sys
  {
    if rounds > 0 {
      FoldFollows(step, next, t, h, rounds - 1);
      var events := EventsOf(step, t, rounds);
      assert events[..|events| - 1] == EventsOf(step, t, rounds - 1);
    }
  }

  /** What the scheduler's loop does to the records is one of the runs considered here, so every
      guarantee above holds between any two of its rounds. */
  lemma RunIsExec(t: M.Trace, h: History, rounds: nat)
    ensures Exec(World(t.sys, h), EventsOf(M.Step, t, rounds)).sys == M.RunSpec(t, rounds).sys
  {
    assert SameSteps(M.Step, Next);
    FoldFollows(M.Step, Next, t, h, rounds);
  }

  lemma DaemonIsReachable(dbg: Debug, mac: Mac, field: M.TypeField, inbound: seq<M.Outcome>, rounds: nat)
    ensures var t := M.Trace(Constructed(dbg, mac), field, inbound, []);
            exists w :: Reachable(w) && w.sys == M.RunSpec(t, rounds).sys
  {
    var t := M.Trace(Constructed(dbg, mac), field, inbound, []);
    RunIsExec(t, NOTHING, rounds);
    var w := Exec(World(t.sys, NOTHING), EventsOf(M.Step, t, rounds));
    assert Reachable(w);
  }
}
