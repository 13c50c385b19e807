/** What the health checks of a configured connection notice: a filter that is gone from every channel,
    and one that is gone from a single channel only where no try is left for it. */
module NcsiWatch {
  import opened Bytes
  import opened NcsiFrames
  import opened NcsiServer
  import opened NcsiFsm
  import opened NcsiNic
  import opened NcsiSafety
  import opened NcsiRetry
  import opened NcsiRecovery
  import L = NcsiClosedLoop

  /** Configured, with no restart to come, and facing a NIC that cooperates but for its filters. */
  ghost predicate Watching(l: L.Loop) {
    && Joint(l.sys.st, l.sys.dbg) && Configured(l.sys) && !l.sys.dbg.pendingRestart && !l.sys.dbg.filterDisable
    && L.Cooperative(l.nic) && l.nic.legacy == l.sys.dbg.mlxLegacy
  }

  /** The frame in flight answers the check under way. */
  predicate InStep(l: L.Loop) {
    TestAwaits(l.sys.st) ==> l.reply == Reply(l.nic, TestFrame(TestRoleOf(l.sys.st.test).cmd, l.sys.dbg)).1
  }

  /** The channel whose filter is checked next, if the run has not checked it yet. */
  function Due(s: Sys): byte {
    if s.st.test == TEST_BEGIN then NextChannelUnderTest(s.st, s.dbg) else s.dbg.chUnderTest
  }

  ghost predicate GoneEverywhere(nic: ValidNic, channels: byte, mac: Mac) {
    forall c: byte :: c < channels ==> !L.HasFilter(nic, c, mac)
  }

  /** The filter is gone from every channel; or from the one to be checked next, with the last try. */
  ghost predicate Noticed(l: L.Loop) {
    || GoneEverywhere(l.nic, l.sys.st.channelCount, l.sys.mac)
    || (l.sys.st.test <= 4 && Room(l.sys.dbg.tries) == 0 && !L.HasFilter(l.nic, Due(l.sys), l.sys.mac))
  }

  /** Rounds until a filter that is gone everywhere has used up the tries. */
  function RoundsToClear(s: Sys): nat
    requires s.st.test <= TEST_END
  {
    if s.st.test <= 4 then 5 - s.st.test + 5 * Room(s.dbg.tries) else 35 - s.st.test
  }

  /** The watch goes on after a round that clears nothing. */
  ghost predicate GoesOn(l: L.Loop, l': L.Loop) {
    && Watching(l) && Watching(l') && InStep(l') && l'.sys.dbg.failCount == l.sys.dbg.failCount
    && (Noticed(l') <==> Noticed(l))
    && (Noticed(l) ==> RoundsToClear(l'.sys) == RoundsToClear(l.sys) - 1)
  }

  lemma Scheduling(l: L.Loop)
    requires Watching(l)
    ensures Scheduled(l.sys.st, l.sys.dbg) == TestMachine && l.sys.st.test <= TEST_END && !OnStopBranch(l.sys.st)
  {
  }

  // ----- one round -----

  lemma ParamsRound(l: L.Loop)
    requires Watching(l) && l.sys.st.test == TEST_BEGIN
    ensures GoesOn(l, L.Turn(l))
  {
    hide L.HasFilter, L.Cooperative, Reply, TestVerdict, Validate, GoneEverywhere;
  }

  lemma AskIs(l: L.Loop, cmd: Command)
    requires Watching(l) && TestRoleOf(l.sys.st.test) == Ask(cmd)
    ensures L.Turn(l) == L.Loop(l.sys.(st := l.sys.st.(test := l.sys.st.test + 1)), l.nic, Reply(l.nic, TestFrame(cmd, l.sys.dbg)).1)
    ensures TestRoleOf(l.sys.st.test + 1) == Check(cmd)
  {
    Scheduling(l);
    L.TestAskIs(l, cmd);
    TestFrameCarries(cmd, l.sys.dbg);
    OthersKeepNic(l.nic, TestFrame(cmd, l.sys.dbg));
  }

  lemma AskRound(l: L.Loop, cmd: Command)
    requires Watching(l) && TestRoleOf(l.sys.st.test) == Ask(cmd)
    ensures GoesOn(l, L.Turn(l))
  {
    AskIs(l, cmd);
    hide L.Turn, L.HasFilter, L.Cooperative, Reply, TestFrame, GoneEverywhere;
  }

  /** The other checks pass. */
  lemma OtherCheckIs(l: L.Loop, cmd: Command)
    requires Watching(l) && InStep(l) && TestRoleOf(l.sys.st.test) == Check(cmd) && cmd != Oem(OEM_GET_FILTER)
    ensures L.Turn(l) == L.Loop(l.sys.(st := l.sys.st.(test := l.sys.st.test + 1)), l.nic, [])
  {
    hide L.Turn, Reply, TestFrame, TestVerdict, L.HasFilter;
    Scheduling(l);
    if cmd == Std(GET_PASSTHROUGH_STATISTICS) {
      L.StatsAnswerIsGood(l.nic, l.sys.st, l.sys.dbg, l.sys.mac);
    } else {
      L.EchoAndLinkAnswersAreGood(l.nic, cmd, l.sys.st, l.sys.dbg, l.sys.mac);
    }
    L.TestCheckIs(l, cmd);
  }

  lemma OtherCheckRound(l: L.Loop, cmd: Command)
    requires Watching(l) && InStep(l) && TestRoleOf(l.sys.st.test) == Check(cmd) && cmd != Oem(OEM_GET_FILTER)
    ensures GoesOn(l, L.Turn(l))
  {
    OtherCheckIs(l, cmd);
    hide L.Turn, L.HasFilter, L.Cooperative, Reply, TestFrame, GoneEverywhere;
  }

  /** A filter check passes exactly if the channel has its filter. */
  lemma FilterVerdict(nic: ValidNic, st: NcsiState, dbg: Debug, mac: Mac)
    requires L.Cooperative(nic) && dbg.chUnderTest <= 1 && !dbg.filterDisable && st.l3l4 == L3L4_END
    requires st.channelCount > 1 || dbg.chUnderTest == 0
    ensures var rx := Reply(nic, TestFrame(Oem(OEM_GET_FILTER), dbg)).1;
            && Validate(rx, Oem(OEM_GET_FILTER)) == Ack && !HostlessBit(rx[57])
            && TestVerdict(st, dbg, mac, rx, Oem(OEM_GET_FILTER))
            == if L.HasFilter(nic, dbg.chUnderTest, mac) then (Ack, true) else (UnexpectedParams, false)
  {
    var frame := TestFrame(Oem(OEM_GET_FILTER), dbg);
    TestFrameCarries(Oem(OEM_GET_FILTER), dbg);
    var f := nic.Filter(dbg.chUnderTest);
    OemReplyAgrees(frame, OEM_GET_FILTER, f, Oem(OEM_GET_FILTER));
    var r := OemReply(frame, f);
    assert r[57] == f[15] && r[44..50] == f[2..8] && r[50..54] == f[8..12] && r[54..56] == f[12..14];
    L.FilterFields(mac, RX_PORT, 1);
  }

  lemma FilterCheckIs(l: L.Loop)
    requires Watching(l) && InStep(l) && l.sys.st.test == 4
    ensures var seen := StashFlags(l.sys.st, l.sys.dbg.chUnderTest, l.reply[57]);
            var has := L.HasFilter(l.nic, l.sys.dbg.chUnderTest, l.sys.mac);
            && |l.reply| > 57
            && L.Turn(l) == L.Loop(After(TestOutcome(seen, l.sys.dbg, l.sys.mac, if has then (Ack, true) else (UnexpectedParams, false))), l.nic, [])
  {
    hide L.HasFilter, Reply, TestVerdict, TestFrame, MayRetry;
    Scheduling(l);
    FilterVerdict(l.nic, l.sys.st, l.sys.dbg, l.sys.mac);
  }

  lemma FilterPasses(l: L.Loop, l': L.Loop, flags: byte)
    requires Watching(l) && l.sys.st.test == 4 && L.HasFilter(l.nic, l.sys.dbg.chUnderTest, l.sys.mac)
    requires var seen := StashFlags(l.sys.st, l.sys.dbg.chUnderTest, flags);
             l' == L.Loop(After(TestOutcome(seen, l.sys.dbg, l.sys.mac, (Ack, true))), l.nic, [])
    ensures GoesOn(l, l')
  {
    hide L.HasFilter, L.Cooperative, Reply, MayRetry;
  }

  /** With tries left a missing filter costs one, and the next run looks at the other channel. */
  lemma FilterFails(l: L.Loop, l': L.Loop, flags: byte)
    requires Watching(l) && l.sys.st.test == 4 && !L.HasFilter(l.nic, l.sys.dbg.chUnderTest, l.sys.mac)
    requires Room(l.sys.dbg.tries) > 0
    requires var seen := StashFlags(l.sys.st, l.sys.dbg.chUnderTest, flags);
             l' == L.Loop(After(TestOutcome(seen, l.sys.dbg, l.sys.mac, (UnexpectedParams, false))), l.nic, [])
    ensures GoesOn(l, l')
  {
    hide L.HasFilter, L.Cooperative, Reply;
    RoomShrinks(l.sys.dbg.tries);
    RetryUnlessSpent(l.sys.dbg);
  }

  /** Without, it clears. */
  lemma FilterClears(l: L.Loop, l': L.Loop, flags: byte)
    requires Watching(l) && l.sys.st.test == 4 && !L.HasFilter(l.nic, l.sys.dbg.chUnderTest, l.sys.mac)
    requires Room(l.sys.dbg.tries) == 0
    requires var seen := StashFlags(l.sys.st, l.sys.dbg.chUnderTest, flags);
             l' == L.Loop(After(TestOutcome(seen, l.sys.dbg, l.sys.mac, (UnexpectedParams, false))), l.nic, [])
    ensures Noticed(l) && RoundsToClear(l.sys) == 1 && l'.sys.st == CLEARED
  {
    hide L.HasFilter, L.Cooperative, Reply;
    RetryUnlessSpent(l.sys.dbg);
  }

  /** A finished run forgets the tries. */
  lemma FinishedRound(l: L.Loop)
    requires Watching(l) && l.sys.st.test == TEST_END
    ensures GoesOn(l, L.Turn(l))
  {
    hide L.HasFilter, L.Cooperative, Reply, TestVerdict, Validate, GoneEverywhere;
  }

  /** In one round: on with the watch, or the clear that was due. */
  lemma WatchRound(l: L.Loop)
    requires Watching(l) && InStep(l)
    ensures if Noticed(l) && RoundsToClear(l.sys) == 1 then L.Turn(l).sys.st == CLEARED else GoesOn(l, L.Turn(l))
  {
    Scheduling(l);
    hide Watching, InStep, Noticed, L.Turn, L.HasFilter, RoundsToClear;
    match TestRoleOf(l.sys.st.test)
    case Params => ParamsRound(l);
    case Ask(cmd) => AskRound(l, cmd);
    case Check(cmd) =>
      if cmd == Oem(OEM_GET_FILTER) {
        FilterCheckIs(l);
        if L.HasFilter(l.nic, l.sys.dbg.chUnderTest, l.sys.mac) {
          FilterPasses(l, L.Turn(l), l.reply[57]);
        } else if Room(l.sys.dbg.tries) > 0 {
          FilterFails(l, L.Turn(l), l.reply[57]);
        } else {
          FilterClears(l, L.Turn(l), l.reply[57]);
        }
      } else {
        OtherCheckRound(l, cmd);
      }
    case Finished => FinishedRound(l);
    case UnknownTest =>
  }

  // ----- whole runs -----

  /** As long as nothing clears. */
  ghost predicate StillWatching(l: L.Loop, l': L.Loop, rounds: nat) {
    && Watching(l) && Watching(l') && InStep(l') && l'.sys.dbg.failCount == l.sys.dbg.failCount
    && (Noticed(l') <==> Noticed(l))
    && (Noticed(l) ==> RoundsToClear(l'.sys) == RoundsToClear(l.sys) - rounds)
  }

  lemma RoundsArePositive(l: L.Loop)
    requires Watching(l)
    ensures 0 < RoundsToClear(l.sys) <= 1280
  {
    hide L.HasFilter, L.Cooperative;
  }

  lemma {:induction false} WatchFor(l: L.Loop, rounds: nat)
    requires Watching(l) && InStep(l) && (Noticed(l) ==> rounds < RoundsToClear(l.sys))
    ensures StillWatching(l, L.Turns(l, rounds), rounds)
  {
    hide Watching, InStep, Noticed, L.Turn, RoundsToClear;
    if rounds > 0 {
      WatchFor(l, rounds - 1);
      WatchRound(L.Turns(l, rounds - 1));
    }
  }

  /** A configured daemon clears, after exactly the expected rounds, or is configured for ever with an
      unchanged failure count. */
  lemma WatchDecides(l: L.Loop, rounds: nat)
    requires Watching(l) && InStep(l)
    ensures var s := L.Turns(l, rounds).sys;
            && (!Noticed(l) || rounds < RoundsToClear(l.sys) ==> Configured(s) && s.dbg.failCount == l.sys.dbg.failCount)
            && (Noticed(l) && rounds == RoundsToClear(l.sys) ==> s.st == CLEARED)
  {
    hide InStep, Noticed, L.Turn, RoundsToClear;
    if !Noticed(l) || rounds < RoundsToClear(l.sys) {
      WatchFor(l, rounds);
    } else if rounds == RoundsToClear(l.sys) {
      RoundsArePositive(l);
      WatchFor(l, rounds - 1);
      WatchRound(L.Turns(l, rounds - 1));
    }
  }

  /** Cleared by some round within the bound. */
  ghost predicate ClearsWithin(l: L.Loop, bound: nat) {
    exists rounds: nat :: rounds <= bound && L.Turns(l, rounds).sys.st == CLEARED
  }

  lemma WatchClears(l: L.Loop)
    requires Watching(l) && InStep(l)
    ensures ClearsWithin(l, 1280) <==> Noticed(l)
  {
    hide Watching, InStep, Noticed, L.Turns, RoundsToClear;
    RoundsArePositive(l);
    Scheduling(l);
    if Noticed(l) {
      WatchDecides(l, RoundsToClear(l.sys));
    } else {
      forall rounds: nat ensures L.Turns(l, rounds).sys.st != CLEARED {
        WatchDecides(l, rounds);
        ConfiguredIsNotCleared(L.Turns(l, rounds).sys);
      }
    }
  }

  lemma ConfiguredIsNotCleared(s: Sys)
    requires Configured(s)
    ensures s.st != CLEARED
  {
  }

  /** The filters of a configured daemon go missing, in whatever reachable state it is, on a NIC that
      cooperates otherwise: it clears within 1280 rounds exactly if they are gone from every channel,
      or from the channel checked next while the counter is at its last value; if not, it counts as
      configured for ever, although a check may fail in every other run. */
  lemma WipeIsNoticed(w: World, nic: ValidNic, reply: seq<byte>)
    requires Reachable(w) && Configured(w.sys) && !w.sys.dbg.pendingRestart
    requires L.Cooperative(nic) && nic.legacy == w.sys.dbg.mlxLegacy && InStep(L.Loop(w.sys, nic, reply))
    ensures var l := L.Loop(w.sys, nic, reply);
            && (ClearsWithin(l, 1280) <==> Noticed(l))
            && (!Noticed(l) ==> forall rounds: nat :: Configured(L.Turns(l, rounds).sys))
  {
    hide Plausible, L.Cooperative, InStep, Noticed, L.Turns, ClearsWithin;
    var l := L.Loop(w.sys, nic, reply);
    ReachableIsOrderly(w);
    PlausibleIsJoint(w.sys);
    WatchClears(l);
    if !Noticed(l) {
      forall rounds: nat ensures Configured(L.Turns(l, rounds).sys) { WatchDecides(l, rounds); }
    }
  }

  /** With two channels a filter that is gone from channel 1 only is never noticed. */
  lemma HalfIsNeverNoticed(l: L.Loop)
    requires Watching(l) && InStep(l) && l.sys.st.test == TEST_END
    requires l.sys.st.channelCount == 2 && L.HasFilter(l.nic, 0, l.sys.mac) && !L.HasFilter(l.nic, 1, l.sys.mac)
    ensures forall rounds: nat :: Configured(L.Turns(l, rounds).sys) && L.Turns(l, rounds).sys.dbg.failCount == l.sys.dbg.failCount
  {
    hide Watching, InStep, L.HasFilter, L.Turns;
    assert !GoneEverywhere(l.nic, l.sys.st.channelCount, l.sys.mac);
    forall rounds: nat
      ensures Configured(L.Turns(l, rounds).sys) && L.Turns(l, rounds).sys.dbg.failCount == l.sys.dbg.failCount
    {
      WatchDecides(l, rounds);
    }
  }

  lemma LastStep(l: L.Loop)
    requires L.OnTrack(l) && L.RoundsToGo(l.sys.st, l.nic.channels) == 1
    ensures L.Turn(l).sys.st.test == TEST_END && L.Turn(l).sys.st.l3l4 == L3L4_END
  {
    hide L.HasFilter, L2Spec, TestSpec;
  }

  lemma ConfiguredOnTrack(l: L.Loop)
    requires L.OnTrack(l) && l.sys.st.l3l4 == L3L4_END && l.nic.channels == 2
    ensures Watching(l) && l.sys.st.channelCount == 2 && L.HasFilter(l.nic, 0, l.sys.mac)
  {
    hide L.GoodReply, L.HasFilter;
  }

  /** The NIC with another filter on channel 1. */
  function Wiped(nic: ValidNic, filter: seq<byte>): ValidNic
    requires |filter| == FILTER_SIZE
  {
    nic.(filter1 := filter)
  }

  /** A whole run: bring-up on two channels, then channel 1 loses its filter, and the daemon counts as
      configured for ever. */
  lemma WipeAfterBringUp(dbg: Debug, mac: Mac, nic: ValidNic, filter: seq<byte>, rounds: nat)
    requires L.Cooperative(nic) && nic.channels == 2 && |filter| == FILTER_SIZE && !HostlessBit(filter[15])
    ensures var l := L.Turns(L.Loop(Constructed(dbg, mac), nic, []), 35);
            var after := L.Turns(l.(nic := Wiped(l.nic, filter)), rounds);
            !L.HasFilter(Wiped(l.nic, filter), 1, l.sys.mac) ==>
              Configured(after.sys) && after.sys.dbg.failCount == dbg.failCount
  {
    hide L.OnTrack, L.Turn, L.RoundsToGo, Watching, InStep, L.HasFilter;
    var start := L.Loop(Constructed(dbg, mac), nic, []);
    L.StartIsOnTrack(start.sys, nic);
    L.TurnsProgress(start, 34);
    L.TurnsProgress(start, 35);
    LastStep(L.Turns(start, 34));
    var l := L.Turns(start, 35);
    ConfiguredOnTrack(l);
    var wiped := l.(nic := Wiped(l.nic, filter));
    WipedIsWatched(l, wiped, filter);
    if !L.HasFilter(wiped.nic, 1, l.sys.mac) {
      HalfIsNeverNoticed(wiped);
    }
  }

  lemma WipedIsWatched(l: L.Loop, wiped: L.Loop, filter: seq<byte>)
    requires Watching(l) && l.sys.st.test == TEST_END && L.HasFilter(l.nic, 0, l.sys.mac)
    requires |filter| == FILTER_SIZE && !HostlessBit(filter[15]) && wiped == l.(nic := Wiped(l.nic, filter))
    ensures Watching(wiped) && InStep(wiped) && L.HasFilter(wiped.nic, 0, l.sys.mac)
  {
  }
}
