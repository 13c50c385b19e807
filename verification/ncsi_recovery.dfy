/** From wherever it is, with whatever frame in flight, the daemon gets to a configured connection
    once the NIC cooperates: through retries, a clear, and a restart that is still to come. */
module NcsiRecovery {
  import opened Bytes
  import opened NcsiFrames
  import opened NcsiFsm
  import opened NcsiNic
  import opened NcsiSafety
  import opened NcsiRetry
  import opened Iteration
  import L = NcsiClosedLoop

  /** A state of the joint invariant, with some history. */
  ghost predicate Plausible(s: Sys) { exists h: History :: Inv(World(s, h)) }

  /** What runs keep besides the joint invariant. */
  predicate Orderly(s: Sys) {
    && !s.dbg.filterDisable && (OnStopBranch(s.st) ==> s.dbg.pendingStop)
    && (s.st.l2 == L2_RESTART ==> s.st.restartDelay < RESTART_DELAY_COUNT)
  }

  /** Switched on or about to be, and no stop pending. */
  predicate Wanted(s: Sys) { (s.dbg.enabled || s.dbg.pendingRestart) && !s.dbg.pendingStop }

  predicate Willing(s: Sys) { Orderly(s) && Wanted(s) }

  /** What a round does to such a state. */
  predicate StaysOrderly(s: Sys, s': Sys) {
    && Orderly(s') && (!s.dbg.pendingStop ==> !s'.dbg.pendingStop && (s.dbg.enabled ==> s'.dbg.enabled))
  }

  /** Back at the start, or configured. */
  predicate Arrived(s: Sys) { s.st.l2 == L2_RESTART || s.st.l3l4 == L3L4_END }

  /** Steps the test machine has left at most until it passes or clears: a failure costs a try, and
      a channel that counts as hostless for no reason costs another run. */
  function TestRank(st: NcsiState, dbg: Debug): nat
    requires st.test <= TEST_END
  {
    TEST_END - st.test + 10 * Room(dbg.tries) + (if !IsHostless(st) then 0 else if st.test <= 4 then 100 else 200)
  }

  /** Rounds to arrival, at most. */
  function Rank(s: Sys): nat
    requires Joint(s.st, s.dbg)
  {
    if s.st.l2 < L2_END then L2_END - s.st.l2 + 3000
    else if s.st.l3l4 == L3L4_BEGIN then TestRank(s.st, s.dbg) + 5
    else if s.st.l3l4 == L3L4_CONFIG_FILTERS then 2 * (2 - s.st.l3l4Channel) - if s.st.l3l4Waiting then 1 else 0
    else 0
  }

  ghost predicate Nearer(s: Sys, s': Sys)
    requires Joint(s.st, s.dbg) && Joint(s'.st, s'.dbg)
  {
    Arrived(s') || Rank(s') < Rank(s)
  }

  lemma PlausibleIsJoint(s: Sys)
    requires Plausible(s)
    ensures Joint(s.st, s.dbg)
  {
    hide ScriptFollowed, FlagsSeen, FiltersSet, Joint;
    var h: History :| Inv(World(s, h));
  }

  lemma PlausibleStays(s: Sys, rx: seq<byte>)
    requires Plausible(s)
    ensures Plausible(After(RoundSpec(s, rx)))
  {
    hide Inv, RoundSpec, Observe;
    var h: History :| Inv(World(s, h));
    StepKeeps(World(s, h), Round(rx));
    assert Inv(World(After(RoundSpec(s, rx)), Observe(h, s, rx, RoundSpec(s, rx))));
  }

  // ----- one round -----

  lemma L2AnswerNearer(s: Sys, rx: seq<byte>, cmd: Command, perChannel: bool, p: Poll)
    requires Joint(s.st, s.dbg) && !OnStopBranch(s.st) && L2RoleOf(s.st.l2).Await?
    requires L2RoleOf(s.st.l2).cmd == cmd && L2RoleOf(s.st.l2).perChannel == perChannel
    requires p == L2Answer(s.st, s.dbg, s.mac, rx, cmd, perChannel, Validate(rx, cmd)) && Joint(p.st, p.dbg)
    ensures Nearer(s, After(p))
  {
    hide L2Answer;
    if Accepts(rx, cmd, Validate(rx, cmd)) {
      L2AcceptShape(s.st, s.dbg, s.mac, rx, cmd, perChannel, p);
    } else {
      L2ClearShape(s.st, s.dbg, s.mac, rx, cmd, perChannel, Validate(rx, cmd), p);
    }
  }

  lemma L2Nearer(s: Sys, rx: seq<byte>, p: Poll)
    requires Joint(s.st, s.dbg) && !OnStopBranch(s.st) && !s.dbg.pendingStop && 0 < s.st.l2 < L2_END
    requires p == L2Spec(s.st, s.dbg, s.mac, rx) && Joint(p.st, p.dbg)
    ensures Nearer(s, After(p))
  {
    hide L2Answer, Joint, Validate;
    var role := L2RoleOf(s.st.l2);
    if role.Await? {
      L2AnswerNearer(s, rx, role.cmd, role.perChannel, p);
    }
  }

  lemma L3L4Nearer(s: Sys, rx: seq<byte>, p: Poll)
    requires Joint(s.st, s.dbg) && Scheduled(s.st, s.dbg) == L3L4Machine
    requires p == L3L4Spec(s.st, s.dbg, s.mac, rx) && Joint(p.st, p.dbg)
    ensures Nearer(s, After(p))
  {
    hide Validate, ConfigFilter;
  }

  /** No answer to the filter check under way says that the channel is hostless. */
  predicate Hostful(s: Sys, rx: seq<byte>) {
    TestRoleOf(s.st.test) == Check(Oem(OEM_GET_FILTER)) && Validate(rx, Oem(OEM_GET_FILTER)) == Ack ==> !HostlessBit(rx[57])
  }

  lemma SeenFlags(s: Sys, rx: seq<byte>, cmd: Command)
    requires TestRoleOf(s.st.test) == Check(cmd) && Joint(s.st, s.dbg) && Hostful(s, rx)
    ensures var seen := Seen(s.st, s.dbg, rx, cmd);
            && seen == s.st.(flags0 := seen.flags0, flags1 := seen.flags1)
            && (IsHostless(seen) ==> IsHostless(s.st) && (cmd == Oem(OEM_GET_FILTER) ==> Validate(rx, cmd) != Ack))
  {
    hide HostlessBit;
  }

  lemma CheckNearer(s: Sys, rx: seq<byte>, cmd: Command, seen: NcsiState, verdict: (ResponseType, bool), p: Poll)
    requires Joint(s.st, s.dbg) && s.st.l2 == L2_END && s.st.l3l4 == L3L4_BEGIN
    requires TestRoleOf(s.st.test) == Check(cmd) && seen == s.st.(flags0 := seen.flags0, flags1 := seen.flags1)
    requires IsHostless(seen) ==> IsHostless(s.st) && (cmd == Oem(OEM_GET_FILTER) ==> !verdict.1)
    requires p == TestOutcome(seen, s.dbg, s.mac, verdict) && Joint(p.st, p.dbg)
    ensures Nearer(s, After(p))
  {
    hide HostlessBit;
    RetryUnlessSpent(s.dbg);
    if MayRetry(s.dbg) {
      RoomShrinks(s.dbg.tries);
    }
  }

  lemma TestNearer(s: Sys, rx: seq<byte>, p: Poll)
    requires Joint(s.st, s.dbg) && Scheduled(s.st, s.dbg) == TestMachine && s.st.l3l4 == L3L4_BEGIN && Hostful(s, rx)
    requires p == RoundSpec(s, rx) && Joint(p.st, p.dbg)
    ensures Nearer(s, After(p))
  {
    hide HostlessBit, Validate, TestVerdict, TestOutcome, Seen;
    if TestRoleOf(s.st.test).Check? {
      var cmd := TestRoleOf(s.st.test).cmd;
      SeenFlags(s, rx, cmd);
      CheckNearer(s, rx, cmd, Seen(s.st, s.dbg, rx, cmd), TestVerdict(s.st, s.dbg, s.mac, rx, cmd), p);
    }
  }

  lemma L2Orderly(s: Sys, rx: seq<byte>, p: Poll)
    requires Orderly(s) && s.st.l2 <= L2_END && p == L2Spec(s.st, s.dbg, s.mac, rx)
    ensures StaysOrderly(s, After(p))
  {
    hide L2Answer, Validate;
    var role := L2RoleOf(s.st.l2);
    if role.Await? {
      L2AnswerOrderly(s, rx, role.cmd, role.perChannel, p);
    }
  }

  lemma L2AnswerOrderly(s: Sys, rx: seq<byte>, cmd: Command, perChannel: bool, p: Poll)
    requires Orderly(s) && L2RoleOf(s.st.l2).Await?
    requires L2RoleOf(s.st.l2).cmd == cmd && L2RoleOf(s.st.l2).perChannel == perChannel
    requires p == L2Answer(s.st, s.dbg, s.mac, rx, cmd, perChannel, Validate(rx, cmd))
    ensures StaysOrderly(s, After(p))
  {
    hide L2Answer;
    if Accepts(rx, cmd, Validate(rx, cmd)) {
      L2AcceptShape(s.st, s.dbg, s.mac, rx, cmd, perChannel, p);
    } else {
      L2ClearShape(s.st, s.dbg, s.mac, rx, cmd, perChannel, Validate(rx, cmd), p);
    }
  }

  lemma L3L4Orderly(s: Sys, rx: seq<byte>, p: Poll)
    requires Orderly(s) && s.st.l2 == L2_END && p == L3L4Spec(s.st, s.dbg, s.mac, rx)
    ensures StaysOrderly(s, After(p))
  {
    hide Validate, ConfigFilter;
  }

  lemma OutcomeOrderly(s: Sys, seen: NcsiState, verdict: (ResponseType, bool), p: Poll)
    requires Orderly(s) && s.st.l2 == seen.l2 == L2_END && p == TestOutcome(seen, s.dbg, s.mac, verdict)
    ensures StaysOrderly(s, After(p))
  {
    hide MayRetry;
  }

  lemma TestOrderly(s: Sys, st: NcsiState, rx: seq<byte>, p: Poll)
    requires Orderly(s) && s.st.l2 == st.l2 == L2_END && p == TestSpec(st, s.dbg, s.mac, rx)
    ensures StaysOrderly(s, After(p))
  {
    hide Validate, TestVerdict, TestOutcome;
    if TestRoleOf(st.test).Check? {
      var cmd := TestRoleOf(st.test).cmd;
      assert Seen(st, s.dbg, rx, cmd).l2 == L2_END;
      OutcomeOrderly(s, Seen(st, s.dbg, rx, cmd), TestVerdict(st, s.dbg, s.mac, rx, cmd), p);
    }
  }

  lemma RoundOrderly(s: Sys, rx: seq<byte>)
    requires Joint(s.st, s.dbg) && Orderly(s)
    ensures StaysOrderly(s, After(RoundSpec(s, rx)))
    ensures !s.dbg.enabled && s.dbg.pendingRestart ==> RoundSpec(s, rx).dbg.enabled
  {
    hide L2Spec, L3L4Spec, TestSpec, IsHostless;
    var p := RoundSpec(s, rx);
    match Scheduled(s.st, s.dbg)
    case L2Machine => L2Orderly(s, rx, p);
    case L3L4Machine => L3L4Orderly(s, rx, p);
    case TestMachine =>
      TestOrderly(s, if s.st.test == TEST_END then s.st.(retestDelay := RESTART_DELAY_COUNT) else s.st, rx, p);
    case NoMachine =>
  }

  /** Without a stop being asked for, a round leaves the daemon switched on. */
  lemma RoundWilling(s: Sys, rx: seq<byte>)
    requires Joint(s.st, s.dbg) && Willing(s)
    ensures var s' := After(RoundSpec(s, rx)); Willing(s') && s'.dbg.enabled
  {
    hide RoundSpec, Orderly;
    RoundOrderly(s, rx);
  }

  /** A round brings the daemon nearer, unless it is switched off or back at the start. */
  lemma RoundNearer(s: Sys, rx: seq<byte>)
    requires Plausible(s) && Willing(s) && s.dbg.enabled && !Arrived(s) && Hostful(s, rx)
    ensures var s' := After(RoundSpec(s, rx));
            && Plausible(s') && Willing(s') && s'.dbg.enabled
            && Joint(s.st, s.dbg) && Joint(s'.st, s'.dbg) && Nearer(s, s')
  {
    hide Plausible, L2Spec, L3L4Spec, TestSpec, Rank, IsHostless;
    PlausibleIsJoint(s);
    PlausibleStays(s, rx);
    PlausibleIsJoint(After(RoundSpec(s, rx)));
    RoundWilling(s, rx);
    match Scheduled(s.st, s.dbg)
    case L2Machine => L2Nearer(s, rx, RoundSpec(s, rx));
    case L3L4Machine => L3L4Nearer(s, rx, RoundSpec(s, rx));
    case TestMachine => TestNearer(s, rx, RoundSpec(s, rx));
    case NoMachine =>
  }

  // ----- the NIC's part -----

  /** Only a command to set a filter changes the NIC. */
  lemma OthersKeepNic(nic: ValidNic, frame: seq<byte>)
    requires |frame| >= HEADER_SIZE && RequestOf(frame).cmd != Oem(OEM_SET_FILTER)
    ensures Reply(nic, frame).0 == nic
  {
  }

  lemma FilterAnswerIsHostful(nic: ValidNic, s: Sys)
    requires L.Cooperative(nic) && s.dbg.chUnderTest <= 1 && !s.dbg.filterDisable
    ensures var rx := Reply(nic, TestFrame(Oem(OEM_GET_FILTER), s.dbg)).1;
            Validate(rx, Oem(OEM_GET_FILTER)) == Ack ==> !HostlessBit(rx[57])
  {
    L.FilterAnswerIsGood(nic, CLEARED, s.dbg, s.mac);
  }

  /** The NIC stays cooperative, and its answers say that it is not hostless. */
  ghost predicate Fair(l: L.Loop) { L.Cooperative(l.nic) && Hostful(l.sys, l.reply) }

  lemma L2Fair(l: L.Loop, p: Poll)
    requires L.Cooperative(l.nic) && p == L2Spec(l.sys.st, l.sys.dbg, l.sys.mac, l.reply) && |p.tx| >= HEADER_SIZE
    requires Joint(l.sys.st, l.sys.dbg) && l.sys.st.l2 < L2_END
    ensures Reply(l.nic, p.tx).0 == l.nic && p.st.test == TEST_BEGIN
  {
    hide Reply, L2Answer, Validate;
    var role := L2RoleOf(l.sys.st.l2);
    if role.Send? {
      L2FrameCarries(role.cmd, role.channel, l.sys.mac);
    } else if role.StopGate? {
      L2FrameCarries(RESET, 0, l.sys.mac);
    } else if role.Await? {
      L2AnswerSendsNothing(l.sys, l.reply, role.cmd, role.perChannel, p);
    }
    OthersKeepNic(l.nic, p.tx);
  }

  lemma L2AnswerSendsNothing(s: Sys, rx: seq<byte>, cmd: Command, perChannel: bool, p: Poll)
    requires p == L2Answer(s.st, s.dbg, s.mac, rx, cmd, perChannel, Validate(rx, cmd))
    ensures p.tx == []
  {
    hide L2Answer;
    if Accepts(rx, cmd, Validate(rx, cmd)) {
      L2AcceptShape(s.st, s.dbg, s.mac, rx, cmd, perChannel, p);
    } else {
      L2ClearShape(s.st, s.dbg, s.mac, rx, cmd, perChannel, Validate(rx, cmd), p);
    }
  }

  lemma L3L4Fair(l: L.Loop, p: Poll)
    requires L.Cooperative(l.nic) && p == L3L4Spec(l.sys.st, l.sys.dbg, l.sys.mac, l.reply) && |p.tx| >= HEADER_SIZE
    requires Joint(l.sys.st, l.sys.dbg) && Scheduled(l.sys.st, l.sys.dbg) == L3L4Machine && !l.sys.dbg.filterDisable
    ensures L.Cooperative(Reply(l.nic, p.tx).0) && p.st.test == TEST_END
  {
    hide Reply, Validate;
    L.SetFilterIsGood(l.nic, p.st.l3l4Channel, l.sys.dbg, l.sys.mac);
    L.SetFilterStores(l.nic, p.st.l3l4Channel, l.sys.mac);
  }

  lemma TestFair(l: L.Loop, st: NcsiState, p: Poll)
    requires L.Cooperative(l.nic) && p == TestSpec(st, l.sys.dbg, l.sys.mac, l.reply) && |p.tx| >= HEADER_SIZE
    requires l.sys.dbg.chUnderTest <= 1 && !l.sys.dbg.filterDisable
    ensures Reply(l.nic, p.tx).0 == l.nic && Hostful(After(p), Reply(l.nic, p.tx).1)
  {
    hide Reply, Validate, TestVerdict, HostlessBit, MayRetry;
    var cmd := TestRoleOf(st.test).cmd;
    TestFrameCarries(cmd, l.sys.dbg);
    OthersKeepNic(l.nic, p.tx);
    FilterAnswerIsHostful(l.nic, l.sys);
  }

  lemma TurnIsFair(l: L.Loop)
    requires Joint(l.sys.st, l.sys.dbg) && L.Cooperative(l.nic) && !l.sys.dbg.filterDisable
    ensures Fair(L.Turn(l))
  {
    hide Reply, L2Spec, L3L4Spec, TestSpec, L.Cooperative;
    var p := RoundSpec(l.sys, l.reply);
    if |p.tx| >= HEADER_SIZE {
      match Scheduled(l.sys.st, l.sys.dbg)
      case L2Machine => L2Fair(l, p);
      case L3L4Machine => L3L4Fair(l, p);
      case TestMachine =>
        TestFair(l, if l.sys.st.test == TEST_END then l.sys.st.(retestDelay := RESTART_DELAY_COUNT) else l.sys.st, p);
      case NoMachine =>
    }
  }

  // ----- whole runs -----

  lemma {:induction false} IterateSplit<T>(step: T -> T, x: T, a: nat, b: nat)
    ensures Iterate(step, Iterate(step, x, a), b) == Iterate(step, x, a + b)
  {
    if b > 0 {
      IterateSplit(step, x, a, b - 1);
    }
  }

  /** A willing daemon and a fair NIC. */
  ghost predicate UnderWay(l: L.Loop) {
    Plausible(l.sys) && Willing(l.sys) && l.sys.dbg.enabled && Fair(l)
  }

  lemma TurnKeepsUnderWay(l: L.Loop)
    requires Plausible(l.sys) && Willing(l.sys) && L.Cooperative(l.nic)
    ensures UnderWay(L.Turn(l)) && L.Turn(l).sys == After(RoundSpec(l.sys, l.reply))
  {
    hide Plausible, RoundSpec, Willing, Joint, Fair, L.Cooperative, Reply;
    PlausibleIsJoint(l.sys);
    PlausibleStays(l.sys, l.reply);
    RoundWilling(l.sys, l.reply);
    WillingFilters(l.sys);
    TurnIsFair(l);
  }

  lemma WillingFilters(s: Sys)
    requires Willing(s)
    ensures !s.dbg.filterDisable
  {
  }

  lemma TurnNearer(l: L.Loop)
    requires UnderWay(l) && !Arrived(l.sys)
    ensures var l' := L.Turn(l); UnderWay(l') && Joint(l.sys.st, l.sys.dbg) && Joint(l'.sys.st, l'.sys.dbg) && Nearer(l.sys, l'.sys)
  {
    hide Plausible, RoundSpec, Willing, Joint, Nearer, Arrived, Hostful, L.Cooperative, L.Turn;
    TurnKeepsUnderWay(l);
    RoundNearer(l.sys, l.reply);
  }

  lemma {:induction false} Travel(l: L.Loop) returns (rounds: nat)
    requires UnderWay(l) && Joint(l.sys.st, l.sys.dbg)
    ensures rounds <= Rank(l.sys) && UnderWay(L.Turns(l, rounds)) && Arrived(L.Turns(l, rounds).sys)
    decreases Rank(l.sys)
  {
    hide UnderWay, Rank, Joint, L.Turn, Arrived;
    if Arrived(l.sys) {
      rounds := 0;
    } else {
      TurnNearer(l);
      var l' := L.Turn(l);
      if Arrived(l'.sys) {
        rounds := 1;
        RankIsPositive(l.sys);
        assert L.Turns(l, 1) == L.Turn(L.Turns(l, 0));
      } else {
        var rest := Travel(l');
        rounds := 1 + rest;
        IterateSplit(L.Turn, l, 1, rest);
        assert L.Turns(l, 1) == L.Turn(L.Turns(l, 0));
      }
    }
  }

  lemma RankIsPositive(s: Sys)
    requires Joint(s.st, s.dbg) && !Arrived(s)
    ensures Rank(s) > 0
  {
  }

  lemma RankIsBounded(s: Sys)
    requires Joint(s.st, s.dbg)
    ensures Rank(s) <= 3026
  {
  }

  predicate Configured(s: Sys) { ConnectionState(s.st, s.dbg) == UpAndConfigured }

  lemma StartIsOnTrack(l: L.Loop)
    requires UnderWay(l) && l.sys.st.l2 == L2_RESTART
    ensures L.OnTrack(l) && L.RoundsToGo(l.sys.st, l.nic.channels) == L.BringUp(l.sys.st.restartDelay, l.nic.channels)
  {
    hide Plausible;
    PlausibleIsJoint(l.sys);
  }

  /** Once a willing daemon is back at the start, nothing it may have learned before matters: it is
      configured after the expected number of rounds, and for ever. */
  lemma FromTheStart(l: L.Loop, rounds: nat)
    requires UnderWay(l) && l.sys.st.l2 == L2_RESTART
    ensures Configured(L.Turns(l, rounds).sys) <==> rounds >= L.BringUp(l.sys.st.restartDelay, l.nic.channels)
  {
    hide UnderWay, L.OnTrack, L.Turn, L.RoundsToGo;
    StartIsOnTrack(l);
    L.TurnsProgress(l, rounds);
    L.AheadTells(l, L.Turns(l, rounds), rounds);
  }

  lemma EndIsConfigured(s: Sys)
    requires Joint(s.st, s.dbg) && s.dbg.enabled && s.st.l3l4 == L3L4_END
    ensures Configured(s)
  {
  }

  /** The restart, the run-up and the bring-up, with a counter that may have to wrap around. */
  const RECOVERY := 3161

  ghost predicate ConfiguredWithin(l: L.Loop, bound: nat) {
    exists rounds: nat :: rounds <= bound && Configured(L.Turns(l, rounds).sys)
  }

  lemma Arrives(l: L.Loop) returns (rounds: nat)
    requires Plausible(l.sys) && Willing(l.sys) && L.Cooperative(l.nic)
    ensures rounds <= 3027 && UnderWay(L.Turns(l, rounds)) && Arrived(L.Turns(l, rounds).sys)
  {
    hide UnderWay, Plausible, Willing, L.Cooperative, L.Turn, Rank, Joint, Arrived;
    TurnKeepsUnderWay(l);
    var first := L.Turn(l);
    UnderWayIsJoint(first);
    RankIsBounded(first.sys);
    var travelled := Travel(first);
    assert L.Turns(l, 1) == L.Turn(L.Turns(l, 0));
    IterateSplit(L.Turn, l, 1, travelled);
    rounds := 1 + travelled;
  }

  lemma ComesThrough(l: L.Loop)
    requires Plausible(l.sys) && Willing(l.sys) && L.Cooperative(l.nic)
    ensures ConfiguredWithin(l, RECOVERY)
  {
    hide UnderWay, Plausible, Willing, L.Cooperative, L.Turns, Configured;
    var n := Arrives(l);
    var there := L.Turns(l, n);
    UnderWayIsJoint(there);
    if there.sys.st.l2 == L2_RESTART {
      var more := L.BringUp(there.sys.st.restartDelay, there.nic.channels);
      FromTheStart(there, more);
      TurnsSplit(l, n, more);
    } else {
      EndIsConfigured(there.sys);
    }
  }

  lemma TurnsSplit(l: L.Loop, a: nat, b: nat)
    ensures L.Turns(L.Turns(l, a), b) == L.Turns(l, a + b)
  {
    hide L.Turn;
    IterateSplit(L.Turn, l, a, b);
  }

  lemma UnderWayIsJoint(l: L.Loop)
    requires UnderWay(l)
    ensures Joint(l.sys.st, l.sys.dbg) && l.sys.dbg.enabled
    ensures l.sys.st.l2 == L2_RESTART ==> 0 <= L.BringUp(l.sys.st.restartDelay, l.nic.channels) <= 134
  {
    hide Plausible, Joint;
    PlausibleIsJoint(l.sys);
  }

  // ----- reachable worlds -----

  lemma {:induction false} RunIsOrderly(w: World, events: seq<Event>)
    requires Inv(w) && Orderly(w.sys)
    ensures Inv(Exec(w, events)) && Orderly(Exec(w, events).sys)
  {
    hide Inv, RoundSpec, Observe;
    if events != [] {
      var before := Exec(w, events[..|events| - 1]);
      RunIsOrderly(w, events[..|events| - 1]);
      InvIsJoint(before);
      StepKeeps(before, events[|events| - 1]);
      StepIsOrderly(before, events[|events| - 1]);
    }
  }

  lemma InvIsJoint(w: World)
    requires Inv(w)
    ensures Joint(w.sys.st, w.sys.dbg)
  {
    hide ScriptFollowed, FlagsSeen, FiltersSet, Joint;
  }

  lemma StepIsOrderly(w: World, e: Event)
    requires Joint(w.sys.st, w.sys.dbg) && Orderly(w.sys)
    ensures Orderly(Next(w, e).sys)
  {
    hide Joint, RoundSpec, Observe;
    if e.Round? {
      RoundOrderly(w.sys, e.rx);
    }
  }

  lemma ReachableIsOrderly(w: World)
    requires Reachable(w)
    ensures Plausible(w.sys) && Orderly(w.sys)
  {
    hide Next, Inv;
    var dbg: Debug, mac: Mac, events :| w == Exec(World(Constructed(dbg, mac), NOTHING), events);
    ConstructedIsSafe(dbg, mac);
    RunIsOrderly(World(Constructed(dbg, mac), NOTHING), events);
    assert Inv(World(w.sys, w.hist));
  }

  /** Switched off with no restart to come, it stays that way. */
  lemma {:induction false} OffStaysOff(l: L.Loop, rounds: nat)
    requires !l.sys.dbg.enabled && !l.sys.dbg.pendingRestart
    ensures L.Turns(l, rounds).sys == l.sys
  {
    hide L2Spec, L3L4Spec, TestSpec, Reply;
    if rounds > 0 {
      OffStaysOff(l, rounds - 1);
    }
  }

  /** From every reachable state with no stop pending, and with any frame in flight: once the NIC
      cooperates the daemon is configured within a fixed number of rounds, exactly if it is switched
      on or to be restarted. */
  lemma Recovers(w: World, nic: ValidNic, reply: seq<byte>)
    requires Reachable(w) && !w.sys.dbg.pendingStop && L.Cooperative(nic)
    ensures ConfiguredWithin(L.Loop(w.sys, nic, reply), RECOVERY) <==> w.sys.dbg.enabled || w.sys.dbg.pendingRestart
  {
    hide Plausible, Orderly, L.Cooperative, L.Turns;
    var l := L.Loop(w.sys, nic, reply);
    if Wanted(w.sys) {
      ReachableIsOrderly(w);
      ComesThrough(l);
    } else {
      forall rounds: nat ensures !Configured(L.Turns(l, rounds).sys) { OffStaysOff(l, rounds); }
    }
  }

  // ----- for good -----

  /** Configured from the given round on. */
  ghost predicate ConfiguredFrom(l: L.Loop, n: nat) {
    forall m: nat :: m >= n ==> Configured(L.Turns(l, m).sys)
  }

  lemma OutcomeKeepsOrClears(seen: NcsiState, dbg: Debug, mac: Mac, verdict: (ResponseType, bool), p: Poll)
    requires p == TestOutcome(seen, dbg, mac, verdict)
    ensures p.st.l2 == L2_RESTART || p.st.l3l4 == seen.l3l4
  {
    hide MayRetry;
  }

  lemma TestKeepsOrClears(st: NcsiState, dbg: Debug, mac: Mac, rx: seq<byte>, p: Poll)
    requires p == TestSpec(st, dbg, mac, rx)
    ensures p.st.l2 == L2_RESTART || p.st.l3l4 == st.l3l4
  {
    hide Validate, TestVerdict, TestOutcome;
    if TestRoleOf(st.test).Check? {
      var cmd := TestRoleOf(st.test).cmd;
      assert Seen(st, dbg, rx, cmd).l3l4 == st.l3l4;
      OutcomeKeepsOrClears(Seen(st, dbg, rx, cmd), dbg, mac, TestVerdict(st, dbg, mac, rx, cmd), p);
    }
  }

  /** The configured state is only left by way of the start. */
  lemma LeavesByClearing(l: L.Loop)
    requires UnderWay(l) && l.sys.st.l3l4 == L3L4_END
    ensures Arrived(L.Turn(l).sys)
  {
    hide Plausible, L2Spec, L3L4Spec, TestSpec, Reply;
    PlausibleIsJoint(l.sys);
    var st := if l.sys.st.test == TEST_END then l.sys.st.(retestDelay := RESTART_DELAY_COUNT) else l.sys.st;
    TestKeepsOrClears(st, l.sys.dbg, l.sys.mac, l.reply, RoundSpec(l.sys, l.reply));
  }

  /** From a configured state: at the start again by some round, or configured up to it. */
  lemma {:induction false} StaysOrStarts(l: L.Loop, rounds: nat)
    requires UnderWay(l) && l.sys.st.l3l4 == L3L4_END
    ensures || (exists n: nat :: n <= rounds && UnderWay(L.Turns(l, n)) && L.Turns(l, n).sys.st.l2 == L2_RESTART)
            || (UnderWay(L.Turns(l, rounds)) && L.Turns(l, rounds).sys.st.l3l4 == L3L4_END)
  {
    hide UnderWay, L.Turn;
    if rounds > 0 {
      StaysOrStarts(l, rounds - 1);
      if n: nat :| n <= rounds - 1 && UnderWay(L.Turns(l, n)) && L.Turns(l, n).sys.st.l2 == L2_RESTART {
      } else {
        var before := L.Turns(l, rounds - 1);
        LeavesByClearing(before);
        UnderWayGoesOn(before);
        assert L.Turns(l, rounds) == L.Turn(before);
      }
    }
  }

  lemma UnderWayGoesOn(l: L.Loop)
    requires UnderWay(l)
    ensures UnderWay(L.Turn(l))
  {
    hide Plausible, Willing, L.Turn;
    TurnKeepsUnderWay(l);
  }

  lemma SettlesFromStart(l: L.Loop, n: nat, there: L.Loop) returns (m: nat)
    requires there == L.Turns(l, n) && UnderWay(there) && there.sys.st.l2 == L2_RESTART
    ensures ConfiguredFrom(l, m)
  {
    hide UnderWay, L.Turn, Configured;
    UnderWayIsJoint(there);
    var more := L.BringUp(there.sys.st.restartDelay, there.nic.channels);
    m := n + more;
    forall k: nat | k >= m ensures Configured(L.Turns(l, k).sys) {
      FromTheStart(there, k - n);
      TurnsSplit(l, n, k - n);
    }
  }

  lemma SettlesFromConfigured(l: L.Loop, n: nat, there: L.Loop) returns (m: nat)
    requires there == L.Turns(l, n) && UnderWay(there) && there.sys.st.l3l4 == L3L4_END
    ensures ConfiguredFrom(l, m)
  {
    hide UnderWay, L.Turn, Configured;
    if k: nat :| UnderWay(L.Turns(there, k)) && L.Turns(there, k).sys.st.l2 == L2_RESTART {
      TurnsSplit(l, n, k);
      m := SettlesFromStart(l, n + k, L.Turns(there, k));
    } else {
      m := n;
      forall k: nat | k >= m ensures Configured(L.Turns(l, k).sys) {
        StaysOrStarts(there, k - n);
        UnderWayIsJoint(L.Turns(there, k - n));
        EndIsConfigured(L.Turns(there, k - n).sys);
        TurnsSplit(l, n, k - n);
      }
    }
  }

  /** From every reachable state that is on or to be restarted, with no stop pending and any frame in
      flight, some round is followed by configured rounds only. */
  lemma SettlesForGood(w: World, nic: ValidNic, reply: seq<byte>)
    requires Reachable(w) && Wanted(w.sys) && L.Cooperative(nic)
    ensures exists n: nat :: ConfiguredFrom(L.Loop(w.sys, nic, reply), n)
  {
    hide UnderWay, Plausible, Orderly, L.Cooperative, L.Turns, ConfiguredFrom;
    var l := L.Loop(w.sys, nic, reply);
    ReachableIsOrderly(w);
    var n := Arrives(l);
    if L.Turns(l, n).sys.st.l2 == L2_RESTART {
      var m := SettlesFromStart(l, n, L.Turns(l, n));
    } else {
      var m := SettlesFromConfigured(l, n, L.Turns(l, n));
    }
  }
}
