/** What ends a configured connection whatever else the NIC says, and what keeps one from coming about:
    a link that is down, a restart that was asked for, a stop. */
module NcsiLink {
  import opened Bytes
  import opened NcsiFrames
  import opened NcsiServer
  import opened NcsiFsm
  import opened NcsiNic
  import opened NcsiSafety
  import opened NcsiRetry
  import opened NcsiRecovery
  import opened NcsiWatch
  import opened NcsiWire
  import L = NcsiClosedLoop
  import T = NcsiTheorems

  // ----- a link that is down -----

  predicate LinkUp(nic: ValidNic) { nic.link[3] % 2 == 1 }

  /** The NIC's answer to the link check, if one is in flight. */
  ghost predicate LinkTold(l: L.Loop) {
    l.sys.st.test == 8 ==> l.reply == Reply(l.nic, SimpleFrame(GET_LINK_STATUS, 0)).1
  }

  lemma LinkAnswer(nic: ValidNic)
    ensures var rx := Reply(nic, SimpleFrame(GET_LINK_STATUS, 0)).1; Good(rx, 46, 0x0A) && rx[37] == nic.link[3]
  {
    var frame := SimpleFrame(GET_LINK_STATUS, 0);
    var r := StdReply(frame, nic.link);
    assert r[30..34] == [0, 0, 0, 0] && r[37] == nic.link[3] && r[18] == 0x8A && r[20..22] == [0, 16];
  }

  lemma ReplyKeepsLink(nic: ValidNic, frame: seq<byte>)
    requires |frame| >= HEADER_SIZE
    ensures Reply(nic, frame).0.link == nic.link
  {
  }

  /** Rounds until the failing runs have used up the tries. */
  function Left(s: Sys): nat
    requires s.st.test <= TEST_END
  {
    if s.st.test == TEST_END then 46 else 9 - s.st.test + 9 * Room(s.dbg.tries)
  }

  predicate Sooner(s: Sys, s': Sys)
    requires s.st.test <= TEST_END
  {
    s'.st.l2 == L2_RESTART || (Configured(s') && s'.st.test <= TEST_END && Left(s') < Left(s))
  }

  lemma NoLinkCheck(s: Sys, rx: seq<byte>, p: Poll)
    requires Joint(s.st, s.dbg) && Configured(s) && s.st.test in {2, 4, 6, 8} && (s.st.test == 8 ==> !Passes(s, rx))
    requires Checked(s, rx, p)
    ensures Sooner(s, After(p))
  {
    hide Passes, GoodOem;
    if s.dbg.tries != 4 { RoomShrinks(s.dbg.tries); }
  }

  lemma NoLinkElse(s: Sys, rx: seq<byte>)
    requires Joint(s.st, s.dbg) && Configured(s) && s.st.test !in {2, 4, 6, 8}
    ensures Sooner(s, After(RoundSpec(s, rx)))
  {
    hide L2Spec, L3L4Spec, TestFrame;
  }

  /** Whatever arrives short of a good link status: a round nearer to the clear. */
  lemma NoLinkRound(s: Sys, rx: seq<byte>)
    requires Joint(s.st, s.dbg) && !s.dbg.filterDisable && Configured(s)
    requires s.st.test == 8 ==> !Passes(s, rx)
    ensures Sooner(s, After(RoundSpec(s, rx)))
  {
    hide RoundSpec, Sooner, Passes;
    if s.st.test in {2, 4, 6, 8} {
      CheckedWhenJoint(s, rx);
      NoLinkCheck(s, rx, RoundSpec(s, rx));
    } else {
      NoLinkElse(s, rx);
    }
  }

  /** A state between rounds of a daemon that runs, with a NIC whose link is down. */
  ghost predicate Unlinked(l: L.Loop) {
    Plausible(l.sys) && Orderly(l.sys) && LinkTold(l) && !LinkUp(l.nic)
  }

  lemma LinkIsAsked(s: Sys, rx: seq<byte>)
    requires Joint(s.st, s.dbg) && !s.dbg.filterDisable && RoundSpec(s, rx).st.test == 8
    ensures RoundSpec(s, rx).tx == SimpleFrame(GET_LINK_STATUS, 0)
  {
    hide TestCheck, TestVerdict, Passes, L3L4Spec, L2Answer, SimpleFrame, OemFrame;
    T.SenderIsScheduled(s.st, s.dbg);
    if s.st.test in {2, 4, 6, 8} {
      CheckedWhenJoint(s, rx);
    }
    match Scheduled(s.st, s.dbg)
    case L2Machine =>
      if L2Awaits(s.st) {
        var role := L2RoleOf(s.st.l2);
        L2AnswerTest(s, rx, role.cmd, role.perChannel, RoundSpec(s, rx));
      }
    case L3L4Machine => L3L4Test(s, rx);
    case _ =>
  }

  lemma L2AnswerTest(s: Sys, rx: seq<byte>, cmd: Command, perChannel: bool, p: Poll)
    requires p == L2Answer(s.st, s.dbg, s.mac, rx, cmd, perChannel, Validate(rx, cmd))
    ensures p.st.test == s.st.test || p.st.test == TEST_BEGIN
  {
    hide L2Answer, Validate;
    AckIsLong(rx, cmd);
    if Accepts(rx, cmd, Validate(rx, cmd)) {
      L2AcceptShape(s.st, s.dbg, s.mac, rx, cmd, perChannel, p);
    } else {
      L2ClearShape(s.st, s.dbg, s.mac, rx, cmd, perChannel, Validate(rx, cmd), p);
    }
  }

  lemma L3L4Test(s: Sys, rx: seq<byte>)
    requires Joint(s.st, s.dbg) && Scheduled(s.st, s.dbg) == L3L4Machine
    ensures L3L4Spec(s.st, s.dbg, s.mac, rx).st.test in {TEST_BEGIN, TEST_END}
  {
    hide Validate, ConfigFilter;
  }

  lemma UnlinkedTurn(l: L.Loop)
    requires Unlinked(l)
    ensures Unlinked(L.Turn(l)) && Joint(l.sys.st, l.sys.dbg) && (l.sys.st.test == 8 ==> !Passes(l.sys, l.reply))
  {
    hide Plausible, RoundSpec, Reply, Orderly;
    PlausibleIsJoint(l.sys);
    PlausibleStays(l.sys, l.reply);
    RoundOrderly(l.sys, l.reply);
    OrderlyFilters(l.sys);
    var p := RoundSpec(l.sys, l.reply);
    if |p.tx| >= HEADER_SIZE { ReplyKeepsLink(l.nic, p.tx); }
    if p.st.test == 8 {
      LinkIsAsked(l.sys, l.reply);
      OthersKeepNic(l.nic, SimpleFrame(GET_LINK_STATUS, 0));
    }
    LinkAnswer(l.nic);
  }

  lemma OrderlyFilters(s: Sys)
    requires Orderly(s)
    ensures !s.dbg.filterDisable
  {
  }

  lemma {:induction false} UnlinkedTurns(l: L.Loop, rounds: nat)
    requires Unlinked(l)
    ensures Unlinked(L.Turns(l, rounds))
  {
    hide Unlinked, L.Turn;
    if rounds > 0 {
      UnlinkedTurns(l, rounds - 1);
      UnlinkedTurn(L.Turns(l, rounds - 1));
    }
  }

  /** No filter has been sent, and none is about to be. */
  predicate Unproven(s: Sys) { s.st.l3l4 == L3L4_BEGIN && s.st.test != TEST_END }

  lemma UnprovenRound(s: Sys, rx: seq<byte>)
    requires Joint(s.st, s.dbg) && !s.dbg.filterDisable && Unproven(s) && (s.st.test == 8 ==> !Passes(s, rx))
    ensures Unproven(After(RoundSpec(s, rx)))
  {
    hide TestCheck, TestVerdict, Passes, L2Answer, Validate, IsHostless;
    if s.st.test in {2, 4, 6, 8} {
      CheckedWhenJoint(s, rx);
    } else if Scheduled(s.st, s.dbg) == L2Machine && L2Awaits(s.st) {
      var role := L2RoleOf(s.st.l2);
      L2AnswerUnproven(s, rx, role.cmd, role.perChannel, RoundSpec(s, rx));
    }
  }

  lemma L2AnswerUnproven(s: Sys, rx: seq<byte>, cmd: Command, perChannel: bool, p: Poll)
    requires Unproven(s) && p == L2Answer(s.st, s.dbg, s.mac, rx, cmd, perChannel, Validate(rx, cmd))
    ensures Unproven(After(p))
  {
    hide L2Answer, Validate;
    AckIsLong(rx, cmd);
    if Accepts(rx, cmd, Validate(rx, cmd)) {
      L2AcceptShape(s.st, s.dbg, s.mac, rx, cmd, perChannel, p);
    } else {
      L2ClearShape(s.st, s.dbg, s.mac, rx, cmd, perChannel, Validate(rx, cmd), p);
    }
  }

  /** With the link down a connection that is not configured never is, whatever else the NIC is like. */
  lemma {:induction false} NeverConfigured(l: L.Loop, rounds: nat)
    requires Unlinked(l) && Unproven(l.sys)
    ensures Unproven(L.Turns(l, rounds).sys) && !Configured(L.Turns(l, rounds).sys)
  {
    hide Unlinked, L.Turn;
    if rounds > 0 {
      NeverConfigured(l, rounds - 1);
      var before := L.Turns(l, rounds - 1);
      UnlinkedTurns(l, rounds - 1);
      UnlinkedTurn(before);
      UnlinkedIsOrderly(before);
      hide Unproven, Configured;
      UnprovenRound(before.sys, before.reply);
      TurnIsRound(before);
      UnprovenIsNot(L.Turns(l, rounds).sys);
    }
  }

  lemma UnlinkedIsOrderly(l: L.Loop)
    requires Unlinked(l)
    ensures Orderly(l.sys) && !l.sys.dbg.filterDisable
  {
    hide Plausible;
  }

  lemma TurnIsRound(l: L.Loop)
    ensures L.Turn(l).sys == After(RoundSpec(l.sys, l.reply))
  {
    hide RoundSpec, Reply;
  }

  lemma UnprovenIsNot(s: Sys)
    requires Unproven(s)
    ensures !Configured(s)
  {
  }

  /** Back at the start by some round within the bound. */
  ghost predicate StartsOver(l: L.Loop, n: nat, bound: nat) {
    n <= bound && L.Turns(l, n).sys.st.l2 == L2_RESTART
  }

  /** Not configured from the given round on. */
  ghost predicate LostFrom(l: L.Loop, n: nat) {
    forall m: nat :: m >= n ==> !Configured(L.Turns(l, m).sys)
  }

  lemma LeftIsPositive(s: Sys)
    requires Joint(s.st, s.dbg)
    ensures 0 < Left(s) <= 2304
  {
  }

  /** From a configured state: at the start again by some round, or nearer by all the rounds. */
  lemma {:induction false} TriesRunOut(l: L.Loop, rounds: nat) returns (n: nat)
    requires Unlinked(l) && Configured(l.sys) && Joint(l.sys.st, l.sys.dbg)
    ensures || StartsOver(l, n, rounds)
            || (var s := L.Turns(l, rounds).sys; Joint(s.st, s.dbg) && Configured(s) && Left(s) + rounds <= Left(l.sys))
  {
    hide Unlinked, L.Turn, Configured, Joint, Left;
    n := 0;
    if rounds > 0 {
      n := TriesRunOut(l, rounds - 1);
      if !StartsOver(l, n, rounds - 1) {
        var before := L.Turns(l, rounds - 1);
        UnlinkedTurns(l, rounds - 1);
        UnlinkedTurn(before);
        UnlinkedIsOrderly(before);
        NoLinkRound(before.sys, before.reply);
        TurnIsRound(before);
        UnlinkedIsJoint(L.Turn(before));
        n := rounds;
      }
    }
  }

  lemma UnlinkedIsJoint(l: L.Loop)
    requires Unlinked(l)
    ensures Joint(l.sys.st, l.sys.dbg)
  {
    hide Plausible, Joint;
    PlausibleIsJoint(l.sys);
  }

  /** A configured daemon whose NIC loses the link, whatever else the NIC says or does not say: it clears
      within 2304 rounds, and is never configured again while the link is down. */
  lemma LinkLossClears(l: L.Loop) returns (n: nat)
    requires Unlinked(l) && Configured(l.sys)
    ensures StartsOver(l, n, 2304) && LostFrom(l, n)
  {
    hide Unlinked, L.Turns, Configured, Joint, Left;
    UnlinkedIsJoint(l);
    LeftIsPositive(l.sys);
    n := TriesRunOut(l, 2304);
    if !StartsOver(l, n, 2304) {
      LeftIsPositive(L.Turns(l, 2304).sys);
    }
    UnlinkedTurns(l, n);
    var there := L.Turns(l, n);
    UnlinkedIsJoint(there);
    StartIsUnproven(there.sys);
    forall m: nat | m >= n ensures !Configured(L.Turns(l, m).sys) {
      NeverConfigured(there, m - n);
      TurnsSplit(l, n, m - n);
    }
  }

  lemma StartIsUnproven(s: Sys)
    requires Joint(s.st, s.dbg) && s.st.l2 == L2_RESTART
    ensures Unproven(s)
  {
  }

  // ----- both ways -----

  /** The NIC with its link up. */
  function Linked(nic: ValidNic): ValidNic { nic.(link := nic.link[3 := 1]) }

  lemma CooperativeIfLinked(nic: ValidNic)
    requires L.Cooperative(Linked(nic)) && LinkUp(nic)
    ensures L.Cooperative(nic)
  {
  }

  lemma LinkIsInStep(l: L.Loop)
    requires InStep(l)
    ensures LinkTold(l)
  {
  }

  ghost predicate FiltersEverywhere(nic: ValidNic, channels: byte, mac: Mac) {
    forall c: byte :: c < channels ==> L.HasFilter(nic, c, mac)
  }

  lemma FiltersAreNotGone(l: L.Loop)
    requires Watching(l) && FiltersEverywhere(l.nic, l.sys.st.channelCount, l.sys.mac)
    ensures !Noticed(l)
  {
    hide L.HasFilter, L.Cooperative;
    assert L.HasFilter(l.nic, 0, l.sys.mac) && L.HasFilter(l.nic, Due(l.sys), l.sys.mac);
  }

  /** In whatever reachable configured state, with a NIC that cooperates in everything else: the
      connection is lost within 2304 rounds, and for good, exactly if the link is down; with the link
      up it stays configured for ever. */
  lemma LinkDecides(w: World, nic: ValidNic, reply: seq<byte>)
    requires Reachable(w) && Configured(w.sys) && !w.sys.dbg.pendingRestart
    requires L.Cooperative(Linked(nic)) && nic.legacy == w.sys.dbg.mlxLegacy && InStep(L.Loop(w.sys, nic, reply))
    requires FiltersEverywhere(nic, w.sys.st.channelCount, w.sys.mac)
    ensures var l := L.Loop(w.sys, nic, reply);
            && (!LinkUp(nic) <==> exists n: nat :: StartsOver(l, n, 2304) && LostFrom(l, n))
            && (LinkUp(nic) <==> forall m: nat :: Configured(L.Turns(l, m).sys))
  {
    hide Plausible, Orderly, L.Cooperative, InStep, L.Turns, Configured, Noticed, FiltersEverywhere;
    var l := L.Loop(w.sys, nic, reply);
    ReachableIsOrderly(w);
    if LinkUp(nic) {
      LinkKept(w, l);
      forall n: nat ensures !LostFrom(l, n) { assert Configured(L.Turns(l, n).sys); }
    } else {
      LinkIsInStep(l);
      var n := LinkLossClears(l);
      assert !Configured(L.Turns(l, n).sys);
    }
  }

  lemma LinkKept(w: World, l: L.Loop)
    requires Reachable(w) && w.sys == l.sys && Configured(l.sys) && !l.sys.dbg.pendingRestart
    requires L.Cooperative(Linked(l.nic)) && LinkUp(l.nic) && l.nic.legacy == l.sys.dbg.mlxLegacy && InStep(l)
    requires FiltersEverywhere(l.nic, l.sys.st.channelCount, l.sys.mac)
    ensures forall m: nat :: Configured(L.Turns(l, m).sys)
  {
    hide Plausible, L.Cooperative, InStep, L.Turns, Noticed, FiltersEverywhere, Joint;
    CooperativeIfLinked(l.nic);
    ReachableIsOrderly(w);
    PlausibleIsJoint(l.sys);
    FiltersAreNotGone(l);
    forall m: nat ensures Configured(L.Turns(l, m).sys) { WatchDecides(l, m); }
  }

  /** The daemon as constructed, with a NIC that cooperates in everything else: it is configured some time
      exactly if the link is up. */
  lemma ComesUpIfLinked(dbg: Debug, mac: Mac, nic: ValidNic)
    requires L.Cooperative(Linked(nic))
    ensures (exists n: nat :: Configured(L.Turns(L.Loop(Constructed(dbg, mac), nic, []), n).sys)) <==> LinkUp(nic)
  {
    hide L.Cooperative, L.Turns, Configured;
    var l := L.Loop(Constructed(dbg, mac), nic, []);
    if LinkUp(nic) {
      CooperativeIfLinked(nic);
      L.ConstructedComesUp(dbg, mac, nic, 35);
      assert Configured(L.Turns(l, 35).sys) by { ConfiguredIsUp(L.Turns(l, 35).sys); }
    } else {
      ConstructedIsUnlinked(dbg, mac, nic);
      forall n: nat ensures !Configured(L.Turns(l, n).sys) { NeverConfigured(l, n); }
    }
  }

  lemma ConstructedIsUnlinked(dbg: Debug, mac: Mac, nic: ValidNic)
    requires !LinkUp(nic)
    ensures var l := L.Loop(Constructed(dbg, mac), nic, []); Unlinked(l) && Unproven(l.sys)
  {
    hide Inv;
    ConstructedIsSafe(dbg, mac);
  }

  lemma ConfiguredIsUp(s: Sys)
    ensures Configured(s) <==> ConnectionState(s.st, s.dbg) == UpAndConfigured
  {
  }

  // ----- a restart that was asked for -----

  /** Rounds until a run finishes, at most. */
  function Ahead(s: Sys): int {
    if s.st.l2 < L2_END then 3026 - s.st.l2
    else if s.st.test < TEST_END then 20 - s.st.test + 10 * Room(s.dbg.tries)
    else if s.st.l3l4 == L3L4_BEGIN then 9
    else if s.st.l3l4 == L3L4_CONFIG_FILTERS then 2 * (2 - s.st.l3l4Channel) + 2 - if s.st.l3l4Waiting then 1 else 0
    else 1
  }

  predicate DueSooner(s: Sys, s': Sys) {
    s'.st.l2 == L2_RESTART || (Ahead(s') < Ahead(s) && s'.dbg.pendingRestart)
  }

  lemma DueCheck(s: Sys, rx: seq<byte>, p: Poll)
    requires Joint(s.st, s.dbg) && s.dbg.pendingRestart && s.st.l2 == L2_END && s.st.test in {2, 4, 6, 8} && Checked(s, rx, p)
    ensures DueSooner(s, After(p))
  {
    hide Passes, GoodOem;
    if s.dbg.tries != 4 { RoomShrinks(s.dbg.tries); }
  }

  lemma DueTest(s: Sys, rx: seq<byte>)
    requires Joint(s.st, s.dbg) && s.dbg.pendingRestart && Scheduled(s.st, s.dbg) == TestMachine && s.st.test !in {2, 4, 6, 8}
    ensures DueSooner(s, After(RoundSpec(s, rx)))
  {
    hide L2Spec, L3L4Spec, TestFrame, IsHostless;
  }

  lemma DueL3L4(s: Sys, rx: seq<byte>)
    requires Joint(s.st, s.dbg) && s.dbg.pendingRestart && Scheduled(s.st, s.dbg) == L3L4Machine
    ensures DueSooner(s, After(RoundSpec(s, rx)))
  {
    hide L2Spec, TestSpec, Validate, ConfigFilter;
  }

  lemma DueL2Answer(s: Sys, rx: seq<byte>, cmd: Command, perChannel: bool, p: Poll)
    requires Joint(s.st, s.dbg) && s.dbg.pendingRestart && L2RoleOf(s.st.l2).Await?
    requires L2RoleOf(s.st.l2).cmd == cmd && L2RoleOf(s.st.l2).perChannel == perChannel
    requires p == L2Answer(s.st, s.dbg, s.mac, rx, cmd, perChannel, Validate(rx, cmd))
    ensures DueSooner(s, After(p))
  {
    hide L2Answer, Validate;
    AckIsLong(rx, cmd);
    if Accepts(rx, cmd, Validate(rx, cmd)) {
      L2AcceptShape(s.st, s.dbg, s.mac, rx, cmd, perChannel, p);
    } else {
      L2ClearShape(s.st, s.dbg, s.mac, rx, cmd, perChannel, Validate(rx, cmd), p);
    }
  }

  lemma DueL2(s: Sys, rx: seq<byte>)
    requires Joint(s.st, s.dbg) && s.dbg.pendingRestart && Scheduled(s.st, s.dbg) == L2Machine && s.st.l2 > 0
    ensures DueSooner(s, After(RoundSpec(s, rx)))
  {
    hide L2Answer, L3L4Spec, TestSpec, Validate, L2Frame;
    if L2RoleOf(s.st.l2).Await? {
      var role := L2RoleOf(s.st.l2);
      DueL2Answer(s, rx, role.cmd, role.perChannel, RoundSpec(s, rx));
    }
  }

  lemma DueRound(s: Sys, rx: seq<byte>)
    requires Joint(s.st, s.dbg) && !s.dbg.filterDisable && s.dbg.pendingRestart && s.st.l2 > 0
    ensures DueSooner(s, After(RoundSpec(s, rx)))
  {
    hide RoundSpec, DueSooner, L2RoleOf, IsHostless;
    match Scheduled(s.st, s.dbg)
    case L2Machine => DueL2(s, rx);
    case L3L4Machine => DueL3L4(s, rx);
    case TestMachine =>
      if s.st.test in {2, 4, 6, 8} {
        CheckedWhenJoint(s, rx);
        DueCheck(s, rx, RoundSpec(s, rx));
      } else {
        DueTest(s, rx);
      }
    case NoMachine =>
  }

  predicate OnlyRounds(events: seq<Event>) { forall i :: 0 <= i < |events| ==> events[i].Round? }

  lemma AheadIsPositive(s: Sys)
    requires Joint(s.st, s.dbg)
    ensures 0 < Ahead(s) <= 3026
  {
  }

  /** What every state of a run keeps. */
  ghost predicate Sane(w: World) { Inv(w) && Orderly(w.sys) }

  lemma SaneRound(w: World, rx: seq<byte>)
    requires Sane(w)
    ensures Sane(Next(w, Round(rx))) && Joint(w.sys.st, w.sys.dbg) && !w.sys.dbg.filterDisable
    ensures Next(w, Round(rx)).sys == After(RoundSpec(w.sys, rx))
  {
    hide Inv, RoundSpec, Observe;
    InvIsJoint(w);
    StepKeeps(w, Round(rx));
    StepIsOrderly(w, Round(rx));
  }

  lemma {:induction false} RestartNears(w: World, events: seq<Event>) returns (n: nat)
    requires Sane(w) && w.sys.dbg.pendingRestart && OnlyRounds(events)
    ensures Sane(Exec(w, events)) && n <= |events|
    ensures || Exec(w, events[..n]).sys.st.l2 == L2_RESTART
            || (var s := Exec(w, events).sys; s.dbg.pendingRestart && Ahead(s) + |events| <= Ahead(w.sys))
  {
    hide Sane, Ahead, Next, Joint;
    n := 0;
    if events != [] {
      var k := |events| - 1;
      n := RestartNears(w, events[..k]);
      var before := Exec(w, events[..k]);
      SaneRound(before, events[k].rx);
      assert events[..k][..n] == events[..n];
      if Exec(w, events[..n]).sys.st.l2 != L2_RESTART {
        if before.sys.st.l2 == L2_RESTART {
          n := k;
        } else {
          DueRound(before.sys, events[k].rx);
          assert events[..|events|] == events;
          n := |events|;
        }
      }
    }
  }

  /** A restart that was asked for happens: from every reachable state, whatever arrives, the daemon is
      back at the start within 3026 rounds. */
  lemma RestartHappens(w: World, events: seq<Event>) returns (n: nat)
    requires Reachable(w) && w.sys.dbg.pendingRestart && OnlyRounds(events) && |events| >= 3026
    ensures n <= 3026 && Exec(w, events[..n]).sys.st.l2 == L2_RESTART
  {
    hide Inv, Orderly, Ahead, Next, Joint, Plausible;
    ReachableIsSafe(w);
    ReachableIsOrderly(w);
    var some := events[..3026];
    n := RestartNears(w, some);
    assert some[..n] == events[..n];
    SaneIsJoint(w);
    SaneIsJoint(Exec(w, some));
    AheadIsPositive(w.sys);
    AheadIsPositive(Exec(w, some).sys);
  }

  lemma SaneIsJoint(w: World)
    requires Sane(w)
    ensures Joint(w.sys.st, w.sys.dbg)
  {
    hide Inv, Joint;
    InvIsJoint(w);
  }

  // ----- a stop -----

  /** On the way to a stop, with a NIC that acknowledges every command. */
  ghost predicate Stopping(l: L.Loop) {
    var st, dbg := l.sys.st, l.sys.dbg;
    && Joint(st, dbg) && dbg.enabled && dbg.pendingStop && st.l2 <= L2_STOPPED
    && 1 <= l.nic.channels <= 2 && (st.channelCount != 0 ==> st.channelCount == l.nic.channels)
    && (if st.l2 == L2_RESTART then st.restartDelay < RESTART_DELAY_COUNT else !dbg.pendingRestart)
    && (L2Awaits(st) ==> Answers(st.l2, l.reply) && (st.l2 == 6 ==> l.reply[61] == l.nic.channels))
  }

  /** Rounds until the daemon is off: a request and a response a state, without the second channel's
      pairs on a NIC with one channel. */
  function StopRounds(st: NcsiState, channels: byte): int {
    if st.l2 == L2_RESTART then 100 - st.restartDelay + if channels == 1 then 9 else 13
    else if channels == 2 then 14 - st.l2
    else if st.l2 <= 6 then 10 - st.l2
    else if st.l2 == 9 then 3
    else if st.l2 == 10 then 2
    else 1
  }

  predicate IsStopCommand(cmd: Command) { cmd in [CLEAR, Std(GET_VERSION_ID), Std(GET_CAPABILITIES), RESET] }

  lemma StopAnswer(nic: ValidNic, l2: nat, cmd: Command, channel: byte, mac: Mac)
    requires L2RoleOf(l2).Await? && L2RoleOf(l2).cmd == cmd && IsStopCommand(cmd) && 1 <= nic.channels <= 2
    ensures var (n, rx) := Reply(nic, L2Frame(cmd, channel, mac));
            n == nic && Answers(l2, rx) && (cmd == Std(GET_CAPABILITIES) ==> rx[61] == nic.channels)
  {
    var frame := L2Frame(cmd, channel, mac);
    L2FrameCarries(cmd, channel, mac);
    var body := if cmd.code == GET_VERSION_ID then nic.version
                else if cmd.code == GET_CAPABILITIES then nic.capabilities + [nic.channels] else [];
    StdReplyAgrees(frame, cmd.code, body, cmd);
    hide Answers;
    AnswersMean(l2, cmd, StdReply(frame, body));
  }

  predicate Off(s: Sys) { !s.dbg.enabled && !s.dbg.pendingRestart && !s.dbg.pendingStop && s.st == CLEARED }

  ghost predicate NearStop(l: L.Loop, l': L.Loop) {
    if StopRounds(l.sys.st, l.nic.channels) == 1 then Off(l'.sys)
    else Stopping(l') && l'.nic == l.nic && StopRounds(l'.sys.st, l.nic.channels) == StopRounds(l.sys.st, l.nic.channels) - 1
  }

  lemma StopSends(l: L.Loop, cmd: Command, channel: byte)
    requires Stopping(l) && L2RoleOf(l.sys.st.l2) == Send(cmd, channel)
    ensures NearStop(l, L.Turn(l))
  {
    hide Reply, Answers, L2Frame;
    L.L2SendIs(l, cmd, channel);
    StopAnswer(l.nic, l.sys.st.l2 + 1, cmd, channel, l.sys.mac);
  }

  lemma StopAwaits(l: L.Loop)
    requires Stopping(l) && L2Awaits(l.sys.st)
    ensures NearStop(l, L.Turn(l))
  {
    hide RoundSpec, Reply, Answers;
    AnsweredWhenJoint(l.sys, l.reply);
  }

  lemma StopGates(l: L.Loop)
    requires Stopping(l) && L2RoleOf(l.sys.st.l2).StopGate?
    ensures NearStop(l, L.Turn(l))
  {
    hide Reply, Answers;
    L2FrameCarries(RESET, 0, l.sys.mac);
    StopAnswer(l.nic, 10, RESET, 0, l.sys.mac);
  }

  lemma StopWaits(l: L.Loop)
    requires Stopping(l) && (l.sys.st.l2 == L2_RESTART || l.sys.st.l2 == L2_STOPPED)
    ensures NearStop(l, L.Turn(l))
  {
    hide Reply, Answers;
  }

  lemma StopTurn(l: L.Loop)
    requires Stopping(l)
    ensures NearStop(l, L.Turn(l))
  {
    hide Stopping, NearStop, L.Turn;
    StopIsUnderWay(l);
    var role := L2RoleOf(l.sys.st.l2);
    match role
    case Send(cmd, channel) => StopSends(l, cmd, channel);
    case Await(_, _, _) => StopAwaits(l);
    case StopGate => StopGates(l);
    case _ => StopWaits(l);
  }

  lemma StopIsUnderWay(l: L.Loop)
    requires Stopping(l)
    ensures l.sys.st.l2 <= L2_STOPPED && l.sys.dbg.enabled && StopRounds(l.sys.st, l.nic.channels) >= 1
  {
  }

  lemma {:induction false} StopFor(l: L.Loop, rounds: nat)
    requires Stopping(l) && rounds < StopRounds(l.sys.st, l.nic.channels)
    ensures var l' := L.Turns(l, rounds);
            Stopping(l') && l'.nic == l.nic && StopRounds(l'.sys.st, l.nic.channels) == StopRounds(l.sys.st, l.nic.channels) - rounds
  {
    hide Stopping, L.Turn, StopRounds;
    if rounds > 0 {
      StopFor(l, rounds - 1);
      StopTurn(L.Turns(l, rounds - 1));
    }
  }

  /** A stop that is pending at the start, or asked for at any point before the channels would be reset,
      takes exactly the expected number of rounds; then the daemon is off, for ever. */
  lemma StopHappens(l: L.Loop, rounds: nat)
    requires Stopping(l)
    ensures Off(L.Turns(l, rounds).sys) <==> rounds >= StopRounds(l.sys.st, l.nic.channels)
  {
    hide Stopping, L.Turn, StopRounds;
    StopIsUnderWay(l);
    var last: nat := StopRounds(l.sys.st, l.nic.channels) - 1;
    if rounds <= last {
      StopFor(l, rounds);
      StopIsUnderWay(L.Turns(l, rounds));
    } else {
      StopFor(l, last);
      StopTurn(L.Turns(l, last));
      OffStaysOff(L.Turns(l, last + 1), rounds - last - 1);
      TurnsSplit(l, last + 1, rounds - last - 1);
    }
  }

  /** The daemon is switched off by nothing but the end of the script that resets the channels, after
      all of it was sent. */
  lemma OnlyStopSwitchesOff(w: World, rx: seq<byte>)
    requires Reachable(w) && w.sys.dbg.enabled
    ensures var off := !RoundSpec(w.sys, rx).dbg.enabled;
            && (off <==> w.sys.st.l2 == L2_STOPPED)
            && (off ==> w.hist.l2Sent == Script(w.hist.reported, true) && !RoundSpec(w.sys, rx).dbg.pendingStop
                        && RoundSpec(w.sys, rx).st == CLEARED)
  {
    hide Inv, RoundSpec, Plausible, Script;
    T.ScriptIsFollowed(w);
    ReachableIsSafe(w);
    ReachableIsOrderly(w);
    InvIsJoint(w);
    SwitchedOff(w.sys, rx);
  }

  lemma SwitchedOff(s: Sys, rx: seq<byte>)
    requires Joint(s.st, s.dbg) && s.dbg.enabled && !s.dbg.filterDisable
    ensures var p := RoundSpec(s, rx);
            if s.st.l2 == L2_STOPPED then !p.dbg.enabled && !p.dbg.pendingStop && p.st == CLEARED else p.dbg.enabled
  {
    hide L2Answer, Validate, L3L4Spec, TestSpec, IsHostless;
    match Scheduled(s.st, s.dbg)
    case L2Machine =>
      if L2Awaits(s.st) {
        var role := L2RoleOf(s.st.l2);
        AnswerKeepsOn(s, rx, role.cmd, role.perChannel, RoundSpec(s, rx));
      }
    case L3L4Machine => FilterKeepsOn(s.st, s.dbg, s.mac, rx, RoundSpec(s, rx));
    case TestMachine =>
      if s.st.test in {2, 4, 6, 8} {
        hide RoundSpec, Passes, GoodOem;
        CheckedWhenJoint(s, rx);
      } else {
        TestKeepsOn(if s.st.test == TEST_END then s.st.(retestDelay := RESTART_DELAY_COUNT) else s.st, s.dbg, s.mac, rx, RoundSpec(s, rx));
      }
    case NoMachine =>
  }

  lemma FilterKeepsOn(st: NcsiState, dbg: Debug, mac: Mac, rx: seq<byte>, p: Poll)
    requires p == L3L4Spec(st, dbg, mac, rx)
    ensures p.dbg.enabled == dbg.enabled
  {
    hide Validate;
  }

  lemma TestKeepsOn(st: NcsiState, dbg: Debug, mac: Mac, rx: seq<byte>, p: Poll)
    requires st.test !in {2, 4, 6, 8} && p == TestSpec(st, dbg, mac, rx)
    ensures p.dbg.enabled == dbg.enabled
  {
    hide TestCheck, TestFrame, Wrap8, Wrap32, NextChannelUnderTest;
  }

  lemma AnswerKeepsOn(s: Sys, rx: seq<byte>, cmd: Command, perChannel: bool, p: Poll)
    requires p == L2Answer(s.st, s.dbg, s.mac, rx, cmd, perChannel, Validate(rx, cmd))
    ensures p.dbg.enabled == s.dbg.enabled
  {
    hide L2Answer, Validate;
    AckIsLong(rx, cmd);
    if Accepts(rx, cmd, Validate(rx, cmd)) {
      L2AcceptShape(s.st, s.dbg, s.mac, rx, cmd, perChannel, p);
    } else {
      L2ClearShape(s.st, s.dbg, s.mac, rx, cmd, perChannel, Validate(rx, cmd), p);
    }
  }
}
