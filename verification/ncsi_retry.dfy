/** How many failing health checks the daemon puts up with: the bound, and the run that reaches it,
    for every value of the retry counter that construction may find in memory. */
module NcsiRetry {
  import opened Bytes
  import opened NcsiFrames
  import opened NcsiFsm
  import opened NcsiNic
  import opened NcsiSafety
  import opened Iteration
  import L = NcsiClosedLoop
  import M = NcsiMachine
  import T = NcsiTheorems

  /** The counter is only ever compared with its last value, by an 8-bit subtraction. */
  lemma RetryUnlessSpent(dbg: Debug)
    requires dbg.maxTries == MAX_TRIES
    ensures MayRetry(dbg) <==> dbg.tries != MAX_TRIES - 1
  {
  }

  /** The failures that may go without a clear when the counter starts at `tries`: as many as lead
      to the last value, by way of a wrap-around if need be. */
  function Spare(tries: byte): nat {
    if tries < MAX_TRIES then MAX_TRIES - 1 else 0x100 + MAX_TRIES - 1 - tries
  }

  // ----- never more -----

  /** The counter has moved on from where it was at construction by at least the failures seen, or
      has been restarted and counts them. */
  predicate Budgeted(w: World, start: byte) {
    var tries, failures := w.sys.dbg.tries, w.hist.failures;
    && w.sys.dbg.maxTries == MAX_TRIES
    && (if start < MAX_TRIES then failures <= tries < MAX_TRIES
        else if tries < MAX_TRIES then failures <= tries + 0x100 - start
        else failures <= tries - start)
  }

  /** What one step may do: nothing to the counter, a restart of both, or one failure counted. */
  predicate Counted(w: World, w': World) {
    && w'.sys.dbg.maxTries == w.sys.dbg.maxTries
    && var was: int, now: int := w.sys.dbg.tries, w'.sys.dbg.tries;
       || (now == was && w'.hist.failures <= w.hist.failures)
       || (now == 0 && w'.hist.failures == 0)
       || (MayRetry(w.sys.dbg) && now == Wrap8(was + 1) && w'.hist.failures <= w.hist.failures + 1)
  }

  lemma CountedStaysBudgeted(w: World, w': World, start: byte)
    requires Budgeted(w, start) && Counted(w, w')
    ensures Budgeted(w', start)
  {
    RetryUnlessSpent(w.sys.dbg);
  }

  lemma L2AnswerCounts(st: NcsiState, dbg: Debug, mac: Mac, rx: seq<byte>, cmd: Command, perChannel: bool, resp: ResponseType, p: Poll)
    requires (resp == Ack ==> |rx| >= ResponseSize(cmd)) && p == L2Answer(st, dbg, mac, rx, cmd, perChannel, resp)
    ensures p.dbg.tries == dbg.tries && p.dbg.maxTries == dbg.maxTries
  {
    hide L2Answer;
    if Accepts(rx, cmd, resp) {
      L2AcceptShape(st, dbg, mac, rx, cmd, perChannel, p);
    } else {
      L2ClearShape(st, dbg, mac, rx, cmd, perChannel, resp, p);
    }
  }

  lemma L2Counts(st: NcsiState, dbg: Debug, mac: Mac, rx: seq<byte>, p: Poll)
    requires p == L2Spec(st, dbg, mac, rx)
    ensures p.dbg.tries == dbg.tries && p.dbg.maxTries == dbg.maxTries
  {
    hide L2Answer, L2RoleOf;
    if L2RoleOf(st.l2).Await? {
      var role := L2RoleOf(st.l2);
      L2AnswerCounts(st, dbg, mac, rx, role.cmd, role.perChannel, Validate(rx, role.cmd), p);
    }
  }

  lemma L3L4Counts(st: NcsiState, dbg: Debug, mac: Mac, rx: seq<byte>, p: Poll)
    requires p == L3L4Spec(st, dbg, mac, rx)
    ensures p.dbg.tries == dbg.tries && p.dbg.maxTries == dbg.maxTries
  {
    hide Validate;
  }

  /** What a poll of the test machine does to the counter: it restarts only together with what is
      counted, and goes up with every failure that does not clear. */
  predicate TestCounted(st: NcsiState, dbg: Debug, p: Poll) {
    && p.dbg.maxTries == dbg.maxTries
    && var up := MayRetry(dbg) && p.dbg.tries == Wrap8(dbg.tries + 1);
       && (|| p.dbg.tries == dbg.tries || up
           || (p.dbg.tries == 0 && (p.dbg.failCount != dbg.failCount || (st.test == TEST_END && p.tx == [] && p.resp == NoResponse))))
       && (p.resp != NoResponse && p.st.test == TEST_BEGIN && p.dbg.failCount == dbg.failCount ==> up)
  }

  lemma OutcomeCounts(seen: NcsiState, dbg: Debug, mac: Mac, verdict: (ResponseType, bool), p: Poll)
    requires p == TestOutcome(seen, dbg, mac, verdict)
    ensures TestCounted(seen, dbg, p)
  {
    hide MayRetry, Wrap8;
    FailureShows(dbg);
  }

  lemma FailureShows(dbg: Debug)
    ensures CountFailure(dbg).failCount != dbg.failCount
  {
  }

  lemma TestCounts(st: NcsiState, dbg: Debug, mac: Mac, rx: seq<byte>, p: Poll)
    requires p == TestSpec(st, dbg, mac, rx)
    ensures TestCounted(st, dbg, p)
  {
    hide TestVerdict, MayRetry, TestOutcome, Validate, Wrap32;
    match TestRoleOf(st.test)
    case Check(cmd) =>
      OutcomeCounts(Seen(st, dbg, rx, cmd), dbg, mac, TestVerdict(st, dbg, mac, rx, cmd), p);
      assert Seen(st, dbg, rx, cmd).test == st.test;
    case _ => FailureShows(dbg.(tries := 0)); FailureShows(dbg);
  }

  lemma FailuresSeen(h: History, s: Sys, rx: seq<byte>, p: Poll)
    ensures var failures := Observe(h, s, rx, p).failures;
            if p.dbg.failCount != s.dbg.failCount then failures == 0
            else if Scheduled(s.st, s.dbg) != TestMachine then failures == h.failures
            else if p.resp == NoResponse && p.tx == [] && s.st.test == TEST_END then failures == 0
            else failures <= h.failures + if p.resp != NoResponse && p.st.test == TEST_BEGIN then 1 else 0
  {
    hide Validate, Scheduled;
  }

  lemma StepCounts(w: World, e: Event)
    ensures Counted(w, Next(w, e))
  {
    hide MayRetry, Validate, L2Spec, L3L4Spec, TestSpec, Observe, Wrap8;
    if e.Round? {
      var p := RoundSpec(w.sys, e.rx);
      FailuresSeen(w.hist, w.sys, e.rx, p);
      match Scheduled(w.sys.st, w.sys.dbg)
      case L2Machine => L2Counts(w.sys.st, w.sys.dbg, w.sys.mac, e.rx, p);
      case L3L4Machine => L3L4Counts(w.sys.st, w.sys.dbg, w.sys.mac, e.rx, p);
      case TestMachine =>
        TestCounts(if w.sys.st.test == TEST_END then w.sys.st.(retestDelay := RESTART_DELAY_COUNT) else w.sys.st,
                   w.sys.dbg, w.sys.mac, e.rx, p);
      case NoMachine =>
    }
  }

  lemma {:induction false} RunStaysBudgeted(w: World, events: seq<Event>, start: byte)
    requires Budgeted(w, start)
    ensures Budgeted(Exec(w, events), start)
  {
    hide Budgeted, Next;
    if events != [] {
      var before := events[..|events| - 1];
      RunStaysBudgeted(w, before, start);
      StepCounts(Exec(w, before), events[|events| - 1]);
      CountedStaysBudgeted(Exec(w, before), Exec(w, events), start);
    }
  }

  /** In no run are there more failures than the counter leaves room for. */
  lemma RetryBudget(dbg: Debug, mac: Mac, events: seq<Event>)
    ensures Exec(World(Constructed(dbg, mac), NOTHING), events).hist.failures <= Spare(dbg.tries)
  {
    hide Next;
    RunStaysBudgeted(World(Constructed(dbg, mac), NOTHING), events, dbg.tries);
  }

  // ----- and sometimes that many -----

  /** The steps from the last value of the counter. */
  function Room(tries: byte): nat { if tries < MAX_TRIES then MAX_TRIES - 1 - tries else 0x100 + MAX_TRIES - 1 - tries }

  lemma RoomShrinks(tries: byte)
    requires Room(tries) > 0
    ensures tries != MAX_TRIES - 1 && Room(Wrap8(tries + 1)) == Room(tries) - 1
  {
  }

  /** A daemon with a NIC of one channel, waiting for the answer to its first health check. */
  predicate EchoDue(s: Sys) {
    && s.dbg.enabled && !s.dbg.pendingStop && !s.dbg.filterDisable && s.dbg.maxTries == MAX_TRIES && s.dbg.chUnderTest <= 1
    && s.st.l2 == L2_END && s.st.l3l4 == L3L4_BEGIN && s.st.test == 2 && s.st.channelCount == 1
  }

  const TIMEOUT := Round([])

  /** An answer that does not come sends the test back to its start, to ask again. */
  lemma TimeoutCounts(w: World)
    requires EchoDue(w.sys) && MayRetry(w.sys.dbg)
    ensures Next(w, TIMEOUT).sys == w.sys.(st := w.sys.st.(test := TEST_BEGIN),
                                           dbg := w.sys.dbg.(tries := Wrap8(w.sys.dbg.tries + 1)))
    ensures Next(w, TIMEOUT).hist.failures == w.hist.failures + 1
  {
    hide MayRetry;
    assert Validate([], Oem(OEM_ECHO)) == Undersized;
  }

  lemma TestStartsOver(w: World)
    requires EchoDue(w.sys.(st := w.sys.st.(test := 2))) && w.sys.st.test == TEST_BEGIN
    ensures var w' := Next(w, TIMEOUT);
            && w'.sys.st == w.sys.st.(test := 1) && w'.sys.dbg == w.sys.dbg.(runs := w'.sys.dbg.runs, chUnderTest := 0)
            && w'.hist == w.hist
  {
  }

  lemma EchoIsAsked(w: World)
    requires EchoDue(w.sys.(st := w.sys.st.(test := 2))) && w.sys.st.test == 1
    ensures Next(w, TIMEOUT).sys == w.sys.(st := w.sys.st.(test := 2)) && Next(w, TIMEOUT).hist.failures == w.hist.failures
  {
    TestFrameCarries(Oem(OEM_ECHO), w.sys.dbg);
  }

  function ThreeMore(w: World): World { Next(Next(Next(w, TIMEOUT), TIMEOUT), TIMEOUT) }

  lemma FailOnce(w: World)
    requires EchoDue(w.sys) && Room(w.sys.dbg.tries) > 0
    ensures var w' := ThreeMore(w);
            && EchoDue(w'.sys) && Room(w'.sys.dbg.tries) == Room(w.sys.dbg.tries) - 1
            && w'.hist.failures == w.hist.failures + 1
  {
    hide Next;
    RoomShrinks(w.sys.dbg.tries);
    RetryUnlessSpent(w.sys.dbg);
    TimeoutCounts(w);
    var w1 := Next(w, TIMEOUT);
    TestStartsOver(w1);
    EchoIsAsked(Next(w1, TIMEOUT));
  }

  lemma {:induction false} ExecAppend(w: World, a: seq<Event>, b: seq<Event>)
    ensures Exec(w, a + b) == Exec(Exec(w, a), b)
  {
    hide Next;
    if b == [] {
      assert a + b == a;
    } else {
      ExecAppend(w, a, b[..|b| - 1]);
      assert (a + b)[..|a + b| - 1] == a + b[..|b| - 1];
    }
  }

  lemma ExecOneMore(w: World, events: seq<Event>, e: Event)
    ensures Exec(w, events + [e]) == Next(Exec(w, events), e)
  {
    hide Next;
    assert (events + [e])[..|events + [e]| - 1] == events;
  }

  lemma ExecThree(w: World)
    ensures Exec(w, [TIMEOUT, TIMEOUT, TIMEOUT]) == ThreeMore(w)
  {
    hide Next;
    ExecOneMore(w, [], TIMEOUT);
    ExecOneMore(w, [TIMEOUT], TIMEOUT);
    ExecOneMore(w, [TIMEOUT, TIMEOUT], TIMEOUT);
    assert [TIMEOUT] + [TIMEOUT] == [TIMEOUT, TIMEOUT] && [TIMEOUT, TIMEOUT] + [TIMEOUT] == [TIMEOUT, TIMEOUT, TIMEOUT];
  }

  lemma {:induction false} FailTimes(w: World, n: nat) returns (events: seq<Event>)
    requires EchoDue(w.sys) && n <= Room(w.sys.dbg.tries)
    ensures var w' := Exec(w, events);
            EchoDue(w'.sys) && Room(w'.sys.dbg.tries) == Room(w.sys.dbg.tries) - n && w'.hist.failures == w.hist.failures + n
    decreases n
  {
    hide EchoDue, Room, Next, ThreeMore;
    if n == 0 {
      events := [];
    } else {
      FailOnce(w);
      ExecThree(w);
      var rest := FailTimes(ThreeMore(w), n - 1);
      events := [TIMEOUT, TIMEOUT, TIMEOUT] + rest;
      ExecAppend(w, [TIMEOUT, TIMEOUT, TIMEOUT], rest);
    }
  }

  /** The failure that finds the counter at its last value clears the machines and the counter. */
  lemma LastFailureClears(w: World)
    requires EchoDue(w.sys) && Room(w.sys.dbg.tries) == 0
    ensures var w' := Next(w, TIMEOUT); L.ReadyToStart(w'.sys) && w'.sys.dbg.tries == 0
  {
  }

  // ----- how to get there -----

  const NIC: ValidNic :=
    Nic(1, false, Zeros(6), Zeros(2), Zeros(36), Zeros(27), [0, 0, 0, 1] + Zeros(8), Zeros(44), Zeros(40), Zeros(24), Zeros(24))

  lemma EchoIsDue(l: L.Loop)
    requires L.OnTrack(l) && l.nic.channels == 1 && L.RoundsToGo(l.sys.st, 1) == 9
    ensures EchoDue(l.sys)
  {
    hide L.GoodReply, L.HasFilter;
  }

  lemma GoodAnswerKeepsTries(st: NcsiState, dbg: Debug, mac: Mac, rx: seq<byte>, cmd: Command)
    requires TestRoleOf(st.test) == Check(cmd) && TestVerdict(st, dbg, mac, rx, cmd).1
    ensures TestSpec(st, dbg, mac, rx).dbg == dbg
  {
    hide TestVerdict;
  }

  lemma TurnKeepsTries(l: L.Loop)
    requires L.OnTrack(l) && l.nic.channels == 1 && L.RoundsToGo(l.sys.st, 1) > 2
    ensures L.Turn(l).sys.dbg.tries == l.sys.dbg.tries
  {
    hide L.HasFilter, TestVerdict, Validate, L2Spec, L3L4Spec;
    var st, dbg, mac := l.sys.st, l.sys.dbg, l.sys.mac;
    match Scheduled(st, dbg)
    case L2Machine => L2Counts(st, dbg, mac, l.reply, RoundSpec(l.sys, l.reply));
    case L3L4Machine => L3L4Counts(st, dbg, mac, l.reply, RoundSpec(l.sys, l.reply));
    case TestMachine =>
      if TestRoleOf(st.test).Check? {
        GoodAnswerKeepsTries(st, dbg, mac, l.reply, TestRoleOf(st.test).cmd);
      }
    case NoMachine =>
  }

  lemma {:induction false} TurnsKeepTries(l: L.Loop, rounds: nat)
    requires L.OnTrack(l) && l.nic.channels == 1 && rounds + 9 <= L.RoundsToGo(l.sys.st, 1)
    ensures L.Turns(l, rounds).sys.dbg.tries == l.sys.dbg.tries
  {
    hide L.OnTrack, L.Turn, L.RoundsToGo;
    if rounds > 0 {
      TurnsKeepTries(l, rounds - 1);
      L.TurnsProgress(l, rounds - 1);
      TurnKeepsTries(L.Turns(l, rounds - 1));
    }
  }

  lemma NicCooperates()
    ensures L.Cooperative(NIC)
  {
  }

  /** With such a NIC a daemon that starts or starts over gets to its first health check, with the
      counter as it was. */
  lemma ComesToEcho(w: World) returns (events: seq<Event>)
    requires L.ReadyToStart(w.sys)
    ensures var w' := Exec(w, events); EchoDue(w'.sys) && w'.sys.dbg.tries == w.sys.dbg.tries
  {
    hide L.OnTrack, L.Turn, L.RoundsToGo, L.Deliveries, EchoDue, Next, M.Step, L.ReadyToStart, L.Cooperative;
    NicCooperates();
    var l := L.Loop(w.sys, NIC, []);
    L.StartIsOnTrack(w.sys, NIC);
    var rounds := L.RoundsToGo(w.sys.st, 1) - 9;
    ReadyTakesAWhile(w.sys);
    TurnsKeepTries(l, rounds);
    L.TurnsProgress(l, rounds);
    EchoIsDue(L.Turns(l, rounds));
    var t := M.Trace(w.sys, M.NCSI_TYPE, L.Deliveries(L.Turn, l, rounds) + [], []);
    L.LoopIsRun(l, rounds, M.NCSI_TYPE, []);
    T.RunIsExec(t, w.hist, rounds);
    events := T.EventsOf(M.Step, t, rounds);
  }

  lemma ReadyTakesAWhile(s: Sys)
    requires L.ReadyToStart(s)
    ensures L.RoundsToGo(s.st, 1) >= 9
  {
  }

  /** For every value that the counter may start from some run has all the failures it leaves room
      for. */
  lemma SpareIsReached(dbg: Debug, mac: Mac) returns (events: seq<Event>)
    ensures Exec(World(Constructed(dbg, mac), NOTHING), events).hist.failures >= Spare(dbg.tries)
  {
    hide EchoDue, Next, L.ReadyToStart;
    var w := World(Constructed(dbg, mac), NOTHING);
    ConstructedIsReady(dbg, mac);
    var there := ComesToEcho(w);
    var w1 := Exec(w, there);
    var failing := FailTimes(w1, Room(dbg.tries));
    events := there + failing;
    ExecAppend(w, there, failing);
    if dbg.tries < MAX_TRIES {
      var w2 := Exec(w, events);
      LastFailureClears(w2);
      var cleared := events + [TIMEOUT];
      ExecOneMore(w, events, TIMEOUT);
      var again := ComesToEcho(Exec(w, cleared));
      var failingAgain := FailTimes(Exec(Exec(w, cleared), again), MAX_TRIES - 1);
      ExecAppend(w, cleared, again);
      ExecAppend(w, cleared + again, failingAgain);
      events := cleared + again + failingAgain;
    }
  }

  lemma ConstructedIsReady(dbg: Debug, mac: Mac)
    ensures L.ReadyToStart(Constructed(dbg, mac))
  {
  }

  /** The most failures that any run has without a clear or a finished test run in between, exactly,
      for whatever construction finds in the counter's memory. */
  lemma BudgetIsExact(dbg: Debug, mac: Mac, n: nat)
    ensures (forall events :: Exec(World(Constructed(dbg, mac), NOTHING), events).hist.failures <= n) <==> n >= Spare(dbg.tries)
  {
    hide Next;
    var most := SpareIsReached(dbg, mac);
    forall events ensures Exec(World(Constructed(dbg, mac), NOTHING), events).hist.failures <= Spare(dbg.tries) {
      RetryBudget(dbg, mac, events);
    }
  }

  /** Every fifth failure clears, in every run, exactly if the counter starts below the limit. */
  lemma LimitHoldsIfCounterIsSet(dbg: Debug, mac: Mac)
    ensures (forall events :: Exec(World(Constructed(dbg, mac), NOTHING), events).hist.failures < MAX_TRIES)
            <==> dbg.tries < MAX_TRIES
  {
    hide Next;
    BudgetIsExact(dbg, mac, MAX_TRIES - 1);
  }
}
