/** The daemon itself: a socket, the shared records and buffer, the three poll functions that
    update them in place, and the scheduler loop. */
module NcsiMachine {
  import opened Bytes
  import opened NcsiFrames
  import opened NcsiFsm
  import opened Iteration
  import Client = NcsiClient

  const BUFFER_SIZE := 1522

  /** What one receive call yields: a frame, or nothing for a timeout. */
  type Outcome = o: seq<byte> | |o| <= BUFFER_SIZE witness []

  /** The two bytes of the buffer in which the type of a frame stands. */
  type TypeField = t: seq<byte> | |t| == 2 witness [0, 0]

  const NCSI_TYPE: TypeField := [0x88, 0xF8]

  predicate IsNcsi(frame: seq<byte>) { |frame| >= 14 && frame[12..14] == NCSI_TYPE }

  /** The field once a frame was read into the buffer: one that is too short leaves what was there. */
  function Overwritten(field: TypeField, frame: Outcome): TypeField {
    if |frame| >= 14 then frame[12..14] else if |frame| == 13 then [frame[12], field[1]] else field
  }

  lemma FieldIsOverwritten(was: seq<byte>, now: seq<byte>, n: nat)
    requires |was| == |now| == BUFFER_SIZE && n <= BUFFER_SIZE && now[n..] == was[n..]
    ensures Overwritten(was[12..14], now[..n]) == now[12..14]
  {
    assert forall k :: n <= k < BUFFER_SIZE ==> now[k] == now[n..][k - n] == was[k];
    assert now[12..14] == [now[12], now[13]];
  }

  /** The frame a round works on, and the outcomes left for later rounds: everything up to the
      first timeout or frame with the NC-SI type behind it is consumed. */
  function Received(inbound: seq<Outcome>, field: TypeField): (Outcome, seq<Outcome>, TypeField) {
    if inbound == [] then ([], [], field)
    else
      var now := Overwritten(field, inbound[0]);
      if inbound[0] == [] || now == NCSI_TYPE then (inbound[0], inbound[1..], now) else Received(inbound[1..], now)
  }

  /** The type field once the first k frames were read into the buffer. */
  function FieldAfter(inbound: seq<Outcome>, field: TypeField, k: nat): TypeField
    requires k <= |inbound|
  {
    if k == 0 then field else Overwritten(FieldAfter(inbound, field, k - 1), inbound[k - 1])
  }

  /** Reading ends with the k-th outcome: a timeout, or the buffer shows type 0x88F8. */
  predicate Ends(inbound: seq<Outcome>, field: TypeField, k: nat)
    requires k < |inbound|
  {
    inbound[k] == [] || FieldAfter(inbound, field, k + 1) == [0x88, 0xF8]
  }

  lemma {:induction false} FieldAfterFirst(inbound: seq<Outcome>, field: TypeField, k: nat)
    requires 0 < k <= |inbound|
    ensures FieldAfter(inbound[1..], Overwritten(field, inbound[0]), k - 1) == FieldAfter(inbound, field, k)
  {
    if k > 1 {
      FieldAfterFirst(inbound, field, k - 1);
    }
  }

  /** A round works on the first outcome that ends the reading, and leaves the ones behind it; without
      one, every outcome is used up for a timeout. */
  lemma {:induction false} ReceivedIsFirst(inbound: seq<Outcome>, field: TypeField, k: nat)
    requires k <= |inbound| && (k < |inbound| ==> Ends(inbound, field, k))
    requires forall j: nat :: j < k ==> !Ends(inbound, field, j)
    ensures Received(inbound, field)
         == if k < |inbound| then (inbound[k], inbound[k + 1..], FieldAfter(inbound, field, k + 1))
            else ([], [], FieldAfter(inbound, field, k))
    decreases k
  {
    if inbound != [] {
      assert Overwritten(field, inbound[0]) == FieldAfter(inbound, field, 1);
      if k > 0 {
        assert !Ends(inbound, field, 0);
        var now := Overwritten(field, inbound[0]);
        forall j: nat | j < |inbound| - 1 ensures Ends(inbound[1..], now, j) == Ends(inbound, field, j + 1) {
          FieldAfterFirst(inbound, field, j + 2);
        }
        ReceivedIsFirst(inbound[1..], now, k - 1);
        FieldAfterFirst(inbound, field, k);
        if k < |inbound| { FieldAfterFirst(inbound, field, k + 1); }
      }
    }
  }

  /** The daemon with its surroundings: the records, the type field in the buffer, the receive
      outcomes still to come, and the frames written so far. */
  datatype Trace = Trace(sys: Sys, field: TypeField, inbound: seq<Outcome>, sent: seq<seq<byte>>)

  lemma SentIsNcsi(s: Sys, rx: seq<byte>)
    ensures var tx := RoundSpec(s, rx).tx; tx != [] ==> |tx| >= HEADER_SIZE && IsNcsi(tx)
  {
  }

  function Step(t: Trace): Trace {
    var (rx, left, field) := Received(t.inbound, t.field);
    var p := RoundSpec(t.sys, rx);
    SentIsNcsi(t.sys, rx);
    Trace(After(p), if p.tx == [] then field else NCSI_TYPE, left, if p.tx == [] then t.sent else t.sent + [p.tx])
  }

  /** `rounds` rounds of the scheduler. */
  function RunSpec(t: Trace, rounds: nat): Trace { Iterate(Step, t, rounds) }

  /** What the answer to the version request does. */
  lemma VersionAnswer(st: NcsiState, dbg: Debug, mac: Mac, rx: seq<byte>)
    requires L2RoleOf(st.l2) == Await(Std(GET_VERSION_ID), 0, true)
    ensures var p, resp := L2Spec(st, dbg, mac, rx), Validate(rx, Std(GET_VERSION_ID));
            if resp == Ack
            then |rx| > 54 && p == Poll(st.(l2 := st.l2 + ChannelStep(st)), dbg.(mlxLegacy := rx[54] == 8), mac, [], Ack)
            else p == FailPoll(dbg, mac, resp)
  {
    hide IsLoopback;
  }

  class Socket {
    var inbound: seq<Outcome>
    var outbound: seq<seq<byte>>

    constructor (inbound: seq<Outcome>)
      ensures this.inbound == inbound && outbound == []
    {
      this.inbound := inbound;
      outbound := [];
    }

    /** Fills the start of `buf` with the next frame; 0 means timeout. */
    method Recv(buf: array<byte>) returns (len: nat)
      requires buf.Length == BUFFER_SIZE
      modifies this`inbound, buf
      ensures len <= BUFFER_SIZE && buf[len..] == old(buf[len..])
      ensures old(inbound) == [] ==> len == 0 && inbound == []
      ensures old(inbound) != [] ==> buf[..len] == old(inbound)[0] && inbound == old(inbound)[1..]
    {
      if inbound == [] { return 0; }
      var frame := inbound[0];
      inbound := inbound[1..];
      len := |frame|;
      forall k | 0 <= k < len { buf[k] := frame[k]; }
    }

    method Write(buf: array<byte>, len: nat)
      requires len <= buf.Length
      modifies this`outbound
      ensures outbound == old(outbound) + [buf[..len]]
    {
      outbound := outbound + [buf[..len]];
    }
  }

  class StateMachine {
    var st: NcsiState
    var dbg: Debug
    var mac: Mac  // the address kept by the network configuration
    const buf: array<byte>
    var len: nat
    const sock: Socket

    ghost predicate Valid()
      reads this, buf
    {
      buf.Length == BUFFER_SIZE && len <= BUFFER_SIZE && dbg.chUnderTest <= 1
    }

    ghost function State(): Sys
      reads this
    {
      Sys(st, dbg, mac)
    }

    constructor (sock: Socket, mac: Mac, dbg: Debug)
      ensures Valid() && fresh(buf) && this.sock == sock
      ensures State() == Constructed(dbg, mac)
    {
      this.sock := sock;
      this.mac := mac;
      buf := new byte[BUFFER_SIZE];
      len := 0;
      this.dbg := dbg;
      st := CLEARED;
      new;
      Reset();
      this.dbg := this.dbg.(pendingRestart := true, ping := ECHO_PATTERN);
    }

    /** Clears the state machines, with the first restart delay all but over. */
    method Reset()
      modifies this`st, this`dbg
      ensures st == CLEARED.(restartDelay := RESTART_DELAY_COUNT - 1)
      ensures dbg == old(dbg).(maxTries := MAX_TRIES, chUnderTest := 0, filterDisable := false,
                               pendingStop := false, enabled := true, loopback := false)
    {
      st := CLEARED;
      st := st.(restartDelay := RESTART_DELAY_COUNT - 1);
      dbg := dbg.(maxTries := MAX_TRIES, chUnderTest := 0, filterDisable := false);
      dbg := dbg.(pendingStop := false, enabled := true, loopback := false);
    }

    /** The records are as `p` says, with its frame, if any, at the start of the buffer. */
    ghost predicate Follows(p: Poll, resp: ResponseType, txLen: nat)
      reads this, buf
    {
      Valid() && State() == After(p) && resp == p.resp && txLen <= buf.Length && buf[..txLen] == p.tx
    }

    /** What every poll does; it also uses up the received frame. */
    ghost predicate Polled(p: Poll, resp: ResponseType, txLen: nat)
      reads this, buf
    {
      Follows(p, resp, txLen) && len == 0
    }

    method Fail()
      modifies this`st, this`dbg
      ensures st == CLEARED && dbg == CountFailure(old(dbg))
    {
      dbg := dbg.(failCount := Wrap32(dbg.failCount + 1));
      st := CLEARED;
    }

    /** Writes an L2 command into the buffer and moves on to wait for its answer. */
    method SendL2(cmd: Command, channel: byte, ghost rx: seq<byte>) returns (txLen: nat)
      requires Valid() && L2RoleOf(st.l2) == Send(cmd, channel)
      modifies this`st, buf
      ensures Valid() && 0 < txLen <= buf.Length
      ensures L2Spec(old(st), dbg, mac, rx) == Poll(st, dbg, mac, buf[..txLen], NoResponse)
    {
      match cmd
      case Std(code) =>
        if code == SET_MAC_ADDRESS {
          txLen := Client.CmdSetMac(buf, channel, mac);
        } else {
          txLen := Client.CmdSimple(buf, channel, code);
        }
        st := st.(l2 := st.l2 + 1);
      case Oem(sub) =>
        txLen := Client.OemCmd(buf, channel, sub, []);
        st := st.(l2 := st.l2 + 1);
    }

    /** Checks the answer to an L2 command that needs no further handling. */
    method AwaitL2(cmd: Command, channel: byte, perChannel: bool) returns (resp: ResponseType)
      requires Valid() && st.l2 != L2_CLEAR_0_RESPONSE && L2RoleOf(st.l2) == Await(cmd, channel, perChannel)
      requires cmd !in [Std(GET_VERSION_ID), Std(GET_CAPABILITIES), Oem(OEM_GET_HOST_MAC)]
      modifies this`st, this`dbg
      ensures Valid() && L2Spec(old(st), old(dbg), mac, buf[..len]) == Poll(st, dbg, mac, [], resp)
    {
      resp := Validate(buf[..len], cmd);
      if resp == Ack {
        st := st.(l2 := st.l2 + if perChannel && st.channelCount == 1 then 3 else 1);
      } else {
        Fail();
      }
    }

    method AwaitClear0() returns (resp: ResponseType)
      requires Valid() && st.l2 == L2_CLEAR_0_RESPONSE
      modifies this`st, this`dbg
      ensures Valid() && L2Spec(old(st), old(dbg), mac, buf[..len]) == Poll(st, dbg, mac, [], resp)
    {
      var loopback := false;
      resp := Validate(buf[..len], Std(CLEAR_INITIAL_STATE));
      if resp == Ack {
        st := st.(l2 := st.l2 + 1);
      } else {
        if len >= HEADER_SIZE {
          var expected := new byte[HEADER_SIZE];
          var n := Client.CmdSimple(expected, 0, CLEAR_INITIAL_STATE);
          assert expected[..] == expected[..n];
          loopback := expected[..] == buf[..HEADER_SIZE];
          assert buf[..len][..HEADER_SIZE] == buf[..HEADER_SIZE];
        }
        Fail();
      }
      dbg := dbg.(loopback := loopback);
    }

    method AwaitVersion() returns (resp: ResponseType)
      requires Valid() && L2RoleOf(st.l2) == Await(Std(GET_VERSION_ID), 0, true)
      modifies this`st, this`dbg
      ensures Valid() && L2Spec(old(st), old(dbg), mac, buf[..len]) == Poll(st, dbg, mac, [], resp)
    {
      var rx := buf[..len];
      VersionAnswer(st, dbg, mac, rx);
      ghost var p := L2Spec(st, dbg, mac, rx);
      resp := Validate(rx, Std(GET_VERSION_ID));
      if resp == Ack {
        dbg := dbg.(mlxLegacy := rx[54] == 8);
        st := st.(l2 := st.l2 + if st.channelCount == 1 then 3 else 1);
      } else {
        Fail();
      }
      assert p == Poll(st, dbg, mac, [], resp);
    }

    method AwaitCapabilities() returns (resp: ResponseType)
      requires Valid() && L2RoleOf(st.l2) == Await(Std(GET_CAPABILITIES), 0, true)
      modifies this`st, this`dbg
      ensures Valid() && L2Spec(old(st), old(dbg), mac, buf[..len]) == Poll(st, dbg, mac, [], resp)
    {
      resp := Validate(buf[..len], Std(GET_CAPABILITIES));
      if resp == Ack && (buf[61] == 1 || buf[61] == 2) {
        st := st.(channelCount := buf[61]);
        st := st.(l2 := st.l2 + if st.channelCount == 1 then 3 else 1);
      } else {
        Fail();
      }
    }

    method AwaitHostMac() returns (resp: ResponseType)
      requires Valid() && L2RoleOf(st.l2) == Await(Oem(OEM_GET_HOST_MAC), 0, false)
      modifies this`st, this`dbg, this`mac
      ensures Valid() && L2Spec(old(st), old(dbg), old(mac), buf[..len]) == Poll(st, dbg, mac, [], resp)
    {
      resp := Validate(buf[..len], Oem(OEM_GET_HOST_MAC));
      if resp == Ack {
        assert buf[44..50] == buf[..len][44..50];
        mac := buf[44..50];
        st := st.(l2 := st.l2 + 1);
      } else {
        Fail();
      }
    }

    method PollL2Config() returns (resp: ResponseType, txLen: nat)
      requires Valid()
      modifies this, buf
      ensures txLen == 0 ==> buf[..] == old(buf[..])
      ensures Polled(L2Spec(old(st), old(dbg), old(mac), old(buf[..len])), resp, txLen)
    {
      if st.l2 <= L2_GET_CAPABILITIES_RESPONSE {
        resp, txLen := IdentifyNic();
      } else if st.l2 < L2_GET_MAC {
        resp, txLen := ClearOrReset();
      } else {
        resp, txLen := EnableNic();
      }
      len := 0;
    }

    /** The first states: delay, clearing channel 0, version and capabilities. */
    method IdentifyNic() returns (resp: ResponseType, txLen: nat)
      requires Valid() && st.l2 <= L2_GET_CAPABILITIES_RESPONSE
      modifies this`st, this`dbg, buf
      ensures Valid() && txLen <= buf.Length && (txLen == 0 ==> buf[..] == old(buf[..]))
      ensures L2Spec(old(st), old(dbg), mac, old(buf[..len])) == Poll(st, dbg, mac, buf[..txLen], resp)
    {
      ghost var rx := buf[..len];
      resp, txLen := NoResponse, 0;
      match st.l2 {
        case 0 =>
          st := st.(restartDelay := Wrap8(st.restartDelay + 1));
          if st.restartDelay >= RESTART_DELAY_COUNT {
            dbg := dbg.(pendingRestart := false);
            st := st.(l2 := st.l2 + 1, restartDelay := 0);
          }
        case 1 => txLen := SendL2(Std(CLEAR_INITIAL_STATE), 0, rx);
        case 2 => resp := AwaitClear0();
        case 3 => txLen := SendL2(Std(GET_VERSION_ID), 0, rx);
        case 4 => resp := AwaitVersion();
        case 5 => txLen := SendL2(Std(GET_CAPABILITIES), 0, rx);
        case 6 => resp := AwaitCapabilities();
      }
    }

    /** Clearing channel 1, and the decision whether to reset the channels and stop. */
    method ClearOrReset() returns (resp: ResponseType, txLen: nat)
      requires Valid() && L2_GET_CAPABILITIES_RESPONSE < st.l2 < L2_GET_MAC
      modifies this`st, this`dbg, buf
      ensures Valid() && txLen <= buf.Length && (txLen == 0 ==> buf[..] == old(buf[..]))
      ensures L2Spec(old(st), old(dbg), mac, old(buf[..len])) == Poll(st, dbg, mac, buf[..txLen], resp)
    {
      ghost var rx := buf[..len];
      resp, txLen := NoResponse, 0;
      match st.l2 {
        case 7 => txLen := SendL2(Std(CLEAR_INITIAL_STATE), 1, rx);
        case 8 => resp := AwaitL2(Std(CLEAR_INITIAL_STATE), 1, false);
        case 9 =>
          if dbg.pendingStop {
            txLen := Client.CmdSimple(buf, 0, RESET_CHANNEL);
            st := st.(l2 := st.l2 + 1);
          } else {
            st := st.(l2 := L2_GET_MAC);
          }
        case 10 => resp := AwaitL2(Std(RESET_CHANNEL), 0, true);
        case 11 => txLen := SendL2(Std(RESET_CHANNEL), 1, rx);
        case 12 => resp := AwaitL2(Std(RESET_CHANNEL), 1, false);
        case 13 =>
          dbg := dbg.(pendingStop := false);
          dbg := dbg.(enabled := false);
          Fail();
      }
    }

    /** The remaining states: host address, address filters, channel and transmit enables. */
    method EnableNic() returns (resp: ResponseType, txLen: nat)
      requires Valid() && st.l2 >= L2_GET_MAC
      modifies this`st, this`dbg, this`mac, buf
      ensures Valid() && txLen <= buf.Length && (txLen == 0 ==> buf[..] == old(buf[..]))
      ensures L2Spec(old(st), old(dbg), old(mac), old(buf[..len])) == Poll(st, dbg, mac, buf[..txLen], resp)
    {
      ghost var rx := buf[..len];
      resp, txLen := NoResponse, 0;
      match st.l2 {
        case 14 => txLen := SendL2(Oem(OEM_GET_HOST_MAC), 0, rx);
        case 15 => resp := AwaitHostMac();
        case 16 => txLen := SendL2(Std(SET_MAC_ADDRESS), 0, rx);
        case 17 => resp := AwaitL2(Std(SET_MAC_ADDRESS), 0, true);
        case 18 => txLen := SendL2(Std(SET_MAC_ADDRESS), 1, rx);
        case 19 => resp := AwaitL2(Std(SET_MAC_ADDRESS), 1, false);
        case 20 => txLen := SendL2(Std(ENABLE_CHANNEL), 0, rx);
        case 21 => resp := AwaitL2(Std(ENABLE_CHANNEL), 0, true);
        case 22 => txLen := SendL2(Std(ENABLE_CHANNEL), 1, rx);
        case 23 => resp := AwaitL2(Std(ENABLE_CHANNEL), 1, false);
        case 24 => txLen := SendL2(Std(ENABLE_TX), 0, rx);
        case 25 => resp := AwaitL2(Std(ENABLE_TX), 0, false);
        case 26 =>
        case _ => Fail();
      }
    }

    method PollL3L4Config() returns (resp: ResponseType, txLen: nat)
      requires Valid()
      modifies this, buf
      ensures txLen == 0 ==> buf[..] == old(buf[..])
      ensures Polled(L3L4Spec(old(st), old(dbg), old(mac), old(buf[..len])), resp, txLen)
    {
      resp, txLen := NoResponse, 0;
      if st.l3l4 == L3L4_BEGIN {
        st := st.(l3l4Channel := 0, l3l4Waiting := false, l3l4 := L3L4_CONFIG_FILTERS);
      }
      if st.l3l4Waiting {
        resp := Validate(buf[..len], Oem(st.l3l4Command));
        if resp == Ack {
          st := st.(l3l4Channel := Wrap8(st.l3l4Channel + 1));
          if st.l3l4Channel >= st.channelCount {
            st := st.(l3l4 := st.l3l4 + 1, l3l4Channel := 0);
          }
        } else {
          Fail();
        }
        st := st.(l3l4Waiting := false);
      } else if st.l3l4 == L3L4_CONFIG_FILTERS {
        txLen := Client.OemCmd(buf, st.l3l4Channel, OEM_SET_FILTER, ConfigFilter(dbg, mac));
        st := st.(l3l4Command := OEM_SET_FILTER, l3l4Waiting := true);
      } else {
        Fail();
      }
      len := 0;
    }

    /** Uses up one retry; once they are gone the counter restarts and the run has failed. */
    method RetryTest() returns (again: bool)
      modifies this`dbg
      ensures again == MayRetry(old(dbg))
      ensures dbg == old(dbg).(tries := if again then Wrap8(old(dbg).tries + 1) else 0)
    {
      if dbg.maxTries != 0 {
        var remaining := Wrap8(dbg.maxTries - 1 - dbg.tries);
        if remaining > 0 {
          dbg := dbg.(tries := Wrap8(dbg.tries + 1));
          return true;
        }
      }
      dbg := dbg.(tries := 0);
      return false;
    }

    /** Examines the response to a test command; `pass` says whether the test goes on. */
    method JudgeTest(cmd: Command) returns (resp: ResponseType, pass: bool)
      requires Valid()
      modifies this`st
      ensures Valid() && (resp, pass) == TestVerdict(old(st), dbg, mac, buf[..len], cmd)
      ensures st == Seen(old(st), dbg, buf[..len], cmd)
    {
      var rx := buf[..len];
      if cmd == Std(GET_PASSTHROUGH_STATISTICS) && dbg.mlxLegacy {
        resp := ValidateSized(rx, cmd, StdResponseSize(GET_PASSTHROUGH_STATISTICS) - 4);
      } else {
        resp := Validate(rx, cmd);
      }
      pass := resp == Ack;
      if !pass { return; }
      match cmd
      case Oem(sub) =>
        if sub == OEM_ECHO {
          pass := rx[42..106] == dbg.ping;
        } else if sub == OEM_GET_FILTER {
          st := StashFlags(st, dbg.chUnderTest, rx[57]);
          if st.l3l4 == L3L4_END && !IsHostless(st) && !FilterMatches(rx, dbg, mac) {
            resp, pass := UnexpectedParams, false;
          }
        }
      case Std(code) =>
        if code == GET_LINK_STATUS {
          pass := rx[37] % 2 == 1;
        }
    }

    method CheckTest(cmd: Command) returns (resp: ResponseType)
      requires Valid() && TestRoleOf(st.test) == Check(cmd)
      modifies this`st, this`dbg
      ensures Valid() && TestSpec(old(st), old(dbg), mac, buf[..len]) == Poll(st, dbg, mac, [], resp)
    {
      var pass;
      resp, pass := JudgeTest(cmd);
      if pass {
        st := st.(test := st.test + 1);
        return;
      }
      var again := RetryTest();
      if again {
        st := st.(test := TEST_BEGIN);
      } else {
        Fail();
      }
    }

    method SendTest(cmd: Command, ghost rx: seq<byte>) returns (txLen: nat)
      requires Valid() && TestRoleOf(st.test) == Ask(cmd)
      modifies this`st, buf
      ensures Valid() && 0 < txLen <= buf.Length
      ensures TestSpec(old(st), dbg, mac, rx) == Poll(st, dbg, mac, buf[..txLen], NoResponse)
    {
      match cmd
      case Oem(sub) =>
        txLen := Client.OemCmd(buf, TestChannel(cmd, dbg), sub, if sub == OEM_ECHO then dbg.ping else []);
        st := st.(test := st.test + 1);
      case Std(code) =>
        txLen := Client.CmdSimple(buf, TestChannel(cmd, dbg), code);
        st := st.(test := st.test + 1);
    }

    /** Starts a run of the health checks on the next channel, unless they are switched off. */
    method StartTest() returns (started: bool)
      requires Valid()
      modifies this`dbg
      ensures Valid() && started == (old(dbg).maxTries > 0)
      ensures dbg == if started then old(dbg).(runs := Wrap32(old(dbg).runs + 1),
                                               chUnderTest := NextChannelUnderTest(st, old(dbg))) else old(dbg)
    {
      if dbg.maxTries > 0 {
        dbg := dbg.(runs := Wrap32(dbg.runs + 1));
        if st.channelCount == 2 {
          dbg := dbg.(chUnderTest := if dbg.chUnderTest == 0 then 1 else 0);
        } else {
          dbg := dbg.(chUnderTest := 0);
        }
        return true;
      }
      return false;
    }

    method PollTest() returns (resp: ResponseType, txLen: nat)
      requires Valid()
      modifies this, buf
      ensures txLen == 0 ==> buf[..] == old(buf[..])
      ensures Polled(TestSpec(old(st), old(dbg), old(mac), old(buf[..len])), resp, txLen)
    {
      resp, txLen := SwitchTest();
      len := 0;
    }

    method SwitchTest() returns (resp: ResponseType, txLen: nat)
      requires Valid()
      modifies this`st, this`dbg, buf
      ensures Valid() && txLen <= buf.Length && (txLen == 0 ==> buf[..] == old(buf[..]))
      ensures TestSpec(old(st), old(dbg), mac, old(buf[..len])) == Poll(st, dbg, mac, buf[..txLen], resp)
    {
      ghost var rx := buf[..len];
      resp, txLen := NoResponse, 0;
      match st.test {
        case 0 =>
          var started := StartTest();
          st := st.(test := if started then st.test + 1 else TEST_END);
        case 1 => txLen := SendTest(Oem(OEM_ECHO), rx);
        case 2 => resp := CheckTest(Oem(OEM_ECHO));
        case 3 => txLen := SendTest(Oem(OEM_GET_FILTER), rx);
        case 4 => resp := CheckTest(Oem(OEM_GET_FILTER));
        case 5 => txLen := SendTest(Std(GET_PASSTHROUGH_STATISTICS), rx);
        case 6 => resp := CheckTest(Std(GET_PASSTHROUGH_STATISTICS));
        case 7 => txLen := SendTest(Std(GET_LINK_STATUS), rx);
        case 8 => resp := CheckTest(Std(GET_LINK_STATUS));
        case 9 => FinishTest(rx);
        case _ => Fail();
      }
    }

    /** A finished run: a restart that was asked for happens now, otherwise the next run is due
        after a delay. */
    method FinishTest(ghost rx: seq<byte>)
      requires Valid() && st.test == TEST_END
      modifies this`st, this`dbg
      ensures Valid() && TestSpec(old(st), old(dbg), mac, rx) == Poll(st, dbg, mac, [], NoResponse)
    {
      dbg := dbg.(tries := 0);
      if dbg.pendingRestart {
        Fail();
      }
      st := st.(retestDelay := Wrap8(st.retestDelay + 1));
      if st.retestDelay >= RETEST_DELAY_COUNT {
        st := st.(test := TEST_BEGIN, retestDelay := 0);
      }
    }

    /** The type field of whatever the buffer holds. */
    ghost function Field(): TypeField
      requires buf.Length == BUFFER_SIZE
      reads this, buf
    {
      buf[12..14]
    }

    /** Reads until an NC-SI frame or a timeout; the type is read from the buffer, however short the
        frame is. */
    method ReceiveNcsi()
      requires Valid()
      modifies this`len, buf, sock`inbound
      ensures Valid() && (buf[..len], sock.inbound, Field()) == Received(old(sock.inbound), old(Field()))
    {
      hide Received, Overwritten;
      var n := ReadFrame();
      while n > 0 && !(buf[12] == 0x88 && buf[13] == 0xF8)
        invariant 0 <= n <= BUFFER_SIZE && len <= BUFFER_SIZE
        invariant Received(old(sock.inbound), old(Field()))
               == if n == 0 || Field() == NCSI_TYPE then (buf[..n], sock.inbound, Field()) else Received(sock.inbound, Field())
        decreases |sock.inbound|, n
      {
        assert Field() == [buf[12], buf[13]];
        n := ReadFrame();
      }
      assert Field() == [buf[12], buf[13]];
      len := n;
    }

    /** One receive call into the buffer. */
    method ReadFrame() returns (n: nat)
      requires Valid()
      modifies buf, sock`inbound
      ensures n <= BUFFER_SIZE && |sock.inbound| <= |old(sock.inbound)| && (n > 0 ==> |sock.inbound| < |old(sock.inbound)|)
      ensures Received(old(sock.inbound), old(Field()))
           == if n == 0 || Field() == NCSI_TYPE then (buf[..n], sock.inbound, Field()) else Received(sock.inbound, Field())
    {
      ghost var was := buf[..];
      n := sock.Recv(buf);
      FieldIsOverwritten(was, buf[..], n);
    }

    /** The records, the type field, the outcomes to come and the frames written, as one value. */
    ghost function View(): Trace
      requires buf.Length == BUFFER_SIZE
      reads this, buf, sock
    {
      Trace(State(), Field(), sock.inbound, sock.outbound)
    }

    /** The scheduler, for a given number of rounds: it does exactly what `RunSpec` says to the
        records, and writes exactly those frames. */
    method Run(rounds: nat)
      requires Valid()
      modifies this, buf, sock
      ensures Valid() && View() == RunSpec(old(View()), rounds)
    {
      for done := 0 to rounds
        invariant Valid() && View() == RunSpec(old(View()), done)
      {
        Round();
      }
    }

    /** One pass through the scheduler's loop. */
    method Round()
      requires Valid()
      modifies this, buf, sock
      ensures Valid() && View() == Step(old(View()))
    {
      ReceiveNcsi();
      ghost var s, rx := State(), buf[..len];
      SentIsNcsi(s, rx);
      var resp, txLen := PollScheduled();
      if txLen > 0 {
        assert Field() == buf[..txLen][12..14];
        sock.Write(buf, txLen);
      } else {
        assert buf[..txLen] == [];
      }
    }

    /** Polls the machine whose turn it is. */
    method PollScheduled() returns (resp: ResponseType, txLen: nat)
      requires Valid()
      modifies this, buf
      ensures Follows(RoundSpec(old(State()), old(buf[..len])), resp, txLen)
      ensures txLen == 0 ==> Field() == old(Field())
    {
      resp, txLen := NoResponse, 0;
      match ConnectionState(st, dbg) {
        case Down => resp, txLen := PollL2Config();
        case LoopbackConnection => resp, txLen := PollL2Config();
        case Up =>
          if st.test != TEST_END || IsHostless(st) {
            resp, txLen := RunTestFsm();
          } else {
            resp, txLen := PollL3L4Config();
          }
        case UpAndConfigured => resp, txLen := RunTestFsm();
        case Disabled =>
          if dbg.pendingRestart {
            dbg := dbg.(enabled := true);
          }
      }
      assert txLen == 0 ==> Field() == buf[..][12..14];
    }

    /** Polls the test machine; a finished run restarts without its own delay. */
    method RunTestFsm() returns (resp: ResponseType, txLen: nat)
      requires Valid()
      modifies this, buf
      ensures txLen == 0 ==> buf[..] == old(buf[..])
      ensures Polled(TestSpec(if old(st).test == TEST_END then old(st).(retestDelay := RESTART_DELAY_COUNT) else old(st),
                              old(dbg), old(mac), old(buf[..len])), resp, txLen)
    {
      if st.test == TEST_END {
        st := st.(retestDelay := RESTART_DELAY_COUNT);
      }
      resp, txLen := PollTest();
    }
  }
}
