/** The DHCP client itself: the class of dhcp_recovery/client/dhcpclient.cpp, whose methods update its
    fields as the functions of DhcpProtocol say. The environment answers from a script. */
module DhcpClient {
  import opened Bytes
  import opened DhcpMessage
  import opened DhcpLease
  import opened DhcpProtocol

  /** `all` is what was done so far, then what a run of the remaining rounds from `c` does. */
  ghost predicate RunsOn(all: Outcome, did: seq<Event>, c: Client, rounds: seq<Round>, noGateway: bool) {
    var rest := DhcpProtocol.Run(c, rounds, noGateway);
    all == Outcome(rest.c, did + rest.log)
  }

  lemma {:induction false} RunStep(all: Outcome, did: seq<Event>, c: Client, rounds: seq<Round>, k: nat, noGateway: bool)
    requires k < |rounds| && RunsOn(all, did, c, rounds[k..], noGateway)
    ensures var first := Turn(c, rounds[k], noGateway);
            RunsOn(all, did + first.log, first.c, rounds[k + 1..], noGateway)
  {
    hide Turn;
    assert rounds[k..][1..] == rounds[k + 1..];
  }

  /** The same for the polls of one wait. */
  ghost predicate WaitsOn(all: Waited, did: seq<Event>, spent: int, c: Client, timeout: nat, polls: seq<Poll>, noGateway: bool) {
    var rest := Wait(c, timeout, polls, noGateway);
    all == Waited(rest.c, did + rest.log, spent + rest.spent)
  }

  lemma {:induction false} WaitBegins(c: Client, timeout: nat, polls: seq<Poll>, noGateway: bool)
    ensures WaitsOn(Wait(c, timeout, polls, noGateway), [], 0, c, timeout, polls[0..], noGateway)
  {
    assert polls[0..] == polls;
  }

  lemma {:induction false} WaitStep(all: Waited, did: seq<Event>, spent: int, c: Client, timeout: nat, polls: seq<Poll>,
                                    k: nat, h: Handled, noGateway: bool)
    requires k < |polls| && WaitsOn(all, did, spent, c, timeout, polls[k..], noGateway)
    requires h == Handle(c, polls[k], noGateway)
    ensures var took := polls[k].end - polls[k].start;
            if h.done || took >= timeout as int then all == Waited(h.c, did + h.log, spent + took)
            else WaitsOn(all, did + h.log, spent + took, h.c, (timeout as int - took) % 0x1_0000_0000, polls[k + 1..], noGateway)
  {
    hide Handle;
    assert polls[k..][1..] == polls[k + 1..];
  }

  lemma WaitEnds(all: Waited, did: seq<Event>, spent: int, c: Client, timeout: nat, polls: seq<Poll>,
                                    noGateway: bool)
    requires WaitsOn(all, did, spent, c, timeout, polls[|polls|..], noGateway)
    ensures all == Waited(c, did, spent + timeout)
  {
  }

  lemma {:induction false} RunBegins(c: Client, rounds: seq<Round>, noGateway: bool)
    ensures RunsOn(DhcpProtocol.Run(c, rounds, noGateway), [], c, rounds[0..], noGateway)
  {
    assert rounds[0..] == rounds;
  }

  lemma RunEnds(all: Outcome, did: seq<Event>, c: Client, rounds: seq<Round>, noGateway: bool)
    requires RunsOn(all, did, c, rounds[|rounds|..], noGateway)
    ensures all == Outcome(c, did)
  {
  }

  class DhcpClient {
    const macAddress: hardwareAddress
    const noGateway: bool
    const ids: TransactionIds
    const mT1: Timer
    const mT2: Timer
    var mState: State
    var mNextTimeout: uint32
    var mFuzzNextTimeout: bool
    var mLastMsg: Msg
    var mRequestAddress: address
    var mServerAddress: address
    var mDhcpInfo: Info
    /** All that has been observed of the client. */
    ghost var log: seq<Event>

    ghost predicate Valid() {
      mT1 != mT2
    }

    ghost function Abs(): Client
      reads this, ids, mT1, mT2
    {
      Client(mState, mNextTimeout, mFuzzNextTimeout, XidOf(mLastMsg), mT1.mExpires, mT2.mExpires,
             mRequestAddress, mServerAddress, mDhcpInfo, ids.next)
    }

    constructor (macAddress: hardwareAddress, noGateway: bool, ids: TransactionIds)
      ensures Valid() && fresh(mT1) && fresh(mT2) && this.ids == ids && this.noGateway == noGateway
      ensures Abs() == NewClient(ids.next) && log == []
    {
      this.macAddress, this.noGateway, this.ids := macAddress, noGateway, ids;
      mT1 := new Timer();
      mT2 := new Timer();
      mState := Init;
      mNextTimeout := INITIAL_TIMEOUT;
      mFuzzNextTimeout := true;
      mLastMsg := Record(seq(MEMORY, _ => 0), 0);
      mRequestAddress, mServerAddress := NO_ADDRESS, NO_ADDRESS;
      mDhcpInfo := ZERO_INFO;
      log := [];
      new;
      assert XidOf(mLastMsg) == [0, 0, 0, 0];
    }

    /** Any number of turns of the endless loop; what is observed of them is `events`. */
    method Run(rounds: seq<Round>) returns (ghost events: seq<Event>)
      requires Valid()
      modifies this, ids, mT1, mT2
      ensures DhcpProtocol.Run(old(Abs()), rounds, noGateway) == Outcome(Abs(), events) && log == old(log) + events
    {
      hide Turn;
      ghost var c := Abs();
      ghost var all := DhcpProtocol.Run(c, rounds, noGateway);
      events := [];
      RunBegins(c, rounds, noGateway);
      for k := 0 to |rounds|
        invariant c == Abs() && log == old(log) + events
        invariant RunsOn(all, events, c, rounds[k..], noGateway)
      {
        RunStep(all, events, c, rounds, k, noGateway);
        ghost var turn := TakeTurn(rounds[k]);
        events := events + turn;
        c := Abs();
      }
      RunEnds(all, events, c, rounds, noGateway);
    }

    /** One turn of the loop. */
    method TakeTurn(round: Round) returns (ghost events: seq<Event>)
      requires Valid()
      modifies this, ids, mT1, mT2
      ensures Turn(old(Abs()), round, noGateway) == Outcome(Abs(), events) && log == old(log) + events
    {
      hide Handle;
      ghost var acts := TakeAction(round);
      ghost var waits := WaitAndReceive(round);
      events := acts + waits;
    }

    /** The switch at the head of the loop. */
    method TakeAction(round: Round) returns (ghost events: seq<Event>)
      requires Valid()
      modifies this, ids
      ensures Act(old(Abs()), round) == Outcome(Abs(), events) && log == old(log) + events
    {
      hide IncreasedTimeout, Be32;
      events := Act(Abs(), round).log;
      match mState
      case Init =>
        SetNextState(Selecting, round.checkedAt);
      case Selecting =>
        SendDhcpDiscover();
        IncreaseTimeout();
      case Requesting =>
        if mNextTimeout >= MAX_TIMEOUT {
          SetNextState(Init, round.checkedAt);
        } else {
          SendDhcpRequest(mServerAddress);
          IncreaseTimeout();
        }
      case Bound =>
        if mT1.Expired(round.checkedAt) {
          SetNextState(Renewing, round.checkedAt);
        } else {
          mNextTimeout := mT1.RemainingMillis(round.readAt) % 0x1_0000_0000;
          mFuzzNextTimeout := false;
        }
      case Renewing =>
        if mT2.Expired(round.checkedAt) {
          SetNextState(Rebinding, round.checkedAt);
        } else {
          SendDhcpRequest(mServerAddress);
          IncreaseTimeout();
        }
      case Rebinding =>
        if mNextTimeout >= MAX_TIMEOUT {
          SetNextState(Init, round.checkedAt);
        } else {
          SendDhcpRequest(BROADCAST);
          IncreaseTimeout();
        }
    }

    /** Wait for an answer, if there is a timeout. */
    method WaitAndReceive(round: Round) returns (ghost events: seq<Event>)
      requires Valid()
      modifies this, mT1, mT2
      ensures Pause(old(Abs()), round, noGateway) == Outcome(Abs(), events) && log == old(log) + events
    {
      hide Handle;
      if mNextTimeout == NO_TIMEOUT {
        return [];
      }
      var timeout := CalculateTimeoutMillis(round.adjustment);
      log := log + [Polled(timeout, round.readAt)];
      ghost var handled, spent := PollSocket(timeout, round.polls);
      events := [Polled(timeout, round.readAt)] + handled;
    }

    /** The polling loop of waitAndReceive; `spent` is the time that the polls took. */
    method PollSocket(initialTimeout: nat, polls: seq<Poll>) returns (ghost events: seq<Event>, ghost spent: int)
      requires Valid()
      modifies this, mT1, mT2
      ensures Wait(old(Abs()), initialTimeout, polls, noGateway) == Waited(Abs(), events, spent)
      ensures log == old(log) + events
    {
      hide Handle;
      var timeout: nat, k: nat := initialTimeout, 0;
      ghost var c := Abs();
      ghost var all := Wait(c, timeout, polls, noGateway);
      events, spent := [], 0;
      WaitBegins(c, timeout, polls, noGateway);
      while true
        invariant k <= |polls| && c == Abs() && log == old(log) + events
        invariant WaitsOn(all, events, spent, c, timeout, polls[k..], noGateway)
        decreases |polls| - k
      {
        if k == |polls| {
          WaitEnds(all, events, spent, c, timeout, polls, noGateway);
          return events, spent + timeout;
        }
        var poll := polls[k];
        var startedAt: int := poll.start;
        var done, handled := HandlePoll(poll);
        WaitStep(all, events, spent, c, timeout, polls, k, Handled(done, Abs(), handled), noGateway);
        events := events + handled;
        c := Abs();
        var currentTime: int := poll.end;
        spent := spent + (currentTime - startedAt);
        var end: int := startedAt + timeout;
        if done || currentTime >= end {
          return;
        }
        timeout := (end - currentTime) % 0x1_0000_0000;
        k := k + 1;
      }
    }

    /** What the client does with one readiness of the socket. */
    method HandlePoll(poll: Poll) returns (done: bool, ghost events: seq<Event>)
      requires Valid()
      modifies this, mT1, mT2
      ensures Handle(old(Abs()), poll, noGateway) == Handled(done, Abs(), events) && log == old(log) + events
    {
      if !poll.Received? {
        return false, [];
      }
      var msg := new Message.Received(poll.msg);
      var valid := ReceiveDhcpMessage(msg, poll.headersOk);
      if !valid {
        return false, [];
      }
      assert Relevant(Abs(), poll);
      var msgType := msg.Type();
      if mState == Selecting {
        if msgType == DHCPOFFER {
          events := AcceptOffer(msg, poll.start);
          return true, events;
        }
      } else if AwaitsAck(mState) {
        if msgType == DHCPACK {
          done, events := AcceptAck(msg, poll);
          return;
        } else if msgType == DHCPNAK {
          events := [TookNak(XidOf(mLastMsg)), Halted, Moved(Init, poll.start)];
          log := log + [TookNak(XidOf(mLastMsg))];
          HaltNetwork();
          SetNextState(Init, poll.start);
          return true, events;
        }
      }
      return false, [];
    }

    method AcceptOffer(msg: Message, ghost at: clock) returns (ghost events: seq<Event>)
      requires Valid() && msg.Valid()
      modifies this
      ensures TakeOffer(old(Abs()), AddressOption(msg.Value(), OPT_SERVER_ID), YiaddrOf(msg.Value()), at)
           == Handled(true, Abs(), events)
      ensures log == old(log) + events
    {
      mServerAddress := msg.ServerId();
      mRequestAddress := YiaddrOf(msg.Value());
      events := [TookOffer(XidOf(mLastMsg), mRequestAddress, mServerAddress), Moved(Requesting, at)];
      log := log + [TookOffer(XidOf(mLastMsg), mRequestAddress, mServerAddress)];
      SetNextState(Requesting, at);
    }

    method AcceptAck(msg: Message, poll: Poll) returns (done: bool, ghost events: seq<Event>)
      requires Valid() && msg.Valid() && poll.Received?
      modifies this, mT1, mT2
      ensures TakeAck(old(Abs()), Configure(old(Abs()), msg.Value(), poll.t1SetAt, poll.t2SetAt, poll.links, noGateway), poll.start)
           == Handled(done, Abs(), events)
      ensures log == old(log) + events
    {
      var configured, timers := ConfigureDhcp(msg, poll.t1SetAt, poll.t2SetAt, poll.links);
      if configured {
        events := timers + [TookAck(XidOf(mLastMsg)), Moved(Bound, poll.start)];
        log := log + [TookAck(XidOf(mLastMsg))];
        SetNextState(Bound, poll.start);
        return true, events;
      }
      return false, timers;
    }

    method ReceiveDhcpMessage(msg: Message, headersOk: bool) returns (ok: bool)
      requires msg.Valid()
      ensures ok == (headersOk && IsValid(msg.Value(), OP_BOOTREPLY) && XidOf(msg.Value()) == XidOf(mLastMsg))
    {
      if !headersOk {
        return false;
      }
      ok := msg.IsValidDhcpMessage(OP_BOOTREPLY);
      return ok && XidOf(msg.Value()) == XidOf(mLastMsg);
    }

    /** Walk the options of an ACK, set the timers and configure the interface. */
    method ConfigureDhcp(msg: Message, t1SetAt: clock, t2SetAt: clock, links: Links) 
      returns (ok: bool, ghost events: seq<Event>)
      requires Valid() && msg.Valid()
      modifies this`mDhcpInfo, this`log, mT1, mT2
      ensures Configure(old(Abs()), msg.Value(), t1SetAt, t2SetAt, links, noGateway) == Configured(ok, Abs(), events)
      ensures log == old(log) + events
    {
      var optsSize := if msg.mSize <= OPTIONS then 0 else msg.mSize - OPTIONS;
      if optsSize < 4 {
        return false, [];
      }
      ok := WalkOptions(msg);
      if !ok {
        return false, [];
      }
      mDhcpInfo := mDhcpInfo.(offeredAddress := YiaddrOf(msg.Value()));
      if mDhcpInfo.leaseTime == 0 {
        return false, [];
      }
      mT1.ExpireSeconds(t1SetAt, T1Seconds(mDhcpInfo));
      mT2.ExpireSeconds(t2SetAt, T2Seconds(mDhcpInfo));
      events := [TimersSet(mT1.mExpires, mT2.mExpires)];
      InOnePiece(events, mDhcpInfo, links, noGateway);
      events := events + [BroughtUp(links.bringUp)];
      if !links.bringUp {
        log := old(log) + events;
        return false, events;
      }
      if mDhcpInfo.mtu != 0 {
        events := events + [MtuSet(mDhcpInfo.mtu)];
      }
      events := events + [AddressSet(mDhcpInfo.offeredAddress, mDhcpInfo.subnetMask, links.setAddress)];
      if !links.setAddress {
        log := old(log) + events;
        return false, events;
      }
      if !noGateway {
        events := events + [GatewaySet(mDhcpInfo.gateway, links.setGateway)];
        if !links.setGateway {
          log := old(log) + events;
          return false, events;
        }
      }
      log := old(log) + events;
      return true, events;
    }

    /** The option-walking loop of configureDhcp. */
    method WalkOptions(msg: Message) returns (ok: bool)
      requires msg.Valid() && msg.mSize >= OPTIONS
      modifies this`mDhcpInfo
      ensures Walked(ok, mDhcpInfo) == Walk(msg.Value(), 4, ZERO_INFO)
    {
      var optsSize := msg.mSize - OPTIONS;
      mDhcpInfo := ZERO_INFO;
      var i: nat := 4;
      while i + 1 < optsSize
        invariant HasDns(mDhcpInfo) && Walk(msg.Value(), i, mDhcpInfo) == Walk(msg.Value(), 4, ZERO_INFO)
        decreases optsSize - i
      {
        var optCode, optLength := msg.dhcpData[OPTIONS + i], msg.dhcpData[OPTIONS + i + 1];
        if optCode == OPT_END {
          return true;
        }
        if i + optLength >= optsSize {
          return false;
        }
        StoreOption(optCode, OptionBytes(msg.Value(), i + 2, optLength));
        i := i + 2 + optLength;
      }
      return true;
    }

    /** The switch over the option codes. */
    method StoreOption(optCode: byte, opt: bytes)
      requires HasDns(mDhcpInfo)
      modifies this`mDhcpInfo
      ensures mDhcpInfo == Take(old(mDhcpInfo), optCode, opt)
    {
      var optLength := |opt|;
      if optCode == OPT_LEASE_TIME {
        if optLength == 4 {
          mDhcpInfo := mDhcpInfo.(leaseTime := FromBe32(opt));
        }
      } else if optCode == OPT_T1 {
        if optLength == 4 {
          mDhcpInfo := mDhcpInfo.(t1 := FromBe32(opt));
        }
      } else if optCode == OPT_T2 {
        if optLength == 4 {
          mDhcpInfo := mDhcpInfo.(t2 := FromBe32(opt));
        }
      } else if optCode == OPT_SUBNET_MASK {
        if optLength == 4 {
          mDhcpInfo := mDhcpInfo.(subnetMask := opt);
        }
      } else if optCode == OPT_GATEWAY {
        if optLength >= 4 {
          mDhcpInfo := mDhcpInfo.(gateway := opt[0..4]);
        }
      } else if optCode == OPT_MTU {
        if optLength == 2 {
          mDhcpInfo := mDhcpInfo.(mtu := FromBe16(opt));
        }
      } else if optCode == OPT_DNS {
        if optLength >= 4 {
          mDhcpInfo := mDhcpInfo.(dns := mDhcpInfo.dns[0 := opt[0..4]]);
        }
        if optLength >= 8 {
          mDhcpInfo := mDhcpInfo.(dns := mDhcpInfo.dns[1 := opt[4..8]]);
        }
        if optLength >= 12 {
          mDhcpInfo := mDhcpInfo.(dns := mDhcpInfo.dns[2 := opt[8..12]]);
        }
        if optLength >= 16 {
          mDhcpInfo := mDhcpInfo.(dns := mDhcpInfo.dns[3 := opt[12..16]]);
        }
        assert mDhcpInfo.dns == Take(old(mDhcpInfo), optCode, opt).dns;
      } else if optCode == OPT_SERVER_ID {
        if optLength == 4 {
          mDhcpInfo := mDhcpInfo.(serverId := opt);
        }
      }
    }

    method HaltNetwork()
      modifies this`log
      ensures log == old(log) + [Halted]
    {
      log := log + [Halted];
    }

    method CalculateTimeoutMillis(adjustment: int) returns (timeout: uint32)
      ensures timeout == ChosenTimeout(Abs(), adjustment)
    {
      if !mFuzzNextTimeout {
        return mNextTimeout;
      }
      if adjustment < 0 && -adjustment > mNextTimeout as int {
        return 0;
      }
      return (mNextTimeout as int + adjustment) % 0x1_0000_0000;
    }

    method IncreaseTimeout()
      modifies this`mNextTimeout
      ensures mNextTimeout == IncreasedTimeout(old(mNextTimeout))
    {
      if mNextTimeout == NO_TIMEOUT {
        mNextTimeout := INITIAL_TIMEOUT;
      } else {
        if mNextTimeout < MAX_TIMEOUT {
          mNextTimeout := mNextTimeout * 2;
        }
        if mNextTimeout > MAX_TIMEOUT {
          mNextTimeout := MAX_TIMEOUT;
        }
      }
    }

    method SetNextState(state: State, ghost at: clock)
      modifies this`mState, this`mNextTimeout, this`mFuzzNextTimeout, this`log
      ensures Abs() == DhcpProtocol.SetNextState(old(Abs()), state) && log == old(log) + [Moved(state, at)]
    {
      mState := state;
      mNextTimeout := NO_TIMEOUT;
      mFuzzNextTimeout := true;
      log := log + [Moved(state, at)];
    }

    /** What is sent is a request for the address last offered, under a fresh transaction id. */
    method SendDhcpRequest(destination: address)
      modifies this`mLastMsg, this`log, ids
      ensures ids.next == (old(ids.next) + 1) % 0x1_0000_0000
      ensures Built(mLastMsg, RequestHeader(old(ids.next), macAddress), RequestOptions(mRequestAddress, destination))
      ensures XidOf(mLastMsg) == Be32(old(ids.next))
      ensures log == old(log) + [SentRequest(XidOf(mLastMsg), mRequestAddress, destination)]
    {
      var message := Message.Request(ids, macAddress, mRequestAddress, destination);
      mLastMsg := message.Value();
      BuiltIsWellFormed(mLastMsg, RequestHeader(old(ids.next), macAddress), RequestOptions(mRequestAddress, destination));
      log := log + [SentRequest(XidOf(mLastMsg), mRequestAddress, destination)];
    }

    method SendDhcpDiscover()
      modifies this`mLastMsg, this`log, ids
      ensures ids.next == (old(ids.next) + 1) % 0x1_0000_0000
      ensures Built(mLastMsg, RequestHeader(old(ids.next), macAddress), DiscoverOptions())
      ensures XidOf(mLastMsg) == Be32(old(ids.next)) && log == old(log) + [SentDiscover(XidOf(mLastMsg))]
    {
      var message := Message.Discover(ids, macAddress);
      mLastMsg := message.Value();
      BuiltIsWellFormed(mLastMsg, RequestHeader(old(ids.next), macAddress), DiscoverOptions());
      log := log + [SentDiscover(XidOf(mLastMsg))];
    }
  }

  /** A client from its construction on: whatever the environment does, what is observed obeys the
      rules of the protocol. */
  method RunNewClient(macAddress: hardwareAddress, noGateway: bool, ids: TransactionIds, rounds: seq<Round>)
    returns (client: DhcpClient)
    requires forall r | r in rounds :: Fair(r) && Monotone(r)
    modifies ids
    ensures fresh(client) && client.log == DhcpProtocol.Run(NewClient(old(ids.next)), rounds, noGateway).log
    ensures Obeys(START, client.log)
  {
    client := new DhcpClient(macAddress, noGateway, ids);
    ghost var events := client.Run(rounds);
    RunsObey(old(ids.next), rounds, noGateway);
  }
}
