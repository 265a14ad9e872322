/** What the DHCP client does with an answer: exactly which messages end a wait, where each leads, and that Bound
    is entered only with the interface configured. Codes and places are those of RFC 2131 and RFC 2132. */
module DhcpAnswers {
  import opened Bytes
  import opened DhcpMessage
  import opened DhcpLease
  import opened DhcpProtocol

  /** A BOOTREPLY for an Ethernet address, with the magic cookie, under the transaction id `xid`. */
  predicate ReplyTo(m: Msg, xid: bytes) {
    && m.size >= 240 && m.mem[0] == 2 && m.mem[1] == 1 && m.mem[2] == 6
    && m.mem[236] == 99 && m.mem[237] == 130 && m.mem[238] == 83 && m.mem[239] == 99
    && m.mem[4..8] == xid
  }

  /** The poll brings such a message for the transaction of the client's last message. */
  predicate Brought(c: Client, poll: Poll) {
    poll.Received? && poll.headersOk && ReplyTo(poll.msg, c.lastXid)
  }

  /** The client has a request out. */
  predicate HasAsked(c: Client) {
    c.state in {Requesting, Renewing, Rebinding}
  }

  /** The lease is acceptable and the interface takes it. */
  predicate TakesLease(poll: Poll, noGateway: bool)
    requires poll.Received?
  {
    var walked := Walk(poll.msg, 4, ZERO_INFO);
    && walked.ok && walked.info.leaseTime != 0
    && poll.links.bringUp && poll.links.setAddress && (noGateway || poll.links.setGateway)
  }

  lemma {:induction false} RelevantIff(c: Client, poll: Poll)
    ensures Relevant(c, poll) <==> Brought(c, poll)
  {
    if poll.Received? && poll.msg.size >= 240 {
      var b := OptionBytes(poll.msg, 0, 4);
      assert b[0] == poll.msg.mem[236] && b[1] == poll.msg.mem[237] && b[2] == poll.msg.mem[238] && b[3] == poll.msg.mem[239];
    }
  }

  /** A poll ends the wait exactly if it brings an offer to a client that looks for one, or to a client with a request
      out a nak, or an ack whose lease it can take. */
  lemma {:induction false} EndsWaitIff(c: Client, poll: Poll, noGateway: bool)
    ensures Handle(c, poll, noGateway).done
       <==> && Brought(c, poll)
            && ((c.state == Selecting && TypeOf(poll.msg) == 2)
                || (HasAsked(c) && TypeOf(poll.msg) == 6)
                || (HasAsked(c) && TypeOf(poll.msg) == 5 && TakesLease(poll, noGateway)))
  {
    RelevantIff(c, poll);
    assert Brought(c, poll) ==> OptionsSize(poll.msg) >= 4;
    hide Relevant, ReplyTo, TypeOf, Walk, AddressOption, Calls;
  }

  /** An offer is followed by a request to its server for its address. */
  lemma {:induction false} OfferActedOn(c: Client, poll: Poll, noGateway: bool)
    requires Brought(c, poll) && c.state == Selecting && TypeOf(poll.msg) == 2
    ensures
      var h, server, offered := Handle(c, poll, noGateway), AddressOption(poll.msg, 54), poll.msg.mem[16..20];
      && h.c == c.(state := Requesting, nextTimeout := 0, fuzz := true, requestAddress := offered, serverAddress := server)
      && h.log == [TookOffer(c.lastXid, offered, server), Moved(Requesting, poll.start)]
  {
    RelevantIff(c, poll);
    hide Relevant, ReplyTo, TypeOf, AddressOption;
  }

  /** A nak halts the network and starts over. */
  lemma {:induction false} NakActedOn(c: Client, poll: Poll, noGateway: bool)
    requires Brought(c, poll) && HasAsked(c) && TypeOf(poll.msg) == 6
    ensures
      var h := Handle(c, poll, noGateway);
      && h.done && h.c == c.(state := Init, nextTimeout := 0, fuzz := true)
      && h.log == [TookNak(c.lastXid), Halted, Moved(Init, poll.start)]
  {
    RelevantIff(c, poll);
    hide Relevant, ReplyTo, TypeOf;
  }

  /** What arrives otherwise changes neither state nor timeout, and changes the lease only if it is an ack to a client
      with a request out. */
  lemma {:induction false} OthersGoBy(c: Client, poll: Poll, noGateway: bool)
    requires !Handle(c, poll, noGateway).done
    ensures
      var h := Handle(c, poll, noGateway);
      && h.c == c.(info := h.c.info, t1 := h.c.t1, t2 := h.c.t2)
      && (!(Brought(c, poll) && HasAsked(c) && TypeOf(poll.msg) == 5) ==> h == Handled(false, c, []))
  {
    RelevantIff(c, poll);
    HandleIdle(c, poll, noGateway);
    hide Relevant, ReplyTo, TypeOf, Configure, AddressOption;
  }

  // ----- A nak from the server of the same repository

  lemma {:induction false} NackIsUnderstood(m: Msg, source: Msg, server: address)
    requires Built(m, LeaseHeader(source, [0, 0, 0, 0]), NackOptions(server))
    ensures IsValid(m, OP_BOOTREPLY) && XidOf(m) == XidOf(source) && TypeOf(m) == 6 && AddressOption(m, 54) == server
  {
    var opts := NackOptions(server);
    BuiltIsWellFormed(m, LeaseHeader(source, [0, 0, 0, 0]), opts);
    ReadersOfBuilt(m, LeaseHeader(source, [0, 0, 0, 0]), opts);
    FirstAt(opts, 0);
    FirstAt(opts, 1);
  }

  /** The turn sends a request: in Requesting and Rebinding the visit is not over, in Renewing T2 has not expired. */
  predicate Asks(c: Client, round: Round) {
    || ((c.state == Requesting || c.state == Rebinding) && c.nextTimeout < 64000)
    || (c.state == Renewing && round.checkedAt < c.t2)
  }

  /** Such a turn sends, polls, and does what the first poll brings if that ends the wait. */
  lemma {:induction false} AskingTurn(c: Client, round: Round, noGateway: bool)
    requires Asks(c, round) && round.polls != []
    ensures
      var server := if c.state == Rebinding then [255, 255, 255, 255] else c.serverAddress;
      var c1 := SendRequest(c, server).c;
      var h := Handle(c1, round.polls[0], noGateway);
      h.done ==> Turn(c, round, noGateway)
                 == Outcome(h.c, [SentRequest(Be32(c.nextId), c.requestAddress, server),
                                  Polled(ChosenTimeout(c1, round.adjustment), round.readAt)] + h.log)
  {
    hide Handle, ChosenTimeout;
    IncreasedIsSome(c.nextTimeout);
    var server := if c.state == Rebinding then [255, 255, 255, 255] else c.serverAddress;
    assert Act(c, round) == SendRequest(c, server);
    var c1 := SendRequest(c, server).c;
    var h := Handle(c1, round.polls[0], noGateway);
    if h.done {
      var p := Pause(c1, round, noGateway);
      assert p == Outcome(h.c, [Polled(ChosenTimeout(c1, round.adjustment), round.readAt)] + h.log);
      TwoAndRest(SendRequest(c, server).log[0], Polled(ChosenTimeout(c1, round.adjustment), round.readAt), h.log);
    }
  }

  lemma TwoAndRest(e: Event, f: Event, log: seq<Event>)
    ensures [e] + ([f] + log) == [e, f] + log
  {
  }

  /** A request that the server refuses: the turn ends in Init, with the network halted. */
  lemma {:induction false} NakTurn(c: Client, round: Round, source: Msg, server: address, noGateway: bool)
    requires Asks(c, round) && round.polls != [] && round.polls[0].Received? && round.polls[0].headersOk
    requires XidOf(source) == Be32(c.nextId)
    requires Built(round.polls[0].msg, LeaseHeader(source, [0, 0, 0, 0]), NackOptions(server))
    ensures
      var t := Turn(c, round, noGateway);
      && t.c.state == Init && |t.log| == 5 && t.log[0].SentRequest? && t.log[1].Polled?
      && t.log[2..] == [TookNak(Be32(c.nextId)), Halted, Moved(Init, round.polls[0].start)]
  {
    var to := if c.state == Rebinding then [255, 255, 255, 255] else c.serverAddress;
    var c1, poll := SendRequest(c, to).c, round.polls[0];
    NackIsUnderstood(poll.msg, source, server);
    hide Built, IsValid, TypeOf, Turn, AddressOption, Brought, ChosenTimeout, IncreasedTimeout, Handle;
    assert Relevant(c1, poll);
    RelevantIff(c1, poll);
    NakActedOn(c1, poll, noGateway);
    AskingTurn(c, round, noGateway);
  }

  // ----- An ack

  /** The number in the last option of four bytes with the code, or 0. */
  function NumberIn(opts: seq<Opt>, code: byte): uint32 {
    match Last(opts, code, 4, 4)
    case Some(d) => d[0] as int * 0x100_0000 + d[1] as int * 0x1_0000 + d[2] as int * 0x100 + d[3] as int
    case None => 0
  }

  /** The first four bytes of the last option with the code and a length in the bounds, or 0.0.0.0. */
  function AddressIn(opts: seq<Opt>, code: byte, high: nat): address {
    match Last(opts, code, 4, high)
    case Some(d) => d[..4]
    case None => [0, 0, 0, 0]
  }

  lemma {:induction false} NumberIs(d: bytes)
    requires |d| == 4
    ensures FromBe32(d) == d[0] as int * 0x100_0000 + d[1] as int * 0x1_0000 + d[2] as int * 0x100 + d[3] as int
  {
    assert d[..2][0] == d[0] && d[..2][1] == d[1] && d[2..][0] == d[2] && d[2..][1] == d[3];
  }

  lemma {:induction false} NumberAgain(opts: seq<Opt>, code: byte)
    ensures NumberIn(opts, code) == Number(Last(opts, code, 4, 4), 0)
  {
    if Last(opts, code, 4, 4).Some? {
      NumberIs(Last(opts, code, 4, 4).value);
    }
    hide Last, FromBe32;
  }

  /** The lease in a well-formed message, by the codes of RFC 2132: 51 and 58, 59 the times, 1 the mask, 3 the router,
      54 the server, 26 the MTU, 6 the name servers. */
  lemma {:induction false} LeaseByCode(m: Msg, opts: seq<Opt>)
    requires Laid(m, 4, opts)
    ensures Walk(m, 4, ZERO_INFO).ok
    ensures
      var info := Walk(m, 4, ZERO_INFO).info;
      && info.leaseTime == NumberIn(opts, 51) && info.t1 == NumberIn(opts, 58) && info.t2 == NumberIn(opts, 59)
      && info.subnetMask == AddressIn(opts, 1, 4) && info.gateway == AddressIn(opts, 3, 255)
      && info.serverId == AddressIn(opts, 54, 4)
      && (info.mtu == match Last(opts, 26, 2, 2) case Some(d) => d[0] as int * 0x100 + d[1] as int case None => 0)
      && forall j | 0 <= j < 4 ::
           info.dns[j] == match Last(opts, 6, 4 * j + 4, 255) case Some(d) => d[4 * j..4 * j + 4] case None => [0, 0, 0, 0]
  {
    WalkCollects(m, 4, opts, ZERO_INFO);
    LaidEncodable(m, 4, opts);
    LastOptionWins(opts, ZERO_INFO);
    NumberAgain(opts, 51);
    NumberAgain(opts, 58);
    NumberAgain(opts, 59);
    hide Walk, Collected, Laid, Last, NumberIn, Number;
    WholeAddress(Last(opts, 1, 4, 4));
    WholeAddress(Last(opts, 54, 4, 4));
    FrontAddress(Last(opts, 3, 4, 255));
  }

  lemma WholeAddress(o: Option<bytes>)
    requires o.Some? ==> |o.value| == 4
    ensures o.Some? ==> o.value[..4] == o.value
  {
  }

  lemma FrontAddress(o: Option<bytes>)
    requires o.Some? ==> |o.value| >= 4
    ensures o.Some? ==> o.value[0..4] == o.value[..4]
  {
  }

  /** The calls that configure the interface for the address `local` under the options `opts`: up, the MTU if one is
      named, address and mask, and the default gateway unless the client leaves that alone. */
  function CallsFor(local: address, opts: seq<Opt>, mtu: uint16, links: Links, noGateway: bool): seq<Event> {
    if !links.bringUp then [BroughtUp(false)]
    else
      [BroughtUp(true)] + (if mtu == 0 then [] else [MtuSet(mtu)]) + [AddressSet(local, AddressIn(opts, 1, 4), links.setAddress)]
      + (if !links.setAddress || noGateway then [] else [GatewaySet(AddressIn(opts, 3, 255), links.setGateway)])
  }

  /** A well-formed ack to a client with a request out binds it exactly if it grants some time and the interface takes
      the lease. The timers are in milliseconds: the server's, or half and seven eighths of the lease. */
  lemma {:induction false} AckActedOn(c: Client, poll: Poll, opts: seq<Opt>, noGateway: bool)
    requires Brought(c, poll) && HasAsked(c) && TypeOf(poll.msg) == 5 && Laid(poll.msg, 4, opts)
    ensures
      var h, lease, links := Handle(c, poll, noGateway), NumberIn(opts, 51), poll.links;
      h.done <==> lease != 0 && links.bringUp && links.setAddress && (noGateway || links.setGateway)
    ensures Handle(c, poll, noGateway).c.info == Walk(poll.msg, 4, ZERO_INFO).info.(offeredAddress := poll.msg.mem[16..20])
    ensures
      var h, lease := Handle(c, poll, noGateway), NumberIn(opts, 51);
      if lease == 0 then h.log == [] && h.c == c.(info := h.c.info)
      else
        var t1 := poll.t1SetAt as int + 1000 * (if NumberIn(opts, 58) == 0 then lease / 2 else NumberIn(opts, 58)) as int;
        var t2 := poll.t2SetAt as int
                  + 1000 * (if NumberIn(opts, 59) == 0 then 7 * lease as int % 0x1_0000_0000 / 8 else NumberIn(opts, 59) as int);
        && h.c.t1 == t1 && h.c.t2 == t2
        && (h.done ==> h.c.state == Bound && h.c.nextTimeout == 0 && h.c.fuzz)
        && h.log == [TimersSet(t1, t2)] + CallsFor(poll.msg.mem[16..20], opts, h.c.info.mtu, poll.links, noGateway)
                    + if h.done then [TookAck(c.lastXid), Moved(Bound, poll.start)] else []
  {
    LeaseByCode(poll.msg, opts);
    AckHandled(c, poll, noGateway);
    var info := Walk(poll.msg, 4, ZERO_INFO).info.(offeredAddress := YiaddrOf(poll.msg));
    TimersByCode(info, opts, poll.t1SetAt, poll.t2SetAt);
    hide Handle, Brought, TypeOf, Walk, Laid, NumberIn, AddressIn, T1Seconds, T2Seconds, Expiry;
    SameCalls(info, opts, poll.links, noGateway);
    hide Calls, CallsFor;
  }

  lemma {:induction false} AckHandled(c: Client, poll: Poll, noGateway: bool)
    requires Brought(c, poll) && HasAsked(c) && TypeOf(poll.msg) == 5
    ensures
      var walked := Walk(poll.msg, 4, ZERO_INFO);
      var info := walked.info.(offeredAddress := YiaddrOf(poll.msg));
      var t1, t2 := Expiry(poll.t1SetAt, T1Seconds(info)), Expiry(poll.t2SetAt, T2Seconds(info));
      var log := [TimersSet(t1, t2)] + Calls(info, poll.links, noGateway);
      Handle(c, poll, noGateway)
      == if !walked.ok then Handled(false, c.(info := walked.info), [])
         else if info.leaseTime == 0 then Handled(false, c.(info := info), [])
         else if !Succeeds(poll.links, noGateway) then Handled(false, c.(info := info, t1 := t1, t2 := t2), log)
         else Handled(true, SetNextState(c.(info := info, t1 := t1, t2 := t2), Bound),
                      log + [TookAck(c.lastXid), Moved(Bound, poll.start)])
  {
    RelevantIff(c, poll);
    assert OptionsSize(poll.msg) >= 4;
    hide Relevant, Brought, ReplyTo, TypeOf, Walk, Calls, T1Seconds, T2Seconds, Expiry, Succeeds;
  }

  lemma SameCalls(info: Info, opts: seq<Opt>, links: Links, noGateway: bool)
    requires info.subnetMask == AddressIn(opts, 1, 4) && info.gateway == AddressIn(opts, 3, 255)
    ensures Calls(info, links, noGateway) == CallsFor(info.offeredAddress, opts, info.mtu, links, noGateway)
  {
    hide AddressIn;
  }

  lemma TimersByCode(info: Info, opts: seq<Opt>, t1SetAt: clock, t2SetAt: clock)
    requires info.leaseTime == NumberIn(opts, 51) && info.t1 == NumberIn(opts, 58) && info.t2 == NumberIn(opts, 59)
    ensures
      var lease := NumberIn(opts, 51);
      && Expiry(t1SetAt, T1Seconds(info))
         == t1SetAt as int + 1000 * (if NumberIn(opts, 58) == 0 then lease / 2 else NumberIn(opts, 58)) as int
      && Expiry(t2SetAt, T2Seconds(info))
         == t2SetAt as int + 1000 * (if NumberIn(opts, 59) == 0 then 7 * lease as int % 0x1_0000_0000 / 8 else NumberIn(opts, 59) as int)
  {
    hide NumberIn;
  }

  /** Any ack to a client with a request out, well-formed or not, leaves in the lease what its options were read to be, up
      to the first that is overlong; the timers are set only by an ack whose options are all read and that grants some
      time. */
  lemma {:induction false} AckReads(c: Client, poll: Poll, noGateway: bool)
    requires Brought(c, poll) && HasAsked(c) && TypeOf(poll.msg) == 5
    ensures
      var h, walked := Handle(c, poll, noGateway), Walk(poll.msg, 4, ZERO_INFO);
      && h.c.info == (if walked.ok then walked.info.(offeredAddress := poll.msg.mem[16..20]) else walked.info)
      && (!walked.ok || walked.info.leaseTime == 0 ==> h == Handled(false, c.(info := h.c.info), []))
  {
    AckHandled(c, poll, noGateway);
    hide Handle, Brought, TypeOf, Walk, Calls, T1Seconds, T2Seconds;
  }

  /** A request that is granted: whether it is the first, renews or rebinds, the turn ends in Bound. */
  lemma {:induction false} AckTurnBinds(c: Client, round: Round, opts: seq<Opt>, noGateway: bool)
    requires Asks(c, round) && round.polls != [] && round.polls[0].Received? && round.polls[0].headersOk
    requires ReplyTo(round.polls[0].msg, Be32(c.nextId)) && TypeOf(round.polls[0].msg) == 5 && Laid(round.polls[0].msg, 4, opts)
    requires NumberIn(opts, 51) != 0
    requires var links := round.polls[0].links; links.bringUp && links.setAddress && (noGateway || links.setGateway)
    ensures
      var t := Turn(c, round, noGateway);
      && t.c.state == Bound && t.c.info == Walk(round.polls[0].msg, 4, ZERO_INFO).info.(offeredAddress := round.polls[0].msg.mem[16..20])
      && |t.log| > 4 && t.log[0].SentRequest? && t.log[1].Polled?
      && t.log[|t.log| - 2..] == [TookAck(Be32(c.nextId)), Moved(Bound, round.polls[0].start)]
  {
    var to := if c.state == Rebinding then [255, 255, 255, 255] else c.serverAddress;
    var c1, poll := SendRequest(c, to).c, round.polls[0];
    hide Built, IsValid, TypeOf, Turn, AddressOption, ReplyTo, ChosenTimeout, IncreasedTimeout, Handle, Laid, NumberIn, Walk, CallsFor;
    AckActedOn(c1, poll, opts, noGateway);
    AskingTurn(c, round, noGateway);
    EndsWith(Turn(c, round, noGateway).log, Handle(c1, poll, noGateway).log);
  }

  lemma EndsWith(log: seq<Event>, h: seq<Event>)
    requires |h| >= 2 && |log| == |h| + 2 && log[2..] == h
    ensures log[|log| - 2..] == h[|h| - 2..]
  {
    assert log[|log| - 2..] == log[2..][|h| - 2..];
  }

  /** From construction: the client looks for a server at once, and an exchange that is answered binds it in three turns. */
  lemma {:induction false} BindsFromStart(nextId: uint32, mac: hardwareAddress, discover: Msg, request: Msg, lease: Info,
                                          start: Round, first: Round, second: Round, noGateway: bool)
    requires first.polls != [] && second.polls != []
    requires Built(discover, RequestHeader(nextId, mac), DiscoverOptions()) && Brings(first.polls[0], DHCPOFFER, discover, lease)
    requires Built(request, RequestHeader((nextId + 1) % 0x1_0000_0000, mac), RequestOptions(lease.offeredAddress, lease.serverId))
    requires Brings(second.polls[0], DHCPACK, request, lease)
    requires second.polls[0].links.bringUp && second.polls[0].links.setAddress && (noGateway || second.polls[0].links.setGateway)
    ensures
      var r := Run(NewClient(nextId), [start] + [first, second], noGateway);
      && r.c.state == Bound && r.c.info == Kept(lease) && r.log != [] && r.log[0] == Moved(Selecting, start.checkedAt)
  {
    var looking := Turn(NewClient(nextId), start, noGateway).c;
    Looks(NewClient(nextId), start, noGateway);
    assert looking.state == Selecting && looking.nextId == nextId;
    hide Turn, Built, Brings, Kept, Run, NewClient, RequestHeader, RequestOptions, DiscoverOptions;
    ExchangeBinds(looking, mac, discover, request, lease, first, second, noGateway);
    RunLooking(NewClient(nextId), start, [first, second], noGateway);
  }

  lemma {:induction false} RunLooking(c: Client, start: Round, rounds: seq<Round>, noGateway: bool)
    requires Turn(c, start, noGateway).log != []
    ensures
      var r := Run(c, [start] + rounds, noGateway);
      && r.c == Run(Turn(c, start, noGateway).c, rounds, noGateway).c
      && r.log != [] && r.log[0] == Turn(c, start, noGateway).log[0]
  {
    hide Turn, Run;
    RunFirst(c, [start] + rounds, noGateway);
    assert ([start] + rounds)[1..] == rounds;
  }

  lemma {:induction false} Looks(c: Client, round: Round, noGateway: bool)
    requires c.state == Init
    ensures Turn(c, round, noGateway) == Outcome(c.(state := Selecting, nextTimeout := 0, fuzz := true), [Moved(Selecting, round.checkedAt)])
  {
    hide Wait;
    assert [Moved(Selecting, round.checkedAt)] + [] == [Moved(Selecting, round.checkedAt)];
  }

  // ----- Over runs

  /** Every ack is taken right behind the last call that configures the interface. */
  predicate Routed(log: seq<Event>, noGateway: bool) {
    forall k | 0 <= k < |log| && log[k].TookAck? ::
      k > 0 && if noGateway then log[k - 1].AddressSet? else log[k - 1].GatewaySet?
  }

  lemma {:induction false} RoutedConcat(a: seq<Event>, b: seq<Event>, noGateway: bool)
    requires Routed(a, noGateway) && Routed(b, noGateway)
    ensures Routed(a + b, noGateway)
  {
    assert forall k | |a| <= k < |a| + |b| :: (a + b)[k] == b[k - |a|];
  }

  lemma {:induction false} HandleRoutes(c: Client, poll: Poll, noGateway: bool)
    ensures Routed(Handle(c, poll, noGateway).log, noGateway)
  {
    if poll.Received? {
      var r := Configure(c, poll.msg, poll.t1SetAt, poll.t2SetAt, poll.links, noGateway);
      ConfigureEffect(c, poll.msg, poll.t1SetAt, poll.t2SetAt, poll.links, noGateway);
      CallsRoute(TimersSet(r.c.t1, r.c.t2), r.c.info, poll.links, noGateway);
    }
    hide Configure, Calls, Relevant, Succeeds;
  }

  lemma {:induction false} CallsRoute(timers: Event, info: Info, links: Links, noGateway: bool)
    requires timers.TimersSet?
    ensures
      var log := [timers] + Calls(info, links, noGateway);
      && |log| > 0 && (forall e | e in log :: !e.TookAck?)
      && (Succeeds(links, noGateway) ==> if noGateway then log[|log| - 1].AddressSet? else log[|log| - 1].GatewaySet?)
  {
  }

  lemma {:induction false} WaitRoutes(c: Client, timeout: nat, polls: seq<Poll>, noGateway: bool)
    ensures Routed(Wait(c, timeout, polls, noGateway).log, noGateway)
    decreases |polls|
  {
    hide Handle, Routed;
    if polls == [] {
      NothingRouted(noGateway);
    } else {
      var h := Handle(c, polls[0], noGateway);
      var took := polls[0].end - polls[0].start;
      HandleRoutes(c, polls[0], noGateway);
      if !h.done && took < timeout as int {
        var left := (timeout as int - took) % 0x1_0000_0000;
        WaitRoutes(h.c, left, polls[1..], noGateway);
        RoutedConcat(h.log, Wait(h.c, left, polls[1..], noGateway).log, noGateway);
      }
    }
  }

  lemma NothingRouted(noGateway: bool)
    ensures Routed([], noGateway)
  {
  }

  lemma {:induction false} RunRoutes(c: Client, rounds: seq<Round>, noGateway: bool)
    ensures Routed(Run(c, rounds, noGateway).log, noGateway)
    decreases |rounds|
  {
    if rounds == [] {
    } else {
      var a := Act(c, rounds[0]);
      var p := Pause(a.c, rounds[0], noGateway);
      WaitRoutes(a.c, ChosenTimeout(a.c, rounds[0].adjustment), rounds[0].polls, noGateway);
      ActTakesNothing(c, rounds[0], noGateway);
      PollRoutes(a.c, rounds[0], noGateway);
      hide Act, Pause, Routed, Wait;
      RoutedConcat(a.log, p.log, noGateway);
      RunRoutes(Turn(c, rounds[0], noGateway).c, rounds[1..], noGateway);
      RoutedConcat(Turn(c, rounds[0], noGateway).log, Run(Turn(c, rounds[0], noGateway).c, rounds[1..], noGateway).log, noGateway);
    }
  }

  lemma ActTakesNothing(c: Client, round: Round, noGateway: bool)
    ensures Routed(Act(c, round).log, noGateway)
  {
  }

  lemma {:induction false} PollRoutes(c: Client, round: Round, noGateway: bool)
    requires Routed(Wait(c, ChosenTimeout(c, round.adjustment), round.polls, noGateway).log, noGateway)
    ensures Routed(Pause(c, round, noGateway).log, noGateway)
  {
    var timeout := ChosenTimeout(c, round.adjustment);
    RoutedConcat([Polled(timeout, round.readAt)], Wait(c, timeout, round.polls, noGateway).log, noGateway);
    hide Wait;
  }

  /** Over every run from construction: Bound is entered only right behind a configuration of the interface that
      succeeded: it is up, its address is set, and its gateway too unless the client leaves that alone. */
  lemma {:induction false} BoundIsConfigured(nextId: uint32, rounds: seq<Round>, noGateway: bool, k: nat) returns (m: nat)
    requires forall r | r in rounds :: Fair(r) && Monotone(r)
    requires
      var log := Run(NewClient(nextId), rounds, noGateway).log;
      k < |log| && log[k].Moved? && log[k].to == Bound
    ensures
      var log := Run(NewClient(nextId), rounds, noGateway).log;
      && k > 0 && Configures(log, m, k - 1)
      && if noGateway then log[k - 2].AddressSet? else log[k - 2].GatewaySet? && log[k - 2].ok
  {
    var log := Run(NewClient(nextId), rounds, noGateway).log;
    RunsObey(nextId, rounds, noGateway);
    RunRoutes(NewClient(nextId), rounds, noGateway);
    AllowedAt(log, k);
    WhyBound(After(START, log[..k]), log[k]);
    hide Run, Allowed, Obeys, After;
    m := AckIsConfigured(log, k - 1);
  }
}
