/** The protocol of the DHCP client on values: one turn of the loop of DhcpClient::run, what it
    sends, waits for and accepts, and the rules that every run obeys. */
module DhcpProtocol {
  import opened Bytes
  import opened DhcpMessage
  import opened DhcpLease

  const INITIAL_TIMEOUT: uint32 := 4000
  const MAX_TIMEOUT: uint32 := 64000
  const NO_TIMEOUT: uint32 := 0
  const TIMEOUT_SPAN: int := 1000
  const BROADCAST: address := [255, 255, 255, 255]

  datatype State = Init | Selecting | Requesting | Bound | Renewing | Rebinding

  predicate AwaitsAck(state: State) {
    state == Requesting || state == Renewing || state == Rebinding
  }

  /** The fields of the client that decide what it does. */
  datatype Client = Client(state: State, nextTimeout: uint32, fuzz: bool, lastXid: bytes, t1: nat, t2: nat,
                           requestAddress: address, serverAddress: address, info: Info, nextId: uint32)

  // ----- The environment

  /** How the interface answers to being configured. */
  datatype Links = Links(bringUp: bool, setAddress: bool, setGateway: bool)

  /** What interrupts a wait before its timeout. Each happens between two readings of the clock. */
  datatype Poll =
    | PollFailed(start: clock, end: clock)
    | ReadFailed(start: clock, end: clock)
    | Received(start: clock, end: clock, headersOk: bool, msg: Msg, t1SetAt: clock, t2SetAt: clock, links: Links)

  /** What the environment contributes to one turn of the loop: two readings of the clock, a random
      adjustment, and what interrupts the wait. When the list is exhausted the wait times out. */
  datatype Round = Round(checkedAt: clock, readAt: clock, adjustment: int, polls: seq<Poll>)

  /** The range of the random distribution. */
  predicate Fair(round: Round) {
    -TIMEOUT_SPAN <= round.adjustment <= TIMEOUT_SPAN
  }

  /** The two readings of the turn are in order. */
  predicate Monotone(round: Round) {
    round.checkedAt <= round.readAt
  }

  // ----- What is observed

  datatype Event =
    | SentDiscover(xid: bytes)
    | SentRequest(xid: bytes, requested: address, server: address)
    | Polled(timeout: nat, at: clock)
    | TookOffer(xid: bytes, offered: address, server: address)
    | TimersSet(t1: nat, t2: nat)
    | BroughtUp(ok: bool)
    | MtuSet(mtu: uint16)
    | AddressSet(local: address, netmask: address, ok: bool)
    | GatewaySet(gateway: address, ok: bool)
    | TookAck(xid: bytes)
    | TookNak(xid: bytes)
    | Halted
    | Moved(to: State, at: clock)

  datatype Outcome = Outcome(c: Client, log: seq<Event>)

  // ----- The client's steps

  function SetNextState(c: Client, to: State): Client {
    c.(state := to, nextTimeout := NO_TIMEOUT, fuzz := true)
  }

  function IncreasedTimeout(n: uint32): uint32 {
    if n == NO_TIMEOUT then INITIAL_TIMEOUT
    else if n < MAX_TIMEOUT && 2 * n as nat <= MAX_TIMEOUT then 2 * n as nat
    else MAX_TIMEOUT
  }

  function SendDiscover(c: Client): Outcome {
    Outcome(c.(lastXid := Be32(c.nextId), nextId := (c.nextId + 1) % 0x1_0000_0000,
               nextTimeout := IncreasedTimeout(c.nextTimeout)),
            [SentDiscover(Be32(c.nextId))])
  }

  function SendRequest(c: Client, server: address): Outcome {
    Outcome(c.(lastXid := Be32(c.nextId), nextId := (c.nextId + 1) % 0x1_0000_0000,
               nextTimeout := IncreasedTimeout(c.nextTimeout)),
            [SentRequest(Be32(c.nextId), c.requestAddress, server)])
  }

  function Move(c: Client, to: State, at: clock): Outcome {
    Outcome(SetNextState(c, to), [Moved(to, at)])
  }

  function Remaining(expires: nat, now: clock): nat {
    if now > expires then 0 else expires - now
  }

  /** The switch of the loop. */
  function Act(c: Client, round: Round): Outcome {
    match c.state
    case Init => Move(c, Selecting, round.checkedAt)
    case Selecting => SendDiscover(c)
    case Requesting =>
      if c.nextTimeout >= MAX_TIMEOUT then Move(c, Init, round.checkedAt) else SendRequest(c, c.serverAddress)
    case Bound =>
      if round.checkedAt >= c.t1 then Move(c, Renewing, round.checkedAt)
      else Outcome(c.(nextTimeout := Remaining(c.t1, round.readAt) % 0x1_0000_0000, fuzz := false), [])
    case Renewing =>
      if round.checkedAt >= c.t2 then Move(c, Rebinding, round.checkedAt) else SendRequest(c, c.serverAddress)
    case Rebinding =>
      if c.nextTimeout >= MAX_TIMEOUT then Move(c, Init, round.checkedAt) else SendRequest(c, BROADCAST)
  }

  /** calculateTimeoutMillis. */
  function ChosenTimeout(c: Client, adjustment: int): uint32 {
    if !c.fuzz then c.nextTimeout
    else if adjustment < 0 && -adjustment > c.nextTimeout as int then 0
    else (c.nextTimeout as int + adjustment) % 0x1_0000_0000
  }

  datatype Configured = Configured(ok: bool, c: Client, log: seq<Event>)

  /** configureDhcp. */
  function Configure(c: Client, msg: Msg, t1SetAt: clock, t2SetAt: clock, links: Links, noGateway: bool): Configured {
    if OptionsSize(msg) < 4 then Configured(false, c, [])
    else
      var walked := Walk(msg, 4, ZERO_INFO);
      if !walked.ok then Configured(false, c.(info := walked.info), [])
      else
        var info := walked.info.(offeredAddress := YiaddrOf(msg));
        if info.leaseTime == 0 then Configured(false, c.(info := info), [])
        else
          var t1, t2 := Expiry(t1SetAt, T1Seconds(info)), Expiry(t2SetAt, T2Seconds(info));
          Configured(Succeeds(links, noGateway), c.(info := info, t1 := t1, t2 := t2),
                     [TimersSet(t1, t2)] + Calls(info, links, noGateway))
  }

  /** Every call to the interface and the router that is made succeeds, but for that which sets the MTU. */
  predicate Succeeds(links: Links, noGateway: bool) {
    links.bringUp && links.setAddress && (noGateway || links.setGateway)
  }

  /** The calls that configure the interface, up to the first that fails. */
  function Calls(info: Info, links: Links, noGateway: bool): seq<Event> {
    if !links.bringUp then [BroughtUp(false)]
    else
      [BroughtUp(true)] + (if info.mtu != 0 then [MtuSet(info.mtu)] else [])
      + [AddressSet(info.offeredAddress, info.subnetMask, links.setAddress)]
      + (if links.setAddress && !noGateway then [GatewaySet(info.gateway, links.setGateway)] else [])
  }

  /** Whether receiveDhcpMessage takes what was read for a message of the current transaction. */
  predicate Relevant(c: Client, poll: Poll) {
    poll.Received? && poll.headersOk && IsValid(poll.msg, OP_BOOTREPLY) && XidOf(poll.msg) == c.lastXid
  }

  datatype Handled = Handled(done: bool, c: Client, log: seq<Event>)

  /** One readiness of the socket; `done` when it ends the wait. */
  function Handle(c: Client, poll: Poll, noGateway: bool): Handled {
    if !Relevant(c, poll) then Handled(false, c, [])
    else if c.state == Selecting && TypeOf(poll.msg) == DHCPOFFER then
      TakeOffer(c, AddressOption(poll.msg, OPT_SERVER_ID), YiaddrOf(poll.msg), poll.start)
    else if AwaitsAck(c.state) && TypeOf(poll.msg) == DHCPACK then
      TakeAck(c, Configure(c, poll.msg, poll.t1SetAt, poll.t2SetAt, poll.links, noGateway), poll.start)
    else if AwaitsAck(c.state) && TypeOf(poll.msg) == DHCPNAK then
      Handled(true, SetNextState(c, Init), [TookNak(c.lastXid), Halted, Moved(Init, poll.start)])
    else Handled(false, c, [])
  }

  function TakeOffer(c: Client, server: address, offered: address, at: clock): Handled {
    Handled(true, SetNextState(c.(serverAddress := server, requestAddress := offered), Requesting),
            [TookOffer(c.lastXid, offered, server), Moved(Requesting, at)])
  }

  function TakeAck(c: Client, r: Configured, at: clock): Handled {
    if r.ok then Handled(true, SetNextState(r.c, Bound), r.log + [TookAck(c.lastXid), Moved(Bound, at)])
    else Handled(false, r.c, r.log)
  }

  /** `spent` is the time that the polls took. */
  datatype Waited = Waited(c: Client, log: seq<Event>, spent: int)

  /** The polling loop with `timeout` milliseconds to go. */
  function Wait(c: Client, timeout: nat, polls: seq<Poll>, noGateway: bool): Waited
    decreases |polls|
  {
    if polls == [] then Waited(c, [], timeout)
    else
      var h := Handle(c, polls[0], noGateway);
      var took := polls[0].end - polls[0].start;
      if h.done || took >= timeout as int then Waited(h.c, h.log, took)
      else
        var rest := Wait(h.c, (timeout as int - took) % 0x1_0000_0000, polls[1..], noGateway);
        Waited(rest.c, h.log + rest.log, took + rest.spent)
  }

  /** waitAndReceive: with no timeout there is no wait. */
  function Pause(c: Client, round: Round, noGateway: bool): Outcome {
    if c.nextTimeout == NO_TIMEOUT then Outcome(c, [])
    else
      var timeout := ChosenTimeout(c, round.adjustment);
      var w := Wait(c, timeout, round.polls, noGateway);
      Outcome(w.c, [Polled(timeout, round.readAt)] + w.log)
  }

  /** One turn of the loop. */
  function Turn(c: Client, round: Round, noGateway: bool): Outcome {
    var a := Act(c, round);
    var p := Pause(a.c, round, noGateway);
    Outcome(p.c, a.log + p.log)
  }

  /** Any number of turns. */
  function Run(c: Client, rounds: seq<Round>, noGateway: bool): Outcome
    decreases |rounds|
  {
    if rounds == [] then Outcome(c, [])
    else
      var first := Turn(c, rounds[0], noGateway);
      var rest := Run(first.c, rounds[1..], noGateway);
      Outcome(rest.c, first.log + rest.log)
  }

  // ----- The rules of the protocol, on what is observed

  /** What of a log matters to what may happen next. */
  datatype Summary = Summary(state: State, last: Option<Event>, sent: Option<Event>, offer: Option<Event>,
                             t1: nat, t2: nat, discovers: nat, requests: nat, waited: nat)

  const START: Summary := Summary(Init, None, None, None, 0, 0, 0, 0, 0)

  function Update(s: Summary, e: Event): Summary {
    var s' := s.(last := Some(e));
    match e
    case SentDiscover(_) => s'.(sent := Some(e), discovers := s.discovers + 1)
    case SentRequest(_, _, _) => s'.(sent := Some(e), requests := s.requests + 1)
    case Polled(timeout, _) => s'.(waited := s.waited + timeout)
    case TookOffer(_, _, _) => s'.(offer := Some(e))
    case TimersSet(t1, t2) => s'.(t1 := t1, t2 := t2)
    case Moved(to, _) => s'.(state := to, discovers := 0, requests := 0, waited := 0)
    case _ => s'
  }

  function After(s: Summary, log: seq<Event>): Summary
    decreases |log|
  {
    if log == [] then s else After(Update(s, log[0]), log[1..])
  }

  /** The base timeout after the `k`-th request of a visit. */
  function Base(k: nat): nat {
    if k == 0 then 0 else if k == 1 then 4000 else 2 * Base(k - 1)
  }

  /** The base timeout after the `k`-th message of a visit in which it stops growing at 64 seconds. */
  function Capped(k: nat): nat {
    Base(if k < 5 then k else 5)
  }

  /** How many messages of its kind the visit has sent. */
  function Sends(s: Summary): nat {
    if s.state == Selecting then s.discovers else s.requests
  }

  /** What RFC 2131 section 4.4 and figure 5 let a client do next, with the retransmission of section
      4.1 as this client does it: messages of a visit are 4, 8, 16, 32 and 64 seconds apart up to a second
      each, and in Requesting and Rebinding there are five; in Selecting and Renewing more follow, 64
      seconds apart. */
  predicate Allowed(s: Summary, e: Event) {
    && (s.last.Some? ==> Follows(s.last.value, e))
    && AllowedIn(s, e)
  }

  /** The client sets its timers or configures the interface. */
  predicate Setup(e: Event) {
    e.TimersSet? || e.BroughtUp? || e.MtuSet? || e.AddressSet? || e.GatewaySet?
  }

  /** An answer that is taken is acted on at once, and the interface is configured without a break: up, MTU, address
      and gateway, until a call fails. */
  predicate Follows(last: Event, e: Event) {
    match last
    case TookOffer(_, _, _) => e.Moved? && e.to == Requesting
    case TimersSet(_, _) => e.BroughtUp?
    case BroughtUp(ok) => ok ==> e.MtuSet? || e.AddressSet?
    case MtuSet(_) => e.AddressSet?
    case AddressSet(_, _, ok) => ok ==> e.GatewaySet? || e.TookAck?
    case GatewaySet(_, ok) => ok ==> e.TookAck?
    case TookAck(_) => e.Moved? && e.to == Bound
    case TookNak(_) => e == Halted
    case Halted => e.Moved? && e.to == Init
    case _ => true
  }

  predicate AllowedIn(s: Summary, e: Event) {
    match e
    case SentDiscover(_) => s.state == Selecting
    case SentRequest(_, requested, server) =>
      && AwaitsAck(s.state)
      && s.offer.Some? && s.offer.value.TookOffer? && requested == s.offer.value.offered
      && server == (if s.state == Rebinding then BROADCAST else s.offer.value.server)
      && (s.state != Renewing ==> s.requests < 5)
    case Polled(timeout, at) =>
      && s.state != Init && s.sent.Some?
      && (if s.state == Selecting then s.sent.value.SentDiscover? else s.sent.value.SentRequest?)
      && (s.state == Bound ==> at + timeout <= s.t1)
      && (s.state != Bound ==> 1 <= Sends(s) && Capped(Sends(s)) - 1000 <= timeout <= Capped(Sends(s)) + 1000)
      && ((s.state == Requesting || s.state == Rebinding) ==> s.requests <= 5)
    case TookOffer(xid, _, _) => s.state == Selecting && s.sent == Some(SentDiscover(xid))
    case TimersSet(_, _) => AwaitsAck(s.state)
    case BroughtUp(_) => s.last == Some(TimersSet(s.t1, s.t2))
    case MtuSet(mtu) => mtu != 0 && s.last == Some(BroughtUp(true))
    case AddressSet(_, _, _) => s.last.Some? && (s.last.value == BroughtUp(true) || s.last.value.MtuSet?)
    case GatewaySet(_, _) => s.last.Some? && s.last.value.AddressSet? && s.last.value.ok
    case TookAck(xid) =>
      && AwaitsAck(s.state) && s.sent.Some? && s.sent.value.SentRequest? && s.sent.value.xid == xid
      && s.last.Some? && (s.last.value.AddressSet? || s.last.value.GatewaySet?) && s.last.value.ok
    case TookNak(xid) =>
      AwaitsAck(s.state) && s.sent.Some? && s.sent.value.SentRequest? && s.sent.value.xid == xid
    case Halted => s.last.Some? && s.last.value.TookNak?
    case Moved(to, at) =>
      match to
      case Init =>
        || s.last == Some(Halted)
        || ((s.state == Requesting || s.state == Rebinding) && s.requests == 5 && 119000 <= s.waited <= 129000)
      case Selecting => s.state == Init
      case Requesting => s.last.Some? && s.last.value.TookOffer?
      case Bound => s.last.Some? && s.last.value.TookAck?
      case Renewing => s.state == Bound && s.t1 <= at
      case Rebinding => s.state == Renewing && s.t2 <= at
  }

  /** Every event of the log is allowed after those before it. */
  ghost predicate Obeys(s: Summary, log: seq<Event>)
    decreases |log|
  {
    log == [] || (Allowed(s, log[0]) && Obeys(Update(s, log[0]), log[1..]))
  }

  // ----- Every run obeys the rules

  /** The sum of the first `k` base timeouts. */
  function Total(k: nat): nat {
    if k == 0 then 0 else Total(k - 1) + Base(k)
  }

  /** The configuration goes on behind the event. */
  predicate Goes(e: Event) {
    e.TimersSet? || e.MtuSet? || ((e.BroughtUp? || e.AddressSet? || e.GatewaySet?) && e.ok)
  }

  /** How the fields of the client relate to what has been observed, between two turns. */
  predicate Consistent(c: Client, s: Summary) {
    && c.state == s.state && c.t1 == s.t1 && c.t2 == s.t2
    && (s.sent.Some? ==> (s.sent.value.SentDiscover? || s.sent.value.SentRequest?) && s.sent.value.xid == c.lastXid)
    && (c.state != Init && c.state != Selecting ==>
          && s.offer.Some? && s.offer.value.TookOffer?
          && s.offer.value.offered == c.requestAddress && s.offer.value.server == c.serverAddress)
    && (c.fuzz ==> c.nextTimeout in {0, 4000, 8000, 16000, 32000, 64000})
    && (!c.fuzz ==> c.state == Bound)
    && (c.state == Bound ==> s.sent.Some? && s.sent.value.SentRequest?)
    && (s.last.Some? ==> s.last.value.Moved? || s.last.value.Polled? || (Setup(s.last.value) && !Goes(s.last.value)))
    && Counted(c, s)
  }

  /** The timeout and the time waited follow from how many messages the visit has sent. */
  predicate Counted(c: Client, s: Summary) {
    && (c.state != Init && c.state != Bound ==> c.nextTimeout == Capped(Sends(s)))
    && ((c.state == Requesting || c.state == Rebinding) ==>
          && s.requests <= 5
          && Total(s.requests) - 1000 * s.requests <= s.waited <= Total(s.requests) + 1000 * s.requests)
  }

  /** The last message sent is the one that the state waits for an answer to. */
  predicate Asked(s: Summary) {
    && s.state != Init && s.sent.Some?
    && if s.state == Selecting then s.sent.value.SentDiscover? else s.sent.value.SentRequest?
  }

  lemma {:induction false} ObeysConcat(s: Summary, a: seq<Event>, b: seq<Event>)
    ensures Obeys(s, a + b) <==> Obeys(s, a) && Obeys(After(s, a), b)
    ensures After(s, a + b) == After(After(s, a), b)
    decreases |a|
  {
    if a == [] {
      assert a + b == b;
    } else {
      assert (a + b)[1..] == a[1..] + b;
      ObeysConcat(Update(s, a[0]), a[1..], b);
    }
  }

  lemma {:induction false} ObeysOne(s: Summary, e: Event)
    requires Allowed(s, e)
    ensures Obeys(s, [e]) && After(s, [e]) == Update(s, e)
  {
    assert [e][1..] == [];
  }

  lemma {:induction false} ObeysTwo(s: Summary, e: Event, f: Event)
    requires Allowed(s, e) && Allowed(Update(s, e), f)
    ensures Obeys(s, [e, f]) && After(s, [e, f]) == Update(Update(s, e), f)
  {
    assert [e, f][1..] == [f];
    ObeysOne(Update(s, e), f);
  }

  lemma {:induction false} ObeysThree(s: Summary, e: Event, f: Event, g: Event)
    requires Allowed(s, e) && Allowed(Update(s, e), f) && Allowed(Update(Update(s, e), f), g)
    ensures Obeys(s, [e, f, g]) && After(s, [e, f, g]) == Update(Update(Update(s, e), f), g)
  {
    assert [e, f, g][1..] == [f, g];
    ObeysTwo(Update(s, e), f, g);
  }

  lemma Bases()
    ensures Base(0) == 0 && Base(1) == 4000 && Base(2) == 8000 && Base(3) == 16000 && Base(4) == 32000 && Base(5) == 64000
    ensures Total(0) == 0 && Total(1) == 4000 && Total(2) == 12000 && Total(3) == 28000 && Total(4) == 60000 && Total(5) == 124000
  {
  }

  /** The timeout follows the base. */
  lemma {:induction false} CappedGrows(k: nat)
    ensures Capped(k) <= MAX_TIMEOUT && IncreasedTimeout(Capped(k)) == Capped(k + 1)
    ensures Capped(k + 1) in {4000, 8000, 16000, 32000, 64000}
  {
    Bases();
    hide Base;
    assert k in {0, 1, 2, 3, 4} || k >= 5;
  }

  /** What configureDhcp may do to the client, whatever it reads. */
  lemma ConfigureEffect(c: Client, msg: Msg, t1SetAt: clock, t2SetAt: clock, links: Links, noGateway: bool)
    ensures
      var r := Configure(c, msg, t1SetAt, t2SetAt, links, noGateway);
      && (r.log == [] ==> !r.ok && r.c == c.(info := r.c.info))
      && (r.log != [] ==> r.ok == Succeeds(links, noGateway)
                          && r.log == [TimersSet(r.c.t1, r.c.t2)] + Calls(r.c.info, links, noGateway)
                          && r.c == c.(info := r.c.info, t1 := r.c.t1, t2 := r.c.t2))
  {
    hide Calls, Succeeds, Walk, T1Seconds, T2Seconds;
  }

  lemma {:induction false} CallsAreSetup(info: Info, links: Links, noGateway: bool)
    ensures forall e | e in Calls(info, links, noGateway) :: Setup(e) && !e.TimersSet?
  {
  }

  lemma {:induction false} ObeysSnoc(s: Summary, log: seq<Event>, e: Event)
    requires Obeys(s, log) && Allowed(After(s, log), e)
    ensures Obeys(s, log + [e]) && After(s, log + [e]) == Update(After(s, log), e)
  {
    ObeysConcat(s, log, [e]);
    ObeysOne(After(s, log), e);
    hide Obeys, After, Allowed, Update;
  }

  /** What a summary is after setting timers and configuring. */
  predicate SetUp(s: Summary, s': Summary, t1: nat, t2: nat) {
    s' == s.(last := s'.last, t1 := t1, t2 := t2) && s'.last.Some? && Setup(s'.last.value)
  }

  /** The calls are made in the order of the rules, and end in success just when they succeed. */
  lemma {:induction false} CallsObey(s: Summary, t1: nat, t2: nat, info: Info, links: Links, noGateway: bool)
    requires AwaitsAck(s.state) && (s.last.Some? ==> !Demands(s.last.value))
    ensures
      var log := [TimersSet(t1, t2)] + Calls(info, links, noGateway);
      var s' := After(s, log);
      && Obeys(s, log) && SetUp(s, s', t1, t2)
      && if Succeeds(links, noGateway) then (s'.last.value.AddressSet? || s'.last.value.GatewaySet?) && s'.last.value.ok
         else !Goes(s'.last.value)
  {
    var timers := [TimersSet(t1, t2)];
    ObeysOne(s, TimersSet(t1, t2));
    var up := timers + [BroughtUp(links.bringUp)];
    ObeysSnoc(s, timers, BroughtUp(links.bringUp));
    if links.bringUp {
      var ready := up;
      if info.mtu != 0 {
        ready := up + [MtuSet(info.mtu)];
        ObeysSnoc(s, up, MtuSet(info.mtu));
      }
      var addressed := AddressSet(info.offeredAddress, info.subnetMask, links.setAddress);
      ObeysSnoc(s, ready, addressed);
      if links.setAddress && !noGateway {
        ObeysSnoc(s, ready + [addressed], GatewaySet(info.gateway, links.setGateway));
      }
    }
    InOnePiece(timers, info, links, noGateway);
    hide Obeys, After;
  }

  lemma InOnePiece(timers: seq<Event>, info: Info, links: Links, noGateway: bool)
    ensures
      var up := timers + [BroughtUp(links.bringUp)];
      var ready := if info.mtu != 0 then up + [MtuSet(info.mtu)] else up;
      var done := ready + [AddressSet(info.offeredAddress, info.subnetMask, links.setAddress)];
      timers + Calls(info, links, noGateway)
      == if !links.bringUp then up
         else if links.setAddress && !noGateway then done + [GatewaySet(info.gateway, links.setGateway)]
         else done
  {
  }

  /** The event must be followed at once. */
  predicate Demands(e: Event) {
    e.TookOffer? || e.TookAck? || e.TookNak? || e.Halted? || Goes(e)
  }

  lemma {:induction false} TakeAckObeys(c: Client, s: Summary, r: Configured, links: Links, noGateway: bool, at: clock)
    requires Consistent(c, s) && Asked(s) && AwaitsAck(c.state)
    requires r.log == [] ==> !r.ok && r.c == c.(info := r.c.info)
    requires r.log != [] ==> r.ok == Succeeds(links, noGateway)
                             && r.log == [TimersSet(r.c.t1, r.c.t2)] + Calls(r.c.info, links, noGateway)
                             && r.c == c.(info := r.c.info, t1 := r.c.t1, t2 := r.c.t2)
    ensures
      var h := TakeAck(c, r, at);
      && Obeys(s, h.log) && Consistent(h.c, After(s, h.log)) && (!h.done ==> Asked(After(s, h.log)))
  {
    hide Base, Total, Calls, Succeeds, Capped;
    if r.log != [] {
      CallsObey(s, r.c.t1, r.c.t2, r.c.info, links, noGateway);
      var s' := After(s, r.log);
      if r.ok {
        ObeysTwo(s', TookAck(c.lastXid), Moved(Bound, at));
        ObeysConcat(s, r.log, [TookAck(c.lastXid), Moved(Bound, at)]);
      }
    }
    hide Obeys;
  }

  lemma {:induction false} TakeOfferObeys(c: Client, s: Summary, server: address, offered: address, at: clock)
    requires Consistent(c, s) && Asked(s) && c.state == Selecting
    ensures
      var h := TakeOffer(c, server, offered, at);
      Obeys(s, h.log) && Consistent(h.c, After(s, h.log))
  {
    hide Base, Total;
    Bases();
    ObeysTwo(s, TookOffer(c.lastXid, offered, server), Moved(Requesting, at));
  }

  lemma {:induction false} TakeNakObeys(c: Client, s: Summary, at: clock)
    requires Consistent(c, s) && Asked(s) && AwaitsAck(c.state)
    ensures
      var log := [TookNak(c.lastXid), Halted, Moved(Init, at)];
      Obeys(s, log) && Consistent(SetNextState(c, Init), After(s, log))
  {
    hide Base, Total;
    ObeysThree(s, TookNak(c.lastXid), Halted, Moved(Init, at));
  }

  lemma {:induction false} HandleObeys(c: Client, s: Summary, poll: Poll, noGateway: bool)
    requires Consistent(c, s) && Asked(s)
    ensures
      var h := Handle(c, poll, noGateway);
      && Obeys(s, h.log) && Consistent(h.c, After(s, h.log)) && (!h.done ==> Asked(After(s, h.log)))
  {
    if Relevant(c, poll) && c.state == Selecting && TypeOf(poll.msg) == DHCPOFFER {
      TakeOfferObeys(c, s, AddressOption(poll.msg, OPT_SERVER_ID), YiaddrOf(poll.msg), poll.start);
    } else if Relevant(c, poll) && AwaitsAck(c.state) && TypeOf(poll.msg) == DHCPACK {
      ConfigureEffect(c, poll.msg, poll.t1SetAt, poll.t2SetAt, poll.links, noGateway);
      TakeAckObeys(c, s, Configure(c, poll.msg, poll.t1SetAt, poll.t2SetAt, poll.links, noGateway), poll.links, noGateway,
                   poll.start);
    } else if Relevant(c, poll) && AwaitsAck(c.state) && TypeOf(poll.msg) == DHCPNAK {
      TakeNakObeys(c, s, poll.start);
    }
  }

  lemma {:induction false} WaitObeys(c: Client, s: Summary, timeout: nat, polls: seq<Poll>, noGateway: bool)
    requires Consistent(c, s) && Asked(s)
    ensures
      var w := Wait(c, timeout, polls, noGateway);
      Obeys(s, w.log) && Consistent(w.c, After(s, w.log))
    decreases |polls|
  {
    hide Consistent, Allowed, Handle;
    if polls == [] {
    } else {
      var h := Handle(c, polls[0], noGateway);
      var took := polls[0].end - polls[0].start;
      HandleObeys(c, s, polls[0], noGateway);
      if !h.done && took < timeout as int {
        var left := (timeout as int - took) % 0x1_0000_0000;
        WaitObeys(h.c, After(s, h.log), left, polls[1..], noGateway);
        ObeysConcat(s, h.log, Wait(h.c, left, polls[1..], noGateway).log);
      }
    }
  }

  /** A wait may begin in `c` after `s`, and leaves the fields consistent. */
  predicate MayWait(c: Client, s: Summary, round: Round) {
    var e := Polled(ChosenTimeout(c, round.adjustment), round.readAt);
    Allowed(s, e) && Asked(Update(s, e)) && Consistent(c, Update(s, e))
  }

  /** One more request and the wait behind it. */
  lemma {:induction false} CountedSend(c: Client, s: Summary, c': Client, s': Summary, timeout: nat)
    requires Counted(c, s) && s'.state == s.state == c.state == c'.state && AwaitsAck(c.state)
    requires c.state != Renewing ==> c.nextTimeout < MAX_TIMEOUT
    requires c'.nextTimeout == IncreasedTimeout(c.nextTimeout) && c'.nextTimeout - 1000 <= timeout <= c'.nextTimeout + 1000
    requires s'.requests == s.requests + 1 && s'.waited == s.waited + timeout
    ensures c'.nextTimeout == Capped(s.requests + 1) && c'.nextTimeout in {4000, 8000, 16000, 32000, 64000}
    ensures (c.state != Renewing ==> s.requests < 5) && Counted(c', s')
  {
    CappedGrows(s.requests);
    Bases();
    hide IncreasedTimeout, Base, Total;
    assert s.requests < 5 ==> Total(s.requests + 1) == Total(s.requests) + Capped(s.requests + 1);
  }

  lemma {:induction false} RequestAllowed(c: Client, s: Summary, e: Event)
    requires Consistent(c, s) && AwaitsAck(c.state) && (c.state != Renewing ==> s.requests < 5)
    requires e.SentRequest? && e == SentRequest(e.xid, c.requestAddress, if c.state == Rebinding then BROADCAST else c.serverAddress)
    ensures Allowed(s, e)
  {
    hide Counted;
  }

  lemma {:induction false} RequestWaits(c: Client, s: Summary, c': Client, e: Event, timeout: uint32, at: clock)
    requires Consistent(c, s) && AwaitsAck(c.state) && e.SentRequest? && e.xid == c'.lastXid
    requires c' == c.(lastXid := c'.lastXid, nextId := c'.nextId, nextTimeout := c'.nextTimeout)
    requires c'.nextTimeout in {4000, 8000, 16000, 32000, 64000} && c'.nextTimeout == Capped(s.requests + 1)
    requires c'.nextTimeout - 1000 <= timeout <= c'.nextTimeout + 1000 && (c.state != Renewing ==> s.requests < 5)
    requires Counted(c', Update(Update(s, e), Polled(timeout, at)))
    ensures
      var p := Polled(timeout, at);
      Allowed(Update(s, e), p) && Asked(Update(Update(s, e), p)) && Consistent(c', Update(Update(s, e), p))
  {
    hide Counted, Capped;
  }

  lemma AdjustedTimeout(c: Client, adjustment: int)
    requires c.fuzz && 1000 <= c.nextTimeout <= MAX_TIMEOUT && -TIMEOUT_SPAN <= adjustment <= TIMEOUT_SPAN
    ensures ChosenTimeout(c, adjustment) as int == c.nextTimeout as int + adjustment
  {
  }

  lemma {:induction false} SendWaits(c: Client, s: Summary, round: Round, server: address)
    requires Consistent(c, s) && Fair(round) && AwaitsAck(c.state) && (c.state != Renewing ==> c.nextTimeout < MAX_TIMEOUT)
    requires server == if c.state == Rebinding then BROADCAST else c.serverAddress
    ensures
      var a := SendRequest(c, server);
      Allowed(s, a.log[0]) && a.c.nextTimeout != NO_TIMEOUT && MayWait(a.c, Update(s, a.log[0]), round)
  {
    CappedGrows(s.requests);
    assert c.nextTimeout == Capped(s.requests) && c.fuzz;
    hide Capped, Total, Counted, IncreasedTimeout, Allowed, ChosenTimeout;
    var a := SendRequest(c, server);
    var e := a.log[0];
    AdjustedTimeout(a.c, round.adjustment);
    var p := Polled(ChosenTimeout(a.c, round.adjustment), round.readAt);
    CountedSend(c, s, a.c, Update(Update(s, e), p), p.timeout);
    RequestAllowed(c, s, e);
    RequestWaits(c, s, a.c, e, p.timeout, p.at);
    hide Consistent, Asked;
  }

  lemma {:induction false} SendObeys(c: Client, s: Summary, round: Round, server: address)
    requires Consistent(c, s) && Fair(round) && AwaitsAck(c.state) && (c.state != Renewing ==> c.nextTimeout < MAX_TIMEOUT)
    requires server == if c.state == Rebinding then BROADCAST else c.serverAddress
    ensures
      var a := SendRequest(c, server);
      Obeys(s, a.log) && a.c.nextTimeout != NO_TIMEOUT && MayWait(a.c, After(s, a.log), round)
  {
    hide MayWait, Consistent, Allowed, Obeys, After, IncreasedTimeout, Update;
    SendWaits(c, s, round, server);
    ObeysOne(s, SendRequest(c, server).log[0]);
  }

  lemma {:induction false} MoveObeys(c: Client, s: Summary, to: State, at: clock)
    requires Consistent(c, s) && Allowed(s, Moved(to, at))
    requires to != Selecting && to != Init ==> c.state != Init && c.state != Selecting && to != Bound
    ensures
      var a := Move(c, to, at);
      Obeys(s, a.log) && Consistent(a.c, After(s, a.log))
  {
    hide Base, Total;
    Bases();
    ObeysOne(s, Moved(to, at));
  }

  lemma {:induction false} DiscoverObeys(c: Client, s: Summary, round: Round)
    requires Consistent(c, s) && Fair(round) && c.state == Selecting
    ensures
      var a := SendDiscover(c);
      Obeys(s, a.log) && a.c.nextTimeout != NO_TIMEOUT && MayWait(a.c, After(s, a.log), round)
  {
    hide Base, Total;
    CappedGrows(s.discovers);
    hide Capped;
    ObeysOne(s, SentDiscover(Be32(c.nextId)));
  }

  /** Bound waits no longer than T1, though the time left is cut to 32 bits. */
  lemma {:induction false} BoundWaits(c: Client, s: Summary, round: Round, left: uint32)
    requires Consistent(c, s) && c.state == Bound && left <= Remaining(c.t1, round.readAt)
    ensures
      var c' := c.(nextTimeout := left, fuzz := false);
      if left == NO_TIMEOUT then Consistent(c', s) else MayWait(c', s, round)
  {
    hide Base, Total;
  }

  /** What holds of the log after the switch and of the client as it may begin to wait. */
  predicate Ready(a: Outcome, s: Summary, round: Round) {
    if a.c.nextTimeout == NO_TIMEOUT then Consistent(a.c, After(s, a.log))
    else MayWait(a.c, After(s, a.log), round)
  }

  lemma {:induction false} RetryObeys(c: Client, s: Summary, round: Round, server: address)
    requires Consistent(c, s) && Fair(round) && (c.state == Requesting || c.state == Rebinding)
    requires server == if c.state == Rebinding then BROADCAST else c.serverAddress
    ensures
      var a := if c.nextTimeout >= MAX_TIMEOUT then Move(c, Init, round.checkedAt) else SendRequest(c, server);
      Obeys(s, a.log) && Ready(a, s, round)
  {
    hide Base, Total, MayWait;
    if c.nextTimeout >= MAX_TIMEOUT {
      GivesUp(c, s);
      MoveObeys(c, s, Init, round.checkedAt);
    } else {
      SendObeys(c, s, round, server);
    }
  }

  lemma {:induction false} GivesUp(c: Client, s: Summary)
    requires Consistent(c, s) && (c.state == Requesting || c.state == Rebinding) && c.nextTimeout >= MAX_TIMEOUT
    ensures s.requests == 5 && 119000 <= s.waited <= 129000
  {
    hide Base, Total;
    Bases();
  }

  /** After the switch the log still obeys, and a wait, if there is one, may begin. */
  lemma {:induction false} ActObeys(c: Client, s: Summary, round: Round)
    requires Consistent(c, s) && Fair(round) && Monotone(round)
    ensures Obeys(s, Act(c, round).log) && Ready(Act(c, round), s, round)
  {
    hide Base, Total, MayWait;
    match c.state
    case Init => MoveObeys(c, s, Selecting, round.checkedAt);
    case Selecting => DiscoverObeys(c, s, round);
    case Requesting => RetryObeys(c, s, round, c.serverAddress);
    case Rebinding => RetryObeys(c, s, round, BROADCAST);
    case Bound =>
      if round.checkedAt >= c.t1 {
        MoveObeys(c, s, Renewing, round.checkedAt);
      } else {
        BoundWaits(c, s, round, Remaining(c.t1, round.readAt) % 0x1_0000_0000);
      }
    case Renewing =>
      if round.checkedAt >= c.t2 {
        MoveObeys(c, s, Rebinding, round.checkedAt);
      } else {
        SendObeys(c, s, round, c.serverAddress);
      }
  }

  lemma {:induction false} PauseObeys(c: Client, s: Summary, round: Round, noGateway: bool)
    requires if c.nextTimeout == NO_TIMEOUT then Consistent(c, s) else MayWait(c, s, round)
    ensures
      var p := Pause(c, round, noGateway);
      Obeys(s, p.log) && Consistent(p.c, After(s, p.log))
  {
    hide Consistent, Allowed, Handle;
    if c.nextTimeout != NO_TIMEOUT {
      var timeout := ChosenTimeout(c, round.adjustment);
      var e := Polled(timeout, round.readAt);
      ObeysOne(s, e);
      WaitObeys(c, Update(s, e), timeout, round.polls, noGateway);
      ObeysConcat(s, [e], Wait(c, timeout, round.polls, noGateway).log);
    }
  }

  lemma {:induction false} TurnObeys(c: Client, s: Summary, round: Round, noGateway: bool)
    requires Consistent(c, s) && Fair(round) && Monotone(round)
    ensures
      var t := Turn(c, round, noGateway);
      Obeys(s, t.log) && Consistent(t.c, After(s, t.log))
  {
    hide Consistent, Allowed, Handle;
    var a := Act(c, round);
    ActObeys(c, s, round);
    PauseObeys(a.c, After(s, a.log), round, noGateway);
    ObeysConcat(s, a.log, Pause(a.c, round, noGateway).log);
  }

  lemma {:induction false} RunObeys(c: Client, s: Summary, rounds: seq<Round>, noGateway: bool)
    requires Consistent(c, s) && forall r | r in rounds :: Fair(r) && Monotone(r)
    ensures
      var run := Run(c, rounds, noGateway);
      Obeys(s, run.log) && Consistent(run.c, After(s, run.log))
    decreases |rounds|
  {
    hide Consistent, Allowed, Handle;
    if rounds == [] {
    } else {
      var first := Turn(c, rounds[0], noGateway);
      TurnObeys(c, s, rounds[0], noGateway);
      RunObeys(first.c, After(s, first.log), rounds[1..], noGateway);
      ObeysConcat(s, first.log, Run(first.c, rounds[1..], noGateway).log);
    }
  }

  /** The client as it is constructed. */
  function NewClient(nextId: uint32): Client {
    Client(Init, INITIAL_TIMEOUT, true, [0, 0, 0, 0], 0, 0, NO_ADDRESS, NO_ADDRESS, ZERO_INFO, nextId)
  }

  /** Every run of the client, whatever it receives, whatever fails and however its timeouts are
      fuzzed, obeys the rules. */
  lemma {:induction false} RunsObey(nextId: uint32, rounds: seq<Round>, noGateway: bool)
    requires forall r | r in rounds :: Fair(r) && Monotone(r)
    ensures Obeys(START, Run(NewClient(nextId), rounds, noGateway).log)
  {
    RunObeys(NewClient(nextId), START, rounds, noGateway);
  }

  // ----- What the rules say about a log as a whole

  predicate Sent(e: Event) {
    e.SentDiscover? || e.SentRequest?
  }

  /** The summary before an event, and that the event was allowed then. */
  lemma {:induction false} AllowedAt(log: seq<Event>, k: nat)
    requires Obeys(START, log) && k < |log|
    ensures Obeys(START, log[..k]) && Allowed(After(START, log[..k]), log[k])
    ensures After(START, log[..k + 1]) == Update(After(START, log[..k]), log[k])
    ensures k > 0 ==> After(START, log[..k]).last == Some(log[k - 1])
    ensures k == 0 ==> After(START, log[..k]).last == None
  {
    var s := After(START, log[..k]);
    assert log == log[..k] + log[k..];
    ObeysConcat(START, log[..k], log[k..]);
    assert log[..k + 1] == log[..k] + [log[k]];
    ObeysConcat(START, log[..k], [log[k]]);
    assert [log[k]][1..] == [];
    if k > 0 {
      assert log[..k] == log[..k - 1] + [log[k - 1]];
      ObeysConcat(START, log[..k - 1], [log[k - 1]]);
      assert [log[k - 1]][1..] == [];
      assert s == Update(After(START, log[..k - 1]), log[k - 1]);
    }
  }

  /** The summary names the last message sent before `k`. */
  lemma {:induction false} LastSent(log: seq<Event>, k: nat) returns (l: nat)
    requires Obeys(START, log) && k <= |log| && After(START, log[..k]).sent.Some?
    ensures l < k && Sent(log[l]) && Some(log[l]) == After(START, log[..k]).sent
    ensures forall i | l < i < k :: !Sent(log[i])
    decreases k
  {
    AllowedAt(log, k - 1);
    if Sent(log[k - 1]) {
      l := k - 1;
    } else {
      l := LastSent(log, k - 1);
    }
  }

  /** The summary names the last offer taken before `k`, and that answered the discover then last sent. */
  lemma {:induction false} LastOffer(log: seq<Event>, k: nat) returns (i: nat, j: nat)
    requires Obeys(START, log) && k <= |log| && After(START, log[..k]).offer.Some?
    ensures i < j < k && log[j].TookOffer? && Some(log[j]) == After(START, log[..k]).offer
    ensures log[i] == SentDiscover(log[j].xid) && forall x | i < x < j :: !Sent(log[x])
    ensures forall x | j < x < k :: !log[x].TookOffer?
    decreases k
  {
    AllowedAt(log, k - 1);
    if log[k - 1].TookOffer? {
      j := k - 1;
      i := LastSent(log, k - 1);
    } else {
      i, j := LastOffer(log, k - 1);
    }
  }

  /** Every request carries the address, and but for rebinding the server, of the offer last taken,
      and that offer answered the discover then last sent. */
  lemma {:induction false} RequestHasCause(log: seq<Event>, l: nat) returns (i: nat, j: nat)
    requires Obeys(START, log) && l < |log| && log[l].SentRequest?
    ensures i < j < l && log[j].TookOffer? && log[i] == SentDiscover(log[j].xid)
    ensures log[l].requested == log[j].offered && log[l].server in {log[j].server, BROADCAST}
    ensures (forall x | i < x < j :: !Sent(log[x])) && (forall x | j < x < l :: !log[x].TookOffer?)
  {
    AllowedAt(log, l);
    i, j := LastOffer(log, l);
  }

  lemma WhyBound(s: Summary, e: Event)
    requires Allowed(s, e)
    ensures e.Moved? && e.to == Bound ==> s.last.Some? && s.last.value.TookAck?
    ensures e.TookAck? ==> s.sent.Some? && s.sent.value.SentRequest? && s.sent.value.xid == e.xid
  {
  }

  /** The client is bound only by an ACK of the transaction of its last request, which asked for the
      address of an offer that answered its discover. */
  lemma {:induction false} BoundHasCause(log: seq<Event>, k: nat) returns (i: nat, j: nat, l: nat)
    requires Obeys(START, log) && k < |log| && log[k].Moved? && log[k].to == Bound
    ensures i < j < l < k - 1 && log[j].TookOffer? && log[i] == SentDiscover(log[j].xid)
    ensures log[l].SentRequest? && log[l].requested == log[j].offered && log[k - 1] == TookAck(log[l].xid)
    ensures (forall x | i < x < j :: !Sent(log[x])) && (forall x | l < x < k :: !Sent(log[x]))
    ensures forall x | j < x < l :: !log[x].TookOffer?
  {
    hide Allowed, Update, Obeys, After;
    AllowedAt(log, k);
    WhyBound(After(START, log[..k]), log[k]);
    AllowedAt(log, k - 1);
    WhyBound(After(START, log[..k - 1]), log[k - 1]);
    l := LastSent(log, k - 1);
    i, j := RequestHasCause(log, l);
  }

  /** The timers in force before `k` are those last set. */
  lemma {:induction false} LastTimers(log: seq<Event>, k: nat) returns (m: int)
    requires Obeys(START, log) && k <= |log|
    ensures -1 <= m < k && forall x | m < x < k :: !log[x].TimersSet?
    ensures var s := After(START, log[..k]);
            if m < 0 then s.t1 == s.t2 == 0 else log[m] == TimersSet(s.t1, s.t2)
    decreases k
  {
    hide Allowed, Obeys;
    if k == 0 {
      assert log[..0] == [];
      m := -1;
    } else {
      AllowedAt(log, k - 1);
      if log[k - 1].TimersSet? {
        m := k - 1;
      } else {
        m := LastTimers(log, k - 1);
      }
    }
  }

  /** Bound is left for Renewing only once T1 has expired, and Renewing for Rebinding only once T2
      has, on the timers last set by an ACK. */
  lemma {:induction false} TimersExpireFirst(log: seq<Event>, k: nat) returns (m: nat)
    requires Obeys(START, log) && k < |log| && log[k].Moved? && (log[k].to == Renewing || log[k].to == Rebinding)
    ensures m < k && log[m].TimersSet? && forall x | m < x < k :: !log[x].TimersSet?
    ensures log[k].at >= (if log[k].to == Renewing then log[m].t1 else log[m].t2)
  {
    AllowedAt(log, k);
    var last := LastTimers(log, k);
    var v := BoundBefore(log, k);
    var setUp := AckIsConfigured(log, v - 1);
    m := last;
  }

  lemma OnlyThroughBound(s: Summary, e: Event)
    requires Allowed(s, e) && Update(s, e).state in {Bound, Renewing, Rebinding}
    ensures s.state in {Bound, Renewing, Rebinding} || (e.Moved? && e.to == Bound)
    ensures e.Moved? && e.to == Bound ==> s.last.Some? && s.last.value.TookAck?
  {
  }

  lemma WhySetup(s: Summary, e: Event)
    requires Allowed(s, e)
    ensures e.TookAck? ==> s.last.Some? && (s.last.value.AddressSet? || s.last.value.GatewaySet?) && s.last.value.ok
    ensures e.GatewaySet? ==> s.last.Some? && s.last.value.AddressSet? && s.last.value.ok
    ensures e.AddressSet? ==> s.last.Some? && (s.last.value.MtuSet? || s.last.value == BroughtUp(true))
    ensures e.MtuSet? ==> s.last == Some(BroughtUp(true))
    ensures e.BroughtUp? ==> s.last == Some(TimersSet(s.t1, s.t2))
  {
  }

  /** What stands between setting the timers and taking an ack: the interface is up, its address is set, and so is the
      gateway if it was to be set at all. */
  predicate Configures(log: seq<Event>, m: nat, k: nat) {
    && m + 2 < k < |log| && log[m].TimersSet? && log[m + 1] == BroughtUp(true)
    && var a := if log[m + 2].MtuSet? then m + 3 else m + 2;
    && a < k && log[a].AddressSet? && log[a].ok
    && (k == a + 1 || (k == a + 2 && log[a + 1].GatewaySet? && log[a + 1].ok))
  }

  /** An ack is taken only right behind a configuration that succeeded. */
  lemma {:induction false} AckIsConfigured(log: seq<Event>, k: nat) returns (m: nat)
    requires Obeys(START, log) && k < |log| && log[k].TookAck?
    ensures Configures(log, m, k)
  {
    hide Allowed, Obeys, After, Update;
    var a := k - 1;
    PrecededBy(log, k);
    if log[a].GatewaySet? {
      PrecededBy(log, a);
      a := a - 1;
    }
    PrecededBy(log, a);
    var u := if log[a - 1].MtuSet? then a - 2 else a - 1;
    if log[a - 1].MtuSet? {
      PrecededBy(log, a - 1);
    }
    PrecededBy(log, u);
    m := u - 1;
  }

  lemma {:induction false} PrecededBy(log: seq<Event>, k: nat)
    requires Obeys(START, log) && k < |log|
    ensures log[k].TookAck? ==> k > 0 && (log[k - 1].AddressSet? || log[k - 1].GatewaySet?) && log[k - 1].ok
    ensures log[k].GatewaySet? ==> k > 0 && log[k - 1].AddressSet? && log[k - 1].ok
    ensures log[k].AddressSet? ==> k > 0 && (log[k - 1].MtuSet? || log[k - 1] == BroughtUp(true))
    ensures log[k].MtuSet? ==> k > 0 && log[k - 1] == BroughtUp(true)
    ensures log[k].BroughtUp? ==> k > 0 && log[k - 1].TimersSet?
  {
    AllowedAt(log, k);
    WhySetup(After(START, log[..k]), log[k]);
    hide Allowed, Obeys, After, Update;
  }

  /** Renewing and Rebinding are reached through Bound. */
  lemma {:induction false} BoundBefore(log: seq<Event>, k: nat) returns (v: nat)
    requires Obeys(START, log) && k <= |log|
    requires After(START, log[..k]).state in {Bound, Renewing, Rebinding}
    ensures 1 < v < k && log[v].Moved? && log[v].to == Bound && log[v - 1].TookAck?
    decreases k
  {
    hide Allowed, Update, Obeys;
    assert k > 0;
    AllowedAt(log, k - 1);
    OnlyThroughBound(After(START, log[..k - 1]), log[k - 1]);
    if log[k - 1].Moved? && log[k - 1].to == Bound {
      v := k - 1;
      PrecededBy(log, v - 1);
    } else {
      v := BoundBefore(log, k - 1);
    }
  }

  // ----- Visits that go unanswered

  function RequestsIn(log: seq<Event>): nat {
    if log == [] then 0 else RequestsIn(log[..|log| - 1]) + if log[|log| - 1].SentRequest? then 1 else 0
  }

  function WaitedIn(log: seq<Event>): nat {
    if log == [] then 0
    else WaitedIn(log[..|log| - 1]) + if log[|log| - 1].Polled? then log[|log| - 1].timeout else 0
  }

  lemma {:induction false} CountsGrow(log: seq<Event>, v: nat, k: nat)
    requires v < k <= |log|
    ensures RequestsIn(log[v..k]) == RequestsIn(log[v..k - 1]) + if log[k - 1].SentRequest? then 1 else 0
    ensures WaitedIn(log[v..k]) == WaitedIn(log[v..k - 1]) + if log[k - 1].Polled? then log[k - 1].timeout else 0
  {
    var visit := log[v..k];
    assert visit[..|visit| - 1] == log[v..k - 1];
  }

  /** What an event that is not a move adds to the counts, and that a move begins them anew. */
  lemma Counts(s: Summary, e: Event)
    ensures var s' := Update(s, e);
            if e.Moved? then s'.requests == 0 && s'.waited == 0 && s'.state == e.to
            else && s'.requests == s.requests + (if e.SentRequest? then 1 else 0)
                 && s'.waited == s.waited + (if e.Polled? then e.timeout else 0)
                 && s'.state == s.state
  {
  }

  /** The requests and waits that the summary counts are those since the last move. */
  lemma {:induction false} SinceMove(log: seq<Event>, k: nat) returns (v: nat)
    requires Obeys(START, log) && k <= |log|
    ensures v <= k && (forall x | v <= x < k :: !log[x].Moved?)
    ensures After(START, log[..k]).requests == RequestsIn(log[v..k])
    ensures After(START, log[..k]).waited == WaitedIn(log[v..k])
    ensures if v == 0 then After(START, log[..k]).state == Init
            else log[v - 1].Moved? && log[v - 1].to == After(START, log[..k]).state
    decreases k
  {
    hide Allowed, Obeys;
    if k == 0 {
      assert log[..0] == [] && log[0..0] == [];
      v := 0;
    } else {
      AllowedAt(log, k - 1);
      Counts(After(START, log[..k - 1]), log[k - 1]);
      if log[k - 1].Moved? {
        v := k;
        assert log[k..k] == [];
      } else {
        v := SinceMove(log, k - 1);
        CountsGrow(log, v, k);
      }
    }
  }

  lemma WhyInit(s: Summary, e: Event)
    requires Allowed(s, e)
    ensures s.last == Some(Halted) ==> e.Moved?
    ensures e.Moved? && e.to == Init && s.last != Some(Halted) ==>
              (s.state == Requesting || s.state == Rebinding) && s.requests == 5 && 119000 <= s.waited <= 129000
  {
  }

  /** The client starts over without a NAK only from Requesting or Rebinding, after exactly five
      requests and between 119 and 129 seconds of waiting in that visit; it has not halted the
      network then. */
  lemma {:induction false} StartingOver(log: seq<Event>, k: nat) returns (v: nat)
    requires Obeys(START, log) && k < |log| && log[k].Moved? && log[k].to == Init
    requires k == 0 || log[k - 1] != Halted
    ensures 0 < v <= k && log[v - 1].Moved? && log[v - 1].to in {Requesting, Rebinding}
    ensures (forall x | v <= x < k :: !log[x].Moved? && log[x] != Halted)
    ensures RequestsIn(log[v..k]) == 5 && 119000 <= WaitedIn(log[v..k]) <= 129000
  {
    hide Allowed, Update, Obeys, After, RequestsIn, WaitedIn;
    AllowedAt(log, k);
    WhyInit(After(START, log[..k]), log[k]);
    v := SinceMove(log, k);
    forall x | v <= x < k
      ensures log[x] != Halted
    {
      AllowedAt(log, x + 1);
      WhyInit(After(START, log[..x + 1]), log[x + 1]);
    }
  }

  // ----- Turns without an answer

  /** A message that does not end the wait changes at most the lease and its timers. */
  lemma {:induction false} HandleIdle(c: Client, poll: Poll, noGateway: bool)
    requires !Handle(c, poll, noGateway).done
    ensures
      var h := Handle(c, poll, noGateway);
      && h.c == c.(info := h.c.info, t1 := h.c.t1, t2 := h.c.t2)
      && (h.log == [] ==> h.c == c.(info := h.c.info))
      && (h.log != [] ==> h.log[0] == TimersSet(h.c.t1, h.c.t2) && forall e | e in h.log :: Setup(e))
  {
    if poll.Received? {
      ConfigureEffect(c, poll.msg, poll.t1SetAt, poll.t2SetAt, poll.links, noGateway);
    }
    hide Configure, IsValid, TypeOf, AddressOption;
  }

  /** A wait that no message ends leaves the client where it was, whatever arrives: messages of other
      transactions, of other types, and acks that cannot be configured. */
  lemma {:induction false} UnansweredWait(c: Client, timeout: nat, polls: seq<Poll>, noGateway: bool)
    requires !Answered(c, timeout, polls, noGateway)
    ensures
      var w := Wait(c, timeout, polls, noGateway);
      && w.c == c.(info := w.c.info, t1 := w.c.t1, t2 := w.c.t2)
      && (forall e | e in w.log :: Setup(e))
      && (w.log == [] ==> w.c == c.(info := w.c.info))
    decreases |polls|
  {
    hide Handle;
    if polls == [] {
    } else {
      var h := Handle(c, polls[0], noGateway);
      var took := polls[0].end - polls[0].start;
      HandleIdle(c, polls[0], noGateway);
      if took < timeout as int {
        UnansweredWait(h.c, (timeout as int - took) % 0x1_0000_0000, polls[1..], noGateway);
      }
    }
  }

  /** The turn does not wait, or no message ends its wait. */
  predicate Unanswered(c: Client, round: Round, noGateway: bool) {
    var a := Act(c, round).c;
    a.nextTimeout == NO_TIMEOUT || !Answered(a, ChosenTimeout(a, round.adjustment), round.polls, noGateway)
  }

  /** An unanswered turn of a visit sends one request and doubles the timeout. */
  lemma {:induction false} UnansweredTurn(c: Client, k: nat, round: Round, noGateway: bool)
    requires c.state == Requesting || c.state == Rebinding
    requires k < 5 && c.fuzz && c.nextTimeout == Base(k) && Fair(round) && Unanswered(c, round, noGateway)
    ensures
      var t := Turn(c, round, noGateway);
      var server := if c.state == Rebinding then BROADCAST else c.serverAddress;
      && t.c.state == c.state && t.c.fuzz && t.c.nextTimeout == Base(k + 1)
      && t.c.requestAddress == c.requestAddress && t.c.serverAddress == c.serverAddress
      && |t.log| >= 2 && t.log[0] == SentRequest(Be32(c.nextId), c.requestAddress, server)
      && t.log[1] == Polled(Base(k + 1) + round.adjustment, round.readAt)
      && (forall e | e in t.log[2..] :: Setup(e))
  {
    hide Handle, Wait, Answered;
    Bases();
    var a := Act(c, round);
    var timeout := ChosenTimeout(a.c, round.adjustment);
    UnansweredWait(a.c, timeout, round.polls, noGateway);
    var w := Wait(a.c, timeout, round.polls, noGateway);
    TwoFirst(a.log[0], Polled(timeout, round.readAt), w.log);
    assert a.log == [a.log[0]];
  }

  lemma TwoFirst(e: Event, f: Event, log: seq<Event>)
    ensures ([e] + ([f] + log))[0] == e && ([e] + ([f] + log))[1] == f && ([e] + ([f] + log))[2..] == log
  {
  }

  predicate UnansweredRun(c: Client, rounds: seq<Round>, noGateway: bool)
    decreases |rounds|
  {
    rounds == []
    || (Unanswered(c, rounds[0], noGateway) && UnansweredRun(Turn(c, rounds[0], noGateway).c, rounds[1..], noGateway))
  }

  lemma {:induction false} RunFirst(c: Client, rounds: seq<Round>, noGateway: bool)
    requires rounds != []
    ensures
      var first := Turn(c, rounds[0], noGateway);
      var rest := Run(first.c, rounds[1..], noGateway);
      Run(c, rounds, noGateway) == Outcome(rest.c, first.log + rest.log)
  {
    hide Turn;
  }

  lemma {:induction false} LastTurn(c: Client, rounds: seq<Round>, noGateway: bool)
    requires (c.state == Requesting || c.state == Rebinding) && |rounds| == 1 && c.nextTimeout == Base(5)
    ensures Run(c, rounds, noGateway).c.state == Init && RequestsIn(Run(c, rounds, noGateway).log) == 0
  {
    Bases();
    hide Base, Handle, Wait;
    var first, moved := Turn(c, rounds[0], noGateway), [Moved(Init, rounds[0].checkedAt)];
    assert rounds[1..] == [] && first.log + [] == moved && moved[..0] == [];
  }

  lemma {:induction false} OneRequest(log: seq<Event>)
    requires |log| >= 2 && log[0].SentRequest? && log[1].Polled? && forall e | e in log[2..] :: Setup(e)
    ensures RequestsIn(log) == 1
  {
    assert log == log[..2] + log[2..];
    RequestsConcat(log[..2], log[2..]);
    RequestsOfTurn(log[..2]);
    NoRequests(log[2..]);
  }

  /** An unanswered visit ends: after five requests and a sixth turn the client starts over. */
  lemma {:induction false} UnansweredVisitEnds(c: Client, k: nat, rounds: seq<Round>, noGateway: bool)
    requires c.state == Requesting || c.state == Rebinding
    requires k <= 5 && |rounds| == 6 - k && c.fuzz && c.nextTimeout == Base(k)
    requires UnansweredRun(c, rounds, noGateway) && forall r | r in rounds :: Fair(r)
    ensures Run(c, rounds, noGateway).c.state == Init
    ensures RequestsIn(Run(c, rounds, noGateway).log) == 5 - k
    decreases |rounds|
  {
    hide Turn, RequestsIn, Unanswered, Base, Fair, Run;
    var first, rest := Turn(c, rounds[0], noGateway), rounds[1..];
    assert rounds[0] in rounds && forall r | r in rest :: r in rounds;
    if k == 5 {
      LastTurn(c, rounds, noGateway);
    } else {
      RunFirst(c, rounds, noGateway);
      UnansweredTurn(c, k, rounds[0], noGateway);
      UnansweredVisitEnds(first.c, k + 1, rest, noGateway);
      RequestsConcat(first.log, Run(first.c, rest, noGateway).log);
      OneRequest(first.log);
    }
  }

  lemma {:induction false} NoRequests(log: seq<Event>)
    requires forall e | e in log :: Setup(e)
    ensures RequestsIn(log) == 0
    decreases |log|
  {
    if log == [] {
    } else {
      assert log[|log| - 1] in log && forall e | e in log[..|log| - 1] :: e in log;
      NoRequests(log[..|log| - 1]);
    }
  }

  lemma {:induction false} RequestsOfTurn(log: seq<Event>)
    requires |log| == 2 && log[0].SentRequest? && log[1].Polled?
    ensures RequestsIn(log) == 1
  {
    assert log[..1][..0] == [] && RequestsIn(log[..1]) == 1;
  }

  lemma {:induction false} RequestsConcat(a: seq<Event>, b: seq<Event>)
    ensures RequestsIn(a + b) == RequestsIn(a) + RequestsIn(b)
    decreases |b|
  {
    if b == [] {
      assert a + b == a;
    } else {
      assert (a + b)[..|a + b| - 1] == a + b[..|b| - 1];
      RequestsConcat(a, b[..|b| - 1]);
    }
  }

  // ----- The time a wait takes

  /** The polls happen one after the other, each ending no earlier than it starts. */
  predicate Ordered(polls: seq<Poll>) {
    forall p | p in polls :: p.start <= p.end
  }

  /** Whether a message ends the wait. */
  predicate Answered(c: Client, timeout: nat, polls: seq<Poll>, noGateway: bool)
    decreases |polls|
  {
    polls != [] &&
    (var h := Handle(c, polls[0], noGateway);
     var took := polls[0].end - polls[0].start;
     h.done || (took < timeout as int && Answered(h.c, (timeout as int - took) % 0x1_0000_0000, polls[1..], noGateway)))
  }

  /** Whether a poll that no message ends takes longer than it was given. */
  predicate Overshoots(c: Client, timeout: nat, polls: seq<Poll>, noGateway: bool)
    decreases |polls|
  {
    polls != [] &&
    (var h := Handle(c, polls[0], noGateway);
     var took := polls[0].end - polls[0].start;
     took > timeout as int
     || (took < timeout as int && Overshoots(h.c, (timeout as int - took) % 0x1_0000_0000, polls[1..], noGateway)))
  }

  /** Across any mix of irrelevant messages and errors a wait that no message ends takes at least its
      timeout, and exactly that just when no poll overshoots. */
  lemma {:induction false} WaitTakesItsTime(c: Client, timeout: uint32, polls: seq<Poll>, noGateway: bool)
    requires Ordered(polls) && !Answered(c, timeout, polls, noGateway)
    ensures Wait(c, timeout, polls, noGateway).spent >= timeout
    ensures Wait(c, timeout, polls, noGateway).spent == timeout <==> !Overshoots(c, timeout, polls, noGateway)
    decreases |polls|
  {
    hide Handle;
    if polls == [] {
    } else {
      var h := Handle(c, polls[0], noGateway);
      var took := polls[0].end - polls[0].start;
      assert polls[0] in polls;
      if !h.done && took < timeout as int {
        assert forall p | p in polls[1..] :: p in polls;
        WaitTakesItsTime(h.c, timeout as int - took, polls[1..], noGateway);
      }
    }
  }

  /** A wait that a message ends takes no longer than its timeout, but for the last poll. */
  lemma {:induction false} AnsweredInTime(c: Client, timeout: uint32, polls: seq<Poll>, noGateway: bool)
    requires Ordered(polls) && Answered(c, timeout, polls, noGateway)
    ensures exists p :: p in polls && Wait(c, timeout, polls, noGateway).spent <= timeout as int + (p.end - p.start)
    decreases |polls|
  {
    hide Handle;
    var h := Handle(c, polls[0], noGateway);
    var took := polls[0].end - polls[0].start;
    assert polls[0] in polls;
    if h.done {
    } else {
      assert forall p | p in polls[1..] :: p in polls;
      AnsweredInTime(h.c, timeout as int - took, polls[1..], noGateway);
      var p :| p in polls[1..]
        && Wait(h.c, timeout as int - took, polls[1..], noGateway).spent <= timeout as int - took + (p.end - p.start);
      assert p in polls;
    }
  }

  // ----- An exchange with the server of the same repository

  /** The poll brings an offer or ack that answers `source`. */
  ghost predicate Brings(poll: Poll, messageType: byte, source: Msg, lease: Info) {
    && poll.Received? && poll.headersOk
    && Built(poll.msg, LeaseHeader(source, lease.offeredAddress),
             LeaseOptions(messageType, lease.serverId, lease.subnetMask, lease.gateway, lease.dns))
  }

  /** What the client keeps of a lease. */
  function Kept(lease: Info): Info {
    Info(0, 0, 1476526080, 0, DnsRead(lease.dns), lease.gateway, lease.subnetMask, lease.serverId, lease.offeredAddress)
  }

  lemma {:induction false} OfferTaken(c: Client, poll: Poll, source: Msg, lease: Info, noGateway: bool)
    requires c.state == Selecting && Brings(poll, DHCPOFFER, source, lease) && XidOf(source) == c.lastXid
    ensures Handle(c, poll, noGateway) == TakeOffer(c, lease.serverId, lease.offeredAddress, poll.start)
  {
    OfferIsUnderstood(poll.msg, source, lease.serverId, lease.offeredAddress, lease.subnetMask, lease.gateway, lease.dns);
    hide IsValid, TypeOf, AddressOption, Configure, TakeOffer;
  }

  /** What a successful configuration makes of the client. */
  function Bind(c: Client, lease: Info, poll: Poll): Client
    requires poll.Received?
  {
    SetNextState(c.(info := Kept(lease), t1 := Expiry(poll.t1SetAt, 738263040), t2 := Expiry(poll.t2SetAt, 218218496)), Bound)
  }

  lemma {:induction false} AckTaken(c: Client, poll: Poll, source: Msg, lease: Info, noGateway: bool)
    requires AwaitsAck(c.state) && Brings(poll, DHCPACK, source, lease) && XidOf(source) == c.lastXid
    requires poll.links.bringUp && poll.links.setAddress && (noGateway || poll.links.setGateway)
    ensures Handle(c, poll, noGateway).done && Handle(c, poll, noGateway).c == Bind(c, lease, poll)
  {
    AckIsUnderstood(poll.msg, source, lease.serverId, lease.offeredAddress, lease.subnetMask, lease.gateway, lease.dns);
    OwnLeaseTimers(Kept(lease));
    AckConfigures(c, poll, lease, noGateway);
    hide IsValid, TypeOf, AddressOption, Configure, Walk, T1Seconds, T2Seconds;
  }

  lemma {:induction false} AckConfigures(c: Client, poll: Poll, lease: Info, noGateway: bool)
    requires poll.Received? && OptionsSize(poll.msg) >= 4 && YiaddrOf(poll.msg) == lease.offeredAddress
    requires Walk(poll.msg, 4, ZERO_INFO) == Walked(true, Kept(lease).(offeredAddress := NO_ADDRESS))
    requires T1Seconds(Kept(lease)) == 738263040 && T2Seconds(Kept(lease)) == 218218496
    requires poll.links.bringUp && poll.links.setAddress && (noGateway || poll.links.setGateway)
    ensures
      var r := Configure(c, poll.msg, poll.t1SetAt, poll.t2SetAt, poll.links, noGateway);
      r.ok && r.c == c.(info := Kept(lease), t1 := Expiry(poll.t1SetAt, 738263040), t2 := Expiry(poll.t2SetAt, 218218496))
  {
    hide Walk, T1Seconds, T2Seconds;
  }

  lemma {:induction false} AnsweredTurn(c: Client, round: Round, noGateway: bool, h: Handled)
    requires Act(c, round).c.nextTimeout != NO_TIMEOUT && round.polls != []
    requires h == Handle(Act(c, round).c, round.polls[0], noGateway) && h.done
    ensures Turn(c, round, noGateway).c == h.c
  {
    hide Act, Handle;
  }

  lemma {:induction false} OfferTurn(c: Client, round: Round, source: Msg, lease: Info, noGateway: bool)
    requires c.state == Selecting && round.polls != [] && Brings(round.polls[0], DHCPOFFER, source, lease)
    requires XidOf(source) == Be32(c.nextId)
    ensures
      var r := Turn(c, round, noGateway).c;
      && r.state == Requesting && r.nextTimeout == NO_TIMEOUT && r.nextId == (c.nextId + 1) % 0x1_0000_0000
      && r.requestAddress == lease.offeredAddress && r.serverAddress == lease.serverId
  {
    hide Handle, Built, Brings, Turn, IncreasedTimeout;
    var c1 := SendDiscover(c).c;
    IncreasedIsSome(c.nextTimeout);
    OfferTaken(c1, round.polls[0], source, lease, noGateway);
    AnsweredTurn(c, round, noGateway, Handle(c1, round.polls[0], noGateway));
  }

  lemma {:induction false} AckTurn(c: Client, round: Round, source: Msg, lease: Info, noGateway: bool)
    requires c.state == Requesting && c.nextTimeout < MAX_TIMEOUT
    requires round.polls != [] && Brings(round.polls[0], DHCPACK, source, lease)
    requires XidOf(source) == Be32(c.nextId)
    requires round.polls[0].links.bringUp && round.polls[0].links.setAddress && (noGateway || round.polls[0].links.setGateway)
    ensures Turn(c, round, noGateway).c == Bind(SendRequest(c, c.serverAddress).c, lease, round.polls[0])
  {
    hide Handle, Built, Brings, Turn, IncreasedTimeout, Bind;
    var c1 := SendRequest(c, c.serverAddress).c;
    IncreasedIsSome(c.nextTimeout);
    AckTaken(c1, round.polls[0], source, lease, noGateway);
    AnsweredTurn(c, round, noGateway, Handle(c1, round.polls[0], noGateway));
  }

  /** An exchange that is answered binds: when the first thing that arrives in Selecting is an offer for
      the discover just sent, and the first thing after that an ack for the request just sent, both
      built by the server of this repository, then two turns lead to Bound with the server's lease. */
  lemma {:induction false} ExchangeBinds(c: Client, mac: hardwareAddress, discover: Msg, request: Msg, lease: Info,
                                         first: Round, second: Round, noGateway: bool)
    requires c.state == Selecting && first.polls != [] && second.polls != []
    requires Built(discover, RequestHeader(c.nextId, mac), DiscoverOptions())
    requires Brings(first.polls[0], DHCPOFFER, discover, lease)
    requires Built(request, RequestHeader((c.nextId + 1) % 0x1_0000_0000, mac), RequestOptions(lease.offeredAddress, lease.serverId))
    requires Brings(second.polls[0], DHCPACK, request, lease)
    requires second.polls[0].links.bringUp && second.polls[0].links.setAddress && (noGateway || second.polls[0].links.setGateway)
    ensures
      var r := Run(c, [first, second], noGateway).c;
      && r.state == Bound && r.info == Kept(lease)
      && r.requestAddress == lease.offeredAddress && r.serverAddress == lease.serverId
      && r.t1 == Expiry(second.polls[0].t1SetAt, 738263040) && r.t2 == Expiry(second.polls[0].t2SetAt, 218218496)
  {
    BuiltIsWellFormed(discover, RequestHeader(c.nextId, mac), DiscoverOptions());
    BuiltIsWellFormed(request, RequestHeader((c.nextId + 1) % 0x1_0000_0000, mac),
                      RequestOptions(lease.offeredAddress, lease.serverId));
    hide Turn, Built, Kept, Run, HasHeader, RequestOptions, DiscoverOptions, AllEncodable;
    OfferTurn(c, first, discover, lease, noGateway);
    AckTurn(Turn(c, first, noGateway).c, second, request, lease, noGateway);
    RunTwo(c, first, second, noGateway);
  }

  lemma IncreasedIsSome(n: uint32)
    ensures IncreasedTimeout(n) != NO_TIMEOUT
  {
  }

  lemma {:induction false} RunTwo(c: Client, first: Round, second: Round, noGateway: bool)
    ensures
      var t1 := Turn(c, first, noGateway);
      var t2 := Turn(t1.c, second, noGateway);
      Run(c, [first, second], noGateway) == Outcome(t2.c, t1.log + t2.log)
  {
    hide Turn;
    assert [first, second][1..] == [second] && [second][1..] == [];
    assert Run(Turn(c, first, noGateway).c, [second], noGateway).log == Turn(Turn(c, first, noGateway).c, second, noGateway).log + [];
  }

  /** Such a lease is never renewed: T2 has expired when T1 has, so the client passes through Renewing
      to Rebinding without sending a request. */
  lemma {:induction false} RenewingIsSkipped(c: Client, first: Round, second: Round, noGateway: bool)
    requires c.state == Bound && c.t2 <= c.t1 <= first.checkedAt <= second.checkedAt
    ensures
      var r := Run(c, [first, second], noGateway);
      r.c.state == Rebinding && r.log == [Moved(Renewing, first.checkedAt), Moved(Rebinding, second.checkedAt)]
  {
    RunTwo(c, first, second, noGateway);
    hide Wait;
    var t1 := Turn(c, first, noGateway);
    assert t1.log == [Moved(Renewing, first.checkedAt)] + [];
    var t2 := Turn(t1.c, second, noGateway);
    assert t2.log == [Moved(Rebinding, second.checkedAt)] + [];
  }
}
