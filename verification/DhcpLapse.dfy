/** Progress of the DHCP client: a client with a lease that nobody renews gives the lease up. First in turns,
    whatever the clock does, then in turns and time, when the clock advances by what the polls take. */
module DhcpLapse {
  import opened Bytes
  import opened DhcpProtocol

  /** Nothing ends a wait and nothing sets the timers anew. An ack that sets them and then cannot be
      configured would put the end of the lease off. */
  predicate Quiet(c: Client, round: Round, noGateway: bool) {
    var a := Act(c, round).c;
    a.nextTimeout == NO_TIMEOUT
    || (!Answered(a, ChosenTimeout(a, round.adjustment), round.polls, noGateway)
        && Wait(a, ChosenTimeout(a, round.adjustment), round.polls, noGateway).log == [])
  }

  predicate QuietRun(c: Client, rounds: seq<Round>, noGateway: bool)
    decreases |rounds|
  {
    rounds == []
    || (Quiet(c, rounds[0], noGateway) && QuietRun(Turn(c, rounds[0], noGateway).c, rounds[1..], noGateway))
  }

  // ----- In turns

  /** The client holds a lease. */
  predicate Leased(c: Client) {
    && (c.state == Bound || c.state == Renewing || c.state == Rebinding)
    && (c.state == Rebinding ==> c.nextTimeout in {0, 4000, 8000, 16000, 32000, 64000})
  }

  /** How many turns it takes to give up once both timers have expired. */
  function TurnsLeft(c: Client): (n: nat)
    ensures 1 <= n <= 8
  {
    match c.state
    case Bound => 8
    case Renewing => 7
    case _ =>
      if c.nextTimeout == 0 then 6 else if c.nextTimeout == 4000 then 5 else if c.nextTimeout == 8000 then 4
      else if c.nextTimeout == 16000 then 3 else if c.nextTimeout == 32000 then 2 else 1
  }

  /** When both timers have expired. */
  function Lapse(c: Client): nat {
    if c.t1 < c.t2 then c.t2 else c.t1
  }

  /** A quiet turn keeps the timers, takes the client no step back, and one step on once they have expired. */
  lemma {:induction false} QuietTurn(c: Client, round: Round, noGateway: bool)
    requires Leased(c) && Quiet(c, round, noGateway)
    ensures
      var r := Turn(c, round, noGateway).c;
      r.state == Init
      || (Leased(r) && Lapse(r) == Lapse(c) && TurnsLeft(r) <= TurnsLeft(c)
          && (round.checkedAt >= Lapse(c) ==> TurnsLeft(r) < TurnsLeft(c)))
  {
    hide Handle, Wait, Answered;
    var a := Act(c, round).c;
    if a.nextTimeout != NO_TIMEOUT {
      UnansweredWait(a, ChosenTimeout(a, round.adjustment), round.polls, noGateway);
    }
  }

  /** A client with a lease that nobody renews starts over within eight turns of the first turn from which
      on both timers have expired, whatever the clock did before and does in between. */
  lemma {:induction false} LeaseLapses(c: Client, rounds: seq<Round>, i: nat, noGateway: bool) returns (n: nat)
    requires Leased(c) && QuietRun(c, rounds, noGateway)
    requires i + TurnsLeft(c) <= |rounds| && forall j | i <= j < i + TurnsLeft(c) :: rounds[j].checkedAt >= Lapse(c)
    ensures n <= i + TurnsLeft(c) && Run(c, rounds[..n], noGateway).c.state == Init
    decreases |rounds|
  {
    hide Turn, Quiet, Leased, TurnsLeft, Lapse;
    QuietTurn(c, rounds[0], noGateway);
    var r, rest := Turn(c, rounds[0], noGateway).c, rounds[1..];
    if r.state == Init {
      n := 1;
      assert rounds[..1][1..] == [];
    } else {
      assert forall j | 0 <= j < |rest| :: rest[j] == rounds[j + 1];
      n := LeaseLapses(r, rest, if i == 0 then 0 else i - 1, noGateway);
      RunMore(c, rounds, n, noGateway);
      n := n + 1;
    }
  }

  lemma {:induction false} RunMore(c: Client, rounds: seq<Round>, n: nat, noGateway: bool)
    requires n < |rounds|
    ensures Run(c, rounds[..n + 1], noGateway).c == Run(Turn(c, rounds[0], noGateway).c, rounds[1..][..n], noGateway).c
  {
    hide Turn;
    assert rounds[..n + 1][0] == rounds[0] && rounds[..n + 1][1..] == rounds[1..][..n];
  }

  // ----- In time

  /** A client with a lease as it comes about: outside Bound timeouts are adjusted and double from four
      seconds on. */
  predicate Holder(c: Client) {
    && (c.state == Bound || c.state == Renewing || c.state == Rebinding)
    && (c.state != Bound ==> c.fuzz && c.nextTimeout in {0, 4000, 8000, 16000, 32000, 64000})
  }

  /** When the turn is over at the earliest: the clock reading before its wait and what its polls took. */
  function Ended(c: Client, round: Round, noGateway: bool): int {
    var a := Act(c, round).c;
    round.readAt
    + if a.nextTimeout == NO_TIMEOUT then 0 else Wait(a, ChosenTimeout(a, round.adjustment), round.polls, noGateway).spent
  }

  /** A turn in Bound does not find the time left to T1 to be a positive multiple of 2^32 milliseconds,
      which the 32-bit timeout cuts to none. */
  predicate Wakes(c: Client, round: Round) {
    c.state == Bound && round.readAt < c.t1 ==> (c.t1 - round.readAt) % 0x1_0000_0000 != 0
  }

  /** From `now` on the clock advances at least by what the polls take, and every turn in Bound waits. */
  predicate Timely(c: Client, rounds: seq<Round>, now: int, noGateway: bool)
    decreases |rounds|
  {
    rounds == []
    || (now <= rounds[0].checkedAt <= rounds[0].readAt && Ordered(rounds[0].polls) && Fair(rounds[0]) && Wakes(c, rounds[0])
        && Timely(Turn(c, rounds[0], noGateway).c, rounds[1..], Ended(c, rounds[0], noGateway), noGateway))
  }

  /** How many pieces of length `d` it takes to cover `left`. */
  function Pieces(left: int, d: nat): nat
    requires d > 0
    decreases if left < 0 then 0 else left
  {
    if left <= 0 then 0 else 1 + Pieces(left - d, d)
  }

  /** How many turns are left at most from `now` on: in Bound one for every begun 2^32 milliseconds to T1, in
      Renewing one for every begun three seconds to T2, and those of TurnsLeft. */
  function Budget(c: Client, now: int): nat {
    match c.state
    case Bound => Pieces(c.t1 - now, 0x1_0000_0000) + Pieces(c.t2 - now, 3000) + 8
    case Renewing => Pieces(c.t2 - now, 3000) + 7
    case _ => TurnsLeft(c)
  }

  lemma {:induction false} PiecesGrow(left: int, more: int, d: nat)
    requires d > 0 && left <= more
    ensures Pieces(left, d) <= Pieces(more, d)
    decreases if more < 0 then 0 else more
  {
    if left <= 0 {
    } else {
      PiecesGrow(left - d, more - d, d);
    }
  }

  /** Cutting off what exceeds a multiple of 2^32 saves a piece. */
  lemma {:induction false} CutSaves(left: nat)
    requires left % 0x1_0000_0000 != 0
    ensures Pieces(left - left % 0x1_0000_0000, 0x1_0000_0000) < Pieces(left, 0x1_0000_0000)
    decreases left
  {
    if left < 0x1_0000_0000 {
    } else {
      CutSaves(left - 0x1_0000_0000);
    }
  }

  lemma {:induction false} BoundTurn(c: Client, round: Round, now: int, noGateway: bool)
    requires c.state == Bound && Quiet(c, round, noGateway) && Wakes(c, round)
    requires now <= round.checkedAt <= round.readAt && Ordered(round.polls)
    ensures
      var r := Turn(c, round, noGateway).c;
      Holder(r) && r.t2 == c.t2 && Ended(c, round, noGateway) >= round.readAt && Budget(r, Ended(c, round, noGateway)) < Budget(c, now)
  {
    hide Handle, Wait, Answered, Pieces;
    var a, e := Act(c, round).c, Ended(c, round, noGateway);
    if round.checkedAt < c.t1 {
      if round.readAt < c.t1 {
        var left := c.t1 - round.readAt;
        UnansweredWait(a, left % 0x1_0000_0000, round.polls, noGateway);
        WaitTakesItsTime(a, left % 0x1_0000_0000, round.polls, noGateway);
        CutSaves(left);
        PiecesGrow(c.t1 - e, left - left % 0x1_0000_0000, 0x1_0000_0000);
        PiecesGrow(left, c.t1 - now, 0x1_0000_0000);
      } else {
        NonePieces(c.t1 - e, c.t1 - now);
      }
    }
    PiecesGrow(c.t2 - e, c.t2 - now, 3000);
  }

  lemma NonePieces(left: int, more: int)
    requires left <= 0 < more
    ensures Pieces(left, 0x1_0000_0000) < Pieces(more, 0x1_0000_0000)
  {
  }

  lemma {:induction false} RenewingTurn(c: Client, round: Round, now: int, noGateway: bool)
    requires Holder(c) && c.state == Renewing && Quiet(c, round, noGateway) && Fair(round)
    requires now <= round.checkedAt <= round.readAt && Ordered(round.polls)
    ensures
      var r := Turn(c, round, noGateway).c;
      Holder(r) && Ended(c, round, noGateway) >= round.readAt && Budget(r, Ended(c, round, noGateway)) < Budget(c, now)
  {
    hide Handle, Wait, Answered;
    var a, e := Act(c, round).c, Ended(c, round, noGateway);
    if round.checkedAt < c.t2 {
      var timeout := ChosenTimeout(a, round.adjustment);
      assert timeout >= 3000;
      UnansweredWait(a, timeout, round.polls, noGateway);
      WaitTakesItsTime(a, timeout, round.polls, noGateway);
      PiecesGrow(c.t2 - e, c.t2 - now - 3000, 3000);
    }
  }

  lemma {:induction false} RebindingTurn(c: Client, round: Round, noGateway: bool)
    requires Holder(c) && c.state == Rebinding && Quiet(c, round, noGateway)
    ensures
      var r := Turn(c, round, noGateway).c;
      r.state == Init || (Holder(r) && r.state == Rebinding && TurnsLeft(r) < TurnsLeft(c))
  {
    hide Handle, Wait, Answered;
    var a := Act(c, round).c;
    if a.nextTimeout != NO_TIMEOUT {
      UnansweredWait(a, ChosenTimeout(a, round.adjustment), round.polls, noGateway);
    }
  }

  /** With a clock that advances by what the polls take, a client whose lease nobody renews starts over after
      at most as many turns as its budget. Until T1 that is one turn for every begun 2^32 milliseconds. */
  lemma {:induction false} LeaseLapsesInTime(c: Client, rounds: seq<Round>, now: int, noGateway: bool) returns (n: nat)
    requires Holder(c) && QuietRun(c, rounds, noGateway) && Timely(c, rounds, now, noGateway)
    requires |rounds| >= Budget(c, now)
    ensures n <= Budget(c, now) && Run(c, rounds[..n], noGateway).c.state == Init
    decreases |rounds|
  {
    BudgetIsPositive(c, now);
    hide Turn, Quiet, Ended, Wakes, Budget, TurnsLeft;
    var r, e, rest := Turn(c, rounds[0], noGateway).c, Ended(c, rounds[0], noGateway), rounds[1..];
    HolderTurn(c, rounds[0], now, noGateway);
    if r.state == Init {
      n := 1;
      assert rounds[..1][1..] == [];
    } else {
      n := LeaseLapsesInTime(r, rest, e, noGateway);
      RunMore(c, rounds, n, noGateway);
      n := n + 1;
    }
  }

  lemma BudgetIsPositive(c: Client, now: int)
    ensures Budget(c, now) > 0
  {
  }

  lemma {:induction false} HolderTurn(c: Client, round: Round, now: int, noGateway: bool)
    requires Holder(c) && Quiet(c, round, noGateway) && Wakes(c, round) && Fair(round)
    requires now <= round.checkedAt <= round.readAt && Ordered(round.polls)
    ensures
      var r := Turn(c, round, noGateway).c;
      r.state == Init || (Holder(r) && Budget(r, Ended(c, round, noGateway)) < Budget(c, now))
  {
    hide Turn, Quiet, Ended, Wakes, Pieces;
    if c.state == Bound {
      BoundTurn(c, round, now, noGateway);
    } else if c.state == Renewing {
      RenewingTurn(c, round, now, noGateway);
    } else {
      RebindingTurn(c, round, noGateway);
    }
  }

  /** A turn in Bound before T1 goes by without a wait and changes nothing but the flag of the adjustment
      exactly when the time left to T1 is a multiple of 2^32 milliseconds, none included. */
  lemma {:induction false} BoundSpinsIff(c: Client, round: Round, noGateway: bool)
    requires c.state == Bound && round.checkedAt < c.t1
    ensures Turn(c, round, noGateway).log == [] <==> Remaining(c.t1, round.readAt) % 0x1_0000_0000 == 0
    ensures Turn(c, round, noGateway).log == [] ==> Turn(c, round, noGateway).c == c.(nextTimeout := NO_TIMEOUT, fuzz := false)
  {
    hide Handle, Wait;
  }
}
