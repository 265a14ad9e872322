/** Transaction ids over whole runs of the DHCP client: message after message takes the next one, so that an
    answer that is taken belongs to exactly one message. */
module DhcpTransactions {
  import opened Bytes
  import opened DhcpProtocol

  /** How many messages the log has sent. */
  function SentIn(log: seq<Event>): nat {
    if log == [] then 0 else (if Sent(log[0]) then 1 else 0) + SentIn(log[1..])
  }

  /** The `n`-th id after `first`. */
  function IdAfter(first: uint32, n: nat): uint32 {
    (first as int + n) % 0x1_0000_0000
  }

  lemma IdAfterAdd(first: uint32, m: nat, n: nat)
    ensures IdAfter(IdAfter(first, m), n) == IdAfter(first, m + n) && IdAfter(first, 0) == first
  {
  }

  lemma IdAfterRound(first: uint32, n: nat)
    ensures IdAfter(first, n + 0x1_0000_0000) == IdAfter(first, n)
  {
  }

  /** Every message of the log takes the id that its number gives it. */
  ghost predicate Numbered(log: seq<Event>, first: uint32) {
    forall k | 0 <= k < |log| && Sent(log[k]) :: log[k].xid == Be32(IdAfter(first, SentIn(log[..k])))
  }

  lemma {:induction false} SentConcat(a: seq<Event>, b: seq<Event>)
    ensures SentIn(a + b) == SentIn(a) + SentIn(b)
    decreases |a|
  {
    if a == [] {
      assert a + b == b;
    } else {
      assert (a + b)[1..] == a[1..] + b;
      SentConcat(a[1..], b);
    }
  }

  lemma {:induction false} NumberedConcat(a: seq<Event>, b: seq<Event>, first: uint32)
    requires Numbered(a, first) && Numbered(b, IdAfter(first, SentIn(a)))
    ensures Numbered(a + b, first)
  {
    hide IdAfter, Be32, SentIn;
    var log := a + b;
    forall k | 0 <= k < |log| && Sent(log[k])
      ensures log[k].xid == Be32(IdAfter(first, SentIn(log[..k])))
    {
      if k < |a| {
        assert log[..k] == a[..k];
      } else {
        assert log[..k] == a + b[..k - |a|];
        SentConcat(a, b[..k - |a|]);
        IdAfterAdd(first, SentIn(a), SentIn(b[..k - |a|]));
      }
    }
  }

  lemma {:induction false} NoneSent(log: seq<Event>, first: uint32)
    requires forall e | e in log :: !Sent(e)
    ensures SentIn(log) == 0 && Numbered(log, first)
    decreases |log|
  {
    if log == [] {
    } else {
      assert log[0] in log && forall e | e in log[1..] :: e in log;
      NoneSent(log[1..], first);
      assert forall k | 0 <= k < |log| :: log[k] in log;
    }
  }

  /** What arrives sends nothing and uses no id. */
  lemma {:induction false} WaitSendsNothing(c: Client, timeout: nat, polls: seq<Poll>, noGateway: bool)
    ensures
      var w := Wait(c, timeout, polls, noGateway);
      w.c.nextId == c.nextId && forall e | e in w.log :: !Sent(e)
    decreases |polls|
  {
    hide Handle;
    if polls == [] {
    } else {
      var h := Handle(c, polls[0], noGateway);
      HandleSendsNothing(c, polls[0], noGateway);
      var took := polls[0].end - polls[0].start;
      if !h.done && took < timeout as int {
        WaitSendsNothing(h.c, (timeout as int - took) % 0x1_0000_0000, polls[1..], noGateway);
      }
    }
  }

  lemma {:induction false} HandleSendsNothing(c: Client, poll: Poll, noGateway: bool)
    ensures
      var h := Handle(c, poll, noGateway);
      h.c.nextId == c.nextId && forall e | e in h.log :: !Sent(e)
  {
    if poll.Received? {
      ConfigureEffect(c, poll.msg, poll.t1SetAt, poll.t2SetAt, poll.links, noGateway);
    }
    hide Configure, Relevant;
  }

  lemma {:induction false} ActNumbers(c: Client, round: Round)
    ensures
      var a := Act(c, round);
      Numbered(a.log, c.nextId) && a.c.nextId == IdAfter(c.nextId, SentIn(a.log))
  {
    var log := Act(c, round).log;
    hide IncreasedTimeout, Be32;
    IdAfterAdd(c.nextId, 0, 1);
    NoneOrOne(log);
  }

  lemma NoneOrOne(log: seq<Event>)
    requires |log| <= 1
    ensures log[..0] == [] && SentIn([]) == 0
    ensures |log| == 1 ==> SentIn(log) == if Sent(log[0]) then 1 else 0
  {
  }

  lemma {:induction false} TurnNumbers(c: Client, round: Round, noGateway: bool)
    ensures
      var t := Turn(c, round, noGateway);
      Numbered(t.log, c.nextId) && t.c.nextId == IdAfter(c.nextId, SentIn(t.log))
  {
    var a := Act(c, round);
    var p := Pause(a.c, round, noGateway);
    ActNumbers(c, round);
    WaitSendsNothing(a.c, ChosenTimeout(a.c, round.adjustment), round.polls, noGateway);
    hide Wait, Act;
    NoneSent(p.log, a.c.nextId);
    SentConcat(a.log, p.log);
    IdAfterAdd(c.nextId, SentIn(a.log), 0);
    NumberedConcat(a.log, p.log, c.nextId);
  }

  /** Over every run the messages are numbered from the first id on. */
  lemma {:induction false} RunNumbers(c: Client, rounds: seq<Round>, noGateway: bool)
    ensures
      var r := Run(c, rounds, noGateway);
      Numbered(r.log, c.nextId) && r.c.nextId == IdAfter(c.nextId, SentIn(r.log))
    decreases |rounds|
  {
    hide Turn;
    if rounds == [] {
    } else {
      var first := Turn(c, rounds[0], noGateway);
      var rest := Run(first.c, rounds[1..], noGateway);
      TurnNumbers(c, rounds[0], noGateway);
      RunNumbers(first.c, rounds[1..], noGateway);
      NumberedConcat(first.log, rest.log, c.nextId);
      SentConcat(first.log, rest.log);
      IdAfterAdd(c.nextId, SentIn(first.log), SentIn(rest.log));
    }
  }

  lemma {:induction false} FewerSentBefore(log: seq<Event>, i: nat, j: nat)
    requires i < j <= |log| && Sent(log[i])
    ensures SentIn(log[..i]) < SentIn(log[..j]) <= SentIn(log)
  {
    assert log[..j] == log[..i] + log[i..j] && log == log[..j] + log[j..];
    SentConcat(log[..i], log[i..j]);
    SentConcat(log[..j], log[j..]);
  }

  lemma {:induction false} IdsDiffer(first: uint32, m: nat, n: nat)
    requires m < n < 0x1_0000_0000
    ensures Be32(IdAfter(first, m)) != Be32(IdAfter(first, n))
  {
    var a, b := IdAfter(first, m), IdAfter(first, n);
    assert FromBe32(Be32(a)) == a && FromBe32(Be32(b)) == b;
  }

  /** In a run that sends at most 2^32 messages no two have the same transaction id. */
  lemma {:induction false} FreshIds(c: Client, rounds: seq<Round>, noGateway: bool, i: nat, j: nat)
    requires
      var log := Run(c, rounds, noGateway).log;
      SentIn(log) <= 0x1_0000_0000 && i < j < |log| && Sent(log[i]) && Sent(log[j])
    ensures
      var log := Run(c, rounds, noGateway).log;
      log[i].xid != log[j].xid
  {
    var log := Run(c, rounds, noGateway).log;
    RunNumbers(c, rounds, noGateway);
    hide Run, IdAfter, SentIn;
    FewerSentBefore(log, i, j);
    FewerSentBefore(log, j, j + 1);
    FewerSentBefore(log, j, |log|);
    IdsDiffer(c.nextId, SentIn(log[..i]), SentIn(log[..j]));
  }

  /** The bound is tight: with one message more the last takes the id of the first. */
  lemma {:induction false} IdsComeRound(c: Client, rounds: seq<Round>, noGateway: bool, i: nat, j: nat)
    requires
      var log := Run(c, rounds, noGateway).log;
      i < j < |log| && Sent(log[i]) && Sent(log[j]) && SentIn(log[..j]) == SentIn(log[..i]) + 0x1_0000_0000
    ensures
      var log := Run(c, rounds, noGateway).log;
      log[i].xid == log[j].xid
  {
    var log := Run(c, rounds, noGateway).log;
    RunNumbers(c, rounds, noGateway);
    hide Run, IdAfter, Be32, SentIn;
    IdAfterRound(c.nextId, SentIn(log[..i]));
  }

  predicate Took(e: Event) {
    e.TookOffer? || e.TookAck? || e.TookNak?
  }

  /** From construction on, in such a run: an answer that is taken has the id of exactly one message, the last
      one sent before it. */
  lemma {:induction false} AnswersOneMessage(nextId: uint32, rounds: seq<Round>, noGateway: bool, k: nat) returns (i: nat)
    requires forall r | r in rounds :: Fair(r) && Monotone(r)
    requires
      var log := Run(NewClient(nextId), rounds, noGateway).log;
      SentIn(log) <= 0x1_0000_0000 && k < |log| && Took(log[k])
    ensures
      var log := Run(NewClient(nextId), rounds, noGateway).log;
      && i < k && Sent(log[i]) && (forall x | i < x < k :: !Sent(log[x]))
      && forall j | 0 <= j < |log| && Sent(log[j]) :: log[j].xid == log[k].xid <==> j == i
  {
    var log := Run(NewClient(nextId), rounds, noGateway).log;
    RunsObey(nextId, rounds, noGateway);
    AllowedAt(log, k);
    TookLastSent(After(START, log[..k]), log[k]);
    hide Allowed, Run, After, Obeys, SentIn;
    i := LastSent(log, k);
    forall j | 0 <= j < |log| && Sent(log[j])
      ensures log[j].xid == log[k].xid <==> j == i
    {
      if j < i {
        FreshIds(NewClient(nextId), rounds, noGateway, j, i);
      } else if i < j {
        FreshIds(NewClient(nextId), rounds, noGateway, i, j);
      }
    }
  }

  lemma TookLastSent(s: Summary, e: Event)
    requires Allowed(s, e) && Took(e)
    ensures s.sent.Some? && (Sent(s.sent.value) ==> s.sent.value.xid == e.xid)
  {
  }
}
