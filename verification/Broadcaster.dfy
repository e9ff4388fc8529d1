/** The broadcaster as a state machine: any number of consumers, timers, crashes and restarts. */
module Broadcaster {
  /** The receipt of a transaction, once there is one, is always the same. */
  datatype Config = Config(maxRetries: int, succeeds: string -> bool)

  datatype Status = Pending | Broadcasted | Retrying | Confirmed | Reverted | Failed

  /** A transaction: its row, and what is under way for it. `queued` messages are not delivered yet,
      `delayed` re-enqueues wait for their timers, `sending` are the consumers about to broadcast, each with
      the retry count it has read, `failing` those that have written BROADCASTED while their next write fails,
      `polling` those that wait for a receipt, and `recovering` the restarts that have selected the row and
      not yet written it. `sent` counts the broadcasts; `accepted` tells whether the node took one. */
  datatype Tx = Tx(known: bool, hasRaw: bool, retries: nat, status: Status, queued: nat, delayed: nat,
                   sending: multiset<nat>, failing: multiset<nat>, polling: nat, recovering: nat, sent: nat,
                   accepted: bool)

  function Unknown(): Tx {
    Tx(false, false, 0, Pending, 0, 0, multiset{}, multiset{}, 0, 0, 0, false)
  }

  /** `taken` tells whether the node took the broadcast: a call can throw although it did, for example
      when only its answer is lost. A write that fails is one of the events: before the row says BROADCASTED
      SendThrows, right after it SendMarks and then MarkedThrows; after a receipt was written
      ReceiptSeenThrows; in the handling of an error or after a timeout a crash of that consumer. */
  datatype Event =
    | Enter(tx: string, hasRaw: bool)
    | Deliver(tx: string)
    | DeliveryLost(tx: string)
    | SendSucceeds(tx: string, retries: nat)
    | SendThrows(tx: string, retries: nat, taken: bool)
    | SendMarks(tx: string, retries: nat)
    | MarkedThrows(tx: string, retries: nat)
    | CrashMarked(tx: string, retries: nat)
    | ReceiptSeen(tx: string)
    | ReceiptSeenThrows(tx: string)
    | ReceiptTimeout(tx: string)
    | TimerFires(tx: string)
    | TimerLost(tx: string)
    | CrashSending(tx: string, retries: nat, broadcast: bool, taken: bool)
    | CrashPolling(tx: string)
    | RecoverSelect(tx: string)
    | RecoverWrite(tx: string)
    | RecoverGiveUp(tx: string)

  function Settled(success: bool): Status {
    if success then Confirmed else Reverted
  }

  /** The end of a broadcast attempt. */
  function Attempted(t: Tx, n: nat, taken: bool): Tx
    requires n in t.sending
  {
    t.(sending := t.sending - multiset{n}, sent := t.sent + 1, accepted := t.accepted || taken)
  }

  /** What the catch does: another try later, or the end. */
  function Caught(cfg: Config, t: Tx, n: nat): Tx {
    if n + 1 >= cfg.maxRetries then t.(status := Failed)
    else t.(status := Retrying, retries := t.retries + 1, delayed := t.delayed + 1)
  }

  /** A message that was delivered is never delivered again, not even after a
      crash, because consumers only ask for new ones. An event that is not possible changes nothing. */
  function Step(cfg: Config, t: Tx, e: Event): Tx {
    match e
    case Enter(_, hasRaw) =>
      if t.known then t
      else t.(known := true, hasRaw := hasRaw, retries := 0, status := Pending, queued := t.queued + 1)
    case Deliver(_) =>
      if t.queued == 0 then t
      else if !t.known then t.(queued := t.queued - 1)
      else if !t.hasRaw then t.(queued := t.queued - 1, status := Failed)
      else t.(queued := t.queued - 1, sending := t.sending + multiset{t.retries})
    case DeliveryLost(_) =>
      if t.queued == 0 then t else t.(queued := t.queued - 1)
    case SendSucceeds(_, n) =>
      if n !in t.sending then t else Attempted(t, n, true).(status := Broadcasted, polling := t.polling + 1)
    case SendThrows(_, n, taken) =>
      if n !in t.sending then t else Caught(cfg, Attempted(t, n, taken), n)
    case SendMarks(_, n) =>
      if n !in t.sending then t
      else Attempted(t, n, true).(status := Broadcasted, failing := t.failing + multiset{n})
    case MarkedThrows(_, n) =>
      if n !in t.failing then t else Caught(cfg, t.(failing := t.failing - multiset{n}), n)
    case CrashMarked(_, n) =>
      if n !in t.failing then t else t.(failing := t.failing - multiset{n})
    case ReceiptSeen(tx) =>
      if t.polling == 0 then t else t.(polling := t.polling - 1, status := Settled(cfg.succeeds(tx)))
    case ReceiptSeenThrows(tx) =>
      if t.polling == 0 then t else t.(status := Settled(cfg.succeeds(tx)))
    case ReceiptTimeout(_) =>
      if t.polling == 0 then t else t.(polling := t.polling - 1, status := Failed)
    case TimerFires(_) =>
      if t.delayed == 0 then t else t.(delayed := t.delayed - 1, queued := t.queued + 1)
    case TimerLost(_) =>
      if t.delayed == 0 then t else t.(delayed := t.delayed - 1)
    case CrashSending(_, n, broadcast, taken) =>
      if n !in t.sending then t
      else if broadcast then Attempted(t, n, taken)
      else t.(sending := t.sending - multiset{n})
    case CrashPolling(_) =>
      if t.polling == 0 then t else t.(polling := t.polling - 1)
    case RecoverSelect(_) =>
      if !t.known || t.status != Broadcasted then t else t.(recovering := t.recovering + 1)
    case RecoverWrite(tx) =>
      if t.recovering == 0 then t else t.(recovering := t.recovering - 1, status := Settled(cfg.succeeds(tx)))
    case RecoverGiveUp(_) =>
      if t.recovering == 0 then t else t.(recovering := t.recovering - 1)
  }

  /** The transaction after a run of events of any transactions. */
  function After(cfg: Config, events: seq<Event>, tx: string): Tx {
    if events == [] then Unknown()
    else
      var t, e := After(cfg, events[..|events| - 1], tx), events[|events| - 1];
      if e.tx == tx then Step(cfg, t, e) else t
  }

  function Limit(maxRetries: int): nat {
    if maxRetries < 1 then 1 else maxRetries
  }

  /** How many ways there are for the transaction to be broadcast next. */
  function Chances(t: Tx): nat {
    t.queued + t.delayed + |t.sending| + |t.failing|
  }

  predicate Final(t: Tx) {
    t.status in {Confirmed, Reverted}
  }

  /** There is at most one chance; while there is one, every broadcast so far but one that is failing was a
      counted retry, there are retries left, and nobody polls. A settled status is the receipt's. */
  predicate Sound(cfg: Config, t: Tx, tx: string) {
    && t.sent <= Limit(cfg.maxRetries)
    && Chances(t) <= 1
    && (t.sending == multiset{} || (t.sending == multiset{t.retries} && t.hasRaw))
    && (t.failing == multiset{} || (t.failing == multiset{t.retries} && t.hasRaw && t.accepted))
    && (Chances(t) > 0 ==>
          && t.known && t.sent == t.retries + |t.failing| && t.retries < Limit(cfg.maxRetries) && t.polling == 0)
    && (!t.known ==> t == Unknown())
    && (Final(t) ==> t.status == Settled(cfg.succeeds(tx)))
  }

  lemma StepKeepsSound(cfg: Config, t: Tx, e: Event)
    requires Sound(cfg, t, e.tx)
    ensures Sound(cfg, Step(cfg, t, e), e.tx)
  {
    hide Step, Sound;
    match e
    case SendSucceeds(_, n) => SendKeepsSound(cfg, t, e, n);
    case SendThrows(_, n, _) => ErrorKeepsSound(cfg, t, e, n);
    case SendMarks(_, n) => SendKeepsSound(cfg, t, e, n);
    case MarkedThrows(_, n) => ErrorKeepsSound(cfg, t, e, n);
    case CrashMarked(_, n) => ErrorKeepsSound(cfg, t, e, n);
    case CrashSending(_, n, _, _) => SendKeepsSound(cfg, t, e, n);
    case Deliver(_) => DeliverKeepsSound(cfg, t, e);
    case _ => OthersKeepSound(cfg, t, e);
  }

  /** Whoever sends or fails is the only one. */
  lemma OneAtWork(cfg: Config, t: Tx, tx: string, n: nat)
    requires Sound(cfg, t, tx)
    ensures n in t.sending ==> t.sending - multiset{n} == multiset{} && n == t.retries && t.failing == multiset{}
    ensures n in t.failing ==> t.failing - multiset{n} == multiset{} && n == t.retries && t.sending == multiset{}
  {
  }

  lemma SendKeepsSound(cfg: Config, t: Tx, e: Event, n: nat)
    requires Sound(cfg, t, e.tx)
    requires e.SendSucceeds? || e.SendMarks? || e.CrashSending?
    requires n == e.retries
    ensures Sound(cfg, Step(cfg, t, e), e.tx)
  {
    OneAtWork(cfg, t, e.tx, n);
  }

  lemma ErrorKeepsSound(cfg: Config, t: Tx, e: Event, n: nat)
    requires Sound(cfg, t, e.tx)
    requires e.SendThrows? || e.MarkedThrows? || e.CrashMarked?
    requires n == e.retries
    ensures Sound(cfg, Step(cfg, t, e), e.tx)
  {
    OneAtWork(cfg, t, e.tx, n);
    hide Caught;
    if e.SendThrows? && n in t.sending {
      CaughtIsSound(cfg, Attempted(t, n, e.taken), n, e.tx);
    } else if e.MarkedThrows? && n in t.failing {
      CaughtIsSound(cfg, t.(failing := t.failing - multiset{n}), n, e.tx);
    }
  }

  /** The catch of the only one at work. */
  lemma CaughtIsSound(cfg: Config, t: Tx, n: nat, tx: string)
    requires t.known && t.hasRaw && Chances(t) == 0 && t.polling == 0 && n == t.retries && t.sent == n + 1
    requires n < Limit(cfg.maxRetries)
    ensures Sound(cfg, Caught(cfg, t, n), tx)
  {
  }

  lemma DeliverKeepsSound(cfg: Config, t: Tx, e: Event)
    requires Sound(cfg, t, e.tx) && e.Deliver?
    ensures Sound(cfg, Step(cfg, t, e), e.tx)
  {
  }

  lemma OthersKeepSound(cfg: Config, t: Tx, e: Event)
    requires Sound(cfg, t, e.tx) && !e.Deliver?
    requires !e.SendSucceeds? && !e.SendThrows? && !e.SendMarks?
    requires !e.MarkedThrows? && !e.CrashMarked? && !e.CrashSending?
    ensures Sound(cfg, Step(cfg, t, e), e.tx)
  {
  }

  lemma {:induction false} RunKeepsSound(cfg: Config, events: seq<Event>, tx: string)
    ensures Sound(cfg, After(cfg, events, tx), tx)
  {
    if events != [] {
      var front, e := events[..|events| - 1], events[|events| - 1];
      RunKeepsSound(cfg, front, tx);
      if e.tx == tx {
        StepKeepsSound(cfg, After(cfg, front, tx), e);
      }
    }
  }

  /** No transaction is broadcast more often than the limit allows, in any run. */
  lemma BroadcastsAreBounded(cfg: Config, events: seq<Event>, tx: string)
    ensures After(cfg, events, tx).sent <= Limit(cfg.maxRetries)
  {
    RunKeepsSound(cfg, events, tx);
  }

  /** What the statuses say of a transaction, besides being the receipt's. */
  predicate Sensible(cfg: Config, t: Tx) {
    && (t.polling > 0 || t.recovering > 0 ==> t.accepted)
    && (t.status in {Broadcasted, Confirmed, Reverted} ==> t.accepted)
    && (t.status == Pending ==> t.retries == 0)
    && (t.status == Retrying ==> t.retries > 0)
    && (t.status == Failed ==> !t.hasRaw || t.accepted || t.sent == Limit(cfg.maxRetries))
  }

  lemma StepKeepsSensible(cfg: Config, t: Tx, e: Event)
    requires Sound(cfg, t, e.tx) && Sensible(cfg, t)
    ensures Sensible(cfg, Step(cfg, t, e))
  {
    hide Sensible;
    match e
    case SendSucceeds(_, n) => SendKeepsSensible(cfg, t, e, n);
    case SendThrows(_, n, _) => ErrorKeepsSensible(cfg, t, e, n);
    case SendMarks(_, n) => SendKeepsSensible(cfg, t, e, n);
    case MarkedThrows(_, n) => ErrorKeepsSensible(cfg, t, e, n);
    case CrashMarked(_, n) => ErrorKeepsSensible(cfg, t, e, n);
    case CrashSending(_, n, _, _) => SendKeepsSensible(cfg, t, e, n);
    case _ => OthersKeepSensible(cfg, t, e);
  }

  lemma SendKeepsSensible(cfg: Config, t: Tx, e: Event, n: nat)
    requires Sound(cfg, t, e.tx) && Sensible(cfg, t)
    requires e.SendSucceeds? || e.SendMarks? || e.CrashSending?
    requires n == e.retries
    ensures Sensible(cfg, Step(cfg, t, e))
  {
    OneAtWork(cfg, t, e.tx, n);
  }

  lemma ErrorKeepsSensible(cfg: Config, t: Tx, e: Event, n: nat)
    requires Sound(cfg, t, e.tx) && Sensible(cfg, t)
    requires e.SendThrows? || e.MarkedThrows? || e.CrashMarked?
    requires n == e.retries
    ensures Sensible(cfg, Step(cfg, t, e))
  {
    OneAtWork(cfg, t, e.tx, n);
  }

  lemma OthersKeepSensible(cfg: Config, t: Tx, e: Event)
    requires Sound(cfg, t, e.tx) && Sensible(cfg, t)
    requires !e.SendSucceeds? && !e.SendThrows? && !e.SendMarks?
    requires !e.MarkedThrows? && !e.CrashMarked? && !e.CrashSending?
    ensures Sensible(cfg, Step(cfg, t, e))
  {
  }

  lemma {:induction false} RunKeepsSensible(cfg: Config, events: seq<Event>, tx: string)
    ensures Sensible(cfg, After(cfg, events, tx))
  {
    if events != [] {
      hide Step, Sound, Sensible;
      var front, e := events[..|events| - 1], events[|events| - 1];
      RunKeepsSensible(cfg, front, tx);
      RunKeepsSound(cfg, front, tx);
      if e.tx == tx {
        StepKeepsSensible(cfg, After(cfg, front, tx), e);
      }
    } else {
      assert Sensible(cfg, Unknown());
    }
  }

  /** In every run the status tells the truth: CONFIRMED and REVERTED are what the receipt says of a transaction the
      node took, BROADCASTED that it took it, RETRYING that an attempt failed, and FAILED that there is nothing to
      send, or that the node took it, or that every allowed attempt was made. */
  lemma StatusTellsTheTruth(cfg: Config, events: seq<Event>, tx: string)
    ensures var t := After(cfg, events, tx);
            && (t.status == Confirmed ==> t.accepted && cfg.succeeds(tx))
            && (t.status == Reverted ==> t.accepted && !cfg.succeeds(tx))
            && (t.status == Broadcasted ==> t.accepted)
            && (t.status == Retrying ==> t.retries > 0)
            && (t.status == Pending ==> t.retries == 0)
            && (t.status == Failed ==> !t.hasRaw || t.accepted || t.sent >= cfg.maxRetries)
  {
    RunKeepsSound(cfg, events, tx);
    RunKeepsSensible(cfg, events, tx);
  }

  lemma OneMore(cfg: Config, events: seq<Event>, e: Event)
    ensures After(cfg, events + [e], e.tx) == Step(cfg, After(cfg, events, e.tx), e)
  {
    assert (events + [e])[..|events|] == events;
  }

  // ---------- broadcasts after acceptance ----------

  /** The event is possible, and the node takes its broadcast. */
  predicate Accepts(t: Tx, e: Event) {
    match e
    case SendSucceeds(_, n) => n in t.sending
    case SendThrows(_, n, taken) => n in t.sending && taken
    case SendMarks(_, n) => n in t.sending
    case CrashSending(_, n, broadcast, taken) => n in t.sending && broadcast && taken
    case _ => false
  }

  /** Nothing is under way that could broadcast the transaction again. */
  predicate NoMoreSends(cfg: Config, t: Tx) {
    && t.known && t.queued + t.delayed + |t.sending| == 0
    && forall n | n in t.failing :: n + 1 >= cfg.maxRetries
  }

  lemma {:induction false} NoChanceNoBroadcast(cfg: Config, events: seq<Event>, more: seq<Event>, tx: string)
    requires NoMoreSends(cfg, After(cfg, events, tx))
    ensures NoMoreSends(cfg, After(cfg, events + more, tx))
    ensures After(cfg, events + more, tx).sent == After(cfg, events, tx).sent
  {
    if more == [] {
      assert events + more == events;
    } else {
      hide Step, NoMoreSends;
      var all := events + more;
      assert all[..|all| - 1] == events + more[..|more| - 1];
      NoChanceNoBroadcast(cfg, events, more[..|more| - 1], tx);
      NoChanceStep(cfg, After(cfg, events + more[..|more| - 1], tx), more[|more| - 1]);
    }
  }

  lemma NoChanceStep(cfg: Config, t: Tx, e: Event)
    requires NoMoreSends(cfg, t)
    ensures NoMoreSends(cfg, Step(cfg, t, e)) && Step(cfg, t, e).sent == t.sent
  {
  }

  /** The broadcast is seen as an error: the call throws, or a write after it. */
  predicate SeenAsError(e: Event) {
    e.SendThrows? || e.SendMarks?
  }

  /** An accepted transaction can be broadcast again exactly if its accepting broadcast was seen as an
      error with retries left. */
  lemma RebroadcastExactly(cfg: Config, events: seq<Event>, e: Event)
    requires Accepts(After(cfg, events, e.tx), e)
    ensures After(cfg, events + [e], e.tx).accepted
    ensures (exists more :: After(cfg, events + [e] + more, e.tx).sent > After(cfg, events + [e], e.tx).sent)
       <==> SeenAsError(e) && e.retries + 1 < cfg.maxRetries
  {
    hide Step, Sound;
    var t, u := After(cfg, events, e.tx), After(cfg, events + [e], e.tx);
    RunKeepsSound(cfg, events, e.tx);
    OneMore(cfg, events, e);
    AfterAcceptance(cfg, t, e);
    if SeenAsError(e) && e.retries + 1 < cfg.maxRetries {
      if e.SendThrows? {
        TryAgain(cfg, events + [e], e.tx);
      } else {
        MarkedTriesAgain(cfg, events + [e], e.tx, e.retries);
      }
    } else {
      forall more
        ensures After(cfg, events + [e] + more, e.tx).sent == u.sent
      {
        NoChanceNoBroadcast(cfg, events + [e], more, e.tx);
      }
    }
  }

  lemma AfterAcceptance(cfg: Config, t: Tx, e: Event)
    requires Sound(cfg, t, e.tx) && Accepts(t, e)
    ensures var u := Step(cfg, t, e);
            && u.accepted && u.known && u.hasRaw
            && (if SeenAsError(e) && e.retries + 1 < cfg.maxRetries then
                  if e.SendThrows? then u.delayed > 0 else e.retries in u.failing
                else NoMoreSends(cfg, u))
  {
  }

  /** A transaction that waits for its timer can be broadcast in three more events. */
  lemma TryAgain(cfg: Config, events: seq<Event>, tx: string)
    requires var t := After(cfg, events, tx); t.known && t.hasRaw && t.delayed > 0
    ensures var t := After(cfg, events, tx);
            After(cfg, events + [TimerFires(tx), Deliver(tx), SendThrows(tx, t.retries, false)], tx).sent == t.sent + 1
  {
    hide Step;
    var t := After(cfg, events, tx);
    var fired := events + [TimerFires(tx)];
    var delivered := fired + [Deliver(tx)];
    OneMore(cfg, events, TimerFires(tx));
    OneMore(cfg, fired, Deliver(tx));
    OneMore(cfg, delivered, SendThrows(tx, t.retries, false));
    ThreeSteps(cfg, t, tx);
    assert delivered + [SendThrows(tx, t.retries, false)]
        == events + [TimerFires(tx), Deliver(tx), SendThrows(tx, t.retries, false)];
  }

  lemma MarkedIsCaught(cfg: Config, t: Tx, tx: string, n: nat)
    requires n in t.failing && n + 1 < cfg.maxRetries
    ensures var u := Step(cfg, t, MarkedThrows(tx, n));
            u.known == t.known && u.hasRaw == t.hasRaw && u.delayed > 0 && u.sent == t.sent
  {
  }

  lemma MarkedTriesAgain(cfg: Config, events: seq<Event>, tx: string, n: nat)
    requires var t := After(cfg, events, tx);
             t.known && t.hasRaw && n in t.failing && n + 1 < cfg.maxRetries
    ensures exists more :: After(cfg, events + more, tx).sent > After(cfg, events, tx).sent
  {
    hide Step;
    var caught := events + [MarkedThrows(tx, n)];
    var retries := After(cfg, caught, tx).retries;
    MarkedIsCaught(cfg, After(cfg, events, tx), tx, n);
    OneMore(cfg, events, MarkedThrows(tx, n));
    TryAgain(cfg, caught, tx);
    var again := [TimerFires(tx), Deliver(tx), SendThrows(tx, retries, false)];
    assert caught + again == events + ([MarkedThrows(tx, n)] + again);
  }

  lemma ThreeSteps(cfg: Config, t: Tx, tx: string)
    requires t.known && t.hasRaw && t.delayed > 0
    ensures Step(cfg, Step(cfg, Step(cfg, t, TimerFires(tx)), Deliver(tx)), SendThrows(tx, t.retries, false)).sent
         == t.sent + 1
  {
    hide Step;
    var fired := t.(delayed := t.delayed - 1, queued := t.queued + 1);
    var delivered := fired.(queued := t.queued, sending := t.sending + multiset{t.retries});
    TimerQueues(cfg, t, tx);
    DeliverSends(cfg, fired, tx);
    ThrowCounts(cfg, delivered, tx, t.retries);
  }

  lemma TimerQueues(cfg: Config, t: Tx, tx: string)
    requires t.delayed > 0
    ensures Step(cfg, t, TimerFires(tx)) == t.(delayed := t.delayed - 1, queued := t.queued + 1)
  {
  }

  lemma DeliverSends(cfg: Config, t: Tx, tx: string)
    requires t.queued > 0 && t.known && t.hasRaw
    ensures Step(cfg, t, Deliver(tx)) == t.(queued := t.queued - 1, sending := t.sending + multiset{t.retries})
  {
  }

  lemma ThrowCounts(cfg: Config, t: Tx, tx: string, n: nat)
    requires n in t.sending
    ensures Step(cfg, t, SendThrows(tx, n, false)).sent == t.sent + 1
  {
  }

  /** Such a run: the answer to the first broadcast is lost, the second is refused because the node has the
      transaction already, and it ends as FAILED although it was accepted. */
  lemma AcceptedThenFailed(tx: string, succeeds: string -> bool)
    ensures var events := [Enter(tx, true), Deliver(tx), SendThrows(tx, 0, true), TimerFires(tx), Deliver(tx),
                           SendThrows(tx, 1, false)];
            var t := After(Config(2, succeeds), events, tx);
            t.accepted && t.sent == 2 && t.status == Failed
  {
    var cfg := Config(2, succeeds);
    var s0: seq<Event> := [];
    var s1 := s0 + [Enter(tx, true)];
    var s2 := s1 + [Deliver(tx)];
    var s3 := s2 + [SendThrows(tx, 0, true)];
    var s4 := s3 + [TimerFires(tx)];
    var s5 := s4 + [Deliver(tx)];
    OneMore(cfg, s0, Enter(tx, true));
    OneMore(cfg, s1, Deliver(tx));
    OneMore(cfg, s2, SendThrows(tx, 0, true));
    OneMore(cfg, s3, TimerFires(tx));
    OneMore(cfg, s4, Deliver(tx));
    OneMore(cfg, s5, SendThrows(tx, 1, false));
    assert s5 + [SendThrows(tx, 1, false)]
        == [Enter(tx, true), Deliver(tx), SendThrows(tx, 0, true), TimerFires(tx), Deliver(tx),
            SendThrows(tx, 1, false)];
  }

  // ---------- final statuses ----------

  /** Nobody polls the transaction, and nothing leads to another attempt. */
  predicate AtRest(t: Tx) {
    t.polling == 0 && Chances(t) == 0
  }

  lemma {:induction false} FinalStays(cfg: Config, events: seq<Event>, more: seq<Event>, tx: string)
    requires Final(After(cfg, events, tx)) && AtRest(After(cfg, events, tx))
    ensures var t := After(cfg, events + more, tx);
            t.status == After(cfg, events, tx).status && AtRest(t)
  {
    RunKeepsSound(cfg, events, tx);
    if more == [] {
      assert events + more == events;
    } else {
      hide Step, Sound, AtRest, Final;
      var front, all := more[..|more| - 1], events + more;
      assert all[..|all| - 1] == events + front;
      FinalStays(cfg, events, front, tx);
      RunKeepsSound(cfg, events + front, tx);
      if more[|more| - 1].tx == tx {
        FinalStep(cfg, After(cfg, events + front, tx), more[|more| - 1]);
      }
    }
  }

  lemma FinalStep(cfg: Config, t: Tx, e: Event)
    requires Sound(cfg, t, e.tx) && Final(t) && AtRest(t)
    ensures Step(cfg, t, e).status == t.status && AtRest(Step(cfg, t, e))
  {
  }

  /** A confirmed or reverted transaction stays so in every continuation exactly when no consumer still
      polls it and no attempt is under way or to come. Recovery at the start of a second broadcaster can
      settle a transaction whose poller then times out and writes FAILED, or one that is marked as broadcast
      while an error is on its way to the retry. */
  lemma FinalExactlyAtRest(cfg: Config, events: seq<Event>, tx: string)
    requires Final(After(cfg, events, tx))
    ensures (forall more :: After(cfg, events + more, tx).status == After(cfg, events, tx).status)
       <==> AtRest(After(cfg, events, tx))
  {
    hide Step;
    if AtRest(After(cfg, events, tx)) {
      forall more
        ensures After(cfg, events + more, tx).status == After(cfg, events, tx).status
      {
        FinalStays(cfg, events, more, tx);
      }
    } else {
      var more := Unsettle(cfg, events, tx);
    }
  }

  /** A continuation that overwrites a settled status. */
  lemma Unsettle(cfg: Config, events: seq<Event>, tx: string) returns (more: seq<Event>)
    requires !AtRest(After(cfg, events, tx)) && Final(After(cfg, events, tx))
    ensures !Final(After(cfg, events + more, tx))
  {
    hide Step, Sound, Final;
    RunKeepsSound(cfg, events, tx);
    var t := After(cfg, events, tx);
    if t.polling > 0 || |t.failing| > 0 || |t.sending| > 0 {
      var e := UnsettlingEvent(cfg, t, tx);
      OneMore(cfg, events, e);
      more := [e];
    } else if t.queued > 0 {
      more := UnsettleByMessage(cfg, events, tx);
    } else {
      OneMore(cfg, events, TimerFires(tx));
      TimerQueues(cfg, t, tx);
      var rest := UnsettleByMessage(cfg, events + [TimerFires(tx)], tx);
      more := [TimerFires(tx)] + rest;
      assert events + more == events + [TimerFires(tx)] + rest;
    }
  }

  lemma AtWork(cfg: Config, t: Tx, tx: string)
    requires Sound(cfg, t, tx)
    ensures |t.sending| > 0 ==> t.retries in t.sending
    ensures |t.failing| > 0 ==> t.retries in t.failing
  {
  }

  /** A consumer that is at work overwrites the status by failing. */
  lemma UnsettlingEvent(cfg: Config, t: Tx, tx: string) returns (e: Event)
    requires Sound(cfg, t, tx) && (t.polling > 0 || |t.failing| > 0 || |t.sending| > 0)
    ensures e.tx == tx && !Final(Step(cfg, t, e))
  {
    AtWork(cfg, t, tx);
    hide Sound;
    if t.polling > 0 {
      e := ReceiptTimeout(tx);
    } else if |t.failing| > 0 {
      e := MarkedThrows(tx, t.retries);
    } else {
      e := SendThrows(tx, t.retries, false);
    }
  }

  lemma UnsettleByMessage(cfg: Config, events: seq<Event>, tx: string) returns (more: seq<Event>)
    requires After(cfg, events, tx).queued > 0 && After(cfg, events, tx).known
    ensures !Final(After(cfg, events + more, tx))
  {
    var t := After(cfg, events, tx);
    OneMore(cfg, events, Deliver(tx));
    if t.hasRaw {
      var attempt := SendThrows(tx, t.retries, false);
      OneMore(cfg, events + [Deliver(tx)], attempt);
      more := [Deliver(tx), attempt];
      assert events + more == events + [Deliver(tx)] + [attempt];
    } else {
      more := [Deliver(tx)];
    }
  }

  /** Such runs exist: recovery settles a transaction that is still polled ... */
  lemma ConfirmedWhilePolled(cfg: Config, tx: string)
    ensures var t := After(cfg, [Enter(tx, true), Deliver(tx), SendSucceeds(tx, 0), RecoverSelect(tx),
                                 RecoverWrite(tx)], tx);
            Final(t) && t.polling > 0
  {
    var none: seq<Event> := [];
    var entered := none + [Enter(tx, true)];
    var delivered := entered + [Deliver(tx)];
    var accepted := delivered + [SendSucceeds(tx, 0)];
    var selected := accepted + [RecoverSelect(tx)];
    OneMore(cfg, none, Enter(tx, true));
    OneMore(cfg, entered, Deliver(tx));
    OneMore(cfg, delivered, SendSucceeds(tx, 0));
    OneMore(cfg, accepted, RecoverSelect(tx));
    OneMore(cfg, selected, RecoverWrite(tx));
    assert selected + [RecoverWrite(tx)]
        == [Enter(tx, true), Deliver(tx), SendSucceeds(tx, 0), RecoverSelect(tx), RecoverWrite(tx)];
  }

  /** ... or one that nobody polls and that will be tried again. */
  lemma ConfirmedWhileRetrying(cfg: Config, tx: string)
    requires cfg.maxRetries > 1
    ensures var t := After(cfg, [Enter(tx, true), Deliver(tx), SendMarks(tx, 0), RecoverSelect(tx),
                                 MarkedThrows(tx, 0), RecoverWrite(tx)], tx);
            Final(t) && t.polling == 0 && t.delayed > 0
  {
    var none: seq<Event> := [];
    var entered := none + [Enter(tx, true)];
    var delivered := entered + [Deliver(tx)];
    var marked := delivered + [SendMarks(tx, 0)];
    var selected := marked + [RecoverSelect(tx)];
    var caught := selected + [MarkedThrows(tx, 0)];
    OneMore(cfg, none, Enter(tx, true));
    OneMore(cfg, entered, Deliver(tx));
    OneMore(cfg, delivered, SendMarks(tx, 0));
    OneMore(cfg, marked, RecoverSelect(tx));
    OneMore(cfg, selected, MarkedThrows(tx, 0));
    OneMore(cfg, caught, RecoverWrite(tx));
    assert caught + [RecoverWrite(tx)]
        == [Enter(tx, true), Deliver(tx), SendMarks(tx, 0), RecoverSelect(tx), MarkedThrows(tx, 0),
            RecoverWrite(tx)];
  }

  // ---------- one process, without a crash ----------

  datatype Row = Row(hasRaw: bool, retries: nat, status: Status)

  /** How the broadcast of one message goes, and then its polling. */
  datatype Answer = Throws(taken: bool) | NextWriteThrows | Receipt | NoReceipt

  class Consumer {
    const cfg: Config
    var rows: map<string, Row>
    var queue: multiset<string>
    var timers: multiset<string>
    var sent: map<string, nat>
    var accepted: set<string>

    constructor (cfg: Config)
      ensures this.cfg == cfg && forall tx :: View(tx) == Unknown()
    {
      this.cfg, rows, queue, timers, sent, accepted := cfg, map[], multiset{}, multiset{}, map[], {};
    }

    /** A transaction between two messages: nobody is sending, polling or recovering. */
    ghost function View(tx: string): Tx
      reads this
    {
      var row := if tx in rows then rows[tx] else Row(false, 0, Pending);
      Tx(tx in rows, row.hasRaw, row.retries, row.status, queue[tx], timers[tx], multiset{}, multiset{}, 0, 0,
         if tx in sent then sent[tx] else 0, tx in accepted)
    }

    /** A new transaction: its row and its first message. */
    method Submit(tx: string, hasRaw: bool)
      requires tx !in rows
      modifies this
      ensures View(tx) == Step(cfg, old(View(tx)), Enter(tx, hasRaw))
      ensures forall other | other != tx :: View(other) == old(View(other))
    {
      rows := rows[tx := Row(hasRaw, 0, Pending)];
      queue := queue + multiset{tx};
    }

    /** processTx for a message of the queue, with its broadcast and its polling. */
    method ProcessTx(tx: string, answer: Answer)
      requires tx in queue
      modifies this
      ensures View(tx) == Processed(cfg, old(View(tx)), tx, answer)
      ensures forall other | other != tx :: View(other) == old(View(other))
    {
      hide Processed, Step, View;
      ViewAtRest(tx);
      ProcessedIs(cfg, View(tx), tx, answer);
      TakeMessage(tx);
      if tx in rows {
        if !rows[tx].hasRaw {
          WriteStatus(tx, Failed);
        } else if answer.Throws? {
          Attempt(tx, answer.taken);
          Catch(tx);
        } else if answer.NextWriteThrows? {
          BroadcastAccepted(tx);
          Catch(tx);
        } else {
          BroadcastAccepted(tx);
          WriteStatus(tx, if answer == NoReceipt then Failed else Settled(cfg.succeeds(tx)));
        }
      }
    }

    lemma ViewAtRest(tx: string)
      ensures var t := View(tx);
              && t.queued == queue[tx] && t.sending == t.failing == multiset{} && t.polling == 0
              && (t.known <==> tx in rows)
              && (tx in rows ==> t.hasRaw == rows[tx].hasRaw && t.retries == rows[tx].retries)
    {
    }

    method TakeMessage(tx: string)
      requires tx in queue
      modifies this`queue
      ensures View(tx) == old(View(tx)).(queued := old(View(tx)).queued - 1)
      ensures forall other | other != tx :: View(other) == old(View(other))
    {
      queue := queue - multiset{tx};
    }

    method WriteStatus(tx: string, status: Status)
      requires tx in rows
      modifies this`rows
      ensures rows.Keys == old(rows.Keys) && View(tx) == old(View(tx)).(status := status)
      ensures forall other | other != tx :: View(other) == old(View(other))
    {
      rows := rows[tx := rows[tx].(status := status)];
    }

    /** The broadcast or a write after it threw: another try later, or the end. */
    method Catch(tx: string)
      requires tx in rows
      modifies this
      ensures View(tx) == Caught(cfg, old(View(tx)), old(View(tx)).retries)
      ensures forall other | other != tx :: View(other) == old(View(other))
    {
      ViewAtRest(tx);
      hide View;
      if rows[tx].retries + 1 >= cfg.maxRetries {
        WriteStatus(tx, Failed);
      } else {
        Retry(tx);
      }
    }

    /** The call itself. */
    method Attempt(tx: string, taken: bool)
      modifies this`sent, this`accepted
      ensures View(tx) == old(View(tx)).(sent := old(View(tx)).sent + 1, accepted := old(View(tx)).accepted || taken)
      ensures forall other | other != tx :: View(other) == old(View(other))
    {
      sent := sent[tx := (if tx in sent then sent[tx] else 0) + 1];
      if taken {
        accepted := accepted + {tx};
      }
    }

    method Retry(tx: string)
      requires tx in rows
      modifies this`rows, this`timers
      ensures var t := old(View(tx));
              View(tx) == t.(status := Retrying, retries := t.retries + 1, delayed := t.delayed + 1)
      ensures forall other | other != tx :: View(other) == old(View(other))
    {
      rows := rows[tx := rows[tx].(status := Retrying, retries := rows[tx].retries + 1)];
      timers := timers + multiset{tx};
    }

    method BroadcastAccepted(tx: string)
      requires tx in rows
      modifies this
      ensures tx in rows
      ensures var t := old(View(tx)); View(tx) == t.(sent := t.sent + 1, status := Broadcasted, accepted := true)
      ensures forall other | other != tx :: View(other) == old(View(other))
    {
      hide View;
      Attempt(tx, true);
      WriteStatus(tx, Broadcasted);
    }

    /** The timer of a broadcast that threw. */
    method Requeue(tx: string)
      requires tx in timers
      modifies this
      ensures View(tx) == Step(cfg, old(View(tx)), TimerFires(tx))
      ensures forall other | other != tx :: View(other) == old(View(other))
    {
      timers := timers - multiset{tx};
      queue := queue + multiset{tx};
    }

    /** recoverOrphanedTxs. `found` are the transactions whose receipt is there. */
    method RecoverOrphanedTxs(found: set<string>)
      modifies this`rows
      ensures forall tx :: View(tx) == Recovered(cfg, old(View(tx)), tx, tx in found)
    {
      hide View, Recovered, Step;
      var orphans := set tx | tx in rows && rows[tx].status == Broadcasted;
      var todo := orphans;
      OrphansInView(orphans);
      ghost var before := rows;
      while todo != {}
        invariant todo <= orphans && rows.Keys == before.Keys
        invariant forall tx ::
                    View(tx) == if tx in todo then old(View(tx)) else Recovered(cfg, old(View(tx)), tx, tx in found)
        decreases |todo|
      {
        var tx :| tx in todo;
        todo := todo - {tx};
        ghost var t := old(View(tx));
        assert tx in orphans && View(tx) == t && t.known && t.status == Broadcasted;
        RecoveredIs(cfg, t, tx, tx in found);
        if tx in found {
          WriteStatus(tx, Settled(cfg.succeeds(tx)));
        }
      }
    }

    lemma OrphansInView(orphans: set<string>)
      requires orphans == set tx | tx in rows && rows[tx].status == Broadcasted
      ensures forall tx :: View(tx).recovering == 0
      ensures forall tx :: tx in orphans <==> View(tx).known && View(tx).status == Broadcasted
      ensures forall tx, found | tx !in orphans :: Recovered(cfg, View(tx), tx, found) == View(tx)
    {
    }
  }

  /** The events of one message. */
  function Processed(cfg: Config, t: Tx, tx: string, answer: Answer): Tx {
    var delivered := Step(cfg, t, Deliver(tx));
    match answer
    case Throws(taken) => Step(cfg, delivered, SendThrows(tx, t.retries, taken))
    case NextWriteThrows => Step(cfg, Step(cfg, delivered, SendMarks(tx, t.retries)), MarkedThrows(tx, t.retries))
    case Receipt => Step(cfg, Step(cfg, delivered, SendSucceeds(tx, t.retries)), ReceiptSeen(tx))
    case NoReceipt => Step(cfg, Step(cfg, delivered, SendSucceeds(tx, t.retries)), ReceiptTimeout(tx))
  }

  lemma TriedIs(cfg: Config, t: Tx, tx: string)
    requires t.known && t.hasRaw && t.queued > 0 && t.sending == t.failing == multiset{} && t.polling == 0
    ensures var u := t.(queued := t.queued - 1, sent := t.sent + 1);
            var d := Step(cfg, t, Deliver(tx));
            && (forall taken :: Step(cfg, d, SendThrows(tx, t.retries, taken))
                             == Caught(cfg, u.(accepted := t.accepted || taken), t.retries))
            && Step(cfg, d, SendSucceeds(tx, t.retries)) == u.(accepted := true, status := Broadcasted, polling := 1)
            && Step(cfg, d, SendMarks(tx, t.retries))
               == u.(accepted := true, status := Broadcasted, failing := multiset{t.retries})
  {
    hide Caught;
    assert multiset{t.retries} - multiset{t.retries} == multiset{};
  }

  lemma MarkedThrowsIs(cfg: Config, t: Tx, tx: string, n: nat)
    requires t.failing == multiset{n}
    ensures Step(cfg, t, MarkedThrows(tx, n)) == Caught(cfg, t.(failing := multiset{}), n)
  {
    hide Caught;
    assert multiset{n} - multiset{n} == multiset{};
  }

  lemma ReceiptIs(cfg: Config, t: Tx, tx: string)
    requires t.polling == 1
    ensures Step(cfg, t, ReceiptSeen(tx)) == t.(polling := 0, status := Settled(cfg.succeeds(tx)))
    ensures Step(cfg, t, ReceiptTimeout(tx)) == t.(polling := 0, status := Failed)
  {
  }

  lemma UntriedIs(cfg: Config, t: Tx, tx: string, answer: Answer)
    requires t.queued > 0 && t.sending == t.failing == multiset{} && t.polling == 0 && !(t.known && t.hasRaw)
    ensures var taken := t.(queued := t.queued - 1);
            Processed(cfg, t, tx, answer) == if t.known then taken.(status := Failed) else taken
  {
  }

  lemma ProcessedIs(cfg: Config, t: Tx, tx: string, answer: Answer)
    requires t.queued > 0 && t.sending == t.failing == multiset{} && t.polling == 0
    ensures var taken := t.(queued := t.queued - 1);
            var tried := taken.(sent := t.sent + 1, accepted := t.accepted || answer != Throws(false));
            && (!t.known ==> Processed(cfg, t, tx, answer) == taken)
            && (t.known && !t.hasRaw ==> Processed(cfg, t, tx, answer) == taken.(status := Failed))
            && (t.known && t.hasRaw && answer.Throws? ==>
                  Processed(cfg, t, tx, answer) == Caught(cfg, tried, t.retries))
            && (t.known && t.hasRaw && answer.NextWriteThrows? ==>
                  Processed(cfg, t, tx, answer) == Caught(cfg, tried.(status := Broadcasted), t.retries))
            && (t.known && t.hasRaw && (answer.Receipt? || answer.NoReceipt?) ==>
                  Processed(cfg, t, tx, answer)
                  == tried.(status := if answer == NoReceipt then Failed else Settled(cfg.succeeds(tx))))
  {
    hide Step, Caught;
    if t.known && t.hasRaw {
      var marked := t.(queued := t.queued - 1, sent := t.sent + 1, accepted := true, status := Broadcasted);
      TriedIs(cfg, t, tx);
      MarkedThrowsIs(cfg, marked.(failing := multiset{t.retries}), tx, t.retries);
      ReceiptIs(cfg, marked.(polling := 1), tx);
    } else {
      UntriedIs(cfg, t, tx, answer);
    }
  }

  /** The events of one recovery. */
  function Recovered(cfg: Config, t: Tx, tx: string, found: bool): Tx {
    var selected := Step(cfg, t, RecoverSelect(tx));
    if found then Step(cfg, selected, RecoverWrite(tx)) else Step(cfg, selected, RecoverGiveUp(tx))
  }

  lemma RecoveredIs(cfg: Config, t: Tx, tx: string, found: bool)
    requires t.recovering == 0
    ensures Recovered(cfg, t, tx, found)
         == if t.known && t.status == Broadcasted && found then t.(status := Settled(cfg.succeeds(tx))) else t
  {
  }
}
