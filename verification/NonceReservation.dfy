/** Nonce reservations of many signers that interleave between their steps. */
module NonceReservation {
  import opened Hashing

  /** A database transaction that holds the row of its wallet. */
  datatype Open = Open(chain: int, last: int, written: Option<int>)

  datatype Reservation = Reservation(wallet: string, nonce: int, chain: int)

  /** `waiting` are the signers that have asked the chain and not yet locked the row; `issued` are the
      committed reservations in the order of their commits. */
  datatype State = State(rows: map<string, int>, waiting: multiset<(string, int)>, open: map<string, Open>,
                         issued: seq<Reservation>)

  /** `chain` is whatever the node answered, however stale. */
  datatype Event =
    | AskChain(wallet: string, chain: int)
    | LockRow(wallet: string, chain: int)
    | WriteRow(wallet: string)
    | Commit(wallet: string)
    | Rollback(wallet: string)

  function Max(a: int, b: int): int {
    if a > b then a else b
  }

  /** An event that is not possible in a state changes nothing: a second signer waits for the row. */
  function Next(s: State, e: Event): State {
    match e
    case AskChain(w, chain) => s.(waiting := s.waiting + multiset{(w, chain)})
    case LockRow(w, chain) =>
      if (w, chain) !in s.waiting || w in s.open then s
      else if w !in s.rows then s.(waiting := s.waiting - multiset{(w, chain)})
      else s.(waiting := s.waiting - multiset{(w, chain)}, open := s.open[w := Open(chain, s.rows[w], None)])
    case WriteRow(w) =>
      if w !in s.open || s.open[w].written.Some? then s
      else
        var t := s.open[w];
        s.(open := s.open[w := t.(written := Some(if t.last + 1 > t.chain then t.last + 1 else t.chain))])
    case Commit(w) =>
      if w !in s.open || s.open[w].written.None? then s
      else
        var t := s.open[w];
        s.(rows := s.rows[w := t.written.value], open := s.open - {w},
           issued := s.issued + [Reservation(w, t.written.value, t.chain)])
    case Rollback(w) => s.(open := s.open - {w})
  }

  function Run(rows: map<string, int>, events: seq<Event>): State {
    if events == [] then State(rows, multiset{}, map[], [])
    else Next(Run(rows, events[..|events| - 1]), events[|events| - 1])
  }

  ghost predicate Inv(s: State) {
    && (forall w | w in s.open :: w in s.rows && s.open[w].last == s.rows[w])
    && (forall w | w in s.open && s.open[w].written.Some? ::
          s.open[w].written.value == Max(s.open[w].last + 1, s.open[w].chain))
    && (forall i | 0 <= i < |s.issued| ::
          && s.issued[i].wallet in s.rows && s.issued[i].nonce <= s.rows[s.issued[i].wallet]
          && s.issued[i].nonce >= s.issued[i].chain)
    && (forall i, j | 0 <= i < j < |s.issued| && s.issued[i].wallet == s.issued[j].wallet ::
          s.issued[i].nonce < s.issued[j].nonce)
  }

  lemma NextKeepsInv(s: State, e: Event)
    requires Inv(s)
    ensures Inv(Next(s, e))
  {
  }

  lemma {:induction false} RunKeepsInv(rows: map<string, int>, events: seq<Event>)
    ensures Inv(Run(rows, events))
  {
    if events != [] {
      hide Inv, Next;
      RunKeepsInv(rows, events[..|events| - 1]);
      NextKeepsInv(Run(rows, events[..|events| - 1]), events[|events| - 1]);
    } else {
      StartInv(rows);
    }
  }

  lemma StartInv(rows: map<string, int>)
    ensures Inv(State(rows, multiset{}, map[], []))
  {
  }

  /** In every interleaving, with every answer of the chain, the nonces of one wallet strictly increase in
      the order of their commits, so no two signers ever get the same one, and none is behind the chain
      as its signer saw it. */
  lemma NoncesNeverRepeat(rows: map<string, int>, events: seq<Event>, i: nat, j: nat)
    requires i < j < |Run(rows, events).issued|
    requires Run(rows, events).issued[i].wallet == Run(rows, events).issued[j].wallet
    ensures Run(rows, events).issued[i].nonce < Run(rows, events).issued[j].nonce
    ensures Run(rows, events).issued[j].nonce >= Run(rows, events).issued[j].chain
  {
    RunKeepsInv(rows, events);
  }

  /** The nonce the wallet had before the next reservation: that of its last one, or the one its row started with. */
  function Latest(start: int, issued: seq<Reservation>, wallet: string): int {
    if issued == [] then start
    else if issued[|issued| - 1].wallet == wallet then issued[|issued| - 1].nonce
    else Latest(start, issued[..|issued| - 1], wallet)
  }

  /** Each nonce is the one after the wallet's last, or the chain's if that is further. */
  ghost predicate NoGaps(rows: map<string, int>, s: State) {
    && s.rows.Keys == rows.Keys
    && (forall w | w in rows :: s.rows[w] == Latest(rows[w], s.issued, w))
    && (forall j | 0 <= j < |s.issued| ::
          s.issued[j].wallet in rows && Follows(rows[s.issued[j].wallet], s.issued[..j], s.issued[j]))
  }

  ghost predicate Follows(start: int, before: seq<Reservation>, r: Reservation) {
    var last := Latest(start, before, r.wallet);
    (r.nonce == last + 1 && r.chain <= last + 1) || (r.nonce == r.chain && r.chain > last + 1)
  }

  lemma NextKeepsNoGaps(rows: map<string, int>, s: State, e: Event)
    requires Inv(s) && NoGaps(rows, s)
    ensures NoGaps(rows, Next(s, e))
  {
    hide Latest, Follows;
    if e.Commit? && e.wallet in s.open && s.open[e.wallet].written.Some? {
      CommitFollows(rows, s, e.wallet);
      var t, n := Next(s, e), |s.issued|;
      assert t.issued[..n] == s.issued;
      assert forall j | 0 <= j < n :: t.issued[..j] == s.issued[..j];
      forall w | w in rows
        ensures t.rows[w] == Latest(rows[w], t.issued, w)
      {
        LatestOfMore(rows[w], s.issued, t.issued[n], w);
        assert t.issued == s.issued + [t.issued[n]];
      }
    }
  }

  lemma LatestOfMore(start: int, issued: seq<Reservation>, r: Reservation, w: string)
    ensures Latest(start, issued + [r], w) == if r.wallet == w then r.nonce else Latest(start, issued, w)
  {
    assert (issued + [r])[..|issued|] == issued;
  }

  lemma CommitFollows(rows: map<string, int>, s: State, w: string)
    requires Inv(s) && NoGaps(rows, s) && w in s.open && s.open[w].written.Some?
    ensures w in rows && Follows(rows[w], s.issued, Reservation(w, s.open[w].written.value, s.open[w].chain))
  {
    hide Latest;
  }

  lemma {:induction false} RunKeepsNoGaps(rows: map<string, int>, events: seq<Event>)
    ensures NoGaps(rows, Run(rows, events))
  {
    if events != [] {
      hide Inv, Next, NoGaps;
      RunKeepsNoGaps(rows, events[..|events| - 1]);
      RunKeepsInv(rows, events[..|events| - 1]);
      NextKeepsNoGaps(rows, Run(rows, events[..|events| - 1]), events[|events| - 1]);
    }
  }

  /** In every interleaving a committed nonce leaves no gap behind the wallet's last one, unless the chain is
      further; then it is the chain's. */
  lemma NoncesAreNext(rows: map<string, int>, events: seq<Event>, j: nat)
    requires j < |Run(rows, events).issued|
    ensures var r := Run(rows, events).issued[j];
            && r.wallet in rows
            && var last := Latest(rows[r.wallet], Run(rows, events).issued[..j], r.wallet);
               if r.chain <= last + 1 then r.nonce == last + 1 else r.nonce == r.chain
  {
    RunKeepsNoGaps(rows, events);
  }

  // ---------- one uninterrupted reservation ----------

  class Signer {
    var rows: map<string, int>
    var issued: seq<Reservation>

    ghost function View(): State
      reads this
    {
      State(rows, multiset{}, map[], issued)
    }

    /** reserveNonce. Undisturbed it is the four steps of the transaction in order, and it fails exactly
        for a wallet without a row, changing nothing. */
    method ReserveNonce(wallet: string, chainNonce: int) returns (nonce: Option<int>)
      modifies this
      ensures View() == FourSteps(old(View()), wallet, chainNonce)
      ensures nonce == if wallet in old(rows) then Some(Max(old(rows)[wallet] + 1, chainNonce)) else None
      ensures nonce.Some? ==> rows == old(rows)[wallet := nonce.value]
      ensures nonce == None ==> View() == old(View())
    {
      ghost var before := View();
      UndisturbedSteps(before, wallet, chainNonce);
      if wallet !in rows {
        return None;
      }
      var lastReserved := rows[wallet];
      var next := if lastReserved + 1 > chainNonce then lastReserved + 1 else chainNonce;
      rows := rows[wallet := next];
      issued := issued + [Reservation(wallet, next, chainNonce)];
      return Some(next);
    }
  }

  function FourSteps(s: State, wallet: string, chain: int): State {
    Next(Next(Next(Next(s, AskChain(wallet, chain)), LockRow(wallet, chain)), WriteRow(wallet)), Commit(wallet))
  }

  lemma UndisturbedSteps(s: State, wallet: string, chain: int)
    requires s.waiting == multiset{} && s.open == map[]
    ensures FourSteps(s, wallet, chain)
         == if wallet !in s.rows then s
            else
              var nonce := Max(s.rows[wallet] + 1, chain);
              s.(rows := s.rows[wallet := nonce], issued := s.issued + [Reservation(wallet, nonce, chain)])
  {
    var asked := Next(s, AskChain(wallet, chain));
    assert asked.waiting - multiset{(wallet, chain)} == multiset{};
    if wallet in s.rows {
      var open := Next(asked, LockRow(wallet, chain));
      var written := Next(open, WriteRow(wallet));
      assert written.open.Keys == {wallet};
      assert written.open - {wallet} == map[];
    }
  }
}
