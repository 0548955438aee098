// Single-use terminal tickets (internal/core/tickets.go). Times are nanoseconds.
module Tickets {
  const TICKET_TTL := 60_000_000_000

  datatype Ticket = Ticket(sandbox: string, expires: int)

  type Table = map<string, Ticket>

  // ----- The sections as functions ------------------------------------------------------------

  function Swept(m: Table, now: int): Table {
    map tok | tok in m && now <= m[tok].expires :: m[tok]
  }

  function Minted(m: Table, tok: string, sandbox: string, expires: int, now: int): Table {
    Swept(m[tok := Ticket(sandbox, expires)], now)
  }

  predicate Accepts(m: Table, tok: string, sandbox: string, now: int) {
    tok != "" && tok in m && now <= m[tok].expires && m[tok].sandbox == sandbox
  }

  // ----- The registry as the code writes it -----------------------------------------------------

  class TicketRegistry {
    var m: Table

    constructor ()
      ensures m == map[]
    {
      m := map[];
    }

    // tok is freshly drawn; clock is the reading the expiry is computed from, now the one of
    // the sweep under the lock.
    method Mint(tok: string, sandbox: string, clock: int, now: int) returns (expires: int)
      modifies this
      ensures expires == clock + TICKET_TTL
      ensures m == Minted(old(m), tok, sandbox, expires, now)
      ensures expires == clock + 60_000_000_000
      ensures forall k :: k in m <==> (k == tok && now <= expires)
                                      || (k != tok && k in old(m) && now <= old(m)[k].expires)
      ensures forall k :: k in m ==> m[k] == if k == tok then Ticket(sandbox, expires) else old(m)[k]
    {
      expires := clock + TICKET_TTL;
      m := m[tok := Ticket(sandbox, expires)];
      SweepLocked(now);
    }

    method Redeem(tok: string, sandbox: string, now: int) returns (ok: bool)
      modifies this
      ensures ok == Accepts(old(m), tok, sandbox, now)
      ensures ok <==> tok != "" && tok in old(m) && old(m)[tok].sandbox == sandbox && now <= old(m)[tok].expires
      ensures m == if tok == "" then old(m) else old(m) - {tok}
    {
      if tok == "" || tok !in m {
        assert m - {tok} == m || tok == "";
        return false;
      }
      var t := m[tok];
      m := m - {tok};
      ok := now <= t.expires && t.sandbox == sandbox;
    }

    method SweepLocked(now: int)
      modifies this
      ensures m == Swept(old(m), now)
      ensures forall k :: k in m <==> k in old(m) && now <= old(m)[k].expires
      ensures forall k :: k in m ==> m[k] == old(m)[k]
    {
      var before, todo := m, m.Keys;
      while todo != {}
        invariant todo <= before.Keys
        invariant forall tok :: tok in m <==> tok in before && (tok in todo || now <= before[tok].expires)
        invariant forall tok :: tok in m ==> m[tok] == before[tok]
        decreases |todo|
      {
        var tok :| tok in todo;
        todo := todo - {tok};
        if now > before[tok].expires {
          m := m - {tok};
        }
      }
    }
  }

  // ----- Histories --------------------------------------------------------------------------------

  datatype Op =
    | Mint(tok: string, sandbox: string, expires: int, now: int)
    | Redeem(tok: string, sandbox: string, now: int)

  // Operations in lock order: the clock read under the lock never goes back, the expiry comes
  // from an earlier reading, and every minted token is new and not empty.
  ghost predicate History(ops: seq<Op>) {
    && (forall i, k :: 0 <= i < k < |ops| ==> ops[i].now <= ops[k].now)
    && (forall i :: 0 <= i < |ops| && ops[i].Mint? ==> ops[i].tok != "" && ops[i].expires <= ops[i].now + TICKET_TTL)
    && (forall i, k :: 0 <= i < k < |ops| && ops[k].Mint? ==> ops[i].tok != ops[k].tok)
  }

  function Next(m: Table, op: Op): Table {
    match op
    case Mint(tok, sandbox, expires, now) => Minted(m, tok, sandbox, expires, now)
    case Redeem(tok, _, _) => if tok == "" then m else m - {tok}
  }

  // The registry after the operations.
  function After(ops: seq<Op>): Table {
    if ops == [] then map[] else Next(After(ops[..|ops| - 1]), ops[|ops| - 1])
  }

  // What the redemption ops[n] answers.
  predicate Answer(ops: seq<Op>, n: nat)
    requires n < |ops| && ops[n].Redeem?
  {
    Accepts(After(ops[..n]), ops[n].tok, ops[n].sandbox, ops[n].now)
  }

  // The ticket minted at i has not been presented before n, by anyone for any sandbox.
  ghost predicate Untouched(ops: seq<Op>, i: nat, n: nat)
    requires i < n <= |ops|
  {
    ops[i].Mint? && forall k :: i < k < n ==> !(ops[k].Redeem? && ops[k].tok == ops[i].tok)
  }

  // Every ticket held is an untouched one, as it was minted.
  ghost predicate Sound(ops: seq<Op>, m: Table) {
    forall tok :: tok in m ==>
      exists i :: 0 <= i < |ops| && Untouched(ops, i, |ops|)
                  && ops[i].tok == tok && m[tok] == Ticket(ops[i].sandbox, ops[i].expires)
  }

  // Every untouched ticket is held, unless it was swept away because it had expired.
  ghost predicate Complete(ops: seq<Op>, m: Table) {
    forall i :: 0 <= i < |ops| && Untouched(ops, i, |ops|) ==>
      || (ops[i].tok in m && m[ops[i].tok] == Ticket(ops[i].sandbox, ops[i].expires))
      || (ops[i].tok !in m && ops[i].expires < ops[|ops| - 1].now)
  }

  lemma UntouchedOneMore(before: seq<Op>, op: Op, i: nat)
    requires i < |before|
    ensures Untouched(before + [op], i, |before| + 1)
            <==> Untouched(before, i, |before|) && !(op.Redeem? && op.tok == before[i].tok)
  {
    var ops, n := before + [op], |before|;
    assert forall k :: i < k < n ==> ops[k] == before[k];
    if Untouched(ops, i, n + 1) {
      assert !(ops[n].Redeem? && ops[n].tok == ops[i].tok);
      forall k | i < k < n
        ensures !(before[k].Redeem? && before[k].tok == before[i].tok)
      {
        assert ops[k] == before[k];
      }
    }
  }

  lemma SoundOneMore(before: seq<Op>, op: Op, m: Table)
    requires History(before + [op]) && Sound(before, m)
    ensures Sound(before + [op], Next(m, op))
  {
    var ops, n, m' := before + [op], |before|, Next(m, op);
    forall tok | tok in m'
      ensures exists i :: 0 <= i < n + 1 && Untouched(ops, i, n + 1)
                          && ops[i].tok == tok && m'[tok] == Ticket(ops[i].sandbox, ops[i].expires)
    {
      if op.Mint? && op.tok == tok {
        assert Untouched(ops, n, n + 1) && m'[tok] == Ticket(ops[n].sandbox, ops[n].expires);
      } else {
        var i :| 0 <= i < n && Untouched(before, i, n)
                 && before[i].tok == tok && m[tok] == Ticket(before[i].sandbox, before[i].expires);
        assert before[i] == ops[i];
        assert m'[tok] == m[tok] && !(op.Redeem? && op.tok == tok);
        UntouchedOneMore(before, op, i);
      }
    }
  }

  lemma CompleteOneMore(before: seq<Op>, op: Op, m: Table)
    requires History(before + [op]) && Complete(before, m)
    ensures Complete(before + [op], Next(m, op))
  {
    var ops, n, m' := before + [op], |before|, Next(m, op);
    forall i | 0 <= i < n + 1 && Untouched(ops, i, n + 1)
      ensures || (ops[i].tok in m' && m'[ops[i].tok] == Ticket(ops[i].sandbox, ops[i].expires))
              || (ops[i].tok !in m' && ops[i].expires < op.now)
    {
      if i < n {
        UntouchedOneMore(before, op, i);
        assert ops[i] == before[i] && ops[n - 1].now <= ops[n].now && ops[n - 1] == before[n - 1];
        assert op.Mint? ==> ops[i].tok != ops[n].tok;
      }
    }
  }

  lemma {:induction false} AfterHolds(ops: seq<Op>)
    requires History(ops)
    ensures Sound(ops, After(ops)) && Complete(ops, After(ops))
  {
    if ops != [] {
      var before, op := ops[..|ops| - 1], ops[|ops| - 1];
      assert ops == before + [op];
      AfterHolds(before);
      SoundOneMore(before, op, After(before));
      CompleteOneMore(before, op, After(before));
    }
  }

  // ----- The guarantees -----------------------------------------------------------------------------

  // A redemption succeeds exactly when the ticket was minted for that sandbox, is presented
  // for the first time, and has not expired.
  lemma RedeemedExactly(ops: seq<Op>, n: nat)
    requires History(ops) && n < |ops| && ops[n].Redeem?
    ensures Answer(ops, n) <==>
            exists i :: 0 <= i < n && Untouched(ops, i, n) && ops[i].tok == ops[n].tok
                        && ops[i].sandbox == ops[n].sandbox && ops[n].now <= ops[i].expires
  {
    var before, m, op := ops[..n], After(ops[..n]), ops[n];
    AfterHolds(before);
    forall i | 0 <= i < n
      ensures Untouched(before, i, n) <==> Untouched(ops, i, n)
    {
    }
    if Answer(ops, n) {
      var i :| 0 <= i < n && Untouched(before, i, n)
               && before[i].tok == op.tok && m[op.tok] == Ticket(before[i].sandbox, before[i].expires);
      assert Untouched(ops, i, n);
    }
    if i :| 0 <= i < n && Untouched(ops, i, n) && ops[i].tok == op.tok
            && ops[i].sandbox == op.sandbox && op.now <= ops[i].expires {
      assert Untouched(before, i, n);
      assert ops[n - 1].now <= op.now;
      assert before[|before| - 1] == ops[n - 1];
    }
  }

  // A ticket that is accepted was minted at most 60 seconds before.
  lemma AcceptedInTime(ops: seq<Op>, n: nat) returns (i: nat)
    requires History(ops) && n < |ops| && ops[n].Redeem? && Answer(ops, n)
    ensures i < n && ops[i].Mint? && ops[i].tok == ops[n].tok && ops[i].sandbox == ops[n].sandbox
    ensures ops[n].now <= ops[i].now + 60_000_000_000
  {
    RedeemedExactly(ops, n);
    i :| 0 <= i < n && Untouched(ops, i, n) && ops[i].tok == ops[n].tok
         && ops[i].sandbox == ops[n].sandbox && ops[n].now <= ops[i].expires;
  }

  // After a mint no expired ticket is held, so the registry holds at most one ticket for each
  // mint of the last 60 seconds.
  lemma NothingExpiredHeld(ops: seq<Op>, tok: string)
    requires History(ops) && ops != [] && ops[|ops| - 1].Mint? && tok in After(ops)
    ensures After(ops)[tok].expires >= ops[|ops| - 1].now
    ensures exists i :: 0 <= i < |ops| && ops[i].Mint? && ops[i].tok == tok
                        && ops[|ops| - 1].now <= ops[i].now + 60_000_000_000
  {
    AfterHolds(ops);
    var i :| 0 <= i < |ops| && Untouched(ops, i, |ops|)
             && ops[i].tok == tok && After(ops)[tok] == Ticket(ops[i].sandbox, ops[i].expires);
  }

  // No ticket is accepted twice.
  lemma SingleUse(ops: seq<Op>, a: nat, b: nat)
    requires History(ops) && a < b < |ops| && ops[a].Redeem? && ops[b].Redeem? && ops[a].tok == ops[b].tok
    ensures !(Answer(ops, a) && Answer(ops, b))
  {
    RedeemedExactly(ops, a);
    RedeemedExactly(ops, b);
  }

  // The registry of a daemon that never sweeps.
  function Ideal(ops: seq<Op>): Table {
    if ops == [] then map[]
    else
      var m := Ideal(ops[..|ops| - 1]);
      match ops[|ops| - 1]
      case Mint(tok, sandbox, expires, _) => m[tok := Ticket(sandbox, expires)]
      case Redeem(tok, _, _) => if tok == "" then m else m - {tok}
  }

  lemma {:induction false} OnlyExpiredSwept(ops: seq<Op>)
    requires History(ops)
    ensures forall tok :: tok in After(ops) ==> tok in Ideal(ops) && After(ops)[tok] == Ideal(ops)[tok]
    ensures forall tok :: tok in Ideal(ops) && tok !in After(ops) ==> Ideal(ops)[tok].expires < ops[|ops| - 1].now
  {
    if ops != [] {
      OnlyExpiredSwept(ops[..|ops| - 1]);
    }
  }

  lemma SweepingIsInvisible(ops: seq<Op>, n: nat)
    requires History(ops) && n < |ops| && ops[n].Redeem?
    ensures Answer(ops, n) == Accepts(Ideal(ops[..n]), ops[n].tok, ops[n].sandbox, ops[n].now)
  {
    OnlyExpiredSwept(ops[..n]);
  }
}
