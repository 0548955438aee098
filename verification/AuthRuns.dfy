// Every interleaving of KeyCache.AuthConfigured calls, invalidations, the clock, and edits of
// the key table by anyone (internal/store/cache.go).
module AuthRuns {
  import opened Options
  import opened KeyCaches

  // callers: the clock reading of each call that waits for the memo's lock.
  datatype World = World(now: int, table: Table, memo: Memo, callers: map<nat, int>)

  datatype Step =
    | Tick(d: nat)
    | Edit(table: Table)             // creates, revocations, expiries, touches, deletions
    | Call(t: nat)
    | Answers(t: nat, failed: bool)  // the locked section; failed: the count cannot be read
    | Invalidates

  ghost predicate Enabled(w: World, s: Step) {
    match s
    case Call(t) => t !in w.callers
    case Answers(t, _) => t in w.callers
    case _ => true
  }

  function Take(w: World, s: Step): World
    requires Enabled(w, s)
  {
    match s
    case Tick(d) => w.(now := w.now + d)
    case Edit(table) => w.(table := table)
    case Call(t) => w.(callers := w.callers[t := w.now])
    case Answers(t, failed) =>
      w.(memo := Consulted(w.memo, w.callers[t], if failed then None else Some(|w.table|)), callers := w.callers - {t})
    case Invalidates => w.(memo := w.memo.(until := None))
  }

  ghost predicate Run(ws: seq<World>, ss: seq<Step>) {
    && |ws| == |ss| + 1 && ws[0].memo == Memo(false, None) && ws[0].callers == map[]
    && forall i {:trigger ss[i]} :: 0 <= i < |ss| ==> Enabled(ws[i], ss[i]) && ws[i + 1] == Take(ws[i], ss[i])
  }

  // What the call answered that took step n.
  ghost function AnswerAt(ws: seq<World>, ss: seq<Step>, n: nat): bool
    requires Run(ws, ss) && n < |ss| && ss[n].Answers?
  {
    ws[n + 1].memo.val
  }

  lemma {:induction false} CallersReadThePast(ws: seq<World>, ss: seq<Step>, n: nat, t: nat)
    requires Run(ws, ss) && n < |ws| && t in ws[n].callers
    ensures ws[n].callers[t] <= ws[n].now
  {
    assert n > 0;
    assert ws[n] == Take(ws[n - 1], ss[n - 1]);
    if t in ws[n - 1].callers {
      CallersReadThePast(ws, ss, n - 1, t);
    }
  }

  // The clock reading of a call is that of its beginning.
  lemma {:induction false} CallsReadTheClock(ws: seq<World>, ss: seq<Step>, n: nat, t: nat) returns (c: nat)
    requires Run(ws, ss) && n < |ws| && t in ws[n].callers
    ensures c < n && ss[c] == Call(t) && ws[n].callers[t] == ws[c].now
  {
    assert n > 0;
    c := n - 1;
    assert Enabled(ws[c], ss[c]) && ws[n] == Take(ws[c], ss[c]);
    if ss[c] != Call(t) {
      c := CallsReadTheClock(ws, ss, c, t);
    }
  }

  // Behind a memo is a count that was read, or could not be, at most five seconds before the
  // memo ends.
  lemma {:induction false} MemoIsBacked(ws: seq<World>, ss: seq<Step>, n: nat) returns (i: nat)
    requires Run(ws, ss) && n < |ws| && ws[n].memo.until.Some?
    ensures i < n && ss[i].Answers? && ws[n].memo.val == (ss[i].failed || ws[i].table != map[])
    ensures ws[i].now >= ws[n].memo.until.value - 5_000_000_000
  {
    assert n > 0;
    assert Enabled(ws[n - 1], ss[n - 1]) && ws[n] == Take(ws[n - 1], ss[n - 1]);
    if ws[n].memo == ws[n - 1].memo {
      i := MemoIsBacked(ws, ss, n - 1);
    } else {
      i := n - 1;
      CallersReadThePast(ws, ss, n - 1, ss[n - 1].t);
    }
  }

  // Every answer, whether true or false, rests on a count less than five seconds older than
  // the call's clock reading: true if there was a row or the count could not be read.
  lemma AnswersAreRecent(ws: seq<World>, ss: seq<Step>, n: nat) returns (i: nat)
    requires Run(ws, ss) && n < |ss| && ss[n].Answers?
    ensures i <= n && ss[i].Answers? && AnswerAt(ws, ss, n) == (ss[i].failed || ws[i].table != map[])
    ensures ss[n].t in ws[n].callers && ws[i].now > ws[n].callers[ss[n].t] - 5_000_000_000
  {
    assert Enabled(ws[n], ss[n]) && ws[n + 1] == Take(ws[n], ss[n]);
    i := MemoIsBacked(ws, ss, n + 1);
  }

  // So a server is reported open only if a count of zero was read, without an error.
  lemma FalseMeansEmpty(ws: seq<World>, ss: seq<Step>, n: nat) returns (i: nat)
    requires Run(ws, ss) && n < |ss| && ss[n].Answers? && !AnswerAt(ws, ss, n)
    ensures i <= n && ss[i].Answers? && !ss[i].failed && ws[i].table == map[]
    ensures ss[n].t in ws[n].callers && ws[i].now > ws[n].callers[ss[n].t] - 5_000_000_000
  {
    i := AnswersAreRecent(ws, ss, n);
  }

  lemma {:induction false} MemoSinceInvalidate(ws: seq<World>, ss: seq<Step>, n: nat, b: nat) returns (i: nat)
    requires Run(ws, ss) && n < b < |ws| && ss[n].Invalidates? && ws[b].memo.until.Some?
    ensures n < i < b && ss[i].Answers? && ws[b].memo.val == (ss[i].failed || ws[i].table != map[])
    decreases b
  {
    i := b - 1;
    assert Enabled(ws[i], ss[i]) && ws[b] == Take(ws[i], ss[i]);
    if ws[b].memo == ws[i].memo && n < i {
      i := MemoSinceInvalidate(ws, ss, n, i);
    }
  }

  // Invalidate takes effect at once: whatever was in flight, every later answer rests on a
  // count read after it.
  lemma FreshAfterInvalidate(ws: seq<World>, ss: seq<Step>, n: nat, b: nat) returns (i: nat)
    requires Run(ws, ss) && n < b < |ss| && ss[n].Invalidates? && ss[b].Answers?
    ensures n < i <= b && ss[i].Answers? && AnswerAt(ws, ss, b) == (ss[i].failed || ws[i].table != map[])
  {
    assert Enabled(ws[b], ss[b]) && ws[b + 1] == Take(ws[b], ss[b]);
    i := MemoSinceInvalidate(ws, ss, n, b + 1);
  }

  // Once a call has answered true, all do, however keys are created, revoked, expire or are
  // touched and however often the store cannot be read, until every row has been deleted.
  lemma {:induction false} StaysConfigured(ws: seq<World>, ss: seq<Step>, a: nat, b: nat)
    requires Run(ws, ss) && a <= b < |ss| && ss[a].Answers? && AnswerAt(ws, ss, a)
    requires forall i :: a <= i <= b ==> ws[i].table != map[]
    ensures ws[b + 1].memo.val
    ensures ss[b].Answers? ==> AnswerAt(ws, ss, b)
    decreases b
  {
    if a < b {
      StaysConfigured(ws, ss, a, b - 1);
      assert ws[b + 1] == Take(ws[b], ss[b]);
      assert ws[b].table != map[] && |ws[b].table| > 0;
    }
  }
}
