// Every interleaving of KeyCache.Valid calls, invalidations, the clock, and edits of the key
// table by this process or any other (internal/store/cache.go).
module KeyCacheRuns {
  import opened Options
  import opened KeyCaches
  import opened Text

  // One return of VerifyAPIKey; failed: the database could not be read.
  datatype Verdict = Verdict(raw: string, at: int, failed: bool, key: Option<nat>)

  // One return of Valid, by the call t; at is its clock reading, source the verdict it rests on.
  datatype Answer = Answer(t: nat, raw: string, at: int, ok: bool, source: nat)

  datatype Pc =
    | Looking(raw: string, at: int)
    | Asking(raw: string, at: int)
    | Storing(raw: string, at: int, source: nat, key: Option<nat>)
    | Returned

  datatype World = World(
    now: int,
    table: Table,
    m: map<string, Entry>,
    callers: map<nat, Pc>,
    verdicts: seq<Verdict>,
    answers: seq<Answer>,
    sources: map<string, nat>)  // the verdict behind each entry

  datatype Step =
    | Tick(d: nat)
    | Edit(table: Table)
    | Call(t: nat, raw: string)
    | LooksUp(t: nat)
    | Asks(t: nat, failed: bool)
    | Stores(t: nat)
    | Invalidates

  ghost predicate Enabled(w: World, s: Step) {
    match s
    case Tick(_) => true
    case Edit(_) => true
    case Call(t, raw) => t !in w.callers && raw != ""
    case LooksUp(t) => t in w.callers && w.callers[t].Looking?
    case Asks(t, _) => t in w.callers && w.callers[t].Asking?
    case Stores(t) => t in w.callers && w.callers[t].Storing?
    case Invalidates => true
  }

  function Take(w: World, s: Step): World
    requires Enabled(w, s)
  {
    match s
    case Tick(d) => w.(now := w.now + d)
    case Edit(table) => w.(table := table)
    case Call(t, raw) => w.(callers := w.callers[t := Looking(raw, w.now)])
    case LooksUp(t) =>
      var raw, at := w.callers[t].raw, w.callers[t].at;
      if Hit(w.m, raw, at) then
        w.(m := Touched(w.m, raw, at), callers := w.callers[t := Returned],
           answers := w.answers + [Answer(t, raw, at, w.m[raw].ok, if raw in w.sources then w.sources[raw] else 0)])
      else w.(callers := w.callers[t := Asking(raw, at)])
    case Asks(t, failed) =>
      var raw, at := w.callers[t].raw, w.callers[t].at;
      var key := if failed then None else Verify(w.table, raw, w.now);
      w.(verdicts := w.verdicts + [Verdict(raw, w.now, failed, key)],
         callers := w.callers[t := Storing(raw, at, |w.verdicts|, key)])
    case Stores(t) =>
      var pc := w.callers[t];
      w.(m := Stored(w.m, pc.raw, EntryFor(pc.key, pc.at)), sources := w.sources[pc.raw := pc.source],
         callers := w.callers[t := Returned],
         answers := w.answers + [Answer(t, pc.raw, pc.at, pc.key.Some?, pc.source)])
    case Invalidates => w.(m := map[])
  }

  ghost predicate Run(ws: seq<World>, ss: seq<Step>) {
    && |ws| == |ss| + 1
    && ws[0].m == map[] && ws[0].callers == map[] && ws[0].verdicts == [] && ws[0].answers == []
    && forall i {:trigger ss[i]} :: 0 <= i < |ss| ==> Enabled(ws[i], ss[i]) && ws[i + 1] == Take(ws[i], ss[i])
  }

  // ----- The invariant -------------------------------------------------------------------------------

  // The verdict at index i is one for raw with outcome ok, given at since or later.
  predicate Backs(vs: seq<Verdict>, i: nat, raw: string, ok: bool, since: int) {
    i < |vs| && vs[i].raw == raw && vs[i].key.Some? == ok && vs[i].at >= since
  }

  ghost predicate EntryInv(w: World) {
    && |w.m| <= MAX_ENTRIES
    && forall raw :: raw in w.m ==>
         raw in w.sources
         && Backs(w.verdicts, w.sources[raw], raw, w.m[raw].ok, w.m[raw].expires - VERIFY_TTL)
  }

  ghost predicate CallerInv(w: World) {
    && (forall t :: t in w.callers && !w.callers[t].Returned? ==>
          w.callers[t].at <= w.now && w.callers[t].raw != "")
    && (forall t :: t in w.callers && w.callers[t].Storing? ==>
          var pc := w.callers[t];
          Backs(w.verdicts, pc.source, pc.raw, pc.key.Some?, pc.at))
  }

  ghost predicate AnswerInv(w: World) {
    forall a :: a in w.answers ==> Backs(w.verdicts, a.source, a.raw, a.ok, a.at - VERIFY_TTL + 1)
  }

  lemma StoredIsBounded(m: map<string, Entry>, raw: string, e: Entry)
    ensures |m| <= MAX_ENTRIES ==> |Stored(m, raw, e)| <= MAX_ENTRIES
    ensures raw in Stored(m, raw, e) && Stored(m, raw, e)[raw] == e
    ensures forall x :: x in Stored(m, raw, e) && x != raw ==> x in m && Stored(m, raw, e)[x] == m[x]
  {
  }

  lemma EntryStores(w: World, t: nat)
    requires EntryInv(w) && CallerInv(w) && Enabled(w, Stores(t))
    ensures EntryInv(Take(w, Stores(t)))
  {
    var pc := w.callers[t];
    StoredIsBounded(w.m, pc.raw, EntryFor(pc.key, pc.at));
  }

  lemma EntryStep(w: World, s: Step)
    requires EntryInv(w) && CallerInv(w) && Enabled(w, s)
    ensures EntryInv(Take(w, s))
  {
    if s.Asks? {
      assert forall i, raw, ok, since :: Backs(w.verdicts, i, raw, ok, since) ==>
        Backs(Take(w, s).verdicts, i, raw, ok, since);
    } else if s.Stores? {
      EntryStores(w, s.t);
    }
  }

  lemma CallerStep(w: World, s: Step)
    requires CallerInv(w) && Enabled(w, s)
    ensures CallerInv(Take(w, s))
  {
    if s.Asks? {
      assert forall i, raw, ok, since :: Backs(w.verdicts, i, raw, ok, since) ==>
        Backs(Take(w, s).verdicts, i, raw, ok, since);
    }
  }

  lemma AnswerStep(w: World, s: Step)
    requires EntryInv(w) && CallerInv(w) && AnswerInv(w) && Enabled(w, s)
    ensures AnswerInv(Take(w, s))
  {
    if s.Asks? {
      assert forall i, raw, ok, since :: Backs(w.verdicts, i, raw, ok, since) ==>
        Backs(Take(w, s).verdicts, i, raw, ok, since);
    }
  }

  // ----- Whole runs ------------------------------------------------------------------------------------

  lemma {:induction false} Reachable(ws: seq<World>, ss: seq<Step>, n: nat)
    requires Run(ws, ss) && n < |ws|
    ensures EntryInv(ws[n]) && CallerInv(ws[n]) && AnswerInv(ws[n])
  {
    if n > 0 {
      Reachable(ws, ss, n - 1);
      EntryStep(ws[n - 1], ss[n - 1]);
      CallerStep(ws[n - 1], ss[n - 1]);
      AnswerStep(ws[n - 1], ss[n - 1]);
      assert ws[n] == Take(ws[n - 1], ss[n - 1]);
    }
  }

  predicate AsksAbout(w: World, s: Step, raw: string) {
    s.Asks? && s.t in w.callers && w.callers[s.t].Asking? && w.callers[s.t].raw == raw
  }

  // The verdict k was given at the step i of the run, on the table and clock of that moment.
  ghost predicate GivenAt(ws: seq<World>, ss: seq<Step>, i: nat, k: nat, v: Verdict) {
    && i < |ss| < |ws| && AsksAbout(ws[i], ss[i], v.raw) && |ws[i].verdicts| == k
    && v.at == ws[i].now && v.failed == ss[i].failed
    && v.key == if v.failed then None else Verify(ws[i].table, v.raw, ws[i].now)
  }

  lemma {:induction false} VerdictIsReal(ws: seq<World>, ss: seq<Step>, n: nat, k: nat) returns (i: nat)
    requires Run(ws, ss) && n < |ws| && k < |ws[n].verdicts|
    ensures i < n && GivenAt(ws, ss, i, k, ws[n].verdicts[k])
  {
    assert n > 0;
    assert Enabled(ws[n - 1], ss[n - 1]) && ws[n - 1 + 1] == Take(ws[n - 1], ss[n - 1]);
    if k < |ws[n - 1].verdicts| {
      i := VerdictIsReal(ws, ss, n - 1, k);
    } else {
      i := n - 1;
    }
  }

  lemma {:induction false} ClockIsMonotone(ws: seq<World>, ss: seq<Step>, a: nat, b: nat)
    requires Run(ws, ss) && a <= b < |ws|
    ensures ws[a].now <= ws[b].now
    decreases b
  {
    if a < b {
      ClockIsMonotone(ws, ss, a, b - 1);
      assert Enabled(ws[b - 1], ss[b - 1]) && ws[b - 1 + 1] == Take(ws[b - 1], ss[b - 1]);
    }
  }

  // Every answer of Valid is one that VerifyAPIKey gave for that token at a moment of the run
  // before the answer, less than five seconds before the call read the clock or later.
  lemma AnswersAreRecent(ws: seq<World>, ss: seq<Step>, n: nat, a: Answer) returns (i: nat)
    requires Run(ws, ss) && n < |ws| && a in ws[n].answers
    ensures i < n && AsksAbout(ws[i], ss[i], a.raw)
    ensures ws[i].now > a.at - 5_000_000_000 && ws[i].now <= ws[n].now
    ensures a.ok == (!ss[i].failed && Verify(ws[i].table, a.raw, ws[i].now).Some?)
  {
    Reachable(ws, ss, n);
    i := VerdictIsReal(ws, ss, n, a.source);
    ClockIsMonotone(ws, ss, i, n);
  }

  // The call t for the token began at step c, when the clock read at.
  ghost predicate Began(ws: seq<World>, ss: seq<Step>, c: nat, n: nat, t: nat, raw: string, at: int) {
    c < n && n <= |ss| < |ws| && ss[c] == Call(t, raw) && ws[c].now == at
  }

  ghost predicate BegunInv(ws: seq<World>, ss: seq<Step>, n: nat)
    requires n <= |ss| < |ws|
  {
    && (forall t :: t in ws[n].callers && !ws[n].callers[t].Returned? ==>
          exists c: nat :: Began(ws, ss, c, n, t, ws[n].callers[t].raw, ws[n].callers[t].at))
    && (forall a :: a in ws[n].answers ==> exists c: nat :: Began(ws, ss, c, n, a.t, a.raw, a.at))
  }

  lemma BegunStep(w: World, s: Step)
    requires Enabled(w, s)
    ensures var w' := Take(w, s);
            && (forall t :: t in w'.callers && !w'.callers[t].Returned? ==>
                  || (s == Call(t, w'.callers[t].raw) && w'.callers[t].at == w.now)
                  || (t in w.callers && !w.callers[t].Returned?
                      && w.callers[t].raw == w'.callers[t].raw && w.callers[t].at == w'.callers[t].at))
            && (forall a :: a in w'.answers ==>
                  || a in w.answers
                  || (a.t in w.callers && !w.callers[a.t].Returned?
                      && w.callers[a.t].raw == a.raw && w.callers[a.t].at == a.at))
  {
  }

  // Every answer is one to a call: for its token, with the clock reading of its beginning.
  lemma {:induction false} AnswersAreToCalls(ws: seq<World>, ss: seq<Step>, n: nat)
    requires Run(ws, ss) && n < |ws|
    ensures BegunInv(ws, ss, n)
  {
    if n > 0 {
      var m := n - 1;
      AnswersAreToCalls(ws, ss, m);
      assert Enabled(ws[m], ss[m]) && ws[n] == Take(ws[m], ss[m]);
      BegunStep(ws[m], ss[m]);
      assert forall c: nat, t, raw, at :: Began(ws, ss, c, m, t, raw, at) ==> Began(ws, ss, c, n, t, raw, at);
      assert forall t, raw :: ss[m] == Call(t, raw) ==> Began(ws, ss, m, n, t, raw, ws[m].now);
    }
  }

  // A token that Valid accepts was, at such a moment, that of a key neither revoked nor past
  // its expiry.
  lemma AcceptedKeyWasLive(ws: seq<World>, ss: seq<Step>, n: nat, a: Answer) returns (i: nat)
    requires Run(ws, ss) && n < |ws| && a in ws[n].answers && a.ok
    ensures i < n && ws[i].now > a.at - 5_000_000_000 && ws[i].now <= ws[n].now
    ensures var token, table := TrimSpace(a.raw), ws[i].table;
            && token != "" && token in table && !table[token].revoked
            && (table[token].expires == None || ws[i].now <= table[token].expires.value)
  {
    i := AnswersAreRecent(ws, ss, n, a);
    VerifyExactly(ws[i].table, a.raw, ws[i].now, Verify(ws[i].table, a.raw, ws[i].now).value);
  }

  // And a token that it rejects was not, or the store could not be read.
  lemma RejectedKeyWasNot(ws: seq<World>, ss: seq<Step>, n: nat, a: Answer) returns (i: nat)
    requires Run(ws, ss) && n < |ws| && a in ws[n].answers && !a.ok
    ensures i < n && AsksAbout(ws[i], ss[i], a.raw)
    ensures ws[i].now > a.at - 5_000_000_000 && ws[i].now <= ws[n].now
    ensures var token, table := TrimSpace(a.raw), ws[i].table;
            || ss[i].failed || token == "" || token !in table || table[token].revoked
            || (table[token].expires.Some? && table[token].expires.value < ws[i].now)
  {
    i := AnswersAreRecent(ws, ss, n, a);
    var token := TrimSpace(a.raw);
    if token in ws[i].table {
      VerifyExactly(ws[i].table, a.raw, ws[i].now, ws[i].table[token].id);
    }
  }

  lemma CacheIsBounded(ws: seq<World>, ss: seq<Step>, n: nat)
    requires Run(ws, ss) && n < |ws|
    ensures |ws[n].m| <= 4096
  {
    Reachable(ws, ss, n);
  }

  // ----- Invalidate ------------------------------------------------------------------------------------

  // A call has had its answer from the store and has yet to cache it.
  predicate HoldsVerdict(w: World, t: nat) {
    t in w.callers && w.callers[t].Storing?
  }

  // Verdicts are numbered as they are given, so those numbered from or more are the new ones.
  // Everything cached or about to be cached, and every answer from number a on, is new.
  ghost predicate AllNew(w: World, from: nat, a: nat) {
    && from <= |w.verdicts|
    && (forall raw :: raw in w.m ==> raw in w.sources && w.sources[raw] >= from)
    && (forall t :: HoldsVerdict(w, t) ==> w.callers[t].source >= from)
    && (forall k :: a <= k < |w.answers| ==> w.answers[k].source >= from)
  }

  lemma AllNewStep(w: World, s: Step, from: nat, a: nat)
    requires AllNew(w, from, a) && Enabled(w, s)
    ensures AllNew(Take(w, s), from, a)
  {
  }

  lemma {:induction false} StaysNew(ws: seq<World>, ss: seq<Step>, n: nat, b: nat)
    requires Run(ws, ss) && n < b < |ws| && ss[n].Invalidates? && forall t :: !HoldsVerdict(ws[n], t)
    ensures AllNew(ws[b], |ws[n].verdicts|, |ws[n].answers|)
    decreases b
  {
    if n + 1 < b {
      StaysNew(ws, ss, n, b - 1);
      AllNewStep(ws[b - 1], ss[b - 1], |ws[n].verdicts|, |ws[n].answers|);
    } else {
      assert ws[b] == Take(ws[n], ss[n]);
      assert forall t :: HoldsVerdict(ws[b], t) ==> HoldsVerdict(ws[n], t);
    }
  }

  // After an Invalidate that meets no call between its answer from the store and its write to
  // the cache, every later answer was given by the store after it.
  lemma FreshAfterInvalidate(ws: seq<World>, ss: seq<Step>, n: nat, b: nat, k: nat) returns (i: nat)
    requires Run(ws, ss) && n < b < |ws| && ss[n].Invalidates? && forall t :: !HoldsVerdict(ws[n], t)
    requires |ws[n].answers| <= k < |ws[b].answers|
    ensures n < i < b && AsksAbout(ws[i], ss[i], ws[b].answers[k].raw)
    ensures ws[b].answers[k].ok == (!ss[i].failed && Verify(ws[i].table, ws[b].answers[k].raw, ws[i].now).Some?)
  {
    StaysNew(ws, ss, n, b);
    Reachable(ws, ss, b);
    assert ws[b].answers[k] in ws[b].answers;
    i := VerdictIsReal(ws, ss, b, ws[b].answers[k].source);
    if i <= n {
      assert ws[i + 1] == Take(ws[i], ss[i]) && ws[n + 1] == Take(ws[n], ss[n]);
      VerdictsGrow(ws, ss, i + 1, n + 1);
    }
  }

  lemma {:induction false} VerdictsGrow(ws: seq<World>, ss: seq<Step>, a: nat, b: nat)
    requires Run(ws, ss) && a <= b < |ws|
    ensures |ws[a].verdicts| <= |ws[b].verdicts|
    decreases b
  {
    if a < b {
      VerdictsGrow(ws, ss, a, b - 1);
      assert ws[b] == Take(ws[b - 1], ss[b - 1]);
    }
  }

  lemma Extend(ws: seq<World>, ss: seq<Step>, s: Step, w: World) returns (ws': seq<World>, ss': seq<Step>)
    requires Run(ws, ss) && Enabled(ws[|ss|], s) && w == Take(ws[|ss|], s)
    ensures Run(ws', ss') && |ss'| == |ss| + 1 && ws'[|ss'|] == w
    ensures forall i :: 0 <= i < |ws| ==> ws'[i] == ws[i]
    ensures forall i :: 0 <= i < |ss| ==> ss'[i] == ss[i]
    ensures ss'[|ss|] == s
  {
    ws', ss' := ws + [w], ss + [s];
  }

  // A run that goes on from world n + 1 and in which answer k rests on a verdict from before.
  ghost predicate StaleLater(ws: seq<World>, ss: seq<Step>, n: nat, ws': seq<World>, ss': seq<Step>, k: nat)
    requires n < |ss| && |ws| == |ss| + 1
  {
    && Run(ws', ss') && n < |ss'| && ws'[..n + 2] == ws[..n + 2] && ss'[..n + 1] == ss[..n + 1]
    && var w := ws'[|ss'|];
       |ws[n].answers| <= k < |w.answers| && w.answers[k].source < |ws[n].verdicts|
  }

  // A call that holds a verdict can store and give it after the Invalidate.
  lemma HeldVerdictReturns(ws: seq<World>, ss: seq<Step>, n: nat, t: nat) returns (ws': seq<World>, ss': seq<Step>)
    requires Run(ws, ss) && n < |ss| && ss[n].Invalidates? && HoldsVerdict(ws[n], t)
    ensures StaleLater(ws, ss, n, ws', ss', |ws[n].answers|)
  {
    assert ws[n + 1] == Take(ws[n], ss[n]);
    Reachable(ws, ss, n);
    Cut(ws, ss, n + 1);
    ws', ss' := Extend(ws[..n + 2], ss[..n + 1], Stores(t), Take(ws[n + 1], Stores(t)));
  }

  lemma Cut(ws: seq<World>, ss: seq<Step>, n: nat)
    requires Run(ws, ss) && n <= |ss|
    ensures Run(ws[..n + 1], ss[..n])
  {
  }

  // Invalidate is immediate, whatever happens afterwards, exactly when no call is between its
  // answer from the store and its write to the cache.
  lemma InvalidateIsImmediateExactly(ws: seq<World>, ss: seq<Step>, n: nat)
    requires Run(ws, ss) && n < |ss| && ss[n].Invalidates?
    ensures (exists ws', ss', k: nat :: StaleLater(ws, ss, n, ws', ss', k))
            <==> exists t :: HoldsVerdict(ws[n], t)
  {
    if t :| HoldsVerdict(ws[n], t) {
      var ws', ss' := HeldVerdictReturns(ws, ss, n, t);
    }
    if ws', ss', k: nat :| StaleLater(ws, ss, n, ws', ss', k) {
      assert ws'[n] == ws'[..n + 2][n] == ws[n] && ss'[n] == ss'[..n + 1][n] == ss[n];
      if forall t :: !HoldsVerdict(ws[n], t) {
        StaysNew(ws', ss', n, |ss'|);
        assert false;
      }
    }
  }

  // ----- Invalidate, for the calls that begin after it --------------------------------------------------

  // Such a verdict would still count for a call that begins now.
  predicate HoldsLiveVerdict(w: World, t: nat) {
    HoldsVerdict(w, t) && w.now < w.callers[t].at + VERIFY_TTL
  }

  // In such a run, the answer k is one of a call that began after the Invalidate.
  ghost predicate StaleNewCall(ws: seq<World>, ss: seq<Step>, n: nat, ws': seq<World>, ss': seq<Step>, k: nat)
    requires n < |ss| && |ws| == |ss| + 1
  {
    StaleLater(ws, ss, n, ws', ss', k) && ws'[|ss'|].answers[k].t !in ws[n].callers
  }

  // What is not new has expired by the time since, which is no later than the clock reading of
  // any call other than the known ones; and answers of other calls from number a on are new.
  ghost predicate OldExpired(w: World, from: nat, a: nat, since: int, known: set<nat>) {
    && since <= w.now && from <= |w.verdicts| && known <= w.callers.Keys
    && (forall raw :: raw in w.m ==> raw in w.sources && (w.sources[raw] < from ==> w.m[raw].expires <= since))
    && (forall t :: HoldsVerdict(w, t) && w.callers[t].source < from ==>
          t in known && w.callers[t].at + VERIFY_TTL <= since)
    && (forall t :: t in w.callers && t !in known && !w.callers[t].Returned? ==> since <= w.callers[t].at)
    && (forall k :: a <= k < |w.answers| && w.answers[k].t !in known ==> w.answers[k].source >= from)
  }

  lemma OldExpiredStores(w: World, t: nat, from: nat, a: nat, since: int, known: set<nat>)
    requires OldExpired(w, from, a, since, known) && Enabled(w, Stores(t))
    ensures OldExpired(Take(w, Stores(t)), from, a, since, known)
  {
    var pc := w.callers[t];
    StoredIsBounded(w.m, pc.raw, EntryFor(pc.key, pc.at));
  }

  lemma OldExpiredLooksUp(w: World, t: nat, from: nat, a: nat, since: int, known: set<nat>)
    requires OldExpired(w, from, a, since, known) && Enabled(w, LooksUp(t))
    ensures OldExpired(Take(w, LooksUp(t)), from, a, since, known)
  {
  }

  lemma OldExpiredStep(w: World, s: Step, from: nat, a: nat, since: int, known: set<nat>)
    requires OldExpired(w, from, a, since, known) && Enabled(w, s)
    ensures OldExpired(Take(w, s), from, a, since, known)
  {
    match s {
      case Stores(t) => OldExpiredStores(w, t, from, a, since, known);
      case LooksUp(t) => OldExpiredLooksUp(w, t, from, a, since, known);
      case _ =>
    }
  }

  lemma {:induction false} OldStaysExpired(ws: seq<World>, ss: seq<Step>, n: nat, b: nat)
    requires Run(ws, ss) && n < b < |ws| && ss[n].Invalidates? && forall t :: !HoldsLiveVerdict(ws[n], t)
    ensures OldExpired(ws[b], |ws[n].verdicts|, |ws[n].answers|, ws[n].now, ws[n].callers.Keys)
    decreases b
  {
    if n + 1 < b {
      OldStaysExpired(ws, ss, n, b - 1);
      OldExpiredStep(ws[b - 1], ss[b - 1], |ws[n].verdicts|, |ws[n].answers|, ws[n].now, ws[n].callers.Keys);
    } else {
      assert ws[b] == Take(ws[n], ss[n]);
      assert forall t :: HoldsVerdict(ws[b], t) ==> HoldsVerdict(ws[n], t) && !HoldsLiveVerdict(ws[n], t);
    }
  }

  lemma FreshId(ids: set<nat>) returns (id: nat)
    ensures forall i :: i in ids ==> i < id
  {
    id := 0;
    if i :| i in ids {
      id := FreshId(ids - {i});
      id := if i < id then id else i + 1;
      assert forall k :: k in ids ==> k == i || k in ids - {i};
    }
  }

  // The held verdict is cached again, and the next call for the token hits it.
  lemma HeldVerdictIsReused(ws: seq<World>, ss: seq<Step>, n: nat, t: nat)
    returns (ws': seq<World>, ss': seq<Step>)
    requires Run(ws, ss) && n < |ss| && ss[n].Invalidates? && HoldsLiveVerdict(ws[n], t)
    ensures StaleNewCall(ws, ss, n, ws', ss', |ws[n].answers| + 1)
  {
    assert ws[n + 1] == Take(ws[n], ss[n]);
    Reachable(ws, ss, n);
    Cut(ws, ss, n + 1);
    var u := FreshId(ws[n].callers.Keys);
    var raw := ws[n].callers[t].raw;
    var w1 := Take(ws[n + 1], Stores(t));
    ws', ss' := Extend(ws[..n + 2], ss[..n + 1], Stores(t), w1);
    ws', ss' := Extend(ws', ss', Call(u, raw), Take(w1, Call(u, raw)));
    ws', ss' := Extend(ws', ss', LooksUp(u), Take(Take(w1, Call(u, raw)), LooksUp(u)));
  }

  // Invalidate is immediate for every call that begins after it exactly when no call holds a
  // verdict that is within its five seconds.
  lemma LaterCallsFreshExactly(ws: seq<World>, ss: seq<Step>, n: nat)
    requires Run(ws, ss) && n < |ss| && ss[n].Invalidates?
    ensures (exists ws', ss', k: nat :: StaleNewCall(ws, ss, n, ws', ss', k))
            <==> exists t :: HoldsLiveVerdict(ws[n], t)
  {
    if t :| HoldsLiveVerdict(ws[n], t) {
      var ws', ss' := HeldVerdictIsReused(ws, ss, n, t);
    }
    if ws', ss', k: nat :| StaleNewCall(ws, ss, n, ws', ss', k) {
      assert ws'[n] == ws'[..n + 2][n] == ws[n] && ss'[n] == ss'[..n + 1][n] == ss[n];
      if forall t :: !HoldsLiveVerdict(ws[n], t) {
        OldStaysExpired(ws', ss', n, |ss'|);
        assert false;
      }
    }
  }

  const LIVE := map["k" := Row(7, None, false)]
  const DEAD := map["k" := Row(7, None, true)]

  // The key was live when a call asked for it, and is revoked and invalidated now.
  const OVERTAKEN :=
    World(0, DEAD, map[], map[1 := Storing("k", 0, 0, Some(7))], [Verdict("k", 0, false, Some(7))], [], map[])

  lemma CallOvertaken() returns (ws: seq<World>, ss: seq<Step>)
    ensures Run(ws, ss) && |ss| == 5 && ss[4] == Invalidates && ws[5] == OVERTAKEN
  {
    assert TrimSpace("k") == "k";
    var w := World(0, LIVE, map[], map[], [], [], map[]);
    ws, ss := [w], [];
    w := w.(callers := map[1 := Looking("k", 0)]);
    ws, ss := Extend(ws, ss, Call(1, "k"), w);
    w := w.(callers := map[1 := Asking("k", 0)]);
    ws, ss := Extend(ws, ss, LooksUp(1), w);
    w := OVERTAKEN.(table := LIVE);
    ws, ss := Extend(ws, ss, Asks(1, false), w);
    ws, ss := Extend(ws, ss, Edit(DEAD), OVERTAKEN);
    ws, ss := Extend(ws, ss, Invalidates, OVERTAKEN);
  }

  // A call in flight across Invalidate puts the old decision back, so that the revoked token
  // is accepted by a call that begins after the revocation and the invalidation.
  lemma StaleAfterInvalidate() returns (ws: seq<World>, ss: seq<Step>)
    ensures Run(ws, ss) && |ss| == 8 && ss[4] == Invalidates && ss[6] == Call(2, "k")
    ensures ws[5].table == ws[8].table == DEAD && forall now :: Verify(DEAD, "k", now) == None
    ensures |ws[8].answers| == 2 && ws[8].answers[1].ok
  {
    assert TrimSpace("k") == "k";
    ws, ss := CallOvertaken();
    var w := OVERTAKEN.(m := map["k" := EntryFor(Some(7), 0)], sources := map["k" := 0],
                        callers := map[1 := Returned], answers := [Answer(1, "k", 0, true, 0)]);
    ws, ss := Extend(ws, ss, Stores(1), w);
    w := w.(callers := map[1 := Returned, 2 := Looking("k", 0)]);
    ws, ss := Extend(ws, ss, Call(2, "k"), w);
    w := w.(callers := map[1 := Returned, 2 := Returned],
            answers := [Answer(1, "k", 0, true, 0), Answer(2, "k", 0, true, 0)]);
    ws, ss := Extend(ws, ss, LooksUp(2), w);
  }
}
