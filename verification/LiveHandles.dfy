// The cache of live sandbox handles and the single-flight resolve behind it
// (internal/core/registry.go).
module LiveHandles {
  import opened Options

  type Handle = nat

  type Name = string

  // ----- The registry as the code writes it -------------------------------------------------

  datatype Status = Up | Down   // running and draining; stopped, paused and crashed

  // The SDK's answers to the calls that one resolveSlow may make.
  datatype Sdk = Sdk(
    get: Option<Status>, connect: Option<Handle>,
    start1: Option<Handle>, up1: bool, start2: Option<Handle>, up2: bool)

  class Registry {
    var live: map<Name, Handle>
    var created: map<Name, int>
    var workdirs: map<Name, string>

    constructor ()
      ensures live == map[] && created == map[] && workdirs == map[]
    {
      live, created, workdirs := map[], map[], map[];
    }

    method Cache(name: Name, h: Handle, now: int)
      modifies this`live, this`created
      ensures live == old(live)[name := h]
      ensures created == if name in old(created) then old(created) else old(created)[name := now]
    {
      live := live[name := h];
      if name !in created {
        created := created[name := now];
      }
    }

    method Forget(name: Name)
      modifies this
      ensures live == old(live) - {name} && created == old(created) - {name} && workdirs == old(workdirs) - {name}
    {
      live, created, workdirs := live - {name}, created - {name}, workdirs - {name};
    }

    // The handles opened are, in order, those detached and then the one returned, if any.
    method BootAndVerify(sdk: Sdk) returns (r: Option<Handle>, ghost acquired: seq<Handle>, ghost detached: seq<Handle>)
      ensures acquired == detached + if r.Some? then [r.value] else []
      ensures r.Some? <==> sdk.start1.Some? && (sdk.up1 || (sdk.start2.Some? && sdk.up2))
      ensures r.Some? ==> r == if sdk.up1 then sdk.start1 else sdk.start2
      ensures detached == if sdk.start1.None? || sdk.up1 then []
                          else if sdk.start2.None? || sdk.up2 then [sdk.start1.value]
                          else [sdk.start1.value, sdk.start2.value]
    {
      acquired, detached := [], [];
      r := sdk.start1;
      if r.None? {
        return;
      }
      acquired := [r.value];
      if sdk.up1 {
        return;
      }
      detached := [r.value];
      r := sdk.start2;
      if r.None? {
        return;
      }
      acquired := acquired + [r.value];
      if !sdk.up2 {
        detached := detached + [r.value];
        r := None;
      }
    }

    // A failed resolve leaves the registry untouched and detaches everything it opened. What is
    // up is connected to; what is down is booted, once more if it does not come up.
    method ResolveSlow(name: Name, sdk: Sdk, now: int)
      returns (r: Option<Handle>, ghost acquired: seq<Handle>, ghost detached: seq<Handle>)
      modifies this`live, this`created
      ensures acquired == detached + if r.Some? then [r.value] else []
      ensures r.None? ==> live == old(live) && created == old(created)
      ensures r.Some? ==> live == old(live)[name := r.value]
      ensures r.Some? ==> created == if name in old(created) then old(created) else old(created)[name := now]
      ensures sdk.get == None ==> r == None
      ensures sdk.get == Some(Up) ==> r == sdk.connect
      ensures sdk.get == Some(Down) ==> r == if sdk.start1.Some? && sdk.up1 then sdk.start1
                                             else if sdk.start1.Some? && sdk.start2.Some? && sdk.up2 then sdk.start2
                                             else None
    {
      acquired, detached := [], [];
      if sdk.get.None? {
        return None, acquired, detached;
      }
      if sdk.get.value.Up? {
        r := sdk.connect;
        if r.None? {
          return;
        }
        acquired := [r.value];
      } else {
        r, acquired, detached := BootAndVerify(sdk);
        if r.None? {
          return;
        }
      }
      Cache(name, r.value, now);
    }

    // resolve, once the flight for name is this call's own.
    method Resolve(name: Name, sdk: Sdk, now: int) returns (r: Option<Handle>)
      modifies this`live, this`created
      ensures name in old(live) ==> r == Some(old(live)[name]) && live == old(live)
      ensures name !in old(live) && sdk.get == None ==> r == None
      ensures name !in old(live) && sdk.get == Some(Up) ==> r == sdk.connect
      ensures name !in old(live) && sdk.get == Some(Down) ==>
                r == if sdk.start1.Some? && sdk.up1 then sdk.start1
                     else if sdk.start1.Some? && sdk.start2.Some? && sdk.up2 then sdk.start2
                     else None
      ensures r.None? ==> live == old(live)
      ensures r.Some? ==> name in live && live[name] == r.value
      ensures live - {name} == old(live) - {name}
    {
      if name in live {
        return Some(live[name]);
      }
      ghost var acquired, detached;
      r, acquired, detached := ResolveSlow(name, sdk, now);
    }
  }

  // ----- All interleavings ------------------------------------------------------------------

  // Where the execution of one flight's function is.
  datatype Pc =
    | Recheck
    | Getting
    | Connecting
    | Starting(again: bool)
    | Verifying(h: Handle, again: bool)
    | Detaching(h: Handle, again: bool)
    | Killing
    | Storing(h: Handle)
    | Over(result: Option<Handle>)

  datatype Exec = Exec(name: Name, pc: Pc)

  datatype CreatePc = Creating | Created(h: Handle)

  datatype World = World(
    live: map<Name, Handle>,
    flights: map<Name, nat>,        // singleflight's table of running calls
    execs: map<nat, Exec>,
    creates: map<Name, CreatePc>,   // Create calls that have not stored their handle yet
    used: set<Name>,                // names drawn by Create or asked for; a draw is always new
    next: Handle,                   // SDK handles are numbered as they are opened
    acquired: seq<Handle>,          // opened by executions, not by Create
    held: map<Handle, nat>,         // opened by an execution that still has to decide its fate
    detached: seq<Handle>,
    delivered: seq<Handle>)         // returned by the execution that opened it

  datatype Step =
    | Fly(name: Name, e: nat)                   // first call for name: a new execution
    | Rechecks(e: nat)
    | Gets(e: nat, status: Option<Status>)
    | Connects(e: nat, ok: bool)
    | Starts(e: nat, ok: bool)
    | Verifies(e: nat, up: bool)
    | Detaches(e: nat)
    | Kills(e: nat)
    | Stores(e: nat)
    | Lands(e: nat)                             // the table entry goes, every waiter has the result
    | CreateBegins(name: Name)
    | CreateBoots(name: Name, ok: bool)
    | CreateStores(name: Name)
    | Forgets(name: Name)                       // Stop, Delete, or a retry in withSandbox

  predicate Enabled(w: World, s: Step) {
    match s
    case Fly(name, e) => name !in w.flights && e !in w.execs
    case Rechecks(e) => e in w.execs && w.execs[e].pc.Recheck?
    case Gets(e, _) => e in w.execs && w.execs[e].pc.Getting?
    case Connects(e, _) => e in w.execs && w.execs[e].pc.Connecting?
    case Starts(e, _) => e in w.execs && w.execs[e].pc.Starting?
    case Verifies(e, _) => e in w.execs && w.execs[e].pc.Verifying?
    case Detaches(e) => e in w.execs && w.execs[e].pc.Detaching?
    case Kills(e) => e in w.execs && w.execs[e].pc.Killing?
    case Stores(e) => e in w.execs && w.execs[e].pc.Storing?
    case Lands(e) => e in w.execs && w.execs[e].pc.Over?
    case CreateBegins(name) => name !in w.used
    case CreateBoots(name, _) => name in w.creates && w.creates[name].Creating?
    case CreateStores(name) => name in w.creates && w.creates[name].Created?
    case Forgets(_) => true
  }

  function Move(w: World, e: nat, pc: Pc): World
    requires e in w.execs
  {
    w.(execs := w.execs[e := w.execs[e].(pc := pc)])
  }

  // Execution e opens a handle and goes to pc.
  function Opens(w: World, e: nat, pc: Pc): World
    requires e in w.execs
  {
    Move(w, e, pc).(next := w.next + 1, acquired := w.acquired + [w.next], held := w.held[w.next := e])
  }

  function Take(w: World, s: Step): World
    requires Enabled(w, s)
  {
    match s
    case Fly(name, e) =>
      w.(flights := w.flights[name := e], execs := w.execs[e := Exec(name, Recheck)], used := w.used + {name})
    case Rechecks(e) =>
      var x := w.execs[e];
      Move(w, e, if x.name in w.live then Over(Some(w.live[x.name])) else Getting)
    case Gets(e, status) =>
      Move(w, e, if status.None? then Over(None) else if status.value.Up? then Connecting else Starting(false))
    case Connects(e, ok) => if ok then Opens(w, e, Storing(w.next)) else Move(w, e, Over(None))
    case Starts(e, ok) =>
      if ok then Opens(w, e, Verifying(w.next, w.execs[e].pc.again)) else Move(w, e, Over(None))
    case Verifies(e, up) =>
      var pc := w.execs[e].pc;
      Move(w, e, if up then Storing(pc.h) else Detaching(pc.h, pc.again))
    case Detaches(e) =>
      var pc := w.execs[e].pc;
      Move(w, e, if pc.again then Over(None) else Killing)
      .(detached := w.detached + [pc.h], held := w.held - {pc.h})
    case Kills(e) => Move(w, e, Starting(true))
    case Stores(e) =>
      var h := w.execs[e].pc.h;
      Move(w, e, Over(Some(h)))
      .(live := w.live[w.execs[e].name := h], held := w.held - {h}, delivered := w.delivered + [h])
    case Lands(e) => w.(execs := w.execs - {e}, flights := w.flights - {w.execs[e].name})
    case CreateBegins(name) => w.(used := w.used + {name}, creates := w.creates[name := Creating])
    case CreateBoots(name, ok) =>
      if ok then w.(creates := w.creates[name := Created(w.next)], next := w.next + 1)
      else w.(creates := w.creates - {name})
    case CreateStores(name) =>
      w.(live := w.live[name := w.creates[name].h], creates := w.creates - {name})
    case Forgets(name) => w.(live := w.live - {name})
  }

  // Names of boxes from before a restart are in used from the start.
  predicate Initial(w: World) {
    && w.live == map[] && w.flights == map[] && w.execs == map[] && w.creates == map[]
    && w.next == 0 && w.held == map[] && w.acquired == w.detached == w.delivered == []
  }

  ghost predicate Run(ws: seq<World>, ss: seq<Step>) {
    && |ws| == |ss| + 1 && Initial(ws[0])
    && forall i {:trigger ss[i]} :: 0 <= i < |ss| ==> Enabled(ws[i], ss[i]) && ws[i + 1] == Take(ws[i], ss[i])
  }

  // ----- The invariant --------------------------------------------------------------------------

  ghost predicate FlightInv(w: World) {
    && (forall e :: e in w.execs ==> w.execs[e].name in w.flights && w.flights[w.execs[e].name] == e)
    && (forall n :: n in w.flights ==> w.flights[n] in w.execs && w.execs[w.flights[n]].name == n)
    && (forall n :: n in w.creates || n in w.flights || n in w.live ==> n in w.used)
  }

  predicate Undecided(pc: Pc) {
    pc.Verifying? || pc.Detaching? || pc.Storing?
  }

  // The handles held are those that some execution has to decide about.
  ghost predicate HeldInv(w: World) {
    && (forall e :: e in w.execs && Undecided(w.execs[e].pc) ==>
          w.execs[e].pc.h in w.held && w.held[w.execs[e].pc.h] == e)
    && (forall h :: h in w.held ==>
          h < w.next && w.held[h] in w.execs && Undecided(w.execs[w.held[h]].pc) && w.execs[w.held[h]].pc.h == h)
  }

  // No handle is decided about twice, and every handle opened is accounted for.
  ghost predicate DecidedInv(w: World) {
    && (forall h :: h in w.detached || h in w.delivered ==> h < w.next && h !in w.held)
    && (forall i, k :: 0 <= i < k < |w.detached| ==> w.detached[i] != w.detached[k])
    && (forall i, k :: 0 <= i < k < |w.delivered| ==> w.delivered[i] != w.delivered[k])
    && (forall h :: h in w.detached ==> h !in w.delivered)
    && (forall h :: h in w.acquired ==> h < w.next && (h in w.held || h in w.detached || h in w.delivered))
  }

  ghost predicate LedgerInv(w: World) {
    HeldInv(w) && DecidedInv(w)
  }

  // The execution that a step belongs to.
  function ActorOf(s: Step): Option<nat> {
    match s
    case Rechecks(e) => Some(e)
    case Gets(e, _) => Some(e)
    case Connects(e, _) => Some(e)
    case Starts(e, _) => Some(e)
    case Verifies(e, _) => Some(e)
    case Detaches(e) => Some(e)
    case Kills(e) => Some(e)
    case Stores(e) => Some(e)
    case _ => None
  }

  // Such a step changes that execution only, and not its name.
  lemma ActorMoves(w: World, s: Step)
    requires Enabled(w, s) && ActorOf(s).Some?
    ensures var w', e := Take(w, s), ActorOf(s).value;
            && e in w.execs && e in w'.execs && w'.execs == w.execs[e := w'.execs[e]]
            && w'.execs[e].name == w.execs[e].name
  {
  }

  // It leaves the flights and Create alone, and changes the cache only to store its handle.
  lemma ActorLeaves(w: World, s: Step)
    requires Enabled(w, s) && ActorOf(s).Some?
    ensures var w', e := Take(w, s), ActorOf(s).value;
            && e in w.execs
            && w'.flights == w.flights && w'.creates == w.creates && w'.used == w.used
            && (w'.live == w.live || (s.Stores? && w'.live == w.live[w.execs[e].name := w.execs[e].pc.h]))
  {
  }

  lemma FlightStep(w: World, s: Step)
    requires FlightInv(w) && Enabled(w, s)
    ensures FlightInv(Take(w, s))
  {
    if ActorOf(s).Some? {
      ActorMoves(w, s);
      ActorLeaves(w, s);
    }
  }

  // Nothing happens to the ledger while the undecided handles stay the same.
  lemma LedgerKept(w: World, w': World)
    requires LedgerInv(w) && w.next <= w'.next
    requires w'.held == w.held && w'.detached == w.detached && w'.delivered == w.delivered && w'.acquired == w.acquired
    requires forall e :: e in w.execs && Undecided(w.execs[e].pc) ==>
               e in w'.execs && Undecided(w'.execs[e].pc) && w'.execs[e].pc.h == w.execs[e].pc.h
    requires forall e :: e in w'.execs && Undecided(w'.execs[e].pc) ==> e in w.execs && Undecided(w.execs[e].pc)
    ensures LedgerInv(w')
  {
  }

  lemma LedgerOpens(w: World, e: nat, pc: Pc)
    requires LedgerInv(w) && e in w.execs && !Undecided(w.execs[e].pc)
    requires Undecided(pc) && pc.h == w.next
    ensures LedgerInv(Opens(w, e, pc))
  {
    assert w.next !in w.held;
  }

  lemma Decides(w: World, w': World, h: Handle, detach: bool)
    requires DecidedInv(w) && h in w.held && h < w.next
    requires w'.next == w.next && w'.acquired == w.acquired && w'.held == w.held - {h}
    requires w'.detached == w.detached + if detach then [h] else []
    requires w'.delivered == w.delivered + if detach then [] else [h]
    ensures DecidedInv(w')
  {
    assert h in w'.detached || h in w'.delivered by {
      if detach {
        assert w'.detached[|w.detached|] == h;
      } else {
        assert w'.delivered[|w.delivered|] == h;
      }
    }
    assert forall x :: x in w'.detached ==> x in w.detached || (detach && x == h);
    assert forall x :: x in w'.delivered ==> x in w.delivered || (!detach && x == h);
    assert forall x :: x in w.detached ==> x in w'.detached;
    assert forall x :: x in w.delivered ==> x in w'.delivered;
  }

  lemma LedgerDecides(w: World, w': World, e: nat, detach: bool)
    requires LedgerInv(w) && e in w.execs && Undecided(w.execs[e].pc)
    requires w'.next == w.next && w'.acquired == w.acquired
    requires e in w'.execs && !Undecided(w'.execs[e].pc) && w'.execs == w.execs[e := w'.execs[e]]
    requires w'.held == w.held - {w.execs[e].pc.h}
    requires w'.detached == w.detached + if detach then [w.execs[e].pc.h] else []
    requires w'.delivered == w.delivered + if detach then [] else [w.execs[e].pc.h]
    ensures LedgerInv(w')
  {
    Decides(w, w', w.execs[e].pc.h, detach);
  }

  // One execution moves between points where it has the same handle to decide about, or none.
  lemma LedgerMoves(w: World, w': World, e: nat, x: Exec)
    requires LedgerInv(w) && e in w.execs && w'.execs == w.execs[e := x]
    requires Undecided(x.pc) == Undecided(w.execs[e].pc) && (Undecided(x.pc) ==> x.pc.h == w.execs[e].pc.h)
    requires w'.next == w.next && w'.acquired == w.acquired
    requires w'.held == w.held && w'.detached == w.detached && w'.delivered == w.delivered
    ensures LedgerInv(w')
  {
    LedgerKept(w, w');
  }

  // The steps that open a handle or decide about one.
  predicate TouchesLedger(s: Step) {
    match s
    case Connects(_, ok) => ok
    case Starts(_, ok) => ok
    case Detaches(_) => true
    case Stores(_) => true
    case _ => false
  }

  lemma LedgerActorStep(w: World, s: Step)
    requires LedgerInv(w) && Enabled(w, s) && TouchesLedger(s)
    ensures LedgerInv(Take(w, s))
  {
    match s {
      case Connects(e, _) => LedgerOpens(w, e, Storing(w.next));
      case Starts(e, _) => LedgerOpens(w, e, Verifying(w.next, w.execs[e].pc.again));
      case Detaches(e) => LedgerDecides(w, Take(w, s), e, true);
      case Stores(e) => LedgerDecides(w, Take(w, s), e, false);
    }
  }

  lemma LedgerQuietStep(w: World, s: Step)
    requires LedgerInv(w) && Enabled(w, s) && ActorOf(s).Some? && !TouchesLedger(s)
    ensures LedgerInv(Take(w, s))
  {
    var e := ActorOf(s).value;
    LedgerMoves(w, Take(w, s), e, Take(w, s).execs[e]);
  }

  lemma LedgerStep(w: World, s: Step)
    requires LedgerInv(w) && Enabled(w, s)
    ensures LedgerInv(Take(w, s))
  {
    if TouchesLedger(s) {
      LedgerActorStep(w, s);
    } else if ActorOf(s).Some? {
      LedgerQuietStep(w, s);
    } else {
      LedgerKept(w, Take(w, s));
    }
  }

  // ----- Whole runs ---------------------------------------------------------------------------

  lemma {:induction false} Reachable(ws: seq<World>, ss: seq<Step>, n: nat)
    requires Run(ws, ss) && n < |ws|
    ensures FlightInv(ws[n]) && LedgerInv(ws[n])
  {
    if n > 0 {
      Reachable(ws, ss, n - 1);
      FlightStep(ws[n - 1], ss[n - 1]);
      LedgerStep(ws[n - 1], ss[n - 1]);
      assert ws[n] == Take(ws[n - 1], ss[n - 1]);
    }
  }

  // Two executions for one name are the same execution: a box is never booted twice at once.
  lemma OneBootPerName(ws: seq<World>, ss: seq<Step>, n: nat, e1: nat, e2: nat)
    requires Run(ws, ss) && n < |ws|
    requires e1 in ws[n].execs && e2 in ws[n].execs && ws[n].execs[e1].name == ws[n].execs[e2].name
    ensures e1 == e2
  {
    Reachable(ws, ss, n);
  }

  predicate Once(s: seq<Handle>, h: Handle) {
    exists i :: 0 <= i < |s| && s[i] == h && forall k :: 0 <= k < |s| && k != i ==> s[k] != h
  }

  // Every handle that an execution opened is still its own, or was detached exactly once, or
  // was returned exactly once, and only one of these; with no execution left, not the first.
  lemma HandlesAreConserved(ws: seq<World>, ss: seq<Step>, n: nat, h: Handle)
    requires Run(ws, ss) && n < |ws| && h in ws[n].acquired
    ensures var w := ws[n];
            || (h in w.held && w.held[h] in w.execs && h !in w.detached && h !in w.delivered)
            || (h !in w.held && Once(w.detached, h) && h !in w.delivered)
            || (h !in w.held && h !in w.detached && Once(w.delivered, h))
    ensures ws[n].execs == map[] ==> h !in ws[n].held
  {
    Reachable(ws, ss, n);
    var w := ws[n];
    if h in w.detached {
      var i :| 0 <= i < |w.detached| && w.detached[i] == h;
      assert forall k :: 0 <= k < |w.detached| && k != i ==> w.detached[k] != h;
    } else if h in w.delivered {
      var i :| 0 <= i < |w.delivered| && w.delivered[i] == h;
      assert forall k :: 0 <= k < |w.delivered| && k != i ==> w.delivered[k] != h;
    }
  }

  // ----- The course of a flight --------------------------------------------------------------

  // What execution e has done before world n, since it re-checked the cache.
  ghost function Course(ss: seq<Step>, e: nat, n: nat): seq<Step>
    requires n <= |ss|
  {
    if n == 0 || ss[n - 1] == Rechecks(e) then []
    else if ActorOf(ss[n - 1]) == Some(e) then Course(ss, e, n - 1) + [ss[n - 1]]
    else Course(ss, e, n - 1)
  }

  // Up to a boot: the first one follows the news that the box is down, the second one the
  // failure of the first to come up.
  function UpToBoot(e: nat, again: bool): seq<Step> {
    [Gets(e, Some(Down))]
    + if again then [Starts(e, true), Verifies(e, false), Detaches(e), Kills(e)] else []
  }

  predicate Opened(c: seq<Step>, e: nat) {
    || c == [Gets(e, Some(Up)), Connects(e, true)]
    || c == UpToBoot(e, false) + [Starts(e, true), Verifies(e, true)]
    || c == UpToBoot(e, true) + [Starts(e, true), Verifies(e, true)]
  }

  predicate Failed(c: seq<Step>, e: nat) {
    || c == [Gets(e, None)]
    || c == [Gets(e, Some(Up)), Connects(e, false)]
    || c == UpToBoot(e, false) + [Starts(e, false)]
    || c == UpToBoot(e, true) + [Starts(e, false)]
    || c == UpToBoot(e, true) + [Starts(e, true), Verifies(e, false), Detaches(e)]
  }

  // The course that brings an execution to pc.
  predicate LeadsTo(c: seq<Step>, e: nat, pc: Pc) {
    match pc
    case Recheck => true
    case Getting => c == []
    case Connecting => c == [Gets(e, Some(Up))]
    case Starting(again) => c == UpToBoot(e, again)
    case Verifying(_, again) => c == UpToBoot(e, again) + [Starts(e, true)]
    case Detaching(_, again) => c == UpToBoot(e, again) + [Starts(e, true), Verifies(e, false)]
    case Killing => c == UpToBoot(e, false) + [Starts(e, true), Verifies(e, false), Detaches(e)]
    case Storing(_) => Opened(c, e)
    case Over(result) =>
      if result.None? then Failed(c, e)
      else c == [] || (Opened(c[..|c| - 1], e) && c[|c| - 1] == Stores(e))
  }

  lemma AskingLeadsOn(w: World, s: Step, e: nat, c: seq<Step>)
    requires Enabled(w, s) && ActorOf(s) == Some(e) && (s.Gets? || s.Connects? || s.Starts?)
    requires e in w.execs && LeadsTo(c, e, w.execs[e].pc)
    ensures LeadsTo(c + [s], e, Take(w, s).execs[e].pc)
  {
  }

  lemma DecidingLeadsOn(w: World, s: Step, e: nat, c: seq<Step>)
    requires Enabled(w, s) && ActorOf(s) == Some(e) && (s.Verifies? || s.Detaches? || s.Kills? || s.Stores?)
    requires e in w.execs && LeadsTo(c, e, w.execs[e].pc)
    ensures LeadsTo(c + [s], e, Take(w, s).execs[e].pc)
  {
    assert (c + [s])[..|c|] == c;
  }

  lemma LeadsOn(w: World, s: Step, e: nat, c: seq<Step>)
    requires Enabled(w, s) && ActorOf(s) == Some(e) && !s.Rechecks?
    requires e in w.execs && LeadsTo(c, e, w.execs[e].pc)
    ensures LeadsTo(c + [s], e, Take(w, s).execs[e].pc)
  {
    if s.Gets? || s.Connects? || s.Starts? {
      AskingLeadsOn(w, s, e, c);
    } else {
      DecidingLeadsOn(w, s, e, c);
    }
  }

  lemma OthersStay(w: World, s: Step, e: nat)
    requires Enabled(w, s) && ActorOf(s) != Some(e) && e in Take(w, s).execs && !Take(w, s).execs[e].pc.Recheck?
    ensures e in w.execs && w.execs[e] == Take(w, s).execs[e]
  {
    if ActorOf(s).Some? {
      ActorMoves(w, s);
    }
  }

  // In every world of every run, where an execution is tells exactly what it has done: it
  // connects only to a box that is up, boots only one that is down, stores only what has
  // connected or has come up, and boots a second time only after one failed boot, whose
  // handle it has detached and whose box it has killed.
  lemma {:induction false} CourseOfFlight(ws: seq<World>, ss: seq<Step>, n: nat, e: nat)
    requires Run(ws, ss) && n < |ws| && e in ws[n].execs
    ensures LeadsTo(Course(ss, e, n), e, ws[n].execs[e].pc)
  {
    if n > 0 {
      var w, s := ws[n - 1], ss[n - 1];
      assert Enabled(w, s) && ws[n] == Take(w, s);
      if ActorOf(s) == Some(e) {
        if !s.Rechecks? {
          CourseOfFlight(ws, ss, n - 1, e);
          LeadsOn(w, s, e, Course(ss, e, n - 1));
        }
      } else if !ws[n].execs[e].pc.Recheck? {
        OthersStay(w, s, e);
        CourseOfFlight(ws, ss, n - 1, e);
      }
    }
  }

  // An execution is for the name that it was started for.
  lemma {:induction false} FlownFor(ws: seq<World>, ss: seq<Step>, n: nat, e: nat) returns (i: nat)
    requires Run(ws, ss) && n < |ws| && e in ws[n].execs
    ensures i < n && ss[i] == Fly(ws[n].execs[e].name, e)
  {
    assert n > 0;
    i := n - 1;
    assert Enabled(ws[i], ss[i]) && ws[n] == Take(ws[i], ss[i]);
    NameStays(ws[i], ss[i], e);
    if ss[i] != Fly(ws[n].execs[e].name, e) {
      i := FlownFor(ws, ss, i, e);
    }
  }

  lemma NameStays(w: World, s: Step, e: nat)
    requires Enabled(w, s) && e in Take(w, s).execs
    ensures s == Fly(Take(w, s).execs[e].name, e) || (e in w.execs && w.execs[e].name == Take(w, s).execs[e].name)
  {
    if ActorOf(s).Some? {
      ActorMoves(w, s);
    }
  }

  // Create stores the handle that its own boot opened.
  lemma {:induction false} CreateStoresItsOwn(ws: seq<World>, ss: seq<Step>, n: nat, name: Name) returns (i: nat)
    requires Run(ws, ss) && n < |ws| && name in ws[n].creates && ws[n].creates[name].Created?
    ensures i < n && ss[i] == CreateBoots(name, true) && ws[i].next == ws[n].creates[name].h
  {
    assert n > 0;
    i := n - 1;
    assert Enabled(ws[i], ss[i]) && ws[n] == Take(ws[i], ss[i]);
    if ss[i] != CreateBoots(name, true) {
      i := CreateStoresItsOwn(ws, ss, i, name);
    }
  }

  // The step gives execution e its result: the handle cached, or the handle stored.
  predicate Gives(w: World, s: Step, e: nat, h: Handle) {
    && e in w.execs
    && var x := w.execs[e];
       || (s == Rechecks(e) && x.name in w.live && w.live[x.name] == h)
       || (s == Stores(e) && x.pc.Storing? && x.pc.h == h)
  }

  lemma GivesStep(w: World, s: Step, e: nat, h: Handle)
    requires Enabled(w, s) && e in Take(w, s).execs && Take(w, s).execs[e].pc == Over(Some(h))
    ensures Gives(w, s, e, h) || (e in w.execs && w.execs[e].pc == Over(Some(h)))
    ensures Gives(w, s, e, h) ==> w.execs[e].name in Take(w, s).live && Take(w, s).live[w.execs[e].name] == h
  {
    if ActorOf(s).Some? && ActorOf(s) != Some(e) {
      ActorMoves(w, s);
    }
  }

  // Every waiter of a flight that succeeds gets the handle that was cached for the name when
  // the flight got it.
  lemma {:induction false} ResultIsCached(ws: seq<World>, ss: seq<Step>, n: nat, e: nat, h: Handle) returns (i: nat)
    requires Run(ws, ss) && n < |ws| && e in ws[n].execs && ws[n].execs[e].pc == Over(Some(h))
    ensures i < n && Gives(ws[i], ss[i], e, h)
    ensures ws[i].execs[e].name in ws[i + 1].live && ws[i + 1].live[ws[i].execs[e].name] == h
  {
    assert n > 0;
    i := n - 1;
    assert Enabled(ws[i], ss[i]) && ws[n] == Take(ws[i], ss[i]);
    GivesStep(ws[i], ss[i], e, h);
    if !Gives(ws[i], ss[i], e, h) {
      i := ResultIsCached(ws, ss, i, e, h);
    }
  }

  // ----- When a store overwrites a live handle -----------------------------------------------

  // The step puts a handle for the name in the cache.
  predicate Caches(w: World, s: Step, name: Name) {
    s == CreateStores(name) || (s.Stores? && s.e in w.execs && w.execs[s.e].name == name)
  }

  // Step k caches a handle for the name, and no step since forgets it.
  ghost predicate CachedSince(ws: seq<World>, ss: seq<Step>, name: Name, k: nat, n: nat)
    requires |ws| == |ss| + 1
  {
    k < n <= |ss| && Caches(ws[k], ss[k], name) && forall i :: k < i < n ==> ss[i] != Forgets(name)
  }

  lemma LiveStep(w: World, s: Step, name: Name)
    requires Enabled(w, s)
    ensures name in Take(w, s).live <==> Caches(w, s, name) || (name in w.live && s != Forgets(name))
  {
  }

  lemma CachedOneMore(ws: seq<World>, ss: seq<Step>, name: Name, k: nat, n: nat)
    requires |ws| == |ss| + 1 && k < n < |ss|
    ensures CachedSince(ws, ss, name, k, n + 1) <==> CachedSince(ws, ss, name, k, n) && ss[n] != Forgets(name)
  {
  }

  // A name that was not cached is cached later exactly when a step in between caches it and
  // none forgets it afterwards. A flight that fails is no such step.
  lemma {:induction false} LiveExactly(ws: seq<World>, ss: seq<Step>, name: Name, a: nat, n: nat)
    requires Run(ws, ss) && a <= n < |ws| && name !in ws[a].live
    ensures name in ws[n].live <==> exists k: nat :: a <= k && CachedSince(ws, ss, name, k, n)
    decreases n
  {
    if a < n {
      var m := n - 1;
      LiveExactly(ws, ss, name, a, m);
      LiveStep(ws[m], ss[m], name);
      assert Caches(ws[m], ss[m], name) <==> CachedSince(ws, ss, name, m, n);
      if k: nat :| a <= k && CachedSince(ws, ss, name, k, m) {
        CachedOneMore(ws, ss, name, k, m);
      }
      if k: nat :| a <= k && CachedSince(ws, ss, name, k, n) {
        if k < m {
          CachedOneMore(ws, ss, name, k, m);
        }
      }
    }
  }

  // The flight's execution e, which re-checked the cache in vain at r and has not stored yet.
  ghost predicate Missed(ws: seq<World>, ss: seq<Step>, e: nat, name: Name, r: nat, n: nat)
    requires |ws| == |ss| + 1
  {
    && r < n <= |ss| && ss[r] == Rechecks(e) && name !in ws[r].live
    && forall i :: r < i <= n ==> InFlight(ws[i], e, name)
  }

  predicate InFlight(w: World, e: nat, name: Name) {
    e in w.execs && w.execs[e].name == name && !w.execs[e].pc.Recheck? && !w.execs[e].pc.Over?
  }

  lemma InFlightStep(w: World, s: Step, e: nat, name: Name)
    requires FlightInv(w) && Enabled(w, s) && InFlight(Take(w, s), e, name)
    ensures name in w.flights && e in w.execs && w.execs[e].name == name
    ensures InFlight(w, e, name) || (s == Rechecks(e) && name !in w.live)
  {
    if ActorOf(s).Some? {
      ActorMoves(w, s);
      ActorLeaves(w, s);
    }
  }

  lemma {:induction false} HasMissed(ws: seq<World>, ss: seq<Step>, e: nat, name: Name, n: nat) returns (r: nat)
    requires Run(ws, ss) && n < |ws| && InFlight(ws[n], e, name)
    ensures Missed(ws, ss, e, name, r, n)
  {
    assert n > 0;
    r := n - 1;
    assert Enabled(ws[r], ss[r]) && ws[n] == Take(ws[r], ss[r]);
    Reachable(ws, ss, r);
    InFlightStep(ws[r], ss[r], e, name);
    if InFlight(ws[r], e, name) {
      r := HasMissed(ws, ss, e, name, r);
    }
  }

  // Between its re-check and its store no other flight stores for its name.
  lemma OnlyCreateCaches(ws: seq<World>, ss: seq<Step>, e: nat, name: Name, r: nat, n: nat, k: nat)
    requires Run(ws, ss) && Missed(ws, ss, e, name, r, n) && r <= k < n && Caches(ws[k], ss[k], name)
    ensures r < k && ss[k] == CreateStores(name)
  {
    Reachable(ws, ss, k);
    assert Enabled(ws[k], ss[k]) && ws[k + 1] == Take(ws[k], ss[k]);
    assert InFlight(ws[k + 1], e, name);
    InFlightStep(ws[k], ss[k], e, name);
  }

  // A resolve overwrites a live handle exactly when Create has stored one for the name after
  // the resolve re-checked the cache, and nothing has forgotten it since.
  lemma ResolveOverwritesExactly(ws: seq<World>, ss: seq<Step>, n: nat, name: Name) returns (r: nat)
    requires Run(ws, ss) && n < |ss| && ss[n].Stores? && ws[n].execs[ss[n].e].name == name
    ensures Missed(ws, ss, ss[n].e, name, r, n)
    ensures name in ws[n].live <==>
            exists k: nat :: r < k < n && ss[k] == CreateStores(name) && CachedSince(ws, ss, name, k, n)
  {
    assert Enabled(ws[n], ss[n]);
    r := HasMissed(ws, ss, ss[n].e, name, n);
    LiveExactly(ws, ss, name, r, n);
    if k: nat :| r <= k && CachedSince(ws, ss, name, k, n) {
      OnlyCreateCaches(ws, ss, ss[n].e, name, r, n, k);
    }
  }

  // Create of the name has begun and has not ended.
  lemma {:induction false} BegunByCreate(ws: seq<World>, ss: seq<Step>, name: Name, n: nat) returns (b: nat)
    requires Run(ws, ss) && n < |ws| && name in ws[n].creates
    ensures b < n && ss[b] == CreateBegins(name) && name !in ws[b].used
    ensures forall i :: b < i <= n ==> name in ws[i].creates
  {
    assert n > 0;
    b := n - 1;
    assert Enabled(ws[b], ss[b]) && ws[n] == Take(ws[b], ss[b]);
    if name in ws[b].creates {
      b := BegunByCreate(ws, ss, name, b);
    }
  }

  lemma CreateStoresLast(ws: seq<World>, ss: seq<Step>, name: Name, b: nat, n: nat, k: nat)
    requires Run(ws, ss) && b <= k < n <= |ss| && ss[b] == CreateBegins(name)
    requires forall i :: b < i <= n ==> name in ws[i].creates
    ensures ss[k] != CreateStores(name)
  {
    assert Enabled(ws[k], ss[k]) && ws[k + 1] == Take(ws[k], ss[k]);
  }

  // Create overwrites a live handle exactly when a flight has stored one for the name since
  // Create drew it, and nothing has forgotten it since.
  lemma CreateOverwritesExactly(ws: seq<World>, ss: seq<Step>, n: nat, name: Name) returns (b: nat)
    requires Run(ws, ss) && n < |ss| && ss[n] == CreateStores(name)
    ensures b < n && ss[b] == CreateBegins(name) && forall i :: b < i <= n ==> name in ws[i].creates
    ensures name in ws[n].live <==>
            exists k: nat :: b < k < n && ss[k].Stores? && CachedSince(ws, ss, name, k, n)
  {
    assert Enabled(ws[n], ss[n]);
    b := BegunByCreate(ws, ss, name, n);
    Reachable(ws, ss, b);
    LiveExactly(ws, ss, name, b, n);
    if k: nat :| b <= k && CachedSince(ws, ss, name, k, n) {
      CreateStoresLast(ws, ss, name, b, n, k);
    }
  }

  lemma {:induction false} UsedIsNotDrawn(ws: seq<World>, ss: seq<Step>, name: Name, a: nat, b: nat)
    requires Run(ws, ss) && a <= b < |ws| && name in ws[a].used && name in ws[b].creates
    ensures name in ws[a].creates
    decreases b
  {
    if a < b {
      UsedStays(ws, ss, name, a, b - 1);
      assert Enabled(ws[b - 1], ss[b - 1]) && ws[b] == Take(ws[b - 1], ss[b - 1]);
      UsedIsNotDrawn(ws, ss, name, a, b - 1);
    }
  }

  lemma {:induction false} UsedStays(ws: seq<World>, ss: seq<Step>, name: Name, a: nat, b: nat)
    requires Run(ws, ss) && a <= b < |ws| && name in ws[a].used
    ensures name in ws[b].used
    decreases b
  {
    if a < b {
      UsedStays(ws, ss, name, a, b - 1);
      assert Enabled(ws[b - 1], ss[b - 1]) && ws[b] == Take(ws[b - 1], ss[b - 1]);
    }
  }

  // So a flight that re-checks when no Create of its name is unfinished, in particular for a
  // name whose Create has returned, never overwrites a live handle.
  lemma StoreFindsEmpty(ws: seq<World>, ss: seq<Step>, n: nat, name: Name) returns (r: nat)
    requires Run(ws, ss) && n < |ss| && ss[n].Stores? && ws[n].execs[ss[n].e].name == name
    ensures Missed(ws, ss, ss[n].e, name, r, n)
    ensures name !in ws[r].creates ==> name !in ws[n].live
  {
    r := ResolveOverwritesExactly(ws, ss, n, name);
    Reachable(ws, ss, r);
    assert Enabled(ws[r], ss[r]);
    if name in ws[n].live {
      var k: nat :| r < k < n && ss[k] == CreateStores(name) && CachedSince(ws, ss, name, k, n);
      assert Enabled(ws[k], ss[k]);
      assert InFlight(ws[r + 1], ss[n].e, name);
      InFlightStep(ws[r], ss[r], ss[n].e, name);
      UsedIsNotDrawn(ws, ss, name, r, k);
    }
  }

  // ----- Where the guarantee ends -----------------------------------------------------------------

  lemma Extend(ws: seq<World>, ss: seq<Step>, s: Step, w: World) returns (ws': seq<World>, ss': seq<Step>)
    requires Run(ws, ss) && Enabled(ws[|ss|], s) && w == Take(ws[|ss|], s)
    ensures Run(ws', ss') && |ss'| == |ss| + 1 && ws'[|ss'|] == w
  {
    ws', ss' := ws + [w], ss + [s];
  }

  // Create has booted a box under the name but not stored the handle 0 yet.
  function Unstored(name: Name): World {
    World(map[], map[], map[], map[name := Created(0)], {name}, 1, [], map[], [], [])
  }

  lemma CreateUnderway(name: Name) returns (ws: seq<World>, ss: seq<Step>)
    ensures Run(ws, ss) && ws[|ss|] == Unstored(name)
  {
    var w := Unstored(name).(creates := map[], used := {}, next := 0);
    ws, ss := [w], [];
    w := w.(used := {name}, creates := map[name := Creating]);
    ws, ss := Extend(ws, ss, CreateBegins(name), w);
    ws, ss := Extend(ws, ss, CreateBoots(name, true), Unstored(name));
  }

  // The box is on the host already. A resolve that re-checks in this window stores a second
  // handle, and whichever of the two stores comes last replaces the other one.
  lemma CreateAndResolveCollide(name: Name) returns (ws: seq<World>, ss: seq<Step>)
    ensures Run(ws, ss)
    ensures var w := ws[|ss|];
            && Enabled(w, CreateStores(name)) && Enabled(w, Stores(0))
            && Take(Take(w, CreateStores(name)), Stores(0)).live == map[name := 1]
            && Take(Take(w, Stores(0)), CreateStores(name)).live == map[name := 0]
  {
    ws, ss := CreateUnderway(name);
    var w := Unstored(name).(flights := map[name := 0], execs := map[0 := Exec(name, Recheck)]);
    ws, ss := Extend(ws, ss, Fly(name, 0), w);
    w := w.(execs := map[0 := Exec(name, Getting)]);
    ws, ss := Extend(ws, ss, Rechecks(0), w);
    w := w.(execs := map[0 := Exec(name, Connecting)]);
    ws, ss := Extend(ws, ss, Gets(0, Some(Up)), w);
    w := w.(execs := map[0 := Exec(name, Storing(1))], next := 2, acquired := [1], held := map[1 := 0]);
    ws, ss := Extend(ws, ss, Connects(0, true), w);
  }
}
