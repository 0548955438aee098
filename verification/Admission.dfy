// Admission of sandbox creation under a capacity (internal/core/service.go), in every
// interleaving of concurrent Create calls, deletions, and boots outside admission.
module Admission {
  import opened Options

  // ----- The guarded counter as the code writes it -----------------------------------------

  // What one admission decision does, given the listing that was taken under the same lock.
  datatype Verdict = Admitted | AtCapacity(used: int) | CannotVerify

  function Decide(max: int, inflight: int, listed: Option<nat>): Verdict {
    if listed.None? then CannotVerify
    else if listed.value + inflight >= max then AtCapacity(listed.value + inflight)
    else Admitted
  }

  class Service {
    const maxSandboxes: int
    var inflight: int

    constructor (max: int)
      ensures maxSandboxes == max && inflight == 0
    {
      maxSandboxes, inflight := max, 0;
    }

    // The section under s.admit; listed is the outcome of s.count.
    method Admit(listed: Option<nat>) returns (v: Verdict)
      requires maxSandboxes > 0
      modifies this
      ensures v == Decide(maxSandboxes, old(inflight), listed)
      ensures v == CannotVerify <==> listed.None?
      ensures v == Admitted <==> listed.Some? && listed.value + old(inflight) < maxSandboxes
      ensures v.AtCapacity? ==> v.used == listed.value + old(inflight)
      ensures inflight == old(inflight) + if v == Admitted then 1 else 0
    {
      if listed.None? {
        return CannotVerify;
      }
      var n := listed.value;
      if n + inflight >= maxSandboxes {
        return AtCapacity(n + inflight);
      }
      inflight := inflight + 1;
      v := Admitted;
    }

    // The deferred section.
    method Release()
      modifies this
      ensures inflight == old(inflight) - 1
    {
      inflight := inflight - 1;
    }
  }

  // ----- All interleavings ------------------------------------------------------------------

  datatype Lock = Free | Held(t: nat) | Counted(t: nat, n: nat)

  datatype Host = Host(
    max: int,
    inflight: int,
    admit: Lock,                // s.admit; Counted once the listing has been taken
    waiting: set<nat>,          // admitted calls whose sandbox does not exist yet
    settled: set<nat>,          // admitted calls whose sandbox exists, or never will
    finished: set<nat>,
    boxes: set<nat>,            // sandboxes brought about by Create
    others: set<nat>)           // sandboxes booted any other way, such as by PullImage

  datatype Step =
    | Enter(t: nat)             // locks admit
    | List(t: nat)              // the listing succeeds
    | ListFails(t: nat)         // the listing fails: denied
    | Rule(t: nat)              // compares and, below the cap, reserves
    | Boot(t: nat, box: nat)    // CreateSandbox brings the sandbox about, whether or not it then reports success
    | NoBoot(t: nat)            // CreateSandbox fails and leaves nothing
    | Return(t: nat)            // the deferred decrement
    | Delete(box: nat)          // any removal of a sandbox, cleanup after a failure included
    | BootOutside(box: nat)

  predicate Unused(h: Host, t: nat) {
    t !in h.waiting && t !in h.settled && t !in h.finished
  }

  predicate Enabled(h: Host, s: Step) {
    match s
    case Enter(t) => h.admit.Free? && Unused(h, t)
    case List(t) => h.admit == Held(t)
    case ListFails(t) => h.admit == Held(t)
    case Rule(t) => h.admit.Counted? && h.admit.t == t
    case Boot(t, box) => t in h.waiting && box !in h.boxes && box !in h.others
    case NoBoot(t) => t in h.waiting
    case Return(t) => t in h.settled && h.admit.Free?
    case Delete(box) => true
    case BootOutside(box) => box !in h.boxes
  }

  function Take(h: Host, s: Step): Host
    requires Enabled(h, s)
  {
    match s
    case Enter(t) => h.(admit := Held(t))
    case List(t) => h.(admit := Counted(t, |h.boxes + h.others|))
    case ListFails(t) => h.(admit := Free, finished := h.finished + {t})
    case Rule(t) =>
      if Decide(h.max, h.inflight, Some(h.admit.n)) == Admitted
      then h.(admit := Free, inflight := h.inflight + 1, waiting := h.waiting + {t})
      else h.(admit := Free, finished := h.finished + {t})
    case Boot(t, box) => h.(waiting := h.waiting - {t}, settled := h.settled + {t}, boxes := h.boxes + {box})
    case NoBoot(t) => h.(waiting := h.waiting - {t}, settled := h.settled + {t})
    case Return(t) =>
      h.(inflight := h.inflight - 1, settled := h.settled - {t}, finished := h.finished + {t})
    case Delete(box) => h.(boxes := h.boxes - {box}, others := h.others - {box})
    case BootOutside(box) => h.(others := h.others + {box})
  }

  // msbd starts with whatever sandboxes are already on the host.
  predicate Initial(h: Host, max: int) {
    && h.max == max && h.inflight == 0 && h.admit == Free
    && h.waiting == h.settled == h.finished == h.boxes == {}
  }

  ghost predicate Run(hs: seq<Host>, ss: seq<Step>, max: int) {
    && |hs| == |ss| + 1 && Initial(hs[0], max)
    && forall i {:trigger ss[i]} :: 0 <= i < |ss| ==> Enabled(hs[i], ss[i]) && hs[i + 1] == Take(hs[i], ss[i])
  }

  // Sandboxes made by Create, plus reservations not yet turned into one.
  function Claimed(h: Host): nat {
    |h.boxes| + |h.waiting|
  }

  ghost predicate CountInv(h: Host) {
    && h.inflight == |h.waiting| + |h.settled|
    && h.waiting !! h.settled
    && (forall t :: t in h.finished ==> t !in h.waiting && t !in h.settled)
    && (!h.admit.Free? ==> Unused(h, h.admit.t))
  }

  // No Create is admitted while the lock is held, so the listing stays an upper bound.
  ghost predicate CapInv(h: Host) {
    && Claimed(h) <= h.max
    && (h.admit.Counted? ==> Claimed(h) <= h.admit.n + h.inflight)
  }

  lemma Grow(a: set<nat>, x: nat)
    ensures |a + {x}| == if x in a then |a| else |a| + 1
  {
    if x in a {
      assert a + {x} == a;
    }
  }

  lemma Shrink(a: set<nat>, x: nat)
    ensures |a - {x}| == if x in a then |a| - 1 else |a|
  {
    if x !in a {
      assert a - {x} == a;
    }
  }

  lemma Part(a: set<nat>, b: set<nat>)
    ensures |a| <= |a + b|
  {
    assert a + b == a + (b - a);
  }

  // A call moves from waiting to settled, or from settled out.
  lemma CountSettles(h: Host, h': Host, t: nat)
    requires CountInv(h) && t in h.waiting
    requires h'.waiting == h.waiting - {t} && h'.settled == h.settled + {t}
    requires h'.inflight == h.inflight && h'.finished == h.finished && h'.admit == h.admit
    ensures CountInv(h')
  {
    Shrink(h.waiting, t);
    Grow(h.settled, t);
  }

  lemma CountReturns(h: Host, t: nat)
    requires CountInv(h) && Enabled(h, Return(t))
    ensures CountInv(Take(h, Return(t)))
  {
    Shrink(h.settled, t);
  }

  lemma CountRules(h: Host, t: nat)
    requires CountInv(h) && Enabled(h, Rule(t))
    ensures CountInv(Take(h, Rule(t)))
  {
    Grow(h.waiting, t);
  }

  lemma CountStep(h: Host, s: Step)
    requires CountInv(h) && Enabled(h, s)
    ensures CountInv(Take(h, s))
  {
    match s {
      case Boot(t, _) => CountSettles(h, Take(h, s), t);
      case NoBoot(t) => CountSettles(h, Take(h, s), t);
      case Return(t) => CountReturns(h, t);
      case Rule(t) => CountRules(h, t);
      case _ =>
    }
  }

  lemma CapStep(h: Host, s: Step)
    requires CountInv(h) && CapInv(h) && Enabled(h, s)
    ensures CapInv(Take(h, s))
  {
    match s {
      case List(_) => Part(h.boxes, h.others);
      case Rule(t) => Grow(h.waiting, t);
      case Boot(t, box) =>
        Shrink(h.waiting, t);
        Grow(h.boxes, box);
      case NoBoot(t) => Shrink(h.waiting, t);
      case Delete(box) => Shrink(h.boxes, box);
      case _ =>
    }
  }

  // In every run the cap bounds what Create has made and promised, and inflight is the
  // number of calls past admission that have not returned.
  lemma {:induction false} NeverOvershoots(hs: seq<Host>, ss: seq<Step>, max: int, n: nat)
    requires max > 0 && Run(hs, ss, max) && n < |hs|
    ensures CountInv(hs[n]) && CapInv(hs[n]) && hs[n].max == max
    ensures |hs[n].boxes| + |hs[n].waiting| <= max
    ensures hs[n].inflight == |hs[n].waiting + hs[n].settled|
    decreases n
  {
    if n > 0 {
      NeverOvershoots(hs, ss, max, n - 1);
      CountStep(hs[n - 1], ss[n - 1]);
      CapStep(hs[n - 1], ss[n - 1]);
      assert hs[n] == Take(hs[n - 1], ss[n - 1]);
    }
  }

  // ----- What is admitted --------------------------------------------------------------------------

  lemma {:induction false} ListingIsReal(hs: seq<Host>, ss: seq<Step>, max: int, n: nat) returns (l: nat)
    requires Run(hs, ss, max) && n < |hs| && hs[n].admit.Counted?
    ensures l < n && ss[l] == List(hs[n].admit.t) && hs[n].admit.n == |hs[l].boxes + hs[l].others|
    ensures forall k :: l < k <= n ==> hs[k].admit == hs[n].admit
  {
    assert n > 0;
    l := n - 1;
    assert Enabled(hs[l], ss[l]) && hs[n] == Take(hs[l], ss[l]);
    if hs[l].admit == hs[n].admit {
      l := ListingIsReal(hs, ss, max, l);
    }
  }

  // A Create is admitted exactly when the sandboxes that it has listed and the calls past
  // admission that have not returned are together fewer than the cap; otherwise it is over.
  lemma AdmittedExactly(hs: seq<Host>, ss: seq<Step>, max: int, n: nat) returns (l: nat)
    requires max > 0 && Run(hs, ss, max) && n < |ss| && ss[n].Rule?
    ensures l < n && ss[l] == List(ss[n].t) && forall k :: l < k <= n ==> !hs[k].admit.Free?
    ensures ss[n].t in hs[n + 1].waiting
            <==> |hs[l].boxes + hs[l].others| + |hs[n].waiting + hs[n].settled| < max
    ensures ss[n].t !in hs[n + 1].waiting ==> ss[n].t in hs[n + 1].finished && hs[n + 1].inflight == hs[n].inflight
  {
    assert Enabled(hs[n], ss[n]) && hs[n + 1] == Take(hs[n], ss[n]);
    NeverOvershoots(hs, ss, max, n);
    l := ListingIsReal(hs, ss, max, n);
  }

  // A Create whose listing fails is not admitted.
  lemma DeniedUnverified(hs: seq<Host>, ss: seq<Step>, max: int, n: nat)
    requires max > 0 && Run(hs, ss, max) && n < |ss| && ss[n].ListFails?
    ensures ss[n].t !in hs[n + 1].waiting && hs[n + 1].inflight == hs[n].inflight && hs[n + 1].admit.Free?
  {
    assert Enabled(hs[n], ss[n]) && hs[n + 1] == Take(hs[n], ss[n]);
    NeverOvershoots(hs, ss, max, n);
  }

  // ----- The whole host --------------------------------------------------------------------------

  // Every sandbox on the host, plus reservations not yet turned into one.
  function Total(h: Host): nat {
    |h.boxes + h.others| + |h.waiting|
  }

  // The step puts a sandbox on the host that admission knows nothing of.
  predicate BootsOutside(h: Host, s: Step) {
    s.BootOutside? && s.box !in h.others
  }

  // Before world n, and since the last listing before it.
  ghost function OutsideBoots(hs: seq<Host>, ss: seq<Step>, n: nat): nat
    requires n <= |ss| < |hs|
  {
    if n == 0 then 0 else OutsideBoots(hs, ss, n - 1) + if BootsOutside(hs[n - 1], ss[n - 1]) then 1 else 0
  }

  ghost function SinceListing(hs: seq<Host>, ss: seq<Step>, n: nat): nat
    requires n <= |ss| < |hs|
  {
    if n == 0 || ss[n - 1].List? then 0
    else SinceListing(hs, ss, n - 1) + if BootsOutside(hs[n - 1], ss[n - 1]) then 1 else 0
  }

  // The decision is one that reserves.
  predicate Reserves(h: Host, s: Step) {
    s.Rule? && h.admit.Counted? && Decide(h.max, h.inflight, Some(h.admit.n)) == Admitted
  }

  ghost predicate Apart(h: Host) {
    h.boxes !! h.others
  }

  lemma ApartStep(h: Host, s: Step)
    requires Apart(h) && Enabled(h, s)
    ensures Apart(Take(h, s))
  {
  }

  lemma TotalBoots(h: Host, t: nat, box: nat)
    requires Apart(h) && Enabled(h, Boot(t, box))
    ensures Total(Take(h, Boot(t, box))) == Total(h)
  {
    Shrink(h.waiting, t);
    Grow(h.boxes + h.others, box);
    assert h.boxes + {box} + h.others == h.boxes + h.others + {box};
  }

  lemma TotalDeletes(h: Host, box: nat)
    ensures Total(Take(h, Delete(box))) <= Total(h)
  {
    Shrink(h.boxes + h.others, box);
    assert (h.boxes - {box}) + (h.others - {box}) == h.boxes + h.others - {box};
  }

  lemma TotalBootsOutside(h: Host, box: nat)
    requires Enabled(h, BootOutside(box))
    ensures Total(Take(h, BootOutside(box))) == Total(h) + if box in h.others then 0 else 1
  {
    Grow(h.boxes + h.others, box);
    assert h.boxes + (h.others + {box}) == h.boxes + h.others + {box};
  }

  // Only an outside boot and a reservation add to the total, one each.
  lemma TotalStep(h: Host, s: Step)
    requires CountInv(h) && Apart(h) && Enabled(h, s)
    ensures BootsOutside(h, s) || Reserves(h, s) ==> Total(Take(h, s)) == Total(h) + 1
    ensures !BootsOutside(h, s) && !Reserves(h, s) ==> Total(Take(h, s)) <= Total(h)
  {
    match s {
      case Rule(t) => Grow(h.waiting, t);
      case Boot(t, box) => TotalBoots(h, t, box);
      case NoBoot(t) => Shrink(h.waiting, t);
      case Delete(box) => TotalDeletes(h, box);
      case BootOutside(box) => TotalBootsOutside(h, box);
      case _ =>
    }
  }

  function Larger(a: int, b: int): int {
    if a < b then b else a
  }

  // What admission has listed and reserved falls behind by the outside boots since only.
  ghost predicate ListedInv(h: Host, since: nat) {
    h.admit.Counted? ==> Total(h) <= h.admit.n + h.inflight + since
  }

  lemma ListedStep(h: Host, s: Step, since: nat)
    requires CountInv(h) && Apart(h) && ListedInv(h, since) && Enabled(h, s)
    ensures ListedInv(Take(h, s), if s.List? then 0 else since + if BootsOutside(h, s) then 1 else 0)
  {
    TotalStep(h, s);
    if h.admit.Counted? && Take(h, s).admit.Counted? {
      ListedKept(h, s);
    }
  }

  // While a decision is pending nothing else touches what it is made from.
  lemma ListedKept(h: Host, s: Step)
    requires CountInv(h) && Enabled(h, s) && h.admit.Counted? && Take(h, s).admit.Counted?
    ensures Take(h, s).admit == h.admit && Take(h, s).inflight == h.inflight && !s.Rule? && !s.List?
  {
  }

  lemma {:induction false} HostInvHolds(hs: seq<Host>, ss: seq<Step>, max: int, n: nat)
    requires max > 0 && Run(hs, ss, max) && n < |hs|
    ensures Apart(hs[n]) && ListedInv(hs[n], SinceListing(hs, ss, n))
    ensures SinceListing(hs, ss, n) <= OutsideBoots(hs, ss, n)
    decreases n
  {
    if n > 0 {
      HostInvHolds(hs, ss, max, n - 1);
      NeverOvershoots(hs, ss, max, n - 1);
      ApartStep(hs[n - 1], ss[n - 1]);
      ListedStep(hs[n - 1], ss[n - 1], SinceListing(hs, ss, n - 1));
      assert hs[n] == Take(hs[n - 1], ss[n - 1]);
    }
  }

  // A reservation leaves the total within the cap but for the outside boots since the listing.
  lemma ReservationFits(hs: seq<Host>, ss: seq<Step>, max: int, n: nat)
    requires max > 0 && Run(hs, ss, max) && n < |ss| && Reserves(hs[n], ss[n])
    ensures Total(hs[n]) < max + SinceListing(hs, ss, n)
  {
    HostInvHolds(hs, ss, max, n);
    NeverOvershoots(hs, ss, max, n);
  }

  lemma OneStepUp(hs: seq<Host>, ss: seq<Step>, max: int, n: nat)
    requires max > 0 && Run(hs, ss, max) && n < |ss|
    ensures BootsOutside(hs[n], ss[n]) ==> Total(hs[n + 1]) == Total(hs[n]) + 1
    ensures Reserves(hs[n], ss[n]) ==> Total(hs[n + 1]) == Total(hs[n]) + 1 <= max + OutsideBoots(hs, ss, n)
    ensures !BootsOutside(hs[n], ss[n]) && !Reserves(hs[n], ss[n]) ==> Total(hs[n + 1]) <= Total(hs[n])
  {
    assert Enabled(hs[n], ss[n]) && hs[n + 1] == Take(hs[n], ss[n]);
    HostInvHolds(hs, ss, max, n);
    NeverOvershoots(hs, ss, max, n);
    TotalStep(hs[n], ss[n]);
    if Reserves(hs[n], ss[n]) {
      ReservationFits(hs, ss, max, n);
    }
  }

  lemma StartsWithOthers(h: Host, max: int)
    requires Initial(h, max)
    ensures Total(h) == |h.others|
  {
    assert h.boxes + h.others == h.others;
  }

  // The step from n adds an outside boot, or ends within the cap but for outside boots.
  ghost predicate Climbs(hs: seq<Host>, ss: seq<Step>, max: int, n: nat)
    requires n < |ss| < |hs|
  {
    || Total(hs[n + 1]) <= Total(hs[n]) + OutsideBoots(hs, ss, n + 1) - OutsideBoots(hs, ss, n)
    || Total(hs[n + 1]) <= max + OutsideBoots(hs, ss, n)
  }

  lemma {:induction false} ClimbsTo(hs: seq<Host>, ss: seq<Step>, max: int, base: int, n: nat)
    requires n <= |ss| < |hs| && Total(hs[0]) <= base && max <= base
    requires forall i :: 0 <= i < n ==> Climbs(hs, ss, max, i)
    ensures Total(hs[n]) <= base + OutsideBoots(hs, ss, n)
  {
    if n > 0 {
      ClimbsTo(hs, ss, max, base, n - 1);
      assert Climbs(hs, ss, max, n - 1);
    }
  }

  // The host may hold more than the cap only for what it held at the start, or for sandboxes
  // booted outside admission, one for one.
  lemma HostStaysInBounds(hs: seq<Host>, ss: seq<Step>, max: int, n: nat)
    requires max > 0 && Run(hs, ss, max) && n < |hs|
    ensures Total(hs[n]) <= Larger(max, |hs[0].others|) + OutsideBoots(hs, ss, n)
  {
    StartsWithOthers(hs[0], max);
    forall i | 0 <= i < n
      ensures Climbs(hs, ss, max, i)
    {
      OneStepUp(hs, ss, max, i);
    }
    ClimbsTo(hs, ss, max, Larger(max, |hs[0].others|), n);
  }

  // So a host that starts within the cap stays there as long as nothing boots outside.
  lemma HostStaysInCap(hs: seq<Host>, ss: seq<Step>, max: int, n: nat)
    requires max > 0 && Run(hs, ss, max) && n < |hs|
    requires |hs[0].others| <= max && forall i :: 0 <= i < n ==> !BootsOutside(hs[i], ss[i])
    ensures |hs[n].boxes + hs[n].others| + |hs[n].waiting| <= max
  {
    HostStaysInBounds(hs, ss, max, n);
    NoneOutside(hs, ss, n);
  }

  lemma {:induction false} NoneOutside(hs: seq<Host>, ss: seq<Step>, n: nat)
    requires n <= |ss| < |hs| && forall i :: 0 <= i < n ==> !BootsOutside(hs[i], ss[i])
    ensures OutsideBoots(hs, ss, n) == 0
  {
    if n > 0 {
      NoneOutside(hs, ss, n - 1);
    }
  }

  // An outside boot with no listing since.
  ghost predicate Overtaken(hs: seq<Host>, ss: seq<Step>, i: nat, n: nat)
    requires n <= |ss| < |hs|
  {
    i < n && BootsOutside(hs[i], ss[i]) && forall k :: i < k < n ==> !ss[k].List?
  }

  lemma {:induction false} SinceIsReal(hs: seq<Host>, ss: seq<Step>, n: nat) returns (i: nat)
    requires n <= |ss| < |hs| && SinceListing(hs, ss, n) > 0
    ensures Overtaken(hs, ss, i, n)
  {
    i := n - 1;
    if !BootsOutside(hs[i], ss[i]) {
      i := SinceIsReal(hs, ss, n - 1);
    }
  }

  // The steps that take the host past the cap are exactly the outside boots and the
  // reservations made at the cap; and such a reservation is one whose listing an outside boot
  // has overtaken.
  lemma PassesCapExactly(hs: seq<Host>, ss: seq<Step>, max: int, n: nat)
    requires max > 0 && Run(hs, ss, max) && n < |ss|
    ensures Total(hs[n]) <= max < Total(hs[n + 1])
            <==> Total(hs[n]) == max && (BootsOutside(hs[n], ss[n]) || Reserves(hs[n], ss[n]))
    ensures Total(hs[n]) >= max && Reserves(hs[n], ss[n]) ==> exists i: nat :: Overtaken(hs, ss, i, n)
  {
    OneStepUp(hs, ss, max, n);
    if Total(hs[n]) >= max && Reserves(hs[n], ss[n]) {
      ReservationFits(hs, ss, max, n);
      var i := SinceIsReal(hs, ss, n);
    }
  }

  // A Create that finds room is not turned away: with no other call past admission and
  // fewer sandboxes than the cap on the host, the decision reserves.
  lemma RoomIsGranted(h: Host, t: nat)
    requires h.inflight == 0 && h.admit == Held(t) && |h.boxes + h.others| < h.max
    ensures t in Take(Take(h, List(t)), Rule(t)).waiting
  {
  }

  lemma Extend(hs: seq<Host>, ss: seq<Step>, max: int, s: Step, h: Host) returns (hs': seq<Host>, ss': seq<Step>)
    requires Run(hs, ss, max) && Enabled(hs[|ss|], s) && h == Take(hs[|ss|], s)
    ensures Run(hs', ss', max) && |ss'| == |ss| + 1 && hs'[|ss'|] == h && hs'[0] == hs[0]
  {
    hs', ss' := hs + [h], ss + [s];
  }

  // The bound is about Create only: a boot outside admission can take the host past the cap.
  lemma OutsideBootsAreNotCounted() returns (hs: seq<Host>, ss: seq<Step>)
    ensures Run(hs, ss, 1) && Total(hs[0]) == 0 && |hs[|ss|].boxes + hs[|ss|].others| == 2
  {
    var h := Host(1, 0, Free, {}, {}, {}, {}, {});
    StartsWithOthers(h, 1);
    hs, ss := [h], [];
    h := h.(admit := Held(1));
    hs, ss := Extend(hs, ss, 1, Enter(1), h);
    assert h.boxes + h.others == {};
    h := h.(admit := Counted(1, 0));
    hs, ss := Extend(hs, ss, 1, List(1), h);
    h := Host(1, 1, Free, {1}, {}, {}, {}, {});
    hs, ss := Extend(hs, ss, 1, Rule(1), h);
    h := Host(1, 1, Free, {}, {1}, {}, {10}, {});
    hs, ss := Extend(hs, ss, 1, Boot(1, 10), h);
    h := Host(1, 1, Free, {}, {1}, {}, {10}, {11});
    hs, ss := Extend(hs, ss, 1, BootOutside(11), h);
    assert h.boxes + h.others == {10, 11};
  }
}
