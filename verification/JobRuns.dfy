// Every interleaving of the threads that touch one background job: its drain goroutine,
// any number of cancelJob, signal and dropSandbox calls, the janitor, and pollers.
// Internal steps are the mutex-protected sections and the starts and returns of SDK calls.
module JobRuns {
  import opened Options
  import opened RingBuffers
  import opened JobSections

  // ----- State -------------------------------------------------------------------------

  datatype Op = Recv | Kill | Signal | Close

  datatype Call = Began(op: Op) | Ended(op: Op)

  datatype Actor = Drain | Helper(id: nat)

  datatype Write = Write(who: Actor, status: Status)

  datatype DrainPc = AtRecv | InRecv | Holding(r: Received) | AtDefer | Locked | Closing | Returned

  // Why a helper thread wants the SDK handle.
  datatype Purpose = ToCancel | ToDrop | ToSignal

  datatype HelperPc =
    | Checking                     // cancelJob: found the entry, state not read yet
    | Cancelling(why: Purpose)     // about to cancel the job context
    | Waiting(why: Purpose)        // about to lock handleMu
    | Holds(why: Purpose)          // holds handleMu, closed not read yet
    | Calling(why: Purpose)        // inside handle.Kill or handle.Signal
    | Marking                      // cancelJob: about to write killed
    | Finished

  datatype Job = Job(
    v: JobView,                    // under mu
    listed: bool,                  // has an entry in the registry
    sweep: Option<bool>,           // the janitor holds the registry lock; has it judged the job expired
    cancelled: bool,               // the job context
    closed: bool,                  // under handleMu
    holder: Option<Actor>,         // handleMu
    drain: DrainPc,
    helpers: map<nat, HelperPc>,
    calls: seq<Call>,              // history of the SDK handle
    handled: seq<Received>,        // history of drain's sections
    writes: seq<Write>)            // history of assignments to state

  // launch has just inserted the entry.
  function Fresh(maxBytes: int): Job {
    Job(Launched(maxBytes), true, None, false, false, None, AtRecv, map[], [], [], [])
  }

  function OpFor(why: Purpose): Op {
    if why == ToSignal then Signal else Kill
  }

  // ----- Steps -------------------------------------------------------------------------

  datatype Step =
    | RecvBegins
    | RecvReturns(r: Received)
    | DrainHandles(now: int)
    | DrainLocks
    | CloseBegins
    | CloseReturns
    | CancelEnters(t: nat)
    | CancelChecks(t: nat)
    | SignalEnters(t: nat)
    | DropEnters(t: nat)
    | ContextCancels(t: nat)
    | HelperLocks(t: nat)
    | HelperDecides(t: nat)
    | HelperReturns(t: nat)
    | CancelMarks(t: nat, now: int)
    | SweepJudges(now: int, ttl: int)
    | SweepDeletes

  predicate At(j: Job, t: nat, pc: HelperPc) {
    t in j.helpers && j.helpers[t] == pc
  }

  // A lookup needs the registry lock and the entry; thread ids are never reused.
  predicate CanLookUp(j: Job, t: nat) {
    j.listed && j.sweep.None? && t !in j.helpers
  }

  predicate Enabled(j: Job, s: Step) {
    match s
    case RecvBegins => j.drain == AtRecv
    case RecvReturns(_) => j.drain == InRecv
    case DrainHandles(_) => j.drain.Holding?
    case DrainLocks => j.drain == AtDefer && j.holder.None?
    case CloseBegins => j.drain == Locked
    case CloseReturns => j.drain == Closing
    case CancelEnters(t) => CanLookUp(j, t)
    case CancelChecks(t) => At(j, t, Checking)
    case SignalEnters(t) => CanLookUp(j, t)
    case DropEnters(t) => CanLookUp(j, t)
    case ContextCancels(t) => t in j.helpers && j.helpers[t].Cancelling?
    case HelperLocks(t) => t in j.helpers && j.helpers[t].Waiting? && j.holder.None?
    case HelperDecides(t) => t in j.helpers && j.helpers[t].Holds?
    case HelperReturns(t) => t in j.helpers && j.helpers[t].Calling?
    case CancelMarks(t, _) => At(j, t, Marking)
    case SweepJudges(_, _) => j.listed && j.sweep.None?
    case SweepDeletes => j.sweep.Some?
  }

  // Where a helper goes once it has released handleMu.
  function AfterHandle(why: Purpose): HelperPc {
    if why == ToCancel then Marking else Finished
  }

  function Goes(j: Job, t: nat, pc: HelperPc): Job {
    j.(helpers := j.helpers[t := pc])
  }

  // The assignments to state that one result of Recv causes.
  function WritesOf(v: JobView, r: Received): seq<Write> {
    match r
    case RecvErr => if v.status == Running then [Write(Drain, Dead)] else []
    case Got(Exited(_)) => [Write(Drain, Done)]
    case Got(Failed(_)) => [Write(Drain, Dead)]
    case Got(StreamDone) => if v.status == Running then [Write(Drain, Done)] else []
    case Got(_) => []
  }

  function Take(j: Job, s: Step): Job
    requires Enabled(j, s)
  {
    match s
    case RecvBegins => j.(drain := InRecv, calls := j.calls + [Began(Recv)])
    case RecvReturns(r) => j.(drain := Holding(r), calls := j.calls + [Ended(Recv)])
    case DrainHandles(now) =>
      var r := j.drain.r;
      j.(v := Handled(j.v, r, now), drain := if Ends(r) then AtDefer else AtRecv,
         handled := j.handled + [r], writes := j.writes + WritesOf(j.v, r))
    case DrainLocks => j.(drain := Locked, holder := Some(Drain))
    case CloseBegins => j.(drain := Closing, closed := true, calls := j.calls + [Began(Close)])
    case CloseReturns => j.(drain := Returned, holder := None, calls := j.calls + [Ended(Close)])
    case CancelEnters(t) => Goes(j, t, Checking)
    case CancelChecks(t) => Goes(j, t, if j.v.status != Running then Finished else Cancelling(ToCancel))
    case SignalEnters(t) => Goes(j, t, Waiting(ToSignal))
    case DropEnters(t) => Goes(j.(listed := false), t, Cancelling(ToDrop))
    case ContextCancels(t) => Goes(j.(cancelled := true), t, Waiting(j.helpers[t].why))
    case HelperLocks(t) => Goes(j.(holder := Some(Helper(t))), t, Holds(j.helpers[t].why))
    case HelperDecides(t) =>
      var why := j.helpers[t].why;
      if j.closed then Goes(j.(holder := None), t, AfterHandle(why))
      else Goes(j.(calls := j.calls + [Began(OpFor(why))]), t, Calling(why))
    case HelperReturns(t) =>
      var why := j.helpers[t].why;
      Goes(j.(holder := None, calls := j.calls + [Ended(OpFor(why))]), t, AfterHandle(why))
    case CancelMarks(t, now) =>
      Goes(j.(v := FinishAlways(j.v, Killed, now), writes := j.writes + [Write(Helper(t), Killed)]), t, Finished)
    case SweepJudges(now, ttl) => j.(sweep := Some(Expired(j.v.finishedAt, now, ttl)))
    case SweepDeletes => j.(listed := j.listed && !j.sweep.value, sweep := None)
  }

  // A run: worlds js joined by steps ss.
  ghost predicate Run(js: seq<Job>, ss: seq<Step>, maxBytes: int) {
    && |js| == |ss| + 1
    && js[0] == Fresh(maxBytes)
    && forall i {:trigger ss[i]} :: 0 <= i < |ss| ==> Enabled(js[i], ss[i]) && js[i + 1] == Take(js[i], ss[i])
  }

  // ----- What the call history must look like -------------------------------------------

  // After Close has begun no call of any kind begins.
  ghost predicate NothingAfterClose(calls: seq<Call>) {
    forall i, k :: 0 <= i < k < |calls| && calls[i] == Began(Close) ==> calls[k].Ended?
  }

  ghost predicate EndedBetween(calls: seq<Call>, i: nat, k: nat)
    requires i < k <= |calls|
  {
    exists m :: i < m < k && calls[m] == Ended(calls[i].op)
  }

  predicate Exclusive(c: Call) {
    c.Began? && c.op != Recv
  }

  // Before Kill, Signal or Close begins, every earlier one of them has ended.
  ghost predicate OneAtATime(calls: seq<Call>) {
    forall i, k | 0 <= i < k < |calls| && Exclusive(calls[i]) && Exclusive(calls[k]) :: EndedBetween(calls, i, k)
  }

  // ----- The invariant -------------------------------------------------------------------

  ghost predicate StampInv(j: Job) {
    && (j.v.status == Running <==> j.v.finishedAt.None?)
    && (j.sweep == Some(true) ==> j.v.status != Running)
  }

  ghost predicate LockInv(j: Job) {
    && (j.holder == Some(Drain) <==> j.drain == Locked || j.drain == Closing)
    && (forall t :: j.holder == Some(Helper(t)) <==> t in j.helpers && (j.helpers[t].Holds? || j.helpers[t].Calling?))
    && (j.closed <==> j.drain == Closing || j.drain == Returned)
  }

  // The exclusive call now in progress.
  ghost predicate InProgress(j: Job, op: Op) {
    || (op == Close && j.drain == Closing)
    || (j.holder.Some? && j.holder.value.Helper? && j.holder.value.id in j.helpers
        && var pc := j.helpers[j.holder.value.id]; pc.Calling? && OpFor(pc.why) == op)
  }

  ghost predicate CallInv(j: Job) {
    && NothingAfterClose(j.calls)
    && OneAtATime(j.calls)
    && (Began(Close) in j.calls <==> j.closed)
    && (j.drain == Returned ==> Ended(Close) in j.calls)
    && (forall i | 0 <= i < |j.calls| && Exclusive(j.calls[i]) ::
          EndedBetween(j.calls, i, |j.calls|) || InProgress(j, j.calls[i].op))
  }

  predicate DrainIsOver(j: Job) {
    j.drain == AtDefer || j.drain == Locked || j.drain == Closing || j.drain == Returned
  }

  ghost predicate WriteInv(j: Job) {
    && (j.v.status == if j.writes == [] then Running else j.writes[|j.writes| - 1].status)
    && (forall i :: 0 <= i < |j.writes| ==>
          && j.writes[i].status != Running
          && (j.writes[i].status == Killed <==> j.writes[i].who.Helper?)
          && (j.writes[i].who == Drain ==> DrainIsOver(j))
          && (j.writes[i].who.Helper? ==> At(j, j.writes[i].who.id, Finished)))
    && (forall i, k :: 0 <= i < k < |j.writes| ==> j.writes[i].who != j.writes[k].who)
  }

  ghost predicate OutputInv(j: Job, maxBytes: int) {
    && j.v.stdout == WriteAll(NewRing(maxBytes), StdoutOf(j.handled))
    && j.v.stderr == WriteAll(NewRing(maxBytes), StderrOf(j.handled))
  }

  ghost predicate Inv(j: Job) {
    StampInv(j) && LockInv(j) && CallInv(j) && WriteInv(j)
  }

  lemma StampStep(j: Job, s: Step)
    requires StampInv(j) && Enabled(j, s)
    ensures StampInv(Take(j, s))
  {
  }

  lemma LockStep(j: Job, s: Step)
    requires LockInv(j) && Enabled(j, s)
    ensures LockInv(Take(j, s))
  {
  }

  // One more assignment to state by a thread that made none yet.
  lemma OneMoreWrite(j: Job, j': Job, w: Write)
    requires WriteInv(j) && j'.writes == j.writes + [w] && j'.v.status == w.status
    requires w.status != Running && (w.status == Killed <==> w.who.Helper?)
    requires forall i :: 0 <= i < |j.writes| ==> j.writes[i].who != w.who
    requires DrainIsOver(j) ==> DrainIsOver(j')
    requires forall t :: At(j, t, Finished) ==> At(j', t, Finished)
    requires w.who == Drain ==> DrainIsOver(j')
    requires w.who.Helper? ==> At(j', w.who.id, Finished)
    ensures WriteInv(j')
  {
  }

  lemma DrainWrites(j: Job, now: int)
    requires WriteInv(j) && j.drain.Holding? && WritesOf(j.v, j.drain.r) != []
    ensures WriteInv(Take(j, DrainHandles(now)))
  {
    OneMoreWrite(j, Take(j, DrainHandles(now)), WritesOf(j.v, j.drain.r)[0]);
  }

  lemma HelperWrites(j: Job, t: nat, now: int)
    requires WriteInv(j) && At(j, t, Marking)
    ensures WriteInv(Take(j, CancelMarks(t, now)))
  {
    OneMoreWrite(j, Take(j, CancelMarks(t, now)), Write(Helper(t), Killed));
  }

  predicate Assigns(j: Job, s: Step) {
    (s.DrainHandles? && j.drain.Holding? && WritesOf(j.v, j.drain.r) != []) || s.CancelMarks?
  }

  // The other steps assign nothing, and send no thread back.
  lemma NothingWritten(j: Job, s: Step)
    requires Enabled(j, s) && !Assigns(j, s)
    ensures Take(j, s).writes == j.writes && Take(j, s).v.status == j.v.status
    ensures DrainIsOver(j) ==> DrainIsOver(Take(j, s))
    ensures forall t :: At(j, t, Finished) ==> At(Take(j, s), t, Finished)
  {
  }

  lemma WriteStep(j: Job, s: Step)
    requires WriteInv(j) && Enabled(j, s)
    ensures WriteInv(Take(j, s))
  {
    if !Assigns(j, s) {
      NothingWritten(j, s);
    } else if s.DrainHandles? {
      DrainWrites(j, s.now);
    } else {
      HelperWrites(j, s.t, s.now);
    }
  }

  lemma CallsUnchanged(j: Job, j': Job)
    requires CallInv(j) && j'.calls == j.calls && j'.closed == j.closed
    requires j'.drain == Returned ==> j.drain == Returned
    requires forall op :: InProgress(j, op) ==> InProgress(j', op)
    ensures CallInv(j')
  {
  }

  // A call begins while no exclusive call is in progress and Close has not begun.
  lemma CallBegins(j: Job, j': Job, op: Op)
    requires CallInv(j) && j'.calls == j.calls + [Began(op)] && !j.closed
    requires op != Recv ==> InProgress(j', op) && forall o :: !InProgress(j, o)
    requires op == Recv ==> forall o :: InProgress(j, o) ==> InProgress(j', o)
    requires j'.closed <==> op == Close
    requires j'.drain != Returned
    ensures CallInv(j')
  {
    var n := |j.calls|;
    forall i | 0 <= i < n && Exclusive(j'.calls[i])
      ensures EndedBetween(j.calls, i, n) ==> EndedBetween(j'.calls, i, n) && EndedBetween(j'.calls, i, n + 1)
    {
      assert Exclusive(j.calls[i]);
      if EndedBetween(j.calls, i, n) {
        var m :| i < m < n && j.calls[m] == Ended(j.calls[i].op);
        assert j'.calls[m] == Ended(j'.calls[i].op);
      }
    }
    forall i, k | 0 <= i < k < n + 1 && Exclusive(j'.calls[i]) && Exclusive(j'.calls[k])
      ensures EndedBetween(j'.calls, i, k)
    {
      if k < n {
        assert EndedBetween(j.calls, i, k);
        var m :| i < m < k && j.calls[m] == Ended(j.calls[i].op);
        assert j'.calls[m] == Ended(j'.calls[i].op);
      }
    }
  }

  lemma CallReturns(j: Job, j': Job, op: Op)
    requires CallInv(j) && j'.calls == j.calls + [Ended(op)] && j'.closed == j.closed
    requires forall o :: o != op && InProgress(j, o) ==> InProgress(j', o)
    requires j'.drain == Returned ==> op == Close || j.drain == Returned
    ensures CallInv(j')
  {
    var n := |j.calls|;
    assert j'.calls[n] == Ended(op);
    forall i, k | 0 <= i < k <= n && Exclusive(j.calls[i]) && EndedBetween(j.calls, i, k)
      ensures EndedBetween(j'.calls, i, k) && EndedBetween(j'.calls, i, n + 1)
    {
      var m :| i < m < k && j.calls[m] == Ended(j.calls[i].op);
      assert j'.calls[m] == Ended(j'.calls[i].op);
    }
  }

  lemma CallStep(j: Job, s: Step)
    requires LockInv(j) && CallInv(j) && Enabled(j, s)
    ensures CallInv(Take(j, s))
  {
    var j' := Take(j, s);
    match s {
      case RecvBegins => CallBegins(j, j', Recv);
      case RecvReturns(_) => CallReturns(j, j', Recv);
      case CloseBegins => CallBegins(j, j', Close);
      case CloseReturns => CallReturns(j, j', Close);
      case HelperDecides(t) =>
        if j.closed {
          CallsUnchanged(j, j');
        } else {
          CallBegins(j, j', OpFor(j.helpers[t].why));
        }
      case HelperReturns(t) => CallReturns(j, j', OpFor(j.helpers[t].why));
      case _ => CallsUnchanged(j, j');
    }
  }

  lemma OutputStep(j: Job, s: Step, maxBytes: int)
    requires OutputInv(j, maxBytes) && Enabled(j, s)
    ensures OutputInv(Take(j, s), maxBytes)
  {
    var j' := Take(j, s);
    if s.DrainHandles? {
      OutputHandled(j.v, j.handled, j.drain.r, s.now, maxBytes);
    } else {
      assert j'.v.stdout == j.v.stdout && j'.v.stderr == j.v.stderr && j'.handled == j.handled;
    }
  }

  // ----- Whole runs ----------------------------------------------------------------------

  lemma {:induction false} Reachable(js: seq<Job>, ss: seq<Step>, maxBytes: int, n: nat)
    requires Run(js, ss, maxBytes) && n < |js|
    ensures Inv(js[n]) && OutputInv(js[n], maxBytes)
  {
    if n == 0 {
      assert WriteAll(NewRing(maxBytes), []) == NewRing(maxBytes);
    } else {
      Reachable(js, ss, maxBytes, n - 1);
      var j, s := js[n - 1], ss[n - 1];
      StampStep(j, s);
      LockStep(j, s);
      CallStep(j, s);
      WriteStep(j, s);
      OutputStep(j, s, maxBytes);
    }
  }

  // A job is running exactly while it has no finish stamp, so when the janitor deletes an
  // entry the job is not running at that moment, however long ago it looked.
  lemma RunningIffUnstamped(js: seq<Job>, ss: seq<Step>, maxBytes: int, n: nat)
    requires Run(js, ss, maxBytes) && n < |js|
    ensures js[n].v.status == Running <==> js[n].v.finishedAt.None?
    ensures n < |ss| && ss[n].SweepDeletes? && js[n].listed && !js[n + 1].listed ==> js[n].v.status != Running
  {
    Reachable(js, ss, maxBytes, n);
  }

  // The SDK handle: Close begins at most once and exactly once by the time drain has
  // returned, nothing begins after it, and Kill, Signal and Close exclude each other.
  lemma HandleDiscipline(js: seq<Job>, ss: seq<Step>, maxBytes: int, n: nat)
    requires Run(js, ss, maxBytes) && n < |js|
    ensures NothingAfterClose(js[n].calls)
    ensures OneAtATime(js[n].calls)
    ensures js[n].drain == Returned ==> Began(Close) in js[n].calls && Ended(Close) in js[n].calls
  {
    Reachable(js, ss, maxBytes, n);
  }

  // The status is the last one assigned; every thread assigns at most one, which finishes
  // the job, and the assignments of killed are those of the cancelJob calls.
  lemma OneFinishPerThread(js: seq<Job>, ss: seq<Step>, maxBytes: int, n: nat)
    requires Run(js, ss, maxBytes) && n < |js|
    ensures var ws := js[n].writes;
            && js[n].v.status == (if ws == [] then Running else ws[|ws| - 1].status)
            && (forall i, k :: 0 <= i < k < |ws| ==> ws[i].who != ws[k].who)
            && (forall i :: 0 <= i < |ws| ==>
                  ws[i].status != Running && (ws[i].status == Killed <==> ws[i].who.Helper?))
  {
    Reachable(js, ss, maxBytes, n);
  }

  // A snapshot shows the last bytes of everything drain received on each stream so far, and is
  // flagged exactly when bytes are missing or one write filled a ring at once.
  lemma SnapshotShowsTail(js: seq<Job>, ss: seq<Step>, maxBytes: int, n: nat)
    requires Run(js, ss, maxBytes) && n < |js|
    ensures var cap, shot := NewRing(maxBytes).cap, Snapshot(js[n].v);
            var outs, errs := StdoutOf(js[n].handled), StderrOf(js[n].handled);
            var out, err := Concat(outs), Concat(errs);
            && shot.stdout == Last(out, cap) && shot.stdoutBytes == |out|
            && shot.stderr == Last(err, cap) && shot.stderrBytes == |err|
            && shot.status == js[n].v.status && shot.exitCode == js[n].v.exitCode
            && (!shot.truncated ==> shot.stdout == out && shot.stderr == err)
            && (shot.truncated <==> |out| > cap || |err| > cap || FilledAtOnce(outs, cap) || FilledAtOnce(errs, cap))
  {
    Reachable(js, ss, maxBytes, n);
    var outs, errs := StdoutOf(js[n].handled), StderrOf(js[n].handled);
    RingKeepsTail(maxBytes, outs);
    RingKeepsTail(maxBytes, errs);
    TruncatedExactly(maxBytes, outs);
    TruncatedExactly(maxBytes, errs);
    TruncationReport(maxBytes, outs);
    TruncationReport(maxBytes, errs);
  }

  // What Recv has returned before world n.
  ghost function ResultsOf(ss: seq<Step>, n: nat): seq<Received>
    requires n <= |ss|
  {
    if n == 0 then [] else ResultsOf(ss, n - 1) + if ss[n - 1].RecvReturns? then [ss[n - 1].r] else []
  }

  // drain handles every result of Recv, in order and unchanged.
  lemma {:induction false} EveryResultIsHandled(js: seq<Job>, ss: seq<Step>, maxBytes: int, n: nat)
    requires Run(js, ss, maxBytes) && n < |js|
    ensures js[n].handled + (if js[n].drain.Holding? then [js[n].drain.r] else []) == ResultsOf(ss, n)
  {
    if n > 0 {
      EveryResultIsHandled(js, ss, maxBytes, n - 1);
      ResultKept(js[n - 1], ss[n - 1]);
    }
  }

  lemma ResultKept(j: Job, s: Step)
    requires Enabled(j, s)
    ensures var j' := Take(j, s);
            j'.handled + (if j'.drain.Holding? then [j'.drain.r] else [])
            == j.handled + (if j.drain.Holding? then [j.drain.r] else []) + if s.RecvReturns? then [s.r] else []
  {
  }

  // ----- What the last result says -----------------------------------------------------------

  // Only the last result that drain handles can end its loop, and it does so exactly when it
  // is not quiet. It gives the exit code, and what drain says of the job, if anything.
  ghost predicate ResultInv(j: Job) {
    && (forall i :: 0 <= i < |j.handled| - 1 ==> Quiet(j.handled[i]))
    && (DrainIsOver(j) <==> j.handled != [] && !Quiet(j.handled[|j.handled| - 1]))
    && (j.handled == [] || !j.handled[|j.handled| - 1].Got? || !j.handled[|j.handled| - 1].ev.Exited? ==>
          j.v.exitCode == 0)
    && (j.handled != [] ==>
          var r := j.handled[|j.handled| - 1];
          && (r.Got? && r.ev.Exited? ==> j.v.exitCode == r.ev.code && Write(Drain, Done) in j.writes)
          && (r.Got? && r.ev.Failed? ==> Write(Drain, Dead) in j.writes)
          && (forall st :: Write(Drain, st) in j.writes ==>
                st == if r.Got? && (r.ev.Exited? || r.ev.StreamDone?) then Done else Dead))
    && (forall st :: Write(Drain, st) in j.writes ==> j.handled != [])
  }

  lemma ResultHandled(j: Job, now: int)
    requires ResultInv(j) && j.drain.Holding? && forall st :: Write(Drain, st) !in j.writes
    ensures ResultInv(Take(j, DrainHandles(now)))
  {
    var j', r := Take(j, DrainHandles(now)), j.drain.r;
    assert forall w :: w in WritesOf(j.v, r) ==> w in j'.writes;
    assert forall w :: w in j'.writes ==> w in j.writes || w in WritesOf(j.v, r);
    assert r.Got? && r.ev.Exited? ==> Write(Drain, Done) in WritesOf(j.v, r);
    assert r.Got? && r.ev.Failed? ==> Write(Drain, Dead) in WritesOf(j.v, r);
  }

  lemma ResultStep(j: Job, s: Step)
    requires ResultInv(j) && WriteInv(j) && Enabled(j, s)
    ensures ResultInv(Take(j, s))
  {
    if s.DrainHandles? {
      ResultHandled(j, s.now);
    } else {
      var j' := Take(j, s);
      assert j'.handled == j.handled && j'.v.exitCode == j.v.exitCode;
      assert forall st :: Write(Drain, st) in j'.writes <==> Write(Drain, st) in j.writes;
      assert DrainIsOver(j') <==> DrainIsOver(j);
    }
  }

  // What drain has said of the job is what the last result said; the exit code shown is that
  // of the process, once it has been received, and 0 before and otherwise.
  lemma {:induction false} LastResultDecides(js: seq<Job>, ss: seq<Step>, maxBytes: int, n: nat)
    requires Run(js, ss, maxBytes) && n < |js|
    ensures ResultInv(js[n])
  {
    if n > 0 {
      LastResultDecides(js, ss, maxBytes, n - 1);
      Reachable(js, ss, maxBytes, n - 1);
      ResultStep(js[n - 1], ss[n - 1]);
    }
  }

  // ----- The finish stamp ---------------------------------------------------------------------

  // The step is a section that finishes the job, with x as its clock reading.
  predicate Finishes(j: Job, s: Step, x: int) {
    || (s.DrainHandles? && s.now == x && j.drain.Holding? && !Quiet(j.drain.r))
    || (s.CancelMarks? && s.now == x)
  }

  lemma StampedStep(j: Job, s: Step, x: int)
    requires Enabled(j, s)
    ensures Take(j, s).v.finishedAt == Some(x) <==>
            Finishes(j, s, x) || (j.v.finishedAt == Some(x) && forall y :: !Finishes(j, s, y))
  {
    if s.DrainHandles? || s.CancelMarks? {
      assert Finishes(j, s, s.now) || s.DrainHandles?;
    }
  }

  // The stamp is the clock reading of the latest section that finished the job.
  lemma {:induction false} StampIsLatest(js: seq<Job>, ss: seq<Step>, maxBytes: int, n: nat, x: int) returns (i: nat)
    requires Run(js, ss, maxBytes) && n < |js| && js[n].v.finishedAt == Some(x)
    ensures i < n && Finishes(js[i], ss[i], x)
    ensures forall k, y :: i < k < n ==> !Finishes(js[k], ss[k], y)
  {
    assert n > 0;
    i := n - 1;
    StampedStep(js[i], ss[i], x);
    if !Finishes(js[i], ss[i], x) {
      i := StampIsLatest(js, ss, maxBytes, i, x);
    }
  }

  lemma JudgedStep(j: Job, s: Step)
    requires Enabled(j, s) && Take(j, s).sweep.Some?
    ensures j.sweep == Take(j, s).sweep
            || (s.SweepJudges? && (Take(j, s).sweep.value <==>
                                   j.v.finishedAt.Some? && s.now > j.v.finishedAt.value + s.ttl))
  {
  }

  lemma {:induction false} JudgedBefore(js: seq<Job>, ss: seq<Step>, maxBytes: int, n: nat) returns (i: nat)
    requires Run(js, ss, maxBytes) && n < |js| && js[n].sweep.Some?
    ensures i < n && ss[i].SweepJudges? && forall k :: i < k <= n ==> js[k].sweep == js[n].sweep
    ensures js[n].sweep.value <==> js[i].v.finishedAt.Some? && ss[i].now > js[i].v.finishedAt.value + ss[i].ttl
  {
    assert n > 0;
    i := n - 1;
    JudgedStep(js[i], ss[i]);
    if js[i].sweep == js[n].sweep {
      i := JudgedBefore(js, ss, maxBytes, i);
    }
  }

  // The janitor deletes the entry exactly when, at its look at the job just before, the latest
  // section to finish the job lay back longer than the time to live.
  lemma EvictedExactly(js: seq<Job>, ss: seq<Step>, maxBytes: int, n: nat) returns (i: nat)
    requires Run(js, ss, maxBytes) && n < |ss| && ss[n].SweepDeletes? && js[n].listed
    ensures i < n && ss[i].SweepJudges? && forall k :: i < k <= n ==> js[k].sweep.Some?
    ensures !js[n + 1].listed <==>
            exists f: nat, x :: LatestFinish(js, ss, f, i, x) && ss[i].now > x + ss[i].ttl
  {
    assert Enabled(js[n], ss[n]) && js[n + 1] == Take(js[n], ss[n]);
    i := JudgedBefore(js, ss, maxBytes, n);
    if js[i].v.finishedAt.Some? {
      var f := StampIsLatest(js, ss, maxBytes, i, js[i].v.finishedAt.value);
      assert LatestFinish(js, ss, f, i, js[i].v.finishedAt.value);
    }
    if f: nat, x :| LatestFinish(js, ss, f, i, x) {
      StampHolds(js, ss, maxBytes, f, i, x);
    }
  }

  // Section f, at clock reading x, is the latest before world n to finish the job.
  ghost predicate LatestFinish(js: seq<Job>, ss: seq<Step>, f: nat, n: nat, x: int)
    requires |js| == |ss| + 1
  {
    f < n <= |ss| && Finishes(js[f], ss[f], x) && forall k, y :: f < k < n ==> !Finishes(js[k], ss[k], y)
  }

  lemma {:induction false} StampHolds(js: seq<Job>, ss: seq<Step>, maxBytes: int, f: nat, n: nat, x: int)
    requires Run(js, ss, maxBytes) && LatestFinish(js, ss, f, n, x)
    ensures js[n].v.finishedAt == Some(x)
    decreases n
  {
    StampedStep(js[n - 1], ss[n - 1], x);
    if f < n - 1 {
      StampHolds(js, ss, maxBytes, f, n - 1, x);
    }
  }

  // The step takes the entry out of the registry.
  predicate Unlists(j: Job, s: Step) {
    s.DropEnters? || (s.SweepDeletes? && j.sweep == Some(true))
  }

  lemma ListedStep(j: Job, s: Step)
    requires Enabled(j, s)
    ensures Take(j, s).listed <==> j.listed && !Unlists(j, s)
  {
  }

  // The job is listed until dropSandbox takes it out or the janitor deletes it, and no longer.
  lemma {:induction false} ListedExactly(js: seq<Job>, ss: seq<Step>, maxBytes: int, n: nat)
    requires Run(js, ss, maxBytes) && n < |js|
    ensures js[n].listed <==> forall i :: 0 <= i < n ==> !Unlists(js[i], ss[i])
  {
    if n > 0 {
      ListedExactly(js, ss, maxBytes, n - 1);
      ListedStep(js[n - 1], ss[n - 1]);
    }
  }

  // ----- What a cancellation does ---------------------------------------------------------------

  // The job context is cancelled by the time that a helper kills.
  ghost predicate ContextInv(j: Job) {
    && (Began(Kill) in j.calls ==> j.cancelled)
    && (forall t :: t in j.helpers ==>
          match j.helpers[t]
          case Waiting(why) => why == ToSignal || j.cancelled
          case Holds(why) => why == ToSignal || j.cancelled
          case Calling(why) => why == ToSignal || j.cancelled
          case _ => true)
  }

  lemma ContextStep(j: Job, s: Step)
    requires ContextInv(j) && Enabled(j, s)
    ensures ContextInv(Take(j, s))
  {
    var j' := Take(j, s);
    if s.HelperDecides? {
      assert Began(Kill) in j'.calls ==> Began(Kill) in j.calls || j.helpers[s.t].why != ToSignal;
    } else {
      assert Began(Kill) in j'.calls ==> Began(Kill) in j.calls;
    }
  }

  // Kill is only ever called once the job context has been cancelled, so Recv has been told
  // to let go of the handle.
  lemma {:induction false} CancelledBeforeKill(js: seq<Job>, ss: seq<Step>, maxBytes: int, n: nat)
    requires Run(js, ss, maxBytes) && n < |js|
    ensures ContextInv(js[n])
  {
    if n > 0 {
      CancelledBeforeKill(js, ss, maxBytes, n - 1);
      ContextStep(js[n - 1], ss[n - 1]);
    }
  }

  // Thread t has taken its decision at step i: it called op, or found the handle closed.
  predicate Decided(j: Job, j': Job, s: Step, t: nat, op: Op) {
    s == HelperDecides(t) && (if j.closed then j'.calls == j.calls else j'.calls == j.calls + [Began(op)])
  }

  lemma DecidedStep(j: Job, s: Step, t: nat)
    requires Enabled(j, s) && t in Take(j, s).helpers && Take(j, s).helpers[t] == Marking
    ensures (t in j.helpers && j.helpers[t] == Marking)
            || (t in j.helpers && j.helpers[t] == Calling(ToCancel))
            || Decided(j, Take(j, s), s, t, Kill)
  {
  }

  lemma CallingStep(j: Job, s: Step, t: nat)
    requires Enabled(j, s) && t in Take(j, s).helpers && Take(j, s).helpers[t] == Calling(ToCancel)
    ensures (t in j.helpers && j.helpers[t] == Calling(ToCancel)) || Decided(j, Take(j, s), s, t, Kill)
  {
  }

  // A cancelJob that marks the job killed has called Kill before, unless it found the handle closed.
  lemma {:induction false} MarkedIsKilled(js: seq<Job>, ss: seq<Step>, maxBytes: int, n: nat, t: nat) returns (i: nat)
    requires Run(js, ss, maxBytes) && n < |js| && (At(js[n], t, Marking) || At(js[n], t, Calling(ToCancel)))
    ensures i < n && Decided(js[i], js[i + 1], ss[i], t, Kill)
  {
    assert n > 0;
    i := n - 1;
    if At(js[n], t, Marking) {
      DecidedStep(js[i], ss[i], t);
    } else {
      CallingStep(js[i], ss[i], t);
    }
    if At(js[i], t, Marking) || At(js[i], t, Calling(ToCancel)) {
      i := MarkedIsKilled(js, ss, maxBytes, i, t);
    }
  }

  // Since step a the thread has taken its decision, for op.
  ghost predicate HasDecided(js: seq<Job>, ss: seq<Step>, a: nat, n: nat, t: nat, op: Op)
    requires n <= |ss| < |js|
  {
    exists i: nat :: a < i < n && Decided(js[i], js[i + 1], ss[i], t, op)
  }

  // The thread is on its way to the decision.
  predicate Underway(pc: HelperPc, why: Purpose) {
    pc == Cancelling(why) || pc == Waiting(why) || pc == Holds(why)
  }

  lemma UnderwayStep(j: Job, s: Step, t: nat, why: Purpose, op: Op)
    requires Enabled(j, s) && t in j.helpers && (Underway(j.helpers[t], why) || j.helpers[t] == Calling(why))
    requires op == if why == ToSignal then Signal else Kill
    ensures var j' := Take(j, s);
            && t in j'.helpers
            && (Underway(j'.helpers[t], why)
                || j'.helpers[t] == Calling(why)
                || j'.helpers[t] == if why == ToCancel then Marking else Finished)
            && (Underway(j.helpers[t], why) && !Underway(j'.helpers[t], why) ==> Decided(j, j', s, t, op))
            && (Underway(j'.helpers[t], why) ==> Underway(j.helpers[t], why))
  {
  }

  lemma FinishedStays(j: Job, s: Step, t: nat)
    requires Enabled(j, s) && At(j, t, Finished)
    ensures At(Take(j, s), t, Finished)
  {
  }

  // A dropSandbox that is done with the job has called Kill since it took the entry out, and a
  // signal that is done has called Signal, unless they found the handle closed.
  lemma {:induction false} HelperActs(js: seq<Job>, ss: seq<Step>, maxBytes: int, a: nat, n: nat, t: nat, why: Purpose)
    requires Run(js, ss, maxBytes) && a < n < |js|
    requires (ss[a] == DropEnters(t) && why == ToDrop) || (ss[a] == SignalEnters(t) && why == ToSignal)
    ensures t in js[n].helpers
    ensures Underway(js[n].helpers[t], why)
            || (HasDecided(js, ss, a, n, t, if why == ToSignal then Signal else Kill)
                && (js[n].helpers[t] == Calling(why) || js[n].helpers[t] == Finished))
    decreases n
  {
    var m, op := n - 1, if why == ToSignal then Signal else Kill;
    assert Enabled(js[m], ss[m]) && js[n] == Take(js[m], ss[m]);
    if a < m {
      HelperActs(js, ss, maxBytes, a, m, t, why);
      if js[m].helpers[t] == Finished {
        FinishedStays(js[m], ss[m], t);
      } else {
        UnderwayStep(js[m], ss[m], t, why, op);
      }
    }
  }

  // A cancelJob that found the job running and is done has called Kill, unless it found the
  // handle closed, and has marked the job killed.
  lemma {:induction false} CancelActs(js: seq<Job>, ss: seq<Step>, maxBytes: int, a: nat, n: nat, t: nat)
    requires Run(js, ss, maxBytes) && a < n < |js| && ss[a] == CancelChecks(t) && js[a].v.status == Running
    ensures t in js[n].helpers
    ensures Underway(js[n].helpers[t], ToCancel) || HasDecided(js, ss, a, n, t, Kill)
    ensures js[n].helpers[t] == Finished ==> exists k :: a < k < n && ss[k].CancelMarks? && ss[k].t == t
    ensures Underway(js[n].helpers[t], ToCancel) || js[n].helpers[t] == Calling(ToCancel)
            || js[n].helpers[t] == Marking || js[n].helpers[t] == Finished
    decreases n
  {
    var m := n - 1;
    assert Enabled(js[m], ss[m]) && js[n] == Take(js[m], ss[m]);
    if a < m {
      CancelActs(js, ss, maxBytes, a, m, t);
      if js[m].helpers[t] == Finished {
        FinishedStays(js[m], ss[m], t);
      } else if js[m].helpers[t] == Marking {
        MarkingStep(js[m], ss[m], t);
      } else {
        UnderwayStep(js[m], ss[m], t, ToCancel, Kill);
      }
    }
  }

  lemma MarkingStep(j: Job, s: Step, t: nat)
    requires Enabled(j, s) && At(j, t, Marking)
    ensures At(Take(j, s), t, Marking) || (At(Take(j, s), t, Finished) && s.CancelMarks? && s.t == t)
  {
  }

  // ----- Nobody is stuck ---------------------------------------------------------------------

  predicate Unfinished(j: Job, a: Actor) {
    match a
    case Drain => j.drain != Returned
    case Helper(t) => t in j.helpers && j.helpers[t] != Finished
  }

  // What a thread does next, if it may.
  function NextOf(j: Job, a: Actor): Step
    requires Unfinished(j, a)
  {
    match a
    case Drain =>
      (match j.drain
       case AtRecv => RecvBegins
       case InRecv => RecvReturns(RecvErr)
       case Holding(_) => DrainHandles(0)
       case AtDefer => DrainLocks
       case Locked => CloseBegins
       case Closing | Returned => CloseReturns)
    case Helper(t) =>
      match j.helpers[t]
      case Checking => CancelChecks(t)
      case Cancelling(_) => ContextCancels(t)
      case Waiting(_) => HelperLocks(t)
      case Holds(_) => HelperDecides(t)
      case Calling(_) => HelperReturns(t)
      case Marking | Finished => CancelMarks(t, 0)
  }

  // Every thread can go on, or waits for handleMu; and whoever holds that can go on and is
  // not receiving, so no wait for the lock is a wait for the guest's next event.
  lemma NobodyStuck(js: seq<Job>, ss: seq<Step>, maxBytes: int, n: nat, a: Actor)
    requires Run(js, ss, maxBytes) && n < |js| && Unfinished(js[n], a)
    ensures var j := js[n];
            || Enabled(j, NextOf(j, a))
            || (j.holder.Some? && j.holder != Some(a)
                && Unfinished(j, j.holder.value) && Enabled(j, NextOf(j, j.holder.value))
                && !NextOf(j, j.holder.value).RecvReturns?)
  {
    Reachable(js, ss, maxBytes, n);
    var j := js[n];
    if j.holder.Some? && j.holder.value.Helper? {
      assert j.holder == Some(Helper(j.holder.value.id));
    }
  }

  // ----- What pollers see ------------------------------------------------------------------

  datatype Answer = Gone | Live(status: Status)

  // A poll that looks the job up in world a and takes its snapshot in world b.
  function Poll(js: seq<Job>, a: nat, b: nat): Answer
    requires a <= b < |js|
  {
    if js[a].listed then Live(js[b].v.status) else Gone
  }

  function Stage(r: Answer): nat {
    match r
    case Gone => 2
    case Live(st) => if st == Running then 0 else 1
  }

  lemma StepForward(j: Job, s: Step)
    requires Enabled(j, s)
    ensures !j.listed ==> !Take(j, s).listed
    ensures j.v.status != Running ==> Take(j, s).v.status != Running
  {
  }

  lemma {:induction false} NeverBack(js: seq<Job>, ss: seq<Step>, maxBytes: int, a: nat, b: nat)
    requires Run(js, ss, maxBytes) && a <= b < |js|
    ensures !js[a].listed ==> !js[b].listed
    ensures js[a].v.status != Running ==> js[b].v.status != Running
    decreases b
  {
    if a < b {
      NeverBack(js, ss, maxBytes, a, b - 1);
      StepForward(js[b - 1], ss[b - 1]);
    }
  }

  // Polls that do not overlap see the job only move forward: running, finished, gone.
  lemma PollsMoveForward(js: seq<Job>, ss: seq<Step>, maxBytes: int, a: nat, b: nat, c: nat, d: nat)
    requires Run(js, ss, maxBytes) && a <= b <= c <= d < |js|
    ensures Stage(Poll(js, a, b)) <= Stage(Poll(js, c, d))
  {
    NeverBack(js, ss, maxBytes, a, c);
    NeverBack(js, ss, maxBytes, b, d);
  }

  // ----- Killed, and the end of a job ---------------------------------------------------------

  // drain handles the report of the process itself.
  predicate Reports(j: Job, s: Step) {
    s.DrainHandles? && j.drain.Holding? && j.drain.r.Got? && (j.drain.r.ev.Exited? || j.drain.r.ev.Failed?)
  }

  lemma KilledStep(j: Job, s: Step)
    requires Enabled(j, s) && j.v.status != Running
    ensures Take(j, s).v.status == Killed <==> s.CancelMarks? || (j.v.status == Killed && !Reports(j, s))
  {
  }

  // drain handled the report of the process at step i, and no cancelJob marked the job since.
  ghost predicate ReportStands(js: seq<Job>, ss: seq<Step>, i: nat, b: nat)
    requires |js| == |ss| + 1
  {
    i < b <= |ss| && Reports(js[i], ss[i]) && forall k :: i < k < b ==> !ss[k].CancelMarks?
  }

  lemma StandsOneMore(js: seq<Job>, ss: seq<Step>, i: nat, b: nat)
    requires |js| == |ss| + 1 && i < b < |ss|
    ensures ReportStands(js, ss, i, b + 1) <==> ReportStands(js, ss, i, b) && !ss[b].CancelMarks?
  {
  }

  // A killed job is no longer killed exactly when drain has since handled an Exited or Failed
  // result and no cancelJob has marked it again; the Recv error that the cancellation
  // provokes does not count.
  lemma {:induction false} KilledReplacedExactly(js: seq<Job>, ss: seq<Step>, maxBytes: int, a: nat, b: nat)
    requires Run(js, ss, maxBytes) && a <= b < |js| && js[a].v.status == Killed
    ensures js[b].v.status != Killed <==> exists i: nat :: a <= i && ReportStands(js, ss, i, b)
    decreases b
  {
    if a < b {
      var n := b - 1;
      KilledReplacedExactly(js, ss, maxBytes, a, n);
      NeverBack(js, ss, maxBytes, a, n);
      KilledStep(js[n], ss[n]);
      assert Reports(js[n], ss[n]) <==> ReportStands(js, ss, n, b);
      if i: nat :| a <= i && ReportStands(js, ss, i, n) {
        StandsOneMore(js, ss, i, n);
      }
      if i: nat :| a <= i && ReportStands(js, ss, i, b) {
        if i < n {
          StandsOneMore(js, ss, i, n);
        }
      }
    }
  }

  // cancelJob has found the job running and has not ended.
  predicate PastCheck(pc: HelperPc) {
    match pc
    case Cancelling(why) => why == ToCancel
    case Waiting(why) => why == ToCancel
    case Holds(why) => why == ToCancel
    case Calling(why) => why == ToCancel
    case Marking => true
    case _ => false
  }

  lemma PastCheckStep(j: Job, s: Step, t: nat)
    requires Enabled(j, s) && t in Take(j, s).helpers && PastCheck(Take(j, s).helpers[t])
    ensures (t in j.helpers && PastCheck(j.helpers[t])) || (s == CancelChecks(t) && j.v.status == Running)
  {
  }

  lemma {:induction false} HasSeenRunning(js: seq<Job>, ss: seq<Step>, maxBytes: int, n: nat, t: nat) returns (m: nat)
    requires Run(js, ss, maxBytes) && n < |js| && t in js[n].helpers && PastCheck(js[n].helpers[t])
    ensures m < n && ss[m] == CancelChecks(t) && js[m].v.status == Running
  {
    assert n > 0;
    m := n - 1;
    PastCheckStep(js[m], ss[m], t);
    if t in js[m].helpers && PastCheck(js[m].helpers[t]) {
      m := HasSeenRunning(js, ss, maxBytes, m, t);
    }
  }

  // A cancelJob that saw the job running at step m, before e, marks it killed at step k.
  ghost predicate LateMark(js: seq<Job>, ss: seq<Step>, m: nat, e: nat, k: nat)
    requires |js| == |ss| + 1
  {
    m < e <= k < |ss| && ss[k].CancelMarks? && ss[m] == CancelChecks(ss[k].t) && js[m].v.status == Running
  }

  lemma MarkIsLate(js: seq<Job>, ss: seq<Step>, maxBytes: int, e: nat, k: nat) returns (m: nat)
    requires Run(js, ss, maxBytes) && e <= k < |ss| && js[e].v.status != Running && ss[k].CancelMarks?
    ensures LateMark(js, ss, m, e, k)
  {
    assert Enabled(js[k], ss[k]);
    m := HasSeenRunning(js, ss, maxBytes, k, ss[k].t);
    if m >= e {
      NeverBack(js, ss, maxBytes, e, m);
    }
  }

  // Once drain has left its loop, only cancelJob changes the status.
  lemma OverStep(j: Job, s: Step)
    requires Enabled(j, s) && DrainIsOver(j) && j.v.status != Running
    ensures DrainIsOver(Take(j, s))
    ensures Take(j, s).v.status == if s.CancelMarks? then Killed else j.v.status
  {
  }

  lemma {:induction false} StaysOver(js: seq<Job>, ss: seq<Step>, maxBytes: int, a: nat, b: nat)
    requires Run(js, ss, maxBytes) && a <= b < |js| && DrainIsOver(js[a]) && js[a].v.status != Running
    ensures DrainIsOver(js[b]) && js[b].v.status != Running
    decreases b
  {
    if a < b {
      StaysOver(js, ss, maxBytes, a, b - 1);
      OverStep(js[b - 1], ss[b - 1]);
    }
  }

  lemma FinishedByDrain(js: seq<Job>, ss: seq<Step>, maxBytes: int, n: nat)
    requires Run(js, ss, maxBytes) && n < |js| && js[n].v.status in {Done, Dead}
    ensures DrainIsOver(js[n])
  {
    Reachable(js, ss, maxBytes, n);
  }

  lemma {:induction false} StatusOnceOver(js: seq<Job>, ss: seq<Step>, maxBytes: int, e: nat, b: nat)
    requires Run(js, ss, maxBytes) && e <= b < |js| && DrainIsOver(js[e]) && js[e].v.status != Running
    ensures js[b].v.status == if exists k :: e <= k < b && ss[k].CancelMarks? then Killed else js[e].v.status
    decreases b
  {
    if e < b {
      StatusOnceOver(js, ss, maxBytes, e, b - 1);
      StaysOver(js, ss, maxBytes, e, b - 1);
      OverStep(js[b - 1], ss[b - 1]);
    }
  }

  // A job that has finished by itself is no longer so exactly when a cancelJob that saw it
  // running before the finish has reached its last section since; and then it is killed.
  lemma FinishedOverwrittenExactly(js: seq<Job>, ss: seq<Step>, maxBytes: int, e: nat, b: nat)
    requires Run(js, ss, maxBytes) && e <= b < |js| && js[e].v.status in {Done, Dead}
    ensures js[b].v.status == Killed <==> exists m: nat, k: nat :: k < b && LateMark(js, ss, m, e, k)
    ensures js[b].v.status != Killed ==> js[b].v.status == js[e].v.status
  {
    FinishedByDrain(js, ss, maxBytes, e);
    StatusOnceOver(js, ss, maxBytes, e, b);
    if k: nat :| e <= k < b && ss[k].CancelMarks? {
      var m := MarkIsLate(js, ss, maxBytes, e, k);
    }
  }

  lemma OverIsFinishedStep(j: Job, s: Step)
    requires Enabled(j, s) && (DrainIsOver(j) ==> j.v.status != Running)
    ensures DrainIsOver(Take(j, s)) ==> Take(j, s).v.status != Running
  {
  }

  // Every job that drain is done with has finished, so the janitor can evict it in time.
  lemma {:induction false} DrainedIsFinished(js: seq<Job>, ss: seq<Step>, maxBytes: int, n: nat)
    requires Run(js, ss, maxBytes) && n < |js| && DrainIsOver(js[n])
    ensures js[n].v.status != Running && js[n].v.finishedAt.Some?
  {
    OverIsFinished(js, ss, maxBytes, n);
    Reachable(js, ss, maxBytes, n);
  }

  lemma {:induction false} OverIsFinished(js: seq<Job>, ss: seq<Step>, maxBytes: int, n: nat)
    requires Run(js, ss, maxBytes) && n < |js|
    ensures DrainIsOver(js[n]) ==> js[n].v.status != Running
  {
    if n > 0 {
      OverIsFinished(js, ss, maxBytes, n - 1);
      OverIsFinishedStep(js[n - 1], ss[n - 1]);
    }
  }

  lemma Extend(js: seq<Job>, ss: seq<Step>, maxBytes: int, s: Step, j: Job) returns (js': seq<Job>, ss': seq<Step>)
    requires Run(js, ss, maxBytes) && Enabled(js[|ss|], s) && j == Take(js[|ss|], s)
    ensures Run(js', ss', maxBytes) && |ss'| == |ss| + 1
    ensures js'[|ss'|] == j && forall i :: 0 <= i < |js| ==> js'[i] == js[i]
  {
    js', ss' := js + [j], ss + [s];
  }

  // cancelJob runs from its check's success to its end, undisturbed.
  lemma CancelCompletes(js: seq<Job>, ss: seq<Step>, maxBytes: int, t: nat, now: int)
    returns (js': seq<Job>, ss': seq<Step>)
    requires Run(js, ss, maxBytes) && At(js[|ss|], t, Cancelling(ToCancel))
    requires var j := js[|ss|]; j.holder.None? && !j.closed
    ensures Run(js', ss', maxBytes) && |ss'| == |ss| + 5
    ensures forall i :: 0 <= i < |js| ==> js'[i] == js[i]
    ensures js'[|ss'|].v == FinishAlways(js[|ss|].v, Killed, now) && js'[|ss'|].drain == js[|ss|].drain
  {
    var j := js[|ss|];
    j := Goes(j.(cancelled := true), t, Waiting(ToCancel));
    js', ss' := Extend(js, ss, maxBytes, ContextCancels(t), j);
    j := Goes(j.(holder := Some(Helper(t))), t, Holds(ToCancel));
    js', ss' := Extend(js', ss', maxBytes, HelperLocks(t), j);
    j := Goes(j.(calls := j.calls + [Began(Kill)]), t, Calling(ToCancel));
    js', ss' := Extend(js', ss', maxBytes, HelperDecides(t), j);
    j := Goes(j.(holder := None, calls := j.calls + [Ended(Kill)]), t, Marking);
    js', ss' := Extend(js', ss', maxBytes, HelperReturns(t), j);
    j := Take(j, CancelMarks(t, now));
    js', ss' := Extend(js', ss', maxBytes, CancelMarks(t, now), j);
  }

  // drain receives the exit of the process.
  lemma ExitArrives(js: seq<Job>, ss: seq<Step>, maxBytes: int, code: int, now: int)
    returns (js': seq<Job>, ss': seq<Step>)
    requires Run(js, ss, maxBytes) && js[|ss|].drain == InRecv
    ensures Run(js', ss', maxBytes) && |ss'| == |ss| + 2
    ensures forall i :: 0 <= i < |js| ==> js'[i] == js[i]
    ensures js'[|ss'|].v == FinishAlways(js[|ss|].v.(exitCode := code), Done, now)
    ensures js'[|ss'|].helpers == js[|ss|].helpers
    ensures js'[|ss'|].holder == js[|ss|].holder && js'[|ss'|].closed == js[|ss|].closed
  {
    var j := Take(js[|ss|], RecvReturns(Got(Exited(code))));
    js', ss' := Extend(js, ss, maxBytes, RecvReturns(Got(Exited(code))), j);
    js', ss' := Extend(js', ss', maxBytes, DrainHandles(now), Take(j, DrainHandles(now)));
  }

  // A running job, and a cancelJob that has passed its check.
  lemma CancelUnderway() returns (js: seq<Job>, ss: seq<Step>)
    ensures Run(js, ss, 4) && |ss| == 3
    ensures js[3] == Fresh(4).(drain := InRecv, helpers := map[1 := Cancelling(ToCancel)], calls := [Began(Recv)])
  {
    js, ss := [Fresh(4)], [];
    var j := Fresh(4).(drain := InRecv, calls := [Began(Recv)]);
    js, ss := Extend(js, ss, 4, RecvBegins, j);
    j := j.(helpers := map[1 := Checking]);
    js, ss := Extend(js, ss, 4, CancelEnters(1), j);
    j := j.(helpers := map[1 := Cancelling(ToCancel)]);
    js, ss := Extend(js, ss, 4, CancelChecks(1), j);
  }

  // killed is not final: an exit that was already on its way replaces it.
  lemma KilledIsNotFinal() returns (js: seq<Job>, ss: seq<Step>)
    ensures Run(js, ss, 4) && |ss| == 10
    ensures js[8].v.status == Killed && js[10].v.status == Done
  {
    js, ss := CancelUnderway();
    js, ss := CancelCompletes(js, ss, 4, 1, 10);
    js, ss := ExitArrives(js, ss, 4, 0, 11);
  }

  // Neither is a recorded exit: a cancelJob that saw the job running still marks it killed.
  lemma ExitIsNotFinal() returns (js: seq<Job>, ss: seq<Step>)
    ensures Run(js, ss, 4) && |ss| == 10
    ensures js[5].v.status == Done && js[5].v.exitCode == 7 && js[10].v.status == Killed
  {
    js, ss := CancelUnderway();
    js, ss := ExitArrives(js, ss, 4, 7, 10);
    js, ss := CancelCompletes(js, ss, 4, 1, 11);
  }

  // Drain has returned and no cancelJob is between its check and its last section.
  ghost predicate Settled(j: Job) {
    && j.drain == Returned
    && (forall t :: t in j.helpers ==>
          j.helpers[t] != Marking && (j.helpers[t].Finished? || j.helpers[t].Checking? || j.helpers[t].why != ToCancel))
  }

  lemma SettledStep(j: Job, s: Step)
    requires Settled(j) && j.v.status != Running && Enabled(j, s)
    ensures Settled(Take(j, s)) && Take(j, s).v == j.v
  {
  }

  lemma {:induction false} SettledForever(js: seq<Job>, ss: seq<Step>, maxBytes: int, a: nat, b: nat)
    requires Run(js, ss, maxBytes) && a <= b < |js|
    requires Settled(js[a])
    ensures Settled(js[b]) && js[b].v == js[a].v
    decreases b
  {
    if a < b {
      SettledForever(js, ss, maxBytes, a, b - 1);
      DrainedIsFinished(js, ss, maxBytes, b - 1);
      SettledStep(js[b - 1], ss[b - 1]);
    }
  }
}
