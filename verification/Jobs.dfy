// The job object and the job registry as the code writes them (internal/core/jobs.go).
// Each method is one mutex-protected section, or one call run without interference;
// JobRuns interleaves the sections.
module Jobs {
  import opened Options
  import opened RingBuffers
  import opened JobSections
  import opened Text

  const DEFAULT_TTL := 900_000_000_000  // nanoseconds

  datatype Timed = Timed(r: Received, at: int)

  // The SDK handle. Its preconditions say that nothing may be called on it after Close.
  class ExecHandle {
    var pending: seq<Timed>  // what Recv will deliver before the stream breaks off
    var kills: nat
    var signals: nat
    var closes: nat

    constructor (stream: seq<Timed>)
      ensures pending == stream && kills == signals == closes == 0
    {
      pending, kills, signals, closes := stream, 0, 0, 0;
    }

    method Recv(brokenAt: int) returns (t: Timed)
      requires closes == 0
      modifies this`pending
      ensures old(pending) == [] ==> t == Timed(RecvErr, brokenAt) && pending == []
      ensures old(pending) != [] ==> t == old(pending)[0] && pending == old(pending)[1..]
    {
      if pending == [] {
        t := Timed(RecvErr, brokenAt);
      } else {
        t, pending := pending[0], pending[1..];
      }
    }

    method Kill()
      requires closes == 0
      modifies this`kills
      ensures kills == old(kills) + 1
    {
      kills := kills + 1;
    }

    method Signal(sig: int)
      requires closes == 0
      modifies this`signals
      ensures signals == old(signals) + 1
    {
      signals := signals + 1;
    }

    method Close()
      requires closes == 0
      modifies this`closes
      ensures closes == 1
    {
      closes := 1;
    }
  }

  // ----- What an undisturbed drain makes of a stream ---------------------------------------------

  // The first result that ends the loop.
  function FirstEnd(stream: seq<Timed>): (k: nat)
    ensures k <= |stream| && (k < |stream| ==> Ends(stream[k].r))
    ensures forall i :: 0 <= i < k ==> !Ends(stream[i].r)
  {
    if stream == [] || Ends(stream[0].r) then 0 else 1 + FirstEnd(stream[1..])
  }

  // What drain receives: the stream through that result, or all of it and then the error.
  function Taken(stream: seq<Timed>, brokenAt: int): seq<Timed> {
    if FirstEnd(stream) < |stream| then stream[..FirstEnd(stream) + 1] else stream + [Timed(RecvErr, brokenAt)]
  }

  function HandleAll(v: JobView, ts: seq<Timed>): JobView {
    if ts == [] then v else Handled(HandleAll(v, ts[..|ts| - 1]), ts[|ts| - 1].r, ts[|ts| - 1].at)
  }

  // The state after drain has consumed a stream without interference.
  function Drained(v: JobView, stream: seq<Timed>, brokenAt: int): JobView {
    HandleAll(v, Taken(stream, brokenAt))
  }

  lemma HandleOneMore(v: JobView, ts: seq<Timed>, t: Timed)
    ensures HandleAll(v, ts + [t]) == Handled(HandleAll(v, ts), t.r, t.at)
  {
    assert (ts + [t])[..|ts|] == ts;
  }

  // What one more result does, after n that did not end the loop.
  lemma NextTaken(v: JobView, stream: seq<Timed>, n: nat, brokenAt: int)
    requires n <= |stream| && forall i :: 0 <= i < n ==> !Ends(stream[i].r)
    ensures var t := if n == |stream| then Timed(RecvErr, brokenAt) else stream[n];
            var v' := Handled(HandleAll(v, stream[..n]), t.r, t.at);
            if Ends(t.r) then Drained(v, stream, brokenAt) == v' else HandleAll(v, stream[..n + 1]) == v'
  {
    if n == |stream| {
      assert stream[..n] == stream && FirstEnd(stream) == n;
      HandleOneMore(v, stream, Timed(RecvErr, brokenAt));
    } else {
      assert stream[..n + 1] == stream[..n] + [stream[n]];
      HandleOneMore(v, stream[..n], stream[n]);
      if Ends(stream[n].r) {
        assert FirstEnd(stream) == n;
      }
    }
  }

  // What a job is once drain has handled last.
  predicate EndsAs(v: JobView, last: Timed, d: JobView) {
    && d.finishedAt == Some(last.at)
    && d.exitCode == (if last.r.Got? && last.r.ev.Exited? then last.r.ev.code else v.exitCode)
    && d.status == if last.r.Got? && last.r.ev.Exited? then Done
                   else if last.r.Got? && last.r.ev.Failed? then Dead
                   else if v.status != Running then v.status
                   else if last.r.Got? then Done else Dead
  }

  lemma {:induction false} QuietAll(v: JobView, ts: seq<Timed>)
    requires forall i :: 0 <= i < |ts| ==> Quiet(ts[i].r)
    ensures var d := HandleAll(v, ts);
            d.status == v.status && d.exitCode == v.exitCode && d.finishedAt == v.finishedAt
  {
    if ts != [] {
      QuietAll(v, ts[..|ts| - 1]);
      assert Quiet(ts[|ts| - 1].r);
    }
  }

  // A stream that is quiet up to k: drain receives it through k, and the job is then what
  // that result says, at its time.
  lemma DrainedEnds(v: JobView, stream: seq<Timed>, k: nat, brokenAt: int)
    requires k < |stream| && !Quiet(stream[k].r) && forall i :: 0 <= i < k ==> Quiet(stream[i].r)
    ensures Taken(stream, brokenAt) == stream[..k + 1]
    ensures EndsAs(v, stream[k], Drained(v, stream, brokenAt))
  {
    assert FirstEnd(stream) == k;
    assert stream[..k + 1] == stream[..k] + [stream[k]];
    HandleOneMore(v, stream[..k], stream[k]);
    QuietAll(v, stream[..k]);
  }

  // A stream that breaks off before any such result.
  lemma DrainedBreaks(v: JobView, stream: seq<Timed>, brokenAt: int)
    requires forall i :: 0 <= i < |stream| ==> Quiet(stream[i].r)
    ensures Taken(stream, brokenAt) == stream + [Timed(RecvErr, brokenAt)]
    ensures EndsAs(v, Timed(RecvErr, brokenAt), Drained(v, stream, brokenAt))
  {
    assert FirstEnd(stream) == |stream|;
    HandleOneMore(v, stream, Timed(RecvErr, brokenAt));
    QuietAll(v, stream);
  }

  function Results(ts: seq<Timed>): seq<Received> {
    if ts == [] then [] else Results(ts[..|ts| - 1]) + [ts[|ts| - 1].r]
  }

  // Both rings hold what the results received have brought.
  lemma {:induction false} DrainedShows(maxBytes: int, ts: seq<Timed>)
    ensures var d := HandleAll(Launched(maxBytes), ts);
            && d.stdout == WriteAll(NewRing(maxBytes), StdoutOf(Results(ts)))
            && d.stderr == WriteAll(NewRing(maxBytes), StderrOf(Results(ts)))
  {
    if ts == [] {
      assert WriteAll(NewRing(maxBytes), []) == NewRing(maxBytes);
    } else {
      var init, t := ts[..|ts| - 1], ts[|ts| - 1];
      DrainedShows(maxBytes, init);
      OutputHandled(HandleAll(Launched(maxBytes), init), Results(init), t.r, t.at, maxBytes);
    }
  }

  // ----- The job -----------------------------------------------------------------------------------

  class Job {
    var status: Status
    var exitCode: int
    var finishedAt: Option<int>
    const stdout: RingBuffer
    const stderr: RingBuffer
    const handle: ExecHandle
    var closed: bool
    var cancelled: bool

    ghost function Footprint(): set<object> {
      {this, stdout, stdout.data, stderr, stderr.data, handle}
    }

    ghost predicate Valid()
      reads Footprint()
    {
      && stdout.Valid() && stderr.Valid()
      && stdout != stderr && stdout.data != stderr.data
      && handle.closes == if closed then 1 else 0
    }

    ghost function View(): JobView
      requires Valid()
      reads Footprint()
    {
      JobView(status, exitCode, stdout.View(), stderr.View(), finishedAt)
    }

    constructor (h: ExecHandle, maxBytes: int)
      requires h.closes == 0
      ensures Valid() && handle == h && fresh(Footprint() - {h})
      ensures View() == Launched(maxBytes) && !closed && !cancelled
      ensures status == Running && exitCode == 0 && finishedAt == None
      ensures stdout.View() == stderr.View() == Ring([], if maxBytes <= 0 then 0x10_0000 else maxBytes, 0, false)
    {
      status, exitCode, finishedAt := Running, 0, None;
      stdout := new RingBuffer(maxBytes);
      stderr := new RingBuffer(maxBytes);
      handle, closed, cancelled := h, false, false;
    }

    method GetSnapshot() returns (shot: JobStatus)
      requires Valid()
      ensures shot == Snapshot(View())
      ensures shot.status == status && shot.exitCode == exitCode
      ensures shot.stdout == stdout.View().buf && shot.stdoutBytes == stdout.total
      ensures shot.stderr == stderr.View().buf && shot.stderrBytes == stderr.total
      ensures shot.truncated <==> stdout.trunc || stderr.trunc
    {
      var out := stdout.String();
      var err := stderr.String();
      shot := JobStatus(status, exitCode, out, err, stdout.trunc || stderr.trunc, stdout.total, stderr.total);
    }

    method MarkFinished(st: Status, now: int)
      requires Valid()
      modifies this`status, this`finishedAt
      ensures Valid() && View() == FinishIfRunning(old(View()), st, now)
      ensures status == (if old(status) == Running then st else old(status)) && finishedAt == Some(now)
    {
      if status == Running {
        status := st;
      }
      finishedAt := Some(now);
    }

    // The switch inside drain.
    method HandleEvent(ev: Event, now: int) returns (over: bool)
      requires Valid()
      modifies this`status, this`exitCode, this`finishedAt, stdout, stdout.data, stderr, stderr.data
      ensures Valid() && View() == Handled(old(View()), Got(ev), now)
      ensures over == Ends(Got(ev)) == (ev.Exited? || ev.Failed? || ev.StreamDone?)
      ensures finishedAt == if over then Some(now) else old(finishedAt)
      ensures status == if ev.Exited? then Done else if ev.Failed? then Dead
                        else if ev.StreamDone? && old(status) == Running then Done else old(status)
      ensures exitCode == if ev.Exited? then ev.code else old(exitCode)
      ensures if ev.Stdout? then Takes(old(stdout.View()), ev.data, stdout.View())
              else stdout.View() == old(stdout.View())
      ensures if ev.Stderr? then Takes(old(stderr.View()), ev.data, stderr.View())
              else if ev.Failed? && ev.failure.Some? then Takes(old(stderr.View()), ev.failure.value, stderr.View())
              else stderr.View() == old(stderr.View())
    {
      over := false;
      match ev {
        case Stdout(data) =>
          var _ := stdout.Write(data);
        case Stderr(data) =>
          var _ := stderr.Write(data);
        case Exited(code) =>
          exitCode, status, finishedAt, over := code, Done, Some(now), true;
        case Failed(failure) =>
          if failure.Some? {
            var _ := stderr.Write(failure.value);
          }
          status, finishedAt, over := Dead, Some(now), true;
        case StreamDone =>
          if status == Running {
            status := Done;
          }
          finishedAt, over := Some(now), true;
        case Other =>
      }
    }

    // One turn of drain's loop after Recv.
    method HandleResult(t: Timed) returns (over: bool)
      requires Valid()
      modifies this`status, this`exitCode, this`finishedAt, stdout, stdout.data, stderr, stderr.data
      ensures Valid() && View() == Handled(old(View()), t.r, t.at) && over == Ends(t.r)
    {
      if t.r.RecvErr? {
        MarkFinished(Dead, t.at);
        over := true;
      } else {
        over := HandleEvent(t.r.ev, t.at);
      }
    }

    // One turn of drain's loop, after n results of the stream that did not end it.
    method Turn(brokenAt: int, ghost v: JobView, ghost stream: seq<Timed>, ghost n: nat) returns (over: bool)
      requires Valid() && !closed
      requires n <= |stream| && handle.pending == stream[n..] && View() == HandleAll(v, stream[..n])
      requires forall i :: 0 <= i < n ==> !Ends(stream[i].r)
      modifies handle`pending
      modifies this`status, this`exitCode, this`finishedAt, stdout, stdout.data, stderr, stderr.data
      ensures Valid() && !closed
      ensures over ==> View() == Drained(v, stream, brokenAt)
      ensures !over ==> n < |stream| && !Ends(stream[n].r)
      ensures !over ==> handle.pending == stream[n + 1..] && View() == HandleAll(v, stream[..n + 1])
    {
      NextTaken(v, stream, n, brokenAt);
      var t := handle.Recv(brokenAt);
      over := HandleResult(t);
    }

    // What drain defers.
    method CloseHandle()
      requires Valid() && !closed
      modifies this`closed, handle`closes
      ensures Valid() && closed && View() == old(View())
    {
      closed := true;
      handle.Close();
    }

    method Drain(brokenAt: int)
      requires Valid() && !closed
      modifies this`status, this`exitCode, this`finishedAt, this`closed
      modifies handle`pending, handle`closes, stdout, stdout.data, stderr, stderr.data
      ensures Valid() && closed
      ensures View() == Drained(old(View()), old(handle.pending), brokenAt)
    {
      ghost var v, stream, n := View(), handle.pending, 0;
      var over := false;
      while !over
        invariant Valid() && !closed
        invariant n <= |stream| && forall i :: 0 <= i < n ==> !Ends(stream[i].r)
        invariant !over ==> handle.pending == stream[n..] && View() == HandleAll(v, stream[..n])
        invariant over ==> View() == Drained(v, stream, brokenAt)
        decreases !over, |handle.pending|
      {
        over := Turn(brokenAt, v, stream, n);
        if !over {
          n := n + 1;
        }
      }
      CloseHandle();
    }

    // What the janitor reads under the job mutex.
    method IsExpired(now: int, ttl: int) returns (expired: bool)
      ensures expired == Expired(finishedAt, now, ttl)
      ensures expired <==> finishedAt.Some? && now > finishedAt.value + ttl
    {
      expired := finishedAt.Some? && now - finishedAt.value > ttl;
    }

    // The common middle of cancelJob and dropSandbox.
    method CancelAndKill()
      requires !closed ==> handle.closes == 0
      modifies this`cancelled, handle`kills
      ensures KilledSince()
    {
      cancelled := true;
      if !closed {
        handle.Kill();
      }
    }

    // What CancelAndKill has done between two states.
    twostate predicate KilledSince()
      reads this, handle
    {
      && cancelled && closed == old(closed)
      && handle.kills == old(handle.kills) + if closed then 0 else 1
    }

    method Cancel(now: int)
      requires Valid()
      modifies this`status, this`finishedAt, this`cancelled, handle`kills
      ensures Valid()
      ensures old(status) != Running ==>
                View() == old(View()) && cancelled == old(cancelled) && handle.kills == old(handle.kills)
      ensures old(status) == Running ==>
                && View() == FinishAlways(old(View()), Killed, now) && cancelled
                && status == Killed && finishedAt == Some(now) && exitCode == old(exitCode)
                && handle.kills == old(handle.kills) + if closed then 0 else 1
    {
      if status != Running {
        return;
      }
      CancelAndKill();
      status, finishedAt := Killed, Some(now);
    }

    // A positive signal; others are cancellations. False reports "already finished".
    method SignalLive(sig: int) returns (sent: bool)
      requires Valid()
      modifies handle`signals
      ensures Valid() && View() == old(View())
      ensures sent == !closed && handle.signals == old(handle.signals) + if sent then 1 else 0
    {
      sent := !closed;
      if sent {
        handle.Signal(sig);
      }
    }
  }

  // ----- Registry keys ----------------------------------------------------------------------

  function Key(sandbox: string, job: string): string {
    sandbox + ['\0'] + job
  }

  // Among keys of NUL-free ids the prefix test of dropSandbox finds exactly those of the
  // sandbox, whatever it is asked for, even when one sandbox id is a prefix of another.
  lemma PrefixIsSandbox(sandbox: string, s: string, job: string)
    requires NulFree(s) && NulFree(job)
    ensures sandbox + ['\0'] <= Key(s, job) <==> s == sandbox
  {
    var k := Key(s, job);
    assert k[..|s|] == s && k[|s|] == '\0';
    if sandbox + ['\0'] <= k {
      assert k[|sandbox|] == (sandbox + ['\0'])[|sandbox|] == '\0';
      assert k[..|sandbox|] == sandbox;
    }
  }

  // A job with NUL-free ids is found under its own pair only, whatever pair is asked for.
  lemma KeysAreUnique(s1: string, j1: string, s2: string, j2: string)
    requires NulFree(s1) && NulFree(j1)
    ensures Key(s1, j1) == Key(s2, j2) <==> s1 == s2 && j1 == j2
  {
    if Key(s1, j1) == Key(s2, j2) {
      assert s2 + ['\0'] <= Key(s1, j1);
      PrefixIsSandbox(s2, s1, j1);
      assert Key(s1, j1)[|s1| + 1..] == j1;
      assert Key(s2, j2)[|s2| + 1..] == j2;
    }
  }

  // Without the NUL rule two pairs can share a key.
  lemma NulBreaksKeys()
    ensures Key("a", "b\0c") == Key("a\0b", "c")
  {
    assert Key("a", "b\0c") == "a\0b\0c" == Key("a\0b", "c");
  }

  // ----- The registry --------------------------------------------------------------------------

  // Every job is valid and no object belongs to two of them; owner names the key it belongs to.
  ghost predicate AllValid(jobs: map<string, Job>, owner: map<object, string>)
    reads owner.Keys
  {
    forall k | k in jobs ::
      && (forall o | o in jobs[k].Footprint() :: o in owner && owner[o] == k)
      && jobs[k].Valid()
  }

  // Every victim is killed, and nothing in safe is touched.
  method KillAll(victims: seq<Job>, ghost safe: set<object>)
    requires forall i :: 0 <= i < |victims| ==> !victims[i].closed ==> victims[i].handle.closes == 0
    requires forall i, k :: 0 <= i < k < |victims| ==>
               victims[i] != victims[k] && victims[i].handle != victims[k].handle
    requires forall i :: 0 <= i < |victims| ==> victims[i] !in safe && victims[i].handle !in safe
    modifies (set i | 0 <= i < |victims| :: victims[i])`cancelled
    modifies (set i | 0 <= i < |victims| :: victims[i].handle)`kills
    ensures forall i :: 0 <= i < |victims| ==> victims[i].KilledSince()
    ensures unchanged(safe)
  {
    for n := 0 to |victims|
      invariant forall i :: n <= i < |victims| ==> victims[i].handle.kills == old(victims[i].handle.kills)
      invariant forall i :: 0 <= i < n ==> victims[i].KilledSince()
      invariant unchanged(safe)
    {
      victims[n].CancelAndKill();
    }
  }

  // The objects of the jobs listed in kept.
  ghost function ObjectsOf(kept: map<string, Job>, owner: map<object, string>): set<object> {
    set o | o in owner && owner[o] in kept
  }

  // Objects of different entries are different.
  lemma Apart(jobs: map<string, Job>, kept: map<string, Job>, names: seq<string>, owner: map<object, string>)
    requires AllValid(jobs, owner)
    requires forall i :: 0 <= i < |names| ==> names[i] in jobs && names[i] !in kept
    requires forall i, k :: 0 <= i < k < |names| ==> names[i] != names[k]
    ensures forall i :: 0 <= i < |names| ==>
              var j := jobs[names[i]];
              && (!j.closed ==> j.handle.closes == 0)
              && j !in ObjectsOf(kept, owner) && j.handle !in ObjectsOf(kept, owner)
    ensures forall i, k :: 0 <= i < k < |names| ==>
              jobs[names[i]] != jobs[names[k]] && jobs[names[i]].handle != jobs[names[k]].handle
  {
    assert forall i :: 0 <= i < |names| ==>
      owner[jobs[names[i]]] == names[i] && owner[jobs[names[i]].handle] == names[i];
  }

  lemma OneMore(jobs: map<string, Job>, owner: map<object, string>, k: string, j: Job)
    requires AllValid(jobs, owner) && k !in jobs && j.Valid() && j.Footprint() !! owner.Keys
    ensures AllValid(jobs[k := j], owner + map o | o in j.Footprint() :: k)
  {
    forall x | x in jobs && x != k
      ensures forall o | o in jobs[x].Footprint() :: o in owner && owner[o] == x
    {
    }
  }

  lemma SubmapValid(jobs: map<string, Job>, some: map<string, Job>, owner: map<object, string>)
    requires AllValid(jobs, owner)
    requires some.Keys <= jobs.Keys && forall k :: k in some ==> some[k] == jobs[k]
    ensures AllValid(some, owner)
  {
  }

  // The same for entries of a valid registry, beside those that stay listed.
  method KillBeside(
    victims: seq<Job>, ghost names: seq<string>, ghost jobs: map<string, Job>,
    ghost kept: map<string, Job>, ghost owner: map<object, string>)
    requires AllValid(jobs, owner)
    requires kept.Keys <= jobs.Keys && forall k :: k in kept ==> kept[k] == jobs[k]
    requires |names| == |victims|
    requires forall i :: 0 <= i < |names| ==> names[i] in jobs && names[i] !in kept && victims[i] == jobs[names[i]]
    requires forall i, k :: 0 <= i < k < |names| ==> names[i] != names[k]
    modifies (set i | 0 <= i < |victims| :: victims[i])`cancelled
    modifies (set i | 0 <= i < |victims| :: victims[i].handle)`kills
    ensures AllValid(kept, owner) && unchanged(ObjectsOf(kept, owner))
    ensures forall i :: 0 <= i < |names| ==> jobs[names[i]].KilledSince()
  {
    Apart(jobs, kept, names, owner);
    assert forall k :: k in kept ==> kept[k].Footprint() <= ObjectsOf(kept, owner);
    KillAll(victims, ObjectsOf(kept, owner));
  }

  class JobRegistry {
    var jobs: map<string, Job>
    const maxBytes: int
    const ttl: int
    ghost var owner: map<object, string>

    ghost predicate Valid()
      reads this, owner.Keys
    {
      this !in owner && AllValid(jobs, owner)
    }

    constructor (maxBytes: int, ttl: int)
      ensures Valid() && jobs == map[] && owner == map[]
      ensures this.maxBytes == (if maxBytes <= 0 then 0x10_0000 else maxBytes)
      ensures this.ttl == if ttl <= 0 then 15 * 60 * 1_000_000_000 else ttl
    {
      this.maxBytes := if maxBytes <= 0 then DEFAULT_MAX_BYTES else maxBytes;
      this.ttl := if ttl <= 0 then DEFAULT_TTL else ttl;
      jobs, owner := map[], map[];
    }

    // h is the handle that ShellStream has just returned, id the freshly drawn job id.
    method Launch(sandbox: string, id: string, h: ExecHandle) returns (j: Job)
      requires Valid() && h.closes == 0 && h !in owner
      requires Key(sandbox, id) !in jobs
      modifies this`jobs, this`owner
      ensures Valid() && fresh(owner.Keys - old(owner.Keys) - {h})
      ensures jobs == old(jobs)[Key(sandbox, id) := j]
      ensures j.Valid() && j.handle == h && j.View() == Launched(maxBytes)
    {
      j := new Job(h, maxBytes);
      OneMore(jobs, owner, Key(sandbox, id), j);
      jobs := jobs[Key(sandbox, id) := j];
      owner := owner + map o | o in j.Footprint() :: Key(sandbox, id);
    }

    // None is the answer "gone".
    method Poll(sandbox: string, id: string) returns (shot: Option<JobStatus>)
      requires Valid()
      ensures shot == if Key(sandbox, id) in jobs then Some(Snapshot(jobs[Key(sandbox, id)].View())) else None
    {
      var k := Key(sandbox, id);
      if k !in jobs {
        return None;
      }
      var s := jobs[k].GetSnapshot();
      shot := Some(s);
    }

    // One tick of the janitor.
    method Sweep(now: int)
      modifies this`jobs
      ensures jobs == map k | k in old(jobs) && !Expired(old(jobs)[k].finishedAt, now, ttl) :: old(jobs)[k]
      ensures old(Valid()) ==> Valid()
    {
      EvictExpired(now);
      if old(Valid()) {
        SubmapValid(old(jobs), jobs, owner);
      }
    }

    method EvictExpired(now: int)
      modifies this`jobs
      ensures jobs == map k | k in old(jobs) && !Expired(old(jobs)[k].finishedAt, now, ttl) :: old(jobs)[k]
    {
      var before, todo := jobs, jobs.Keys;
      while todo != {}
        invariant todo <= before.Keys
        invariant forall k :: k in jobs <==> k in before && (k in todo || !Expired(before[k].finishedAt, now, ttl))
        invariant forall k :: k in jobs ==> jobs[k] == before[k]
        decreases |todo|
      {
        var k :| k in todo;
        todo := todo - {k};
        var expired := before[k].IsExpired(now, ttl);
        if expired {
          jobs := jobs - {k};
        }
      }
    }

    // dropSandbox under the registry lock: the entries of the sandbox become the victims.
    method TakeOut(sandbox: string) returns (victims: seq<Job>, ghost names: seq<string>)
      modifies this`jobs
      ensures jobs == map k | k in old(jobs) && !(sandbox + ['\0'] <= k) :: old(jobs)[k]
      ensures |names| == |victims|
      ensures forall i :: 0 <= i < |names| ==>
                names[i] in old(jobs) && names[i] !in jobs && victims[i] == old(jobs)[names[i]]
      ensures forall i, k :: 0 <= i < k < |names| ==> names[i] != names[k]
      ensures forall k :: k in names <==> k in old(jobs) && sandbox + ['\0'] <= k
      ensures forall k :: k in old(jobs) ==> unchanged(old(jobs)[k], old(jobs)[k].handle)
    {
      var prefix := sandbox + ['\0'];
      var before, todo := jobs, jobs.Keys;
      victims, names := [], [];
      while todo != {}
        invariant todo <= before.Keys
        invariant forall k :: k in jobs <==> k in before && (k in todo || !(prefix <= k))
        invariant forall k :: k in jobs ==> jobs[k] == before[k]
        invariant |names| == |victims|
        invariant forall i :: 0 <= i < |names| ==> names[i] in before && victims[i] == before[names[i]]
        invariant forall i, k :: 0 <= i < k < |names| ==> names[i] != names[k]
        invariant forall k :: k in names <==> k in before && k !in todo && prefix <= k
        decreases |todo|
      {
        var k :| k in todo;
        todo := todo - {k};
        if prefix <= k {
          victims, names := victims + [jobs[k]], names + [k];
          jobs := jobs - {k};
        }
      }
    }

    method DropSandbox(sandbox: string)
      requires Valid()
      modifies this`jobs
      modifies (set k | k in jobs :: jobs[k])`cancelled, (set k | k in jobs :: jobs[k].handle)`kills
      ensures Valid()
      ensures jobs == map k | k in old(jobs) && !(sandbox + ['\0'] <= k) :: old(jobs)[k]
      ensures owner == old(owner) && unchanged(ObjectsOf(jobs, owner))
      ensures forall k :: k in old(jobs) && sandbox + ['\0'] <= k ==> old(jobs)[k].KilledSince()
    {
      ghost var before := jobs;
      var victims, names := TakeOut(sandbox);
      KillBeside(victims, names, before, jobs, owner);
      forall k | k in before && sandbox + ['\0'] <= k
        ensures before[k].KilledSince()
      {
        var i :| 0 <= i < |names| && names[i] == k;
      }
    }
  }
}
