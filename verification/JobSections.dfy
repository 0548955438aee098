// The critical sections of a background job, as functions on the state that the job's
// mutex protects (internal/core/jobs.go).
module JobSections {
  import opened Options
  import opened RingBuffers

  datatype Status = Running | Done | Dead | Killed

  datatype Event =
    | Stdout(data: Bytes)
    | Stderr(data: Bytes)
    | Exited(code: int)
    | Failed(failure: Option<Bytes>)
    | StreamDone
    | Other

  // What one Recv call yields.
  datatype Received = Got(ev: Event) | RecvErr

  // finishedAt is None while the Go field is the zero time.
  datatype JobView = JobView(status: Status, exitCode: int, stdout: Ring, stderr: Ring, finishedAt: Option<int>)

  datatype JobStatus = JobStatus(
    status: Status, exitCode: int, stdout: Bytes, stderr: Bytes,
    truncated: bool, stdoutBytes: nat, stderrBytes: nat)

  function Launched(maxBytes: int): JobView {
    JobView(Running, 0, NewRing(maxBytes), NewRing(maxBytes), None)
  }

  function Snapshot(v: JobView): JobStatus {
    JobStatus(v.status, v.exitCode, v.stdout.buf, v.stderr.buf,
              v.stdout.trunc || v.stderr.trunc, v.stdout.total, v.stderr.total)
  }

  function FinishIfRunning(v: JobView, status: Status, now: int): JobView {
    v.(status := if v.status == Running then status else v.status, finishedAt := Some(now))
  }

  function FinishAlways(v: JobView, status: Status, now: int): JobView {
    v.(status := status, finishedAt := Some(now))
  }

  predicate Ends(r: Received) {
    r.RecvErr? || r.ev.Exited? || r.ev.Failed? || r.ev.StreamDone?
  }

  // A result after which drain goes on.
  predicate Quiet(r: Received) {
    r.Got? && (r.ev.Stdout? || r.ev.Stderr? || r.ev.Other?)
  }

  // The bytes an event adds to either stream; a failure is printed on stderr.
  function StdoutBytes(r: Received): Option<Bytes> {
    if r.Got? && r.ev.Stdout? then Some(r.ev.data) else None
  }

  function StderrBytes(r: Received): Option<Bytes> {
    if r.Got? && r.ev.Stderr? then Some(r.ev.data)
    else if r.Got? && r.ev.Failed? then r.ev.failure
    else None
  }

  function Logged(ring: Ring, p: Option<Bytes>): Ring {
    if p.Some? then Written(ring, p.value) else ring
  }

  // What drain does under the job mutex with one result of Recv.
  function Handled(v: JobView, r: Received, now: int): JobView {
    var logged := v.(stdout := Logged(v.stdout, StdoutBytes(r)), stderr := Logged(v.stderr, StderrBytes(r)));
    match r
    case RecvErr => FinishIfRunning(logged, Dead, now)
    case Got(Exited(code)) => FinishAlways(logged.(exitCode := code), Done, now)
    case Got(Failed(_)) => FinishAlways(logged, Dead, now)
    case Got(StreamDone) => FinishIfRunning(logged, Done, now)
    case Got(_) => logged
  }

  predicate Expired(finishedAt: Option<int>, now: int, ttl: int) {
    finishedAt.Some? && now - finishedAt.value > ttl
  }

  // ----- What the results of Recv bring ---------------------------------------------------------

  function Chunk(o: Option<Bytes>): seq<Bytes> {
    if o.Some? then [o.value] else []
  }

  function StdoutOf(rs: seq<Received>): seq<Bytes> {
    if rs == [] then [] else StdoutOf(rs[..|rs| - 1]) + Chunk(StdoutBytes(rs[|rs| - 1]))
  }

  function StderrOf(rs: seq<Received>): seq<Bytes> {
    if rs == [] then [] else StderrOf(rs[..|rs| - 1]) + Chunk(StderrBytes(rs[|rs| - 1]))
  }

  // A result brings to stdout the data of a Stdout event and nothing else.
  lemma StdoutOneMore(rs: seq<Received>, r: Received)
    ensures StdoutOf(rs + [r]) == StdoutOf(rs) + if r.Got? && r.ev.Stdout? then [r.ev.data] else []
  {
    assert (rs + [r])[..|rs|] == rs;
    assert StdoutOf(rs) + [] == StdoutOf(rs);
  }

  // To stderr it brings the data of a Stderr event, the text of a failure, and nothing else.
  lemma StderrOneMore(rs: seq<Received>, r: Received)
    ensures StderrOf(rs + [r])
            == StderrOf(rs) + if r.Got? && r.ev.Stderr? then [r.ev.data]
                              else if r.Got? && r.ev.Failed? && r.ev.failure.Some? then [r.ev.failure.value]
                              else []
  {
    assert (rs + [r])[..|rs|] == rs;
    assert StderrOf(rs) + [] == StderrOf(rs);
  }

  lemma HandledOutput(v: JobView, r: Received, now: int)
    ensures Handled(v, r, now).stdout == Logged(v.stdout, StdoutBytes(r))
    ensures Handled(v, r, now).stderr == Logged(v.stderr, StderrBytes(r))
  {
  }

  // The rings hold what has been received; so they do after one more result.
  lemma OutputHandled(v: JobView, rs: seq<Received>, r: Received, now: int, maxBytes: int)
    requires v.stdout == WriteAll(NewRing(maxBytes), StdoutOf(rs))
    requires v.stderr == WriteAll(NewRing(maxBytes), StderrOf(rs))
    ensures Handled(v, r, now).stdout == WriteAll(NewRing(maxBytes), StdoutOf(rs + [r]))
    ensures Handled(v, r, now).stderr == WriteAll(NewRing(maxBytes), StderrOf(rs + [r]))
  {
    HandledOutput(v, r, now);
    assert (rs + [r])[..|rs|] == rs;
    WriteOneMore(NewRing(maxBytes), StdoutOf(rs), StdoutBytes(r));
    WriteOneMore(NewRing(maxBytes), StderrOf(rs), StderrBytes(r));
  }

  lemma WriteOneMore(r: Ring, ws: seq<Bytes>, o: Option<Bytes>)
    ensures WriteAll(r, ws + Chunk(o)) == Logged(WriteAll(r, ws), o)
  {
    if o.Some? {
      assert (ws + [o.value])[..|ws|] == ws;
    } else {
      assert ws + [] == ws;
    }
  }
}
