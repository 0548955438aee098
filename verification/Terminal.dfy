// A terminal session (internal/core/terminal_agent.go): the pump goroutine, the bounded
// output channel, any number of concurrent Close calls, the reader and Wait.
module Terminal {
  import opened Options
  import opened RingBuffers

  const CAPACITY := 64

  // A frame as the pump sees it after decoding.
  datatype Frame =
    | Undecodable
    | Output(data: Bytes)          // stdout or stderr
    | BadOutput                    // stdout or stderr whose payload does not decode
    | ExitFrame(code: Option<int>) // None: the payload does not decode
    | FailFrame
    | Unknown

  // ----- What a sequence of frames means -------------------------------------------------------

  predicate Terminates(f: Frame) {
    f.ExitFrame? || f.FailFrame?
  }

  function ChunkOf(f: Frame): seq<Bytes> {
    if f.Output? && f.data != [] then [f.data] else []
  }

  function Chunks(fs: seq<Frame>): seq<Bytes> {
    if fs == [] then [] else Chunks(fs[..|fs| - 1]) + ChunkOf(fs[|fs| - 1])
  }

  // Where the first terminating frame is.
  function StopAt(fs: seq<Frame>): (k: nat)
    ensures k <= |fs| && (k < |fs| ==> Terminates(fs[k]))
    ensures forall i :: 0 <= i < k ==> !Terminates(fs[i])
  {
    if fs == [] || Terminates(fs[0]) then 0 else 1 + StopAt(fs[1..])
  }

  function CodeOf(f: Frame): int {
    if f.ExitFrame? && f.code.Some? then f.code.value else -1
  }

  // The exit code that the frames report: that of the first terminating frame, or -1.
  function ExitCode(fs: seq<Frame>): int {
    if StopAt(fs) == |fs| then -1 else CodeOf(fs[StopAt(fs)])
  }

  // The frames up to and including the first terminating one.
  function Through(fs: seq<Frame>): seq<Frame> {
    if StopAt(fs) == |fs| then fs else fs[..StopAt(fs) + 1]
  }

  predicate NoneLast(fs: seq<Frame>) {
    forall i :: 0 <= i < |fs| ==> !Terminates(fs[i])
  }

  // Nothing follows a terminating frame.
  predicate NoneAfterLast(fs: seq<Frame>) {
    forall i :: 0 <= i < |fs| - 1 ==> !Terminates(fs[i])
  }

  lemma ChunksOneMore(fs: seq<Frame>, f: Frame)
    ensures Chunks(fs + [f]) == Chunks(fs) + ChunkOf(f)
  {
    assert (fs + [f])[..|fs|] == fs;
  }

  // The loop stops at n, if it gets so far and frames[n] terminates.
  lemma Stops(frames: seq<Frame>, n: nat)
    requires n < |frames| && NoneLast(frames[..n]) && Terminates(frames[n])
    ensures Through(frames) == frames[..n] + [frames[n]] && ExitCode(frames) == CodeOf(frames[n])
  {
    assert forall i :: 0 <= i < n ==> frames[..n][i] == frames[i];
    assert StopAt(frames) == n;
  }

  lemma NeverStops(frames: seq<Frame>)
    requires NoneLast(frames)
    ensures Through(frames) == frames && ExitCode(frames) == -1
  {
  }

  lemma ExitCodeAtEnd(fs: seq<Frame>)
    requires NoneAfterLast(fs)
    ensures Through(fs) == fs
    ensures ExitCode(fs) == if fs == [] then -1 else CodeOf(fs[|fs| - 1])
  {
  }

  // One more frame of a stream, after n that did not end the loop.
  lemma OneMoreFrame(frames: seq<Frame>, n: nat)
    requires n < |frames| && NoneLast(frames[..n])
    ensures Chunks(frames[..n + 1]) == Chunks(frames[..n]) + ChunkOf(frames[n])
    ensures Terminates(frames[n]) ==> Through(frames) == frames[..n + 1] && ExitCode(frames) == CodeOf(frames[n])
    ensures !Terminates(frames[n]) ==> NoneLast(frames[..n + 1])
  {
    assert frames[..n + 1] == frames[..n] + [frames[n]];
    ChunksOneMore(frames[..n], frames[n]);
    if Terminates(frames[n]) {
      Stops(frames, n);
    }
  }

  // ----- What the frames mean, frame by frame --------------------------------------------------

  // A frame brings a chunk exactly if it is an output frame with data, and then that data.
  lemma ChunksGrow(fs: seq<Frame>, f: Frame)
    ensures Chunks(fs + [f]) == Chunks(fs) + if f.Output? && f.data != [] then [f.data] else []
  {
    ChunksOneMore(fs, f);
  }

  // Of a stream in which the frame at k is the first to report an exit or a failure, the
  // frames through k count, and the exit code is the one reported, if any, or -1.
  lemma FirstReportCounts(frames: seq<Frame>, k: nat)
    requires k < |frames| && (frames[k].ExitFrame? || frames[k].FailFrame?)
    requires forall i :: 0 <= i < k ==> !frames[i].ExitFrame? && !frames[i].FailFrame?
    ensures Through(frames) == frames[..k + 1]
    ensures ExitCode(frames) == if frames[k].ExitFrame? && frames[k].code.Some? then frames[k].code.value else -1
  {
    assert StopAt(frames) == k;
  }

  // Without such a frame all of them count, and the exit code is -1.
  lemma NoReport(frames: seq<Frame>)
    requires forall i :: 0 <= i < |frames| ==> !frames[i].ExitFrame? && !frames[i].FailFrame?
    ensures Through(frames) == frames && ExitCode(frames) == -1
  {
    assert StopAt(frames) == |frames|;
  }

  // ----- The pump without interference ------------------------------------------------------------

  class AgentSession {
    var out: seq<Bytes>     // everything put on the output channel, no reader keeping it full
    var exitCode: int
    var closed: bool
    var quitClosed: bool
    var doneClosed: bool

    constructor ()
      ensures out == [] && exitCode == -1 && !closed && !quitClosed && !doneClosed
    {
      out, exitCode, closed, quitClosed, doneClosed := [], -1, false, false, false;
    }

    method SetExit(code: int)
      modifies this`exitCode
      ensures exitCode == code
    {
      exitCode := code;
    }

    // The switch of pump; over: the loop ends.
    method HandleFrame(f: Frame) returns (over: bool)
      modifies this`out, this`exitCode
      ensures over == (f.ExitFrame? || f.FailFrame?)
      ensures out == old(out) + if f.Output? && f.data != [] then [f.data] else []
      ensures exitCode == if f.FailFrame? then -1
                          else if f.ExitFrame? && f.code.Some? then f.code.value
                          else old(exitCode)
    {
      over := false;
      match f {
        case Output(data) =>
          if data != [] {
            out := out + [data];
          }
        case ExitFrame(code) =>
          if code.Some? {
            SetExit(code.value);
          }
          over := true;
        case FailFrame =>
          SetExit(-1);
          over := true;
        case _ =>
      }
    }

    // frames is what Next delivers before it reports the end of the stream.
    method Pump(frames: seq<Frame>)
      requires out == [] && exitCode == -1 && !doneClosed
      modifies this`out, this`exitCode, this`doneClosed
      ensures out == Chunks(Through(frames))
      ensures exitCode == ExitCode(frames)
      ensures doneClosed
    {
      var n, over := 0, false;
      while n < |frames| && !over
        invariant n <= |frames| && !doneClosed
        invariant out == Chunks(frames[..n])
        invariant !over ==> NoneLast(frames[..n]) && exitCode == -1
        invariant over ==> frames[..n] == Through(frames) && exitCode == ExitCode(frames)
      {
        OneMoreFrame(frames, n);
        over := HandleFrame(frames[n]);
        n := n + 1;
      }
      if !over {
        assert frames[..n] == frames;
        NeverStops(frames);
      }
      doneClosed := true;
    }

    // The sections of Close up to close(se.quit); true for the call that performs it.
    method Close() returns (first: bool)
      requires quitClosed ==> closed
      modifies this`closed, this`quitClosed
      ensures closed && first == !old(closed)
      ensures quitClosed == (old(quitClosed) || first)
    {
      if closed {
        return false;
      }
      closed := true;
      quitClosed := true;
      first := true;
    }
  }

  // ----- All interleavings ---------------------------------------------------------------------------

  datatype PumpPc =
    | AtNext
    | Inside                    // blocked in stream.Next
    | Decoded(f: Frame)
    | Sending(b: Bytes)         // in the select on out and quit
    | ClosingStreams
    | ClosingDone
    | ClosingOut
    | Gone

  datatype ClosePc = Won | Quitting | Hanging | Back   // Won: set closed; Hanging: quit closed, SIGHUP and timer next

  datatype Session = Session(
    pump: PumpPc,
    queue: seq<Bytes>,          // in the channel
    taken: seq<Bytes>,          // received by the reader
    sent: seq<Bytes>,           // history of sends
    frames: seq<Frame>,         // history of frames that the loop has dealt with
    exitCode: int,
    closed: bool,               // under mu
    closers: map<nat, ClosePc>,
    quitCloses: nat, doneCloses: nat, outCloses: nat,  // a second close of a channel panics
    cancelled: bool)            // pumpCtx

  datatype Step =
    | CallsNext
    | NextFrame(f: Frame)
    | NextEnds                  // an error, a cancelled context, or the end of the stream
    | Handles
    | Sends
    | Abandons                  // the select takes the closed quit channel
    | ClosesStreams
    | ClosesDone
    | ClosesOut
    | Reads                     // the reader receives a chunk
    | CloseEnters(t: nat)
    | CloseQuits(t: nat)
    | CloseReturns(t: nat)      // after the hangup signal and the start of the grace timer
    | GraceEnds                 // the timer of a Close cancels pumpCtx

  predicate ByPump(s: Step) {
    !s.Reads? && !s.CloseEnters? && !s.CloseQuits? && !s.CloseReturns? && !s.GraceEnds?
  }

  predicate Enabled(w: Session, s: Step) {
    match s
    case CallsNext => w.pump.AtNext?
    case NextFrame(_) => w.pump.Inside?
    case NextEnds => w.pump.Inside?
    case Handles => w.pump.Decoded?
    case Sends => w.pump.Sending? && |w.queue| < CAPACITY
    case Abandons => w.pump.Sending? && w.quitCloses > 0
    case ClosesStreams => w.pump.ClosingStreams?
    case ClosesDone => w.pump.ClosingDone?
    case ClosesOut => w.pump.ClosingOut?
    case Reads => w.queue != []
    case CloseEnters(t) => t !in w.closers
    case CloseQuits(t) => t in w.closers && w.closers[t].Won?
    case CloseReturns(t) => t in w.closers && w.closers[t].Quitting?
    case GraceEnds => exists t :: t in w.closers && w.closers[t].Hanging?
  }

  function Handled(w: Session, f: Frame): Session {
    match f
    case Output(data) => w.(pump := if data != [] then Sending(data) else AtNext)
    case ExitFrame(code) => w.(pump := ClosingStreams, exitCode := if code.Some? then code.value else w.exitCode)
    case FailFrame => w.(pump := ClosingStreams, exitCode := -1)
    case _ => w.(pump := AtNext)
  }

  function Take(w: Session, s: Step): Session
    requires Enabled(w, s)
  {
    match s
    case CallsNext => w.(pump := Inside)
    case NextFrame(f) => w.(pump := Decoded(f))
    case NextEnds => w.(pump := ClosingStreams)
    case Handles => Handled(w.(frames := w.frames + [w.pump.f]), w.pump.f)
    case Sends => w.(pump := AtNext, queue := w.queue + [w.pump.b], sent := w.sent + [w.pump.b])
    case Abandons => w.(pump := ClosingStreams)
    case ClosesStreams => w.(pump := ClosingDone)
    case ClosesDone => w.(pump := ClosingOut, doneCloses := w.doneCloses + 1)
    case ClosesOut => w.(pump := Gone, outCloses := w.outCloses + 1)
    case Reads => w.(queue := w.queue[1..], taken := w.taken + [w.queue[0]])
    case CloseEnters(t) =>
      if w.closed then w.(closers := w.closers[t := Back])
      else w.(closed := true, closers := w.closers[t := Won])
    case CloseQuits(t) => w.(quitCloses := w.quitCloses + 1, closers := w.closers[t := Quitting])
    case CloseReturns(t) => w.(closers := w.closers[t := Hanging])
    case GraceEnds => w.(cancelled := true)
  }

  function Opened(): Session {
    Session(AtNext, [], [], [], [], -1, false, map[], 0, 0, 0, false)
  }

  ghost predicate Run(ws: seq<Session>, ss: seq<Step>) {
    && |ws| == |ss| + 1 && ws[0] == Opened()
    && forall i {:trigger ss[i]} :: 0 <= i < |ss| ==> Enabled(ws[i], ss[i]) && ws[i + 1] == Take(ws[i], ss[i])
  }

  // ----- The invariant ----------------------------------------------------------------------------------

  predicate Looping(pc: PumpPc) {
    pc.AtNext? || pc.Inside? || pc.Decoded? || pc.Sending?
  }

  ghost predicate ChannelInv(w: Session) {
    && w.taken + w.queue == w.sent && |w.queue| <= CAPACITY
    && w.doneCloses == (if w.pump.ClosingOut? || w.pump.Gone? then 1 else 0)
    && w.outCloses == (if w.pump.Gone? then 1 else 0)
  }

  // At most one Close call gets past the gate.
  ghost predicate CloseInv(w: Session) {
    && (!w.closed ==> w.quitCloses == 0 && forall t :: t in w.closers ==> w.closers[t].Back?)
    && (w.cancelled ==> w.quitCloses > 0)
    && (forall t :: t in w.closers && (w.closers[t].Quitting? || w.closers[t].Hanging?) ==> w.quitCloses > 0)
    && (w.quitCloses > 0 ==> w.quitCloses == 1 && forall t :: t in w.closers ==> !w.closers[t].Won?)
    && (forall t, u :: t in w.closers && u in w.closers && t != u ==> w.closers[t].Back? || w.closers[u].Back?)
  }

  // The frames consumed so far and the code they have left.
  ghost predicate CodeInv(w: Session) {
    && (Looping(w.pump) ==> NoneLast(w.frames) && w.exitCode == -1)
    && (!Looping(w.pump) ==>
          && NoneAfterLast(w.frames)
          && w.exitCode == (if w.frames == [] then -1 else CodeOf(w.frames[|w.frames| - 1])))
  }

  // What has been sent, against the chunks of those frames.
  ghost predicate Delivered(w: Session, chunks: seq<Bytes>) {
    && (w.pump.Sending? ==> w.sent + [w.pump.b] == chunks)
    && (!w.pump.Sending? ==>
          w.sent == chunks || (!Looping(w.pump) && w.quitCloses > 0 && w.sent <= chunks))
  }

  lemma ChannelStep(w: Session, s: Step)
    requires ChannelInv(w) && Enabled(w, s)
    ensures ChannelInv(Take(w, s))
  {
  }

  lemma CloseStep(w: Session, s: Step)
    requires CloseInv(w) && Enabled(w, s)
    ensures CloseInv(Take(w, s))
  {
  }

  lemma CodeStep(w: Session, s: Step)
    requires CodeInv(w) && Enabled(w, s)
    ensures CodeInv(Take(w, s))
  {
  }

  lemma DeliveredStep(w: Session, s: Step, chunks: seq<Bytes>)
    requires Delivered(w, chunks) && Enabled(w, s)
    ensures Delivered(Take(w, s), if s.Handles? then chunks + ChunkOf(w.pump.f) else chunks)
  {
  }

  lemma FramesStep(w: Session, s: Step)
    requires Enabled(w, s)
    ensures Take(w, s).frames == if s.Handles? then w.frames + [w.pump.f] else w.frames
  {
  }

  // ----- Whole runs -------------------------------------------------------------------------------------

  lemma {:induction false} Reachable(ws: seq<Session>, ss: seq<Step>, n: nat)
    requires Run(ws, ss) && n < |ws|
    ensures ChannelInv(ws[n]) && CloseInv(ws[n]) && CodeInv(ws[n]) && Delivered(ws[n], Chunks(ws[n].frames))
  {
    if n > 0 {
      Reachable(ws, ss, n - 1);
      ChannelStep(ws[n - 1], ss[n - 1]);
      CloseStep(ws[n - 1], ss[n - 1]);
      CodeStep(ws[n - 1], ss[n - 1]);
      DeliveredStep(ws[n - 1], ss[n - 1], Chunks(ws[n - 1].frames));
      FramesStep(ws[n - 1], ss[n - 1]);
      if ss[n - 1].Handles? {
        ChunksOneMore(ws[n - 1].frames, ws[n - 1].pump.f);
      }
      assert ws[n] == Take(ws[n - 1], ss[n - 1]);
    }
  }

  // What Next has delivered before world n.
  ghost function FramesOf(ss: seq<Step>, n: nat): seq<Frame>
    requires n <= |ss|
  {
    if n == 0 then [] else FramesOf(ss, n - 1) + if ss[n - 1].NextFrame? then [ss[n - 1].f] else []
  }

  lemma FrameKept(w: Session, s: Step)
    requires Enabled(w, s)
    ensures var w' := Take(w, s);
            w'.frames + (if w'.pump.Decoded? then [w'.pump.f] else [])
            == w.frames + (if w.pump.Decoded? then [w.pump.f] else []) + if s.NextFrame? then [s.f] else []
  {
  }

  // The loop deals with every frame delivered, in order and unchanged.
  lemma {:induction false} EveryFrameIsHandled(ws: seq<Session>, ss: seq<Step>, n: nat)
    requires Run(ws, ss) && n < |ws|
    ensures ws[n].frames + (if ws[n].pump.Decoded? then [ws[n].pump.f] else []) == FramesOf(ss, n)
  {
    if n > 0 {
      EveryFrameIsHandled(ws, ss, n - 1);
      FrameKept(ws[n - 1], ss[n - 1]);
    }
  }

  // The chunks put on the channel, and so those a reader gets, are in order a prefix of the
  // output frames consumed; once the pump has left its loop without a Close, all of them.
  lemma OutputIsPrefix(ws: seq<Session>, ss: seq<Step>, n: nat)
    requires Run(ws, ss) && n < |ws|
    ensures var w := ws[n];
            && w.taken <= w.sent <= Chunks(w.frames)
            && Through(w.frames) == w.frames
            && (!Looping(w.pump) && !w.closed ==> w.sent == Chunks(w.frames))
            && |w.sent| <= |w.taken| + 64
  {
    Reachable(ws, ss, n);
    var w := ws[n];
    ExitCodeAtEnd(w.frames);
  }

  // No channel is closed twice, nothing is sent on a closed channel, and done closes first,
  // so a reader that has seen the end of the output does not block in Wait. The context of
  // the pump is cancelled only on behalf of a Close.
  lemma ChannelsCloseOnce(ws: seq<Session>, ss: seq<Step>, n: nat)
    requires Run(ws, ss) && n < |ws|
    ensures var w := ws[n];
            && w.quitCloses <= 1 && w.doneCloses <= 1 && w.outCloses <= 1
            && (w.outCloses == 1 ==> w.doneCloses == 1)
            && (n < |ss| && ss[n].Sends? ==> w.outCloses == 0)
            && (w.cancelled ==> w.quitCloses == 1) && (w.quitCloses == 1 ==> w.closed)
  {
    Reachable(ws, ss, n);
  }

  lemma DoneStep(w: Session, s: Step)
    requires w.doneCloses == 1 && ChannelInv(w) && Enabled(w, s)
    ensures var w' := Take(w, s); w'.doneCloses == 1 && w'.frames == w.frames && w'.exitCode == w.exitCode
  {
  }

  // What Wait returns, it returns for good: the code of the first terminating frame, or -1.
  lemma {:induction false} WaitIsFinal(ws: seq<Session>, ss: seq<Step>, a: nat, b: nat)
    requires Run(ws, ss) && a <= b < |ws| && ws[a].doneCloses == 1
    ensures ws[b].doneCloses == 1 && ws[b].frames == ws[a].frames
    ensures ws[a].exitCode == ws[b].exitCode == ExitCode(ws[b].frames)
    decreases b
  {
    Reachable(ws, ss, b);
    ExitCodeAtEnd(ws[b].frames);
    if a < b {
      WaitIsFinal(ws, ss, a, b - 1);
      Reachable(ws, ss, b - 1);
      DoneStep(ws[b - 1], ss[b - 1]);
    }
  }

  // ----- Close ends the pump --------------------------------------------------------------------------

  // How many pump steps are left once quit is closed and Next reports the end.
  function StepsLeft(pc: PumpPc): nat {
    match pc
    case AtNext => 5
    case Inside => 4
    case Decoded(_) => 7
    case Sending(_) => 6
    case ClosingStreams => 3
    case ClosingDone => 2
    case ClosingOut => 1
    case Gone => 0
  }

  // After Close, with a stream that yields no further frame, the pump always has a step to
  // take, whatever the reader does, and every one of its steps brings it nearer to its end.
  lemma CloseEndsPump(ws: seq<Session>, ss: seq<Step>, n: nat)
    requires Run(ws, ss) && n < |ws| && ws[n].quitCloses > 0
    ensures !ws[n].pump.Gone? ==> exists s :: ByPump(s) && !s.NextFrame? && !s.Sends? && Enabled(ws[n], s)
    ensures n < |ss| && ByPump(ss[n]) && !ss[n].NextFrame? ==> StepsLeft(ws[n + 1].pump) < StepsLeft(ws[n].pump)
    ensures n < |ss| && !ByPump(ss[n]) ==> ws[n + 1].pump == ws[n].pump
  {
    var w := ws[n];
    var s := match w.pump
      case AtNext => CallsNext
      case Inside => NextEnds
      case Decoded(_) => Handles
      case Sending(_) => Abandons
      case ClosingStreams => ClosesStreams
      case ClosingDone => ClosesDone
      case ClosingOut => ClosesOut
      case Gone => Reads;
    assert !w.pump.Gone? ==> Enabled(w, s) && ByPump(s);
  }
}
