/** The frame protocol between the belt layer and its render worker. */
module CanvasProtocol {
  import opened Wrappers

  datatype Frame = Frame(sequence: nat, revision: int)

  datatype Request = Init | Topology(revision: int) | Draw(frame: Frame)

  datatype Code = ContextUnavailable | ContextLost | ProtocolInvalid

  datatype Response = FrameComplete(sequence: nat, revision: int) | Unavailable(code: Code)

  datatype Mode = Uninitialized | MainThread | OffscreenWorker

  // ----- queues -----

  function LastRevision(current: Option<int>, requests: seq<Request>): Option<int>
    decreases |requests|
  {
    if requests == [] then current
    else LastRevision(if requests[0].Topology? then Some(requests[0].revision) else current, requests[1..])
  }

  /** Read in order from a worker state, every request finds what it needs. */
  predicate Accepted(initialised: bool, current: Option<int>, requests: seq<Request>)
    decreases |requests|
  {
    requests == [] ||
    match requests[0]
    case Init => !initialised && Accepted(true, current, requests[1..])
    case Topology(revision) => Accepted(initialised, Some(revision), requests[1..])
    case Draw(frame) =>
      initialised && current == Some(frame.revision) && frame.sequence >= 1 && Accepted(initialised, current, requests[1..])
  }

  function Initialises(initialised: bool, requests: seq<Request>): bool {
    initialised || Init in requests
  }

  lemma {:induction false} LastRevisionOn(current: Option<int>, requests: seq<Request>, m: Request)
    ensures LastRevision(current, requests + [m]) ==
            if m.Topology? then Some(m.revision) else LastRevision(current, requests)
    decreases |requests|
  {
    if requests != [] {
      assert (requests + [m])[0] == requests[0] && (requests + [m])[1..] == requests[1..] + [m];
      LastRevisionOn(if requests[0].Topology? then Some(requests[0].revision) else current, requests[1..], m);
    }
  }

  lemma {:induction false} AcceptedOn(initialised: bool, current: Option<int>, requests: seq<Request>, m: Request)
    requires Accepted(initialised, current, requests) && !m.Init?
    requires m.Draw? ==>
               && Initialises(initialised, requests) && m.frame.sequence >= 1
               && LastRevision(current, requests) == Some(m.frame.revision)
    ensures Accepted(initialised, current, requests + [m])
    decreases |requests|
  {
    if requests != [] {
      assert (requests + [m])[0] == requests[0] && (requests + [m])[1..] == requests[1..] + [m];
      AcceptedOn(initialised || requests[0].Init?, if requests[0].Topology? then Some(requests[0].revision) else current,
                 requests[1..], m);
    }
  }

  function Draws(requests: seq<Request>): nat {
    if requests == [] then 0 else Draws(requests[..|requests| - 1]) + if requests[|requests| - 1].Draw? then 1 else 0
  }

  lemma {:induction false} DrawsFirst(requests: seq<Request>)
    requires requests != []
    ensures Draws(requests) == Draws(requests[1..]) + if requests[0].Draw? then 1 else 0
    decreases |requests|
  {
    if |requests| > 1 {
      var most := requests[..|requests| - 1];
      DrawsFirst(most);
      assert requests[1..][..|requests| - 2] == most[1..];
    }
  }

  predicate AllComplete(responses: seq<Response>) {
    forall i | 0 <= i < |responses| :: responses[i].FrameComplete?
  }

  /** One frame in flight at most: on its way to the worker, or answered and on its way back. */
  ghost predicate Flight(toWorker: seq<Request>, toMain: seq<Response>, inFlight: bool, sent: seq<Frame>) {
    && Draws(toWorker) + |toMain| == (if inFlight then 1 else 0)
    && (inFlight ==> sent != [])
    && (forall i | 0 <= i < |toWorker| && toWorker[i].Draw? :: sent != [] && toWorker[i].frame == sent[|sent| - 1])
    && (forall i | 0 <= i < |toMain| && toMain[i].FrameComplete? :: sent != [] && toMain[i].sequence == sent[|sent| - 1].sequence)
  }

  lemma FlightDispatch(toWorker: seq<Request>, sent: seq<Frame>, frame: Frame)
    requires Flight(toWorker, [], false, sent)
    ensures Flight(toWorker + [Draw(frame)], [], true, sent + [frame])
  {
    NoDraws(toWorker);
    assert (toWorker + [Draw(frame)])[..|toWorker|] == toWorker;
  }

  lemma FlightTopology(toWorker: seq<Request>, toMain: seq<Response>, inFlight: bool, sent: seq<Frame>, revision: int)
    requires Flight(toWorker, toMain, inFlight, sent)
    ensures Flight(toWorker + [Topology(revision)], toMain, inFlight, sent)
  {
    assert (toWorker + [Topology(revision)])[..|toWorker|] == toWorker;
  }

  /** Taking a request that draws nothing. */
  lemma FlightQuiet(toWorker: seq<Request>, toMain: seq<Response>, inFlight: bool, sent: seq<Frame>)
    requires toWorker != [] && !toWorker[0].Draw?
    ensures Flight(toWorker, toMain, inFlight, sent) ==> Flight(toWorker[1..], toMain, inFlight, sent)
  {
    DrawsFirst(toWorker);
    assert forall i | 1 <= i < |toWorker| :: toWorker[1..][i - 1] == toWorker[i];
  }

  /** Taking and answering the frame in flight. */
  lemma FlightTake(toWorker: seq<Request>, toMain: seq<Response>, inFlight: bool, sent: seq<Frame>)
    requires toWorker != [] && toWorker[0].Draw?
    ensures Flight(toWorker, toMain, inFlight, sent) ==>
              && toMain == []
              && Flight(toWorker[1..], toMain + [FrameComplete(toWorker[0].frame.sequence, toWorker[0].frame.revision)], inFlight, sent)
  {
    DrawsFirst(toWorker);
    assert forall i | 1 <= i < |toWorker| :: toWorker[1..][i - 1] == toWorker[i];
  }

  lemma FlightDone(toWorker: seq<Request>, toMain: seq<Response>, inFlight: bool, sent: seq<Frame>)
    requires toMain != [] && toMain[0].FrameComplete? && Flight(toWorker, toMain, inFlight, sent)
    ensures toMain[1..] == [] && Flight(toWorker, [], false, sent) && toMain[0].sequence == sent[|sent| - 1].sequence
  {
  }

  lemma TakeAccepted(initialised: bool, current: Option<int>, requests: seq<Request>)
    requires requests != [] && Accepted(initialised, current, requests) && Initialises(initialised, requests)
    ensures var m := requests[0];
            var initialised', current' := initialised || m.Init?, if m.Topology? then Some(m.revision) else current;
            && Accepted(initialised', current', requests[1..]) && Initialises(initialised', requests[1..])
            && LastRevision(current', requests[1..]) == LastRevision(current, requests)
            && (m.Draw? ==> initialised && current == Some(m.frame.revision) && m.frame.sequence >= 1)
            && (m.Init? ==> !initialised)
  {
    assert requests == [requests[0]] + requests[1..];
  }

  lemma AllCompleteOn(responses: seq<Response>, r: Response)
    ensures AllComplete(responses + [r]) <==> AllComplete(responses) && r.FrameComplete?
  {
    if AllComplete(responses + [r]) {
      assert (responses + [r])[|responses|] == r;
      assert forall i | 0 <= i < |responses| :: (responses + [r])[i] == responses[i];
    }
  }

  // ----- both threads -----

  class BeltRenderer {
    // The main thread.
    var mode: Mode
    var worker: bool
    var workerTopologyRevision: Option<int>
    var workerSequence: nat
    var workerFrameInFlight: bool
    var workerPendingFrame: Option<Frame>
    // The two channels.
    var toWorker: seq<Request>
    var toMain: seq<Response>
    // The render worker.
    var initialised: bool
    var context: bool
    var topologyRevision: Option<int>
    // What has happened.
    ghost var sent: seq<Frame>
    ghost var completed: seq<nat>

    constructor ()
      ensures Valid() && mode == Uninitialized && workerSequence == 0 && sent == [] && completed == []
    {
      mode, worker, workerTopologyRevision, workerSequence := Uninitialized, false, None, 0;
      workerFrameInFlight, workerPendingFrame, toWorker, toMain := false, None, [], [];
      initialised, context, topologyRevision, sent, completed := false, false, None, [], [];
    }

    /** The renderer has not failed, and nothing on its way says that it will. */
    predicate Healthy()
      reads this
    {
      worker && AllComplete(toMain) && (initialised ==> context)
    }

    ghost predicate OneInFlight()
      reads this`toWorker, this`toMain, this`workerFrameInFlight, this`sent
    {
      Flight(toWorker, toMain, workerFrameInFlight, sent)
    }

    /** The newest frame requested is waiting, in flight or done. */
    ghost predicate NewestKept()
      reads this`workerPendingFrame, this`workerSequence, this`sent, this`completed, this`workerFrameInFlight
    {
      && (workerPendingFrame.Some? ==> workerPendingFrame.value.sequence == workerSequence)
      && (workerPendingFrame.None? && workerSequence > 0 ==> sent != [] && sent[|sent| - 1].sequence == workerSequence)
      && (!workerFrameInFlight && workerSequence > 0 ==> completed != [] && completed[|completed| - 1] == workerSequence)
    }

    /** What is queued is acceptable and ends with the topology the main thread remembers. */
    ghost predicate InStep()
      reads this`initialised, this`toWorker, this`topologyRevision, this`workerTopologyRevision
    {
      && Initialises(initialised, toWorker) && Accepted(initialised, topologyRevision, toWorker)
      && LastRevision(topologyRevision, toWorker) == workerTopologyRevision
    }

    /** A pending frame waits behind one in flight and belongs to the last topology sent. */
    ghost predicate PendingFits()
      reads this`workerPendingFrame, this`workerFrameInFlight, this`workerTopologyRevision
    {
      workerPendingFrame.Some? ==>
        workerFrameInFlight && workerTopologyRevision == Some(workerPendingFrame.value.revision)
    }

    /** Sequence numbers of sent frames grow, and a pending frame continues them. */
    ghost predicate Increasing()
      reads this`sent, this`workerSequence, this`workerPendingFrame
    {
      && (forall i, j | 0 <= i < j < |sent| :: sent[i].sequence < sent[j].sequence)
      && (forall i | 0 <= i < |sent| :: 1 <= sent[i].sequence <= workerSequence)
      && (workerPendingFrame.Some? ==>
            && 1 <= workerPendingFrame.value.sequence <= workerSequence
            && forall i | 0 <= i < |sent| :: sent[i].sequence < workerPendingFrame.value.sequence)
    }

    ghost predicate Stopped()
      reads this
    {
      && !workerFrameInFlight && workerPendingFrame == None && workerTopologyRevision == None
      && toWorker == [] && toMain == []
    }

    ghost predicate Valid()
      reads this
    {
      && Increasing()
      && (if worker then mode == OffscreenWorker && InStep() && PendingFits() else Stopped())
      && (Healthy() ==> OneInFlight() && NewestKept())
      && (mode == Uninitialized ==> sent == [] && completed == [] && workerSequence == 0)
    }

    method FailRenderer()
      requires Increasing() && mode != Uninitialized
      modifies this`worker, this`workerTopologyRevision, this`workerFrameInFlight, this`workerPendingFrame,
               this`toWorker, this`toMain
      ensures Valid() && !worker
    {
      worker, workerTopologyRevision, workerFrameInFlight, workerPendingFrame := false, None, false, None;
      toWorker, toMain := [], [];
    }

    method EnsureBaseRenderer(supported: bool, created: bool)
      requires Valid() && mode == Uninitialized
      modifies this`mode, this`worker, this`toWorker, this`toMain, this`initialised, this`context, this`topologyRevision,
               this`workerTopologyRevision, this`workerFrameInFlight, this`workerPendingFrame
      ensures Valid() && mode == (if supported then OffscreenWorker else MainThread)
      ensures worker <==> supported && created
      ensures worker ==> Healthy() && !workerFrameInFlight
    {
      mode := if supported then OffscreenWorker else MainThread;
      if supported && created {
        worker, toWorker := true, [Init];
        initialised, context, topologyRevision := false, false, None;
        assert [Init][1..] == [] && [Init][..0] == [] && Init in toWorker;
      } else if supported {
        FailRenderer();
      }
    }

    method Post(m: Request)
      requires worker && InStep() && !m.Init?
      requires m.Draw? ==> m.frame.sequence >= 1 && workerTopologyRevision == Some(m.frame.revision)
      modifies this`toWorker, this`workerTopologyRevision
      ensures toWorker == old(toWorker) + [m]
      ensures workerTopologyRevision == if m.Topology? then Some(m.revision) else old(workerTopologyRevision)
      ensures InStep()
    {
      LastRevisionOn(topologyRevision, toWorker, m);
      AcceptedOn(initialised, topologyRevision, toWorker, m);
      toWorker := toWorker + [m];
      if m.Topology? {
        workerTopologyRevision := Some(m.revision);
      }
    }

    /** Right after a topology was sent, a pending frame may still belong to the one before. */
    ghost predicate Published()
      reads this
    {
      && worker && mode == OffscreenWorker && Increasing() && InStep()
      && (workerPendingFrame.Some? ==> workerFrameInFlight)
      && (Healthy() ==> OneInFlight() && NewestKept())
    }

    /** Sends the topology unless the worker has it already. */
    method PublishWorkerTopology(revision: int)
      requires Published()
      modifies this`toWorker, this`workerTopologyRevision
      ensures Published() && workerTopologyRevision == Some(revision)
      ensures toWorker == old(toWorker) + if old(workerTopologyRevision) == Some(revision) then [] else [Topology(revision)]
    {
      if workerTopologyRevision != Some(revision) {
        if Healthy() {
          FlightTopology(toWorker, toMain, workerFrameInFlight, sent, revision);
        }
        Post(Topology(revision));
      }
    }

    method DispatchWorkerFrame(frame: Frame)
      requires worker && InStep() && !workerFrameInFlight && workerPendingFrame == None && Increasing()
      requires workerTopologyRevision == Some(frame.revision) && 1 <= frame.sequence <= workerSequence
      requires forall i | 0 <= i < |sent| :: sent[i].sequence < frame.sequence
      requires Healthy() ==> OneInFlight()
      modifies this`toWorker, this`workerTopologyRevision, this`workerFrameInFlight, this`sent
      ensures InStep() && Increasing() && workerFrameInFlight && workerTopologyRevision == old(workerTopologyRevision)
      ensures sent == old(sent) + [frame] && (Healthy() ==> OneInFlight())
    {
      if Healthy() {
        FlightDispatch(toWorker, sent, frame);
      }
      Post(Draw(frame));
      workerFrameInFlight, sent := true, sent + [frame];
    }

    /** Sends a frame of the published topology at once, or keeps it as the pending one. */
    method RequestFrame(revision: int)
      requires Published() && workerTopologyRevision == Some(revision)
      modifies this`workerSequence, this`workerPendingFrame, this`toWorker, this`workerTopologyRevision,
               this`workerFrameInFlight, this`sent
      ensures Valid() && workerSequence == old(workerSequence) + 1 && workerTopologyRevision == Some(revision)
      ensures if old(workerFrameInFlight) then workerPendingFrame == Some(Frame(workerSequence, revision)) && sent == old(sent)
              else workerPendingFrame == None && sent == old(sent) + [Frame(workerSequence, revision)]
    {
      workerSequence := workerSequence + 1;
      var frame := Frame(workerSequence, revision);
      if workerFrameInFlight {
        workerPendingFrame := Some(frame);
      } else {
        DispatchWorkerFrame(frame);
      }
    }

    /** One redraw of the base layer: publishes the topology and requests a frame of it. */
    method DrawBase(revision: int, supported: bool, created: bool)
      requires Valid()
      modifies this
      ensures Valid() && completed == old(completed)
      ensures worker ==>
                && workerSequence == old(workerSequence) + 1 && workerTopologyRevision == Some(revision)
                && (workerPendingFrame == Some(Frame(workerSequence, revision)) || sent == old(sent) + [Frame(workerSequence, revision)])
      ensures !worker ==> workerSequence == old(workerSequence) && sent == old(sent)
    {
      if mode == Uninitialized {
        EnsureBaseRenderer(supported, created);
      }
      if worker {
        PublishWorkerTopology(revision);
        RequestFrame(revision);
      }
    }

    method TakeInit(available: bool)
      requires Valid() && worker && toWorker != [] && toWorker[0].Init?
      modifies this`toWorker, this`toMain, this`initialised, this`context
      ensures Valid() && toWorker == old(toWorker)[1..] && initialised && context == available
      ensures available ==> toMain == old(toMain)
      ensures !available ==> toMain == old(toMain) + [Unavailable(ContextUnavailable)]
    {
      if !available {
        Report(ContextUnavailable);
      }
      TakeAccepted(initialised, topologyRevision, toWorker);
      FlightQuiet(toWorker, toMain, workerFrameInFlight, sent);
      toWorker, initialised, context := toWorker[1..], true, available;
    }

    method TakeTopology()
      requires Valid() && worker && toWorker != [] && toWorker[0].Topology?
      modifies this`toWorker, this`topologyRevision
      ensures Valid() && toWorker == old(toWorker)[1..] && topologyRevision == Some(old(toWorker)[0].revision)
    {
      TakeAccepted(initialised, topologyRevision, toWorker);
      FlightQuiet(toWorker, toMain, workerFrameInFlight, sent);
      topologyRevision, toWorker := Some(toWorker[0].revision), toWorker[1..];
    }

    /** With a context the worker draws every frame, on the geometry of that frame's revision. */
    method TakeDraw()
      requires Valid() && worker && toWorker != [] && toWorker[0].Draw?
      modifies this`toWorker, this`toMain
      ensures Valid() && toWorker == old(toWorker)[1..]
      ensures context ==>
                && var frame := old(toWorker)[0].frame;
                   toMain == old(toMain) + [FrameComplete(frame.sequence, frame.revision)] && topologyRevision == Some(frame.revision)
      ensures !context ==> toMain == old(toMain) + [Unavailable(ProtocolInvalid)]
    {
      var frame := toWorker[0].frame;
      TakeAccepted(initialised, topologyRevision, toWorker);
      FlightTake(toWorker, toMain, workerFrameInFlight, sent);
      var answer := if !context || topologyRevision != Some(frame.revision) || frame.sequence < 1 then Unavailable(ProtocolInvalid)
                    else FrameComplete(frame.sequence, frame.revision);
      AllCompleteOn(toMain, answer);
      toWorker, toMain := toWorker[1..], toMain + [answer];
    }

    /** The worker takes its next message. */
    method WorkerStep(available: bool)
      requires Valid() && worker && toWorker != []
      modifies this`toWorker, this`toMain, this`initialised, this`context, this`topologyRevision
      ensures Valid() && toWorker == old(toWorker)[1..]
    {
      match toWorker[0] {
        case Init => TakeInit(available);
        case Topology(_) => TakeTopology();
        case Draw(_) => TakeDraw();
      }
    }

    method LoseContext()
      requires Valid() && worker
      modifies this`toMain
      ensures Valid() && !Healthy() && toMain == old(toMain) + [Unavailable(ContextLost)]
    {
      Report(ContextLost);
    }

    /** The worker says that it cannot draw. */
    method Report(code: Code)
      requires Valid() && worker
      modifies this`toMain
      ensures Valid() && !Healthy() && toMain == old(toMain) + [Unavailable(code)]
    {
      toMain := toMain + [Unavailable(code)];
      assert toMain[|toMain| - 1].Unavailable?;
    }

    method CompleteFrame()
      requires Valid() && worker && toMain != [] && toMain[0].FrameComplete?
      modifies this`toMain, this`completed, this`workerFrameInFlight
      ensures toMain == old(toMain)[1..] && completed == old(completed) + [old(toMain)[0].sequence] && !workerFrameInFlight
      ensures InStep() && Increasing() && (Healthy() ==> old(Healthy()) && OneInFlight())
      ensures Healthy() && workerPendingFrame.None? ==> NewestKept()
    {
      if Healthy() {
        FlightDone(toWorker, toMain, workerFrameInFlight, sent);
      }
      completed := completed + [toMain[0].sequence];
      assert toMain == [toMain[0]] + toMain[1..];
      toMain, workerFrameInFlight := toMain[1..], false;
    }

    /** The main thread takes the worker's next answer, and sends the pending frame if there is one. */
    method OnMessage()
      requires Valid() && worker && toMain != []
      modifies this
      ensures Valid() && workerSequence == old(workerSequence)
      ensures old(toMain)[0].Unavailable? ==> !worker
      ensures old(toMain)[0].FrameComplete? ==>
                && worker && completed == old(completed) + [old(toMain)[0].sequence] && workerPendingFrame == None
                && (old(workerPendingFrame).Some? ==> sent == old(sent) + [old(workerPendingFrame).value])
                && (old(workerPendingFrame).None? ==> sent == old(sent) && !workerFrameInFlight)
    {
      if toMain[0].Unavailable? {
        FailRenderer();
        return;
      }
      CompleteFrame();
      var pending := workerPendingFrame;
      workerPendingFrame := None;
      if pending.Some? {
        DispatchWorkerFrame(pending.value);
      }
    }

    /** Once nothing is in flight, and nothing has failed, the last frame completed is the last one requested. */
    lemma NewestFrameShown()
      requires Valid() && Healthy() && !workerFrameInFlight && workerSequence > 0
      ensures completed != [] && completed[|completed| - 1] == workerSequence
      ensures toMain == [] && Draws(toWorker) == 0
    {
    }
  }

  lemma {:induction false} NoDraws(requests: seq<Request>)
    ensures Draws(requests) == 0 <==> forall i | 0 <= i < |requests| :: !requests[i].Draw?
  {
    if requests != [] {
      NoDraws(requests[..|requests| - 1]);
      assert requests == requests[..|requests| - 1] + [requests[|requests| - 1]];
    }
  }
}
