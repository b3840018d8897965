// The whole path of a capture: what a flow of the manager gives its scanners, and what they make of it.
module CapturePath {
  import opened ScannerLog
  import opened ReceivedSet
  import opened FrameCollector
  import opened Decoder
  import opened Reassembly
  import opened FlowManagement
  import opened Pipeline
  import FinLoss
  import TargetStream
  import TargetPipeline

  /** A flow the manager has, or had until it was closed. */
  ghost predicate Managed(m: FlowManager, flow: TcpFlowState)
    reads m
  {
    flow in m.flows || flow in m.retired
  }

  lemma ManagedIsValid(m: FlowManager, flow: TcpFlowState)
    requires m.Valid() && Managed(m, flow)
    ensures flow.Valid() && (flow.nextSequence.Some? ==> flow.Anchored())
  {
    hide TcpFlowState.Core, TcpFlowState.Waiting;
    flow.ValidStands();
  }

  /** Every frame cut from a managed flow that has only seen true segments is its stream's at the stated
      place, and reaches over nothing the flow gave up. */
  lemma ManagedFramesAreTheStreams(m: FlowManager, flow: TcpFlowState, s: FrameState, opcodes: set<nat>, i: nat)
    requires m.Valid() && Managed(m, flow) && flow.coherent && flow.nextSequence.Some? && s.buffer == []
    requires i < |Replay(s, opcodes, flow.log).frames|
    ensures var f := Replay(s, opcodes, flow.log).frames[i];
            && Pipeline.Genuine(f, flow.log, flow.stream, flow.shift)
            && (FromFeeds(f, flow.log) ==>
                  forall q :: f.streamSequence.value <= q < f.streamSequence.value + |f.message| ==>
                    !Skipped(flow.skips, q))
  {
    hide TcpFlowState.Anchored, Pipeline.Genuine, FromFeeds, Replay, FlowManager.Valid;
    ManagedIsValid(m, flow);
    EveryFrameIsTheStreams(flow, s, opcodes, i);
  }

  /** Once a managed flow is closed, what it received of its stream is what its scanner was fed, and all
      it passed beside that it gave up. */
  lemma ClosedFlowsAreConserved(m: FlowManager, flow: TcpFlowState)
    requires m.Valid() && flow in m.retired && flow.coherent && flow.nextSequence.Some?
    ensures forall p :: flow.Has(p) <==> Fed(flow.log, p - flow.shift)
    ensures forall q :: flow.anchor <= q < flow.nextSequence.value ==> (Fed(flow.log, q) <==> !Skipped(flow.skips, q))
  {
    hide TcpFlowState.Core, TcpFlowState.Waiting, Fed, Skipped;
    ManagedIsValid(m, flow);
    flow.NothingHeldIsConserved();
  }

  /** Nothing a flow had is lost by a clock tick, by being closed, evicted or replaced, or at the end of
      the capture, unless a commit to its earliest held byte passes over some of it. */
  twostate lemma SurvivorsKeepTheirBytes(flow: TcpFlowState)
    requires Survives(flow) && old(flow.coherent)
    requires old(flow.nextSequence).Some?
             || old(FinLoss.Keeps(flow.unanchored, flow.firstUnanchored, flow.Rules()))
    ensures flow.coherent && forall p :: flow.Has(p) <==> old(flow.Has(p))
  {
    hide TcpFlowState.Has, HasOn, FinLoss.Keeps;
    AccountHas(flow);
    HadBefore(flow);
  }

  /** So what a flow had when it was closed, for whatever reason, is what its scanner was fed in the end. */
  twostate lemma ClosedFlowsWereFed(m: FlowManager, flow: TcpFlowState)
    requires m.Valid() && flow in m.retired && Survives(flow) && old(flow.coherent) && flow.nextSequence.Some?
    requires old(flow.nextSequence).Some?
             || old(FinLoss.Keeps(flow.unanchored, flow.firstUnanchored, flow.Rules()))
    ensures flow.coherent && forall p :: old(flow.Has(p)) <==> Fed(flow.log, p - flow.shift)
  {
    hide TcpFlowState.Has, FinLoss.Keeps, FlowManager.Valid, Survives, Fed;
    SurvivorsKeepTheirBytes(flow);
    ClosedFlowsAreConserved(m, flow);
  }

  /** Every record and verdict of a managed flow that has only seen true segments is about its stream's
      message at the stated place; one assembled from feeds touches nothing the flow gave up. */
  lemma ManagedRecordsAreTheStreams(m: FlowManager, flow: TcpFlowState, specs: seq<EventSpec>, observing: bool, i: nat)
    requires m.Valid() && Managed(m, flow) && flow.coherent && flow.nextSequence.Some?
    requires i < |TargetStream.Replayed(specs, observing, flow.log).outputs|
    ensures var o := TargetStream.Replayed(specs, observing, flow.log).outputs[i];
            && TargetPipeline.Genuine(o, specs, flow.log, flow.stream, flow.shift)
            && (TargetPipeline.FromFeeds(o, flow.log) ==>
                  forall q :: o.streamSequence.value <= q < o.streamSequence.value + TargetPipeline.LengthOf(o) ==>
                    !Skipped(flow.skips, q))
  {
    hide TcpFlowState.Anchored, TargetPipeline.Genuine, TargetPipeline.FromFeeds, TargetStream.Replayed,
        FlowManager.Valid;
    ManagedIsValid(m, flow);
    TargetPipeline.EveryRecordIsTheStreams(flow, specs, observing, i);
  }

  /** Whatever layouts are configured, every record decoded from a managed flow has a place in its stream. */
  lemma DecodedRecordsAreLocated(m: FlowManager, flow: TcpFlowState, specs: seq<EventSpec>, observing: bool)
    requires m.Valid() && Managed(m, flow)
    ensures TargetStream.LocatedOutputs(TargetStream.Replayed(specs, observing, flow.calls).outputs)
  {
    hide TcpFlowState.Valid, TcpFlowState.Anchored, FlowManager.Valid, TargetStream.Replayed, Located;
    ManagedIsValid(m, flow);
    flow.CallsAreLocated();
    TargetStream.ReplayIsLocated(specs, observing, flow.calls);
  }
}
