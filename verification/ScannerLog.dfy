// The calls reassembly makes on its stream scanner, as a log: what the scanner is entitled to.
module ScannerLog {
  import opened Wire

  datatype FlowKey = FlowKey(sourceIp: string, sourcePort: nat, destinationIp: string, destinationPort: nat)

  datatype PacketContext = PacketContext(
    timestamp: real,
    flow: FlowKey,
    streamStart: Option<int>,
    flowGeneration: nat)

  datatype Call =
    | Feed(data: Bytes, context: PacketContext)
    | ScanStandalone(data: Bytes, context: PacketContext)
    | Reset

  type Log = seq<Call>

  /** A call's bytes are non-empty and are the stream's at the position its context states. */
  ghost predicate Carries(c: Call, stream: Stream, shift: int) {
    c.Reset? || (c.context.streamStart.Some? && |c.data| > 0 && On(stream, shift + c.context.streamStart.value, c.data))
  }

  function FeedEnd(c: Call): int
    requires c.Feed? && c.context.streamStart.Some?
  {
    c.context.streamStart.value + |c.data|
  }

  /** Where the next feed has to continue; `None` directly after a reset. */
  ghost function Cursor(log: Log, anchor: int): Option<int> {
    if log == [] then Some(anchor)
    else
      var c := log[|log| - 1];
      if c.Reset? then None
      else if c.Feed? && c.context.streamStart.Some? then Some(FeedEnd(c))
      else Cursor(log[..|log| - 1], anchor)
  }

  /** One past the last position fed so far. */
  ghost function HighWater(log: Log, anchor: int): int {
    if log == [] then anchor
    else
      var c := log[|log| - 1];
      if c.Feed? && c.context.streamStart.Some? then FeedEnd(c) else HighWater(log[..|log| - 1], anchor)
  }

  /** Every call carries the true bytes, feeds only move forward, and a feed that does not continue
      the one before it is separated from it by a reset. */
  ghost predicate Faithful(log: Log, stream: Stream, shift: int, anchor: int) {
    log == [] ||
    var rest, c := log[..|log| - 1], log[|log| - 1];
    && Faithful(rest, stream, shift, anchor)
    && Carries(c, stream, shift)
    && MayFollow(rest, c, anchor)
  }

  /** A feed goes on where the one before it ended, or, after a reset, at or beyond that place. */
  ghost predicate MayFollow(log: Log, c: Call, anchor: int) {
    c.Feed? && c.context.streamStart.Some? ==>
      && HighWater(log, anchor) <= c.context.streamStart.value
      && (Cursor(log, anchor).Some? ==> c.context.streamStart == Cursor(log, anchor))
  }

  /** Position `q` was handed to the scanner as stream bytes. */
  ghost predicate Fed(log: Log, q: int) {
    exists i :: 0 <= i < |log| && FeedsAt(log[i], q)
  }

  ghost predicate FeedsAt(c: Call, q: int) {
    c.Feed? && c.context.streamStart.Some? && c.context.streamStart.value <= q < FeedEnd(c)
  }

  ghost function FedBytes(log: Log): Bytes {
    if log == [] then []
    else FedBytes(log[..|log| - 1]) + (if log[|log| - 1].Feed? then log[|log| - 1].data else [])
  }

  ghost function Resets(log: Log): nat {
    if log == [] then 0 else Resets(log[..|log| - 1]) + (if log[|log| - 1].Reset? then 1 else 0)
  }

  /** One more call: the log stays faithful exactly if the call carries true bytes and goes on where
      the feeds before it ended, and it feeds exactly its own positions. */
  lemma Append(log: Log, c: Call, stream: Stream, shift: int, anchor: int)
    ensures Faithful(log + [c], stream, shift, anchor) <==>
            Faithful(log, stream, shift, anchor) && Carries(c, stream, shift) && MayFollow(log, c, anchor)
    ensures (log + [c])[..|log|] == log && (log + [c])[|log|] == c
    ensures forall q :: Fed(log + [c], q) <==> Fed(log, q) || FeedsAt(c, q)
  {
    var l := log + [c];
    assert l[..|log|] == log;
    forall q ensures Fed(l, q) <==> Fed(log, q) || FeedsAt(c, q) {
      if Fed(log, q) {
        var i :| 0 <= i < |log| && FeedsAt(log[i], q);
        assert FeedsAt(l[i], q);
      }
      if FeedsAt(c, q) { assert FeedsAt(l[|log|], q); }
      if Fed(l, q) {
        var i :| 0 <= i < |l| && FeedsAt(l[i], q);
        assert i < |log| ==> FeedsAt(log[i], q);
      }
    }
  }

  /** Every call names the stream position of its bytes. */
  predicate Located(log: Log) {
    forall i :: 0 <= i < |log| ==> LocatedCall(log[i])
  }

  predicate LocatedCall(c: Call) {
    c.Reset? || c.context.streamStart.Some?
  }

  lemma ResetsAppend(log: Log, c: Call)
    ensures Resets(log + [c]) == Resets(log) + if c.Reset? then 1 else 0
    ensures Located(log + [c]) <==> Located(log) && LocatedCall(c)
  {
    assert (log + [c])[..|log|] == log && (log + [c])[|log|] == c;
    if Located(log + [c]) {
      forall i | 0 <= i < |log| ensures LocatedCall(log[i]) {
        assert (log + [c])[i] == log[i];
      }
    }
  }

  /** Each position of a faithful log is fed by at most one call. */
  lemma {:induction false} FedAtMostOnce(log: Log, stream: Stream, shift: int, anchor: int, i: nat, j: nat, q: int)
    requires Faithful(log, stream, shift, anchor)
    requires i < j < |log| && FeedsAt(log[i], q)
    ensures !FeedsAt(log[j], q)
  {
    var n := |log| - 1;
    if j < n {
      FedAtMostOnce(log[..n], stream, shift, anchor, i, j, q);
    } else {
      FedBelowHighWater(log[..n], stream, shift, anchor, i, q);
    }
  }

  lemma {:induction false} HighWaterOnlyRises(log: Log, stream: Stream, shift: int, anchor: int)
    requires Faithful(log, stream, shift, anchor)
    ensures anchor <= HighWater(log, anchor)
  {
    if log != [] {
      HighWaterOnlyRises(log[..|log| - 1], stream, shift, anchor);
    }
  }

  /** Everything fed lies between the anchor and the high-water mark. */
  lemma {:induction false} FedBelowHighWater(log: Log, stream: Stream, shift: int, anchor: int, i: nat, q: int)
    requires Faithful(log, stream, shift, anchor)
    requires i < |log| && FeedsAt(log[i], q)
    ensures anchor <= q < HighWater(log, anchor)
  {
    var n := |log| - 1;
    HighWaterOnlyRises(log[..n], stream, shift, anchor);
    if i < n {
      FedBelowHighWater(log[..n], stream, shift, anchor, i, q);
    }
  }

  /** Without a reset the feeds spell one uninterrupted run of the stream starting at the anchor,
      ending where the next feed must continue. */
  lemma {:induction false} UninterruptedRun(log: Log, stream: Stream, shift: int, anchor: int)
    requires Faithful(log, stream, shift, anchor) && Resets(log) == 0
    ensures On(stream, shift + anchor, FedBytes(log))
    ensures HighWater(log, anchor) == anchor + |FedBytes(log)|
    ensures Cursor(log, anchor) == Some(HighWater(log, anchor))
  {
    if log != [] {
      UninterruptedRun(log[..|log| - 1], stream, shift, anchor);
    }
  }
}
