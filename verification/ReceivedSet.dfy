// The received-set model of one anchored flow: which positions have arrived, which were fed,
// which were skipped, and which are still held behind a gap.
module ReceivedSet {
  import opened Wire
  import opened ScannerLog

  datatype PendingSegment = PendingSegment(data: Bytes, context: PacketContext)

  type Held = map<nat, PendingSegment>

  /** Why a flow gave up waiting for missing bytes. */
  datatype Reason =
    | Timeout(now: real, started: real)
    | Capacity
    | EndOfCapture
    | FinTimeout(now: real, started: real)
    | FinAtEnd

  datatype Skip = Skip(start: int, end: int, reason: Reason)

  /** `due` is the received set: positions that were not yet passed when they arrived. */
  datatype Ledger = Ledger(log: Log, held: Held, due: iset<nat>, anchor: nat, next: nat, skips: seq<Skip>)

  predicate CoveredBy(k: nat, s: PendingSegment, q: int) {
    k <= q < k + |s.data|
  }

  predicate Within(lo: int, hi: int, q: int) {
    lo <= q < hi
  }

  ghost function Range(lo: int, hi: int): iset<nat> {
    iset q: nat | Within(lo, hi, q)
  }

  lemma EmptyRange(lo: int, hi: int)
    requires hi <= lo
    ensures Range(lo, hi) == iset{}
  {
  }

  ghost predicate Covered(held: Held, q: int) {
    exists k :: k in held && CoveredBy(k, held[k], q)
  }

  ghost predicate Skipped(skips: seq<Skip>, q: int) {
    exists i :: 0 <= i < |skips| && skips[i].start <= q < skips[i].end
  }

  /** Position `q` was given up because of FIN and the clock. */
  ghost predicate FinSkipped(skips: seq<Skip>, q: int) {
    exists i :: 0 <= i < |skips| && skips[i].reason.FinTimeout? && skips[i].start <= q < skips[i].end
  }

  ghost predicate GaveUpOnFin(skips: seq<Skip>) {
    exists i :: 0 <= i < |skips| && skips[i].reason.FinTimeout?
  }

  /** More skips never take one back. */
  lemma SkipsOnlyGrow(part: seq<Skip>, skips: seq<Skip>)
    requires part <= skips
    ensures GaveUpOnFin(part) ==> GaveUpOnFin(skips)
    ensures forall q :: FinSkipped(part, q) ==> FinSkipped(skips, q)
  {
    forall i | 0 <= i < |part| ensures skips[i] == part[i] {
    }
  }

  ghost predicate HeldIsTrue(held: Held, stream: Stream, shift: int) {
    forall k :: k in held ==> On(stream, shift + k, held[k].data)
  }

  /** Every position from the anchor to `next` was fed xor skipped, fed exactly when received;
      at or beyond `from` the received positions are exactly the held ones; between the two
      everything was received. Between operations `from` is `next`. */
  ghost predicate Balanced(l: Ledger, from: int) {
    && l.anchor <= l.next <= from
    && (forall q :: q in l.due ==> l.anchor <= q)
    && (forall q {:trigger q in l.due} {:trigger Fed(l.log, q)} :: l.anchor <= q < l.next ==>
          (q in l.due <==> Fed(l.log, q)))
    && (forall q {:trigger Fed(l.log, q)} :: Fed(l.log, q) ==> l.anchor <= q < l.next)
    && (forall q {:trigger Skipped(l.skips, q)} :: l.anchor <= q < l.next ==> Fed(l.log, q) || Skipped(l.skips, q))
    && (forall q {:trigger Skipped(l.skips, q)} :: Skipped(l.skips, q) ==> q < l.next && q !in l.due)
    && (forall q {:trigger q in l.due} :: l.next <= q < from ==> q in l.due)
    && (forall q {:trigger q in l.due} {:trigger Covered(l.held, q)} :: from <= q ==>
          (q in l.due <==> Covered(l.held, q)))
  }

  ghost predicate Sound(l: Ledger, stream: Stream, shift: int, from: int) {
    && HeldIsTrue(l.held, stream, shift)
    && Faithful(l.log, stream, shift, l.anchor)
    && (Cursor(l.log, l.anchor).Some? ==> Cursor(l.log, l.anchor).value == l.next)
    && HighWater(l.log, l.anchor) <= l.next
    && Balanced(l, from)
    && Resets(l.log) == |l.skips|
  }

  lemma SoundAtOpening(stream: Stream, shift: int, anchor: nat)
    ensures Sound(Ledger([], map[], iset{}, anchor, anchor, []), stream, shift, anchor)
  {
  }

  lemma SoundAfterStandalone(l: Ledger, stream: Stream, shift: int, c: Call)
    requires Sound(l, stream, shift, l.next) && c.ScanStandalone? && Carries(c, stream, shift)
    ensures Sound(l.(log := l.log + [c]), stream, shift, l.next)
  {
    Append(l.log, c, stream, shift, l.anchor);
  }

  /** Feeding the bytes at `next`, all of which have been received. */
  lemma SoundAfterFeed(l: Ledger, stream: Stream, shift: int, c: Call)
    requires c.Feed? && Carries(c, stream, shift) && c.context.streamStart == Some(l.next)
    requires Sound(l, stream, shift, FeedEnd(c))
    ensures Sound(l.(log := l.log + [c], next := FeedEnd(c)), stream, shift, FeedEnd(c))
  {
    Append(l.log, c, stream, shift, l.anchor);
    var m := l.(log := l.log + [c], next := FeedEnd(c));
    assert forall q :: FeedsAt(c, q) <==> l.next <= q < m.next;
    assert Balanced(m, m.next);
  }

  /** Taking a held segment that starts at or below `next` out of the map: what it covered beyond
      `next` stays received. */
  lemma SoundAfterRelease(l: Ledger, stream: Stream, shift: int, k: nat)
    requires Sound(l, stream, shift, l.next) && k in l.held && k <= l.next
    requires forall j :: j in l.held ==> k <= j
    ensures Sound(l.(held := l.held - {k}), stream, shift, Max(l.next, k + |l.held[k].data|))
    ensures l.next < k + |l.held[k].data| ==> On(stream, shift + l.next, l.held[k].data[l.next - k..])
  {
    var m := l.(held := l.held - {k});
    var from := Max(l.next, k + |l.held[k].data|);
    forall q ensures q >= from ==> (Covered(m.held, q) <==> Covered(l.held, q)) {
      if q >= from && Covered(l.held, q) {
        var j :| j in l.held && CoveredBy(j, l.held[j], q);
        assert j in m.held && CoveredBy(j, m.held[j], q);
      }
      if Covered(m.held, q) {
        var j :| j in m.held && CoveredBy(j, m.held[j], q);
        assert j in l.held && CoveredBy(j, l.held[j], q);
      }
    }
    forall q | l.next <= q < from ensures q in m.due {
      assert CoveredBy(k, l.held[k], q);
      assert Covered(l.held, q);
    }
    assert Balanced(m, from);
  }

  /** Bytes at `next` arrive: they are received even before they are fed. */
  lemma SoundAfterArrivalInOrder(l: Ledger, stream: Stream, shift: int, end: nat)
    requires Sound(l, stream, shift, l.next) && l.next <= end
    ensures Sound(l.(due := l.due + Range(l.next, end)), stream, shift, end)
  {
    var m := l.(due := l.due + Range(l.next, end));
    assert Balanced(m, end);
  }

  /** A segment beyond a gap arrives: kept under its key unless an at least as long one is there. */
  function Keep(held: Held, k: nat, s: PendingSegment): (r: Held) {
    if k !in held || |s.data| > |held[k].data| then held[k := s] else held
  }

  lemma SoundAfterArrivalBeyondGap(l: Ledger, stream: Stream, shift: int, k: nat, s: PendingSegment)
    requires Sound(l, stream, shift, l.next) && l.next < k && On(stream, shift + k, s.data)
    ensures Sound(l.(held := Keep(l.held, k, s), due := l.due + Range(k, k + |s.data|)), stream, shift, l.next)
  {
    var m := l.(held := Keep(l.held, k, s), due := l.due + Range(k, k + |s.data|));
    forall q ensures Covered(m.held, q) <==> Covered(l.held, q) || CoveredBy(k, s, q) {
      if Covered(l.held, q) {
        var j :| j in l.held && CoveredBy(j, l.held[j], q);
        assert j in m.held && CoveredBy(j, m.held[j], q);
      }
      if CoveredBy(k, s, q) { assert CoveredBy(k, m.held[k], q); }
      if Covered(m.held, q) {
        var j :| j in m.held && CoveredBy(j, m.held[j], q);
        assert j != k ==> j in l.held && CoveredBy(j, l.held[j], q);
        assert j == k && m.held[k] != s ==> CoveredBy(k, l.held[k], q);
      }
    }
    assert Balanced(m, m.next);
  }

  /** Giving up on `[next, to)`: nothing received lies in it, and the scanner is reset first. */
  lemma SoundAfterGivingUp(l: Ledger, stream: Stream, shift: int, to: nat, reason: Reason)
    requires Sound(l, stream, shift, l.next) && l.next <= to
    requires forall j :: j in l.held ==> to <= j
    ensures forall q :: l.next <= q < to ==> q !in l.due
    ensures Sound(l.(log := l.log + [Reset], next := to, skips := l.skips + [Skip(l.next, to, reason)]), stream,
                shift, to)
  {
    Append(l.log, Reset, stream, shift, l.anchor);
    var s := Skip(l.next, to, reason);
    var m := l.(log := l.log + [Reset], next := to, skips := l.skips + [s]);
    forall q ensures Skipped(m.skips, q) <==> Skipped(l.skips, q) || l.next <= q < to {
      if Skipped(l.skips, q) {
        var i :| 0 <= i < |l.skips| && l.skips[i].start <= q < l.skips[i].end;
        assert m.skips[i] == l.skips[i];
      }
      if l.next <= q < to { assert m.skips[|l.skips|] == s; }
    }
    assert Balanced(m, to);
  }

  /** No skip reaches beyond `top`, those made for FIN aside. */
  ghost predicate SkipsEndBy(skips: seq<Skip>, top: int) {
    forall i :: 0 <= i < |skips| && !skips[i].reason.FinTimeout? ==> skips[i].end <= top
  }

  /** A position that is already passed and lies beyond every skip has been received, unless it was
      given up because of FIN. */
  lemma PassedBeyondSkips(l: Ledger, stream: Stream, shift: int, top: int, q: nat)
    requires Sound(l, stream, shift, l.next) && SkipsEndBy(l.skips, top)
    requires l.anchor <= q < l.next && top <= q
    ensures q in l.due <==> !FinSkipped(l.skips, q)
  {
    assert FinSkipped(l.skips, q) ==> Skipped(l.skips, q);
    assert Skipped(l.skips, q) ==> FinSkipped(l.skips, q);
  }

  /** `n` is the first position from `anchor` on that is not in the received set. */
  ghost predicate FirstMissing(due: iset<nat>, anchor: nat, n: nat) {
    anchor <= n && n !in due && forall q :: anchor <= q < n ==> q in due
  }

  lemma FirstMissingIsUnique(due: iset<nat>, anchor: nat, m: nat, n: nat)
    requires FirstMissing(due, anchor, m) && FirstMissing(due, anchor, n)
    ensures m == n
  {
  }

  /** The received-set refinement: with nothing given up, what was fed is exactly the stream from
      the anchor to the first position that has not arrived. */
  lemma FedUpToFirstMissing(l: Ledger, stream: Stream, shift: int)
    requires Sound(l, stream, shift, l.next) && l.skips == []
    requires forall k :: k in l.held ==> l.next < k
    ensures FirstMissing(l.due, l.anchor, l.next)
    ensures |FedBytes(l.log)| == l.next - l.anchor
    ensures On(stream, shift + l.anchor, FedBytes(l.log))
  {
    UninterruptedRun(l.log, stream, shift, l.anchor);
    assert !Covered(l.held, l.next);
    forall q | l.anchor <= q < l.next ensures q in l.due {
      assert !Skipped(l.skips, q);
    }
  }

  /** Conservation across loss: once nothing is held, a position was received exactly when it was
      fed, everything else up to `next` was given up without ever having been received, and
      nothing is both. */
  lemma Conservation(l: Ledger, stream: Stream, shift: int)
    requires Sound(l, stream, shift, l.next) && l.held == map[]
    ensures forall q :: q in l.due <==> Fed(l.log, q)
    ensures forall q :: l.anchor <= q < l.next ==> (Fed(l.log, q) <==> !Skipped(l.skips, q))
    ensures forall q :: Skipped(l.skips, q) ==> q !in l.due
  {
    assert forall q :: !Covered(l.held, q);
  }
}
