// The target-message scan as a function of the buffered bytes, and its indifference to chunking.
module TargetStream {
  import opened Wire
  import opened Decoder
  import opened MessageDecoder
  import opened ScannerLog

  /** Header bytes two to four: flags zero, then the opcode. */
  function Signature(spec: EventSpec): (s: Bytes)
    ensures |s| == 3
  {
    [0] + Encoded(spec.opcode, 2)
  }

  predicate LengthMatches(spec: EventSpec, length: nat) {
    SupportsStructuralScan(spec) || ConfiguredLengthMatches(spec, length)
  }

  /** A header of this layout starts at `p`. */
  predicate HeaderAt(spec: EventSpec, b: Bytes, p: nat) {
    && p + 5 <= |b| && b[p + 2..p + 5] == Signature(spec)
    && spec.minMessageLength <= U16(b, p) <= MAX_TARGET_MESSAGE_LENGTH
    && LengthMatches(spec, U16(b, p))
  }

  /** The layouts, in order, whose header starts at `p`. */
  function MatchingAt(specs: seq<EventSpec>, b: Bytes, p: nat): (m: seq<EventSpec>)
    ensures m != [] ==> p + 5 <= |b| && 5 <= U16(b, p)
  {
    if specs == [] then []
    else
      var more := MatchingAt(specs[1..], b, p);
      if HeaderAt(specs[0], b, p) then [specs[0]] + more else more
  }

  /** The leftmost header at or after `from`. */
  function Leftmost(specs: seq<EventSpec>, b: Bytes, from: nat): (p: Option<nat>)
    ensures p.Some? ==> from <= p.value && MatchingAt(specs, b, p.value) != []
    ensures p.Some? ==> forall q :: from <= q < p.value ==> MatchingAt(specs, b, q) == []
    ensures p.None? ==> forall q :: from <= q ==> MatchingAt(specs, b, q) == []
    decreases |b| - from
  {
    if MatchingAt(specs, b, from) != [] then Some(from)
    else if from >= |b| then None
    else Leftmost(specs, b, from + 1)
  }

  datatype Output =
    | Event(record: DecodedRecord, message: Bytes, streamSequence: Option<int>)
    | Verdict(opcode: nat, messageLength: nat, decoded: bool, count: nat, streamSequence: Option<int>)

  function SourceContext(spec: EventSpec, message: Bytes): Option<Bytes> {
    if spec.sourceContextOffset.None? then None
    else Some(Slice(message, spec.sourceContextOffset.value, spec.sourceContextOffset.value + spec.sourceContextLength))
  }

  datatype Valid = Valid(spec: EventSpec, records: seq<DecodedRecord>)

  /** The layouts that prove their geometry on this message. */
  function ValidDecodes(matching: seq<EventSpec>, message: Bytes): (v: seq<Valid>) {
    if matching == [] then []
    else
      var r := Decode(matching[0], message, SourceContext(matching[0], message));
      var more := ValidDecodes(matching[1..], message);
      if r.Some? then [Valid(matching[0], r.value)] + more else more
  }

  function StorageLayouts(matching: seq<EventSpec>): seq<EventSpec> {
    if matching == [] then []
    else (if matching[0].family == InventoryToStorage then [matching[0]] else []) + StorageLayouts(matching[1..])
  }

  function StorageDecodes(valid: seq<Valid>): seq<Valid> {
    if valid == [] then []
    else
      (if valid[0].spec.family == InventoryToStorage && valid[0].records != [] then [valid[0]] else [])
      + StorageDecodes(valid[1..])
  }

  /** What the message observer is told about a wrapper that some storage layout matches: nothing if
      only other layouts of the opcode validate. */
  function Verdicts(matching: seq<EventSpec>, valid: seq<Valid>, length: nat, at: Option<int>): (o: seq<Output>) {
    var layouts, decodes := StorageLayouts(matching), StorageDecodes(valid);
    if layouts == [] || (valid != [] && decodes == []) then []
    else if |valid| == 1 && |decodes| == 1 then [Verdict(layouts[0].opcode, length, true, |decodes[0].records|, at)]
    else [Verdict(layouts[0].opcode, length, false, 0, at)]
  }

  function Events(records: seq<DecodedRecord>, message: Bytes, at: Option<int>): (o: seq<Output>) {
    if records == [] then [] else [Event(records[0], message, at)] + Events(records[1..], message, at)
  }

  datatype Handled = Handled(outputs: seq<Output>, consumed: bool)

  /** A complete message: a single layout has to fit it, or nothing is decoded. */
  function Handle(matching: seq<EventSpec>, message: Bytes, at: Option<int>, observing: bool): (h: Handled) {
    var valid := ValidDecodes(matching, message);
    var verdicts := if observing then Verdicts(matching, valid, |message|, at) else [];
    if |valid| != 1 then Handled(verdicts, false)
    else Handled(verdicts + Events(valid[0].records, message, at), true)
  }

  function Shifted(base: Option<int>, n: int): (r: Option<int>) {
    if base.Some? then Some(base.value + n) else None
  }

  /** What the leftmost header makes of the bytes: nothing, a message still incomplete, or one
      handled and stepped over. */
  datatype Step =
    | NoHeader
    | Incomplete(at: nat)
    | Complete(outputs: seq<Output>, next: nat)

  function StepOf(specs: seq<EventSpec>, observing: bool, b: Bytes, base: Option<int>): (s: Step)
    ensures s.Incomplete? ==> s.at <= |b|
    ensures s.Complete? ==> 0 < s.next <= |b|
  {
    var p := Leftmost(specs, b, 0);
    if p.None? then NoHeader
    else
      var at := p.value;
      var end := at + U16(b, at);
      if end > |b| then Incomplete(at)
      else
        var h := Handle(MatchingAt(specs, b, at), b[at..end], Shifted(base, at), observing);
        Complete(h.outputs, if h.consumed then end else at + 1)
  }

  datatype Scanned = Scanned(outputs: seq<Output>, rest: Bytes)

  /** Where the stream stands after a scan. */
  function Advance(b: Bytes, r: Scanned, base: Option<int>): Option<int> {
    Shifted(base, |b| - |r.rest|)
  }

  /** With no header in sight, enough to catch one split across the next chunk. */
  function SplitHeader(b: Bytes): (tail: Bytes)
    ensures |tail| <= |b|
  {
    if |b| > 4 then b[|b| - 4..] else b
  }

  /** Scan bytes whose first lies at `base`: always the leftmost header; an incomplete message is kept
      whole, a complete one is consumed if it decodes and stepped over by one byte if not. */
  function Scan(specs: seq<EventSpec>, observing: bool, b: Bytes, base: Option<int>): (r: Scanned)
    ensures |r.rest| <= |b|
    decreases |b|
  {
    match StepOf(specs, observing, b, base)
    case NoHeader => Scanned([], SplitHeader(b))
    case Incomplete(at) => Scanned([], b[at..])
    case Complete(outputs, next) =>
      var more := Scan(specs, observing, b[next..], Shifted(base, next));
      Scanned(outputs + more.outputs, more.rest)
  }

  lemma {:induction false} MatchingInPrefix(specs: seq<EventSpec>, b: Bytes, x: Bytes, q: nat)
    requires q + 5 <= |b|
    ensures MatchingAt(specs, b + x, q) == MatchingAt(specs, b, q) && U16(b + x, q) == U16(b, q)
  {
    hide LengthMatches, Signature;
    if specs != [] {
      MatchingInPrefix(specs[1..], b, x, q);
      assert (b + x)[q + 2..q + 5] == b[q + 2..q + 5];
    }
  }

  lemma {:induction false} MatchingInSuffix(specs: seq<EventSpec>, b: Bytes, k: nat, q: nat)
    requires k <= |b|
    ensures MatchingAt(specs, b[k..], q) == MatchingAt(specs, b, k + q)
    ensures q + 2 <= |b| - k ==> U16(b[k..], q) == U16(b, k + q)
  {
    hide LengthMatches, Signature;
    if specs != [] {
      MatchingInSuffix(specs[1..], b, k, q);
      if q + 5 <= |b| - k {
        assert b[k..][q + 2..q + 5] == b[k + q + 2..k + q + 5];
      }
    }
  }

  /** A header found stays the leftmost one when more bytes arrive: none can appear before it. */
  lemma LeftmostStays(specs: seq<EventSpec>, b: Bytes, x: Bytes)
    requires Leftmost(specs, b, 0).Some?
    ensures var p := Leftmost(specs, b, 0).value;
            && Leftmost(specs, b + x, 0) == Some(p)
            && MatchingAt(specs, b + x, p) == MatchingAt(specs, b, p) && U16(b + x, p) == U16(b, p)
  {
    var p := Leftmost(specs, b, 0).value;
    hide MatchingAt, Leftmost;
    forall q: nat | q <= p ensures MatchingAt(specs, b + x, q) == MatchingAt(specs, b, q) {
      MatchingInPrefix(specs, b, x, q);
    }
    MatchingInPrefix(specs, b, x, p);
  }

  /** Dropping bytes before any header only moves the header. */
  lemma LeftmostMoves(specs: seq<EventSpec>, z: Bytes, k: nat)
    requires k <= |z| && forall q: nat :: q < k ==> MatchingAt(specs, z, q) == []
    ensures var p := Leftmost(specs, z, 0);
            && Leftmost(specs, z[k..], 0) == (if p.Some? then Some((p.value - k) as nat) else None)
            && (p.Some? ==> k <= p.value && MatchingAt(specs, z[k..], p.value - k) == MatchingAt(specs, z, p.value)
                            && U16(z[k..], p.value - k) == U16(z, p.value))
  {
    var p, r := Leftmost(specs, z, 0), Leftmost(specs, z[k..], 0);
    hide MatchingAt, Leftmost;
    if p.Some? {
      assert k <= p.value;
      MatchingInSuffix(specs, z, k, p.value - k);
      if r.Some? {
        MatchingInSuffix(specs, z, k, r.value);
        assert r.value <= p.value - k;
        assert p.value <= k + r.value;
      }
    } else if r.Some? {
      MatchingInSuffix(specs, z, k, r.value);
    }
  }

  lemma CompleteStays(specs: seq<EventSpec>, observing: bool, b: Bytes, x: Bytes, base: Option<int>)
    requires StepOf(specs, observing, b, base).Complete?
    ensures StepOf(specs, observing, b + x, base) == StepOf(specs, observing, b, base)
  {
    hide Leftmost, MatchingAt, U16, Handle;
    LeftmostStays(specs, b, x);
    var at := Leftmost(specs, b, 0).value;
    var end := at + U16(b, at);
    assert (b + x)[at..end] == b[at..end];
  }

  /** Moving the start of the bytes past headerless ones moves a step along. */
  function Moved(s: Step, k: nat): (t: Step)
    requires s.Incomplete? ==> k <= s.at
    requires s.Complete? ==> k <= s.next
  {
    match s
    case NoHeader => NoHeader
    case Incomplete(at) => Incomplete(at - k)
    case Complete(outputs, next) => Complete(outputs, next - k)
  }

  lemma StepMoves(specs: seq<EventSpec>, observing: bool, z: Bytes, k: nat, base: Option<int>)
    requires k <= |z| && forall q: nat :: q < k ==> MatchingAt(specs, z, q) == []
    ensures var s := StepOf(specs, observing, z, base);
            && (s.Incomplete? ==> k <= s.at) && (s.Complete? ==> k < s.next)
            && StepOf(specs, observing, z[k..], Shifted(base, k)) == Moved(s, k)
  {
    hide Handle, U16, Leftmost, MatchingAt;
    LeftmostMoves(specs, z, k);
    var p := Leftmost(specs, z, 0);
    if p.Some? {
      var at, end := p.value, p.value + U16(z, p.value);
      assert end <= |z| ==> z[k..][at - k..end - k] == z[at..end];
      assert Shifted(Shifted(base, k), at - k) == Shifted(base, at);
      hide Shifted;
    }
  }

  lemma ScanOfIncomplete(specs: seq<EventSpec>, observing: bool, b: Bytes, base: Option<int>)
    requires StepOf(specs, observing, b, base).Incomplete?
    ensures Scan(specs, observing, b, base) == Scanned([], b[StepOf(specs, observing, b, base).at..])
  {
    hide StepOf;
  }

  lemma ScanOfComplete(specs: seq<EventSpec>, observing: bool, b: Bytes, base: Option<int>)
    requires StepOf(specs, observing, b, base).Complete?
    ensures var s := StepOf(specs, observing, b, base);
            var more := Scan(specs, observing, b[s.next..], Shifted(base, s.next));
            Scan(specs, observing, b, base) == Scanned(s.outputs + more.outputs, more.rest)
  {
    hide StepOf;
  }

  lemma ScanOfNoHeader(specs: seq<EventSpec>, observing: bool, b: Bytes, base: Option<int>)
    requires StepOf(specs, observing, b, base).NoHeader?
    ensures Scan(specs, observing, b, base) == Scanned([], SplitHeader(b))
  {
    hide StepOf, SplitHeader;
  }

  /** Bytes before any header do not matter to a scan, as long as enough is left to hold a split one. */
  lemma ScanSkips(specs: seq<EventSpec>, observing: bool, z: Bytes, k: nat, base: Option<int>)
    requires k <= |z| && forall q: nat :: q < k ==> MatchingAt(specs, z, q) == []
    requires |z| - k >= 4 || k == 0 || !StepOf(specs, observing, z, base).NoHeader?
    ensures Scan(specs, observing, z, base) == Scan(specs, observing, z[k..], Shifted(base, k))
  {
    hide StepOf, MatchingAt, Scan;
    StepMoves(specs, observing, z, k, base);
    SameStepSameScan(specs, observing, z, k, base);
  }

  lemma SameStepSameScan(specs: seq<EventSpec>, observing: bool, z: Bytes, k: nat, base: Option<int>)
    requires k <= |z|
    requires var s := StepOf(specs, observing, z, base);
             && (s.NoHeader? ==> |z| - k >= 4 || k == 0) && (s.Incomplete? ==> k <= s.at)
             && (s.Complete? ==> k < s.next)
             && StepOf(specs, observing, z[k..], Shifted(base, k)) == Moved(s, k)
    ensures Scan(specs, observing, z, base) == Scan(specs, observing, z[k..], Shifted(base, k))
  {
    hide StepOf, Scan;
    var y, s := z[k..], StepOf(specs, observing, z, base);
    match s
    case NoHeader =>
      ScanOfNoHeader(specs, observing, z, base);
      ScanOfNoHeader(specs, observing, y, Shifted(base, k));
    case Incomplete(at) =>
      ScanOfIncomplete(specs, observing, z, base);
      ScanOfIncomplete(specs, observing, y, Shifted(base, k));
      assert y[at - k..] == z[at..];
    case Complete(_, next) =>
      ScanOfComplete(specs, observing, z, base);
      ScanOfComplete(specs, observing, y, Shifted(base, k));
      assert y[next - k..] == z[next..];
      assert Shifted(Shifted(base, k), next - k) == Shifted(base, next);
  }

  /** Splitting a scan. */
  ghost predicate Splits(specs: seq<EventSpec>, observing: bool, b: Bytes, x: Bytes, base: Option<int>) {
    var first := Scan(specs, observing, b, base);
    var second := Scan(specs, observing, first.rest + x, Advance(b, first, base));
    Scan(specs, observing, b + x, base) == Scanned(first.outputs + second.outputs, second.rest)
  }

  /** Chunk invariance: scanning `b` and then what it left with `x` is scanning `b + x`. */
  lemma {:induction false} ScanSplits(specs: seq<EventSpec>, observing: bool, b: Bytes, x: Bytes, base: Option<int>)
    ensures Splits(specs, observing, b, x, base)
    decreases |b|
  {
    hide Splits;
    match StepOf(specs, observing, b, base)
    case NoHeader => SplitWithoutHeader(specs, observing, b, x, base);
    case Incomplete(at) => SplitInsideMessage(specs, observing, b, x, base);
    case Complete(_, next) =>
      ScanSplits(specs, observing, b[next..], x, Shifted(base, next));
      SplitAfterMessage(specs, observing, b, x, base, next);
  }

  lemma SplitWithoutHeader(specs: seq<EventSpec>, observing: bool, b: Bytes, x: Bytes, base: Option<int>)
    requires StepOf(specs, observing, b, base).NoHeader?
    ensures Splits(specs, observing, b, x, base)
  {
    var k := if |b| > 4 then |b| - 4 else 0;
    assert SplitHeader(b) == b[k..];
    forall q: nat | q < k ensures MatchingAt(specs, b + x, q) == [] {
      MatchingInPrefix(specs, b, x, q);
    }
    assert (b + x)[k..] == b[k..] + x;
    ScanSkips(specs, observing, b + x, k, base);
    hide StepOf, MatchingAt, SplitHeader;
    NothingBefore(Scan(specs, observing, b[k..] + x, Shifted(base, k)));
  }

  lemma NothingBefore(r: Scanned)
    ensures Scanned([] + r.outputs, r.rest) == r
  {
  }

  lemma SplitInsideMessage(specs: seq<EventSpec>, observing: bool, b: Bytes, x: Bytes, base: Option<int>)
    requires StepOf(specs, observing, b, base).Incomplete?
    ensures Splits(specs, observing, b, x, base)
  {
    hide Scan, Handle, U16;
    var at := StepOf(specs, observing, b, base).at;
    LeftmostStays(specs, b, x);
    assert !StepOf(specs, observing, b + x, base).NoHeader?;
    ScanOfIncomplete(specs, observing, b, base);
    assert at == Leftmost(specs, b + x, 0).value;
    hide StepOf, MatchingAt, Leftmost;
    assert (b + x)[at..] == b[at..] + x;
    ScanSkips(specs, observing, b + x, at, base);
    NothingBefore(Scan(specs, observing, b[at..] + x, Shifted(base, at)));
  }

  lemma SplitAfterMessage(specs: seq<EventSpec>, observing: bool, b: Bytes, x: Bytes, base: Option<int>, next: nat)
    requires next <= |b| && StepOf(specs, observing, b, base).Complete?
    requires StepOf(specs, observing, b, base).next == next
    requires Splits(specs, observing, b[next..], x, Shifted(base, next))
    ensures Splits(specs, observing, b, x, base)
  {
    hide StepOf, Scan, Splits, Advance, Shifted;
    CompleteStays(specs, observing, b, x, base);
    var s := StepOf(specs, observing, b, base);
    var later, later' := b[next..], Shifted(base, next);
    CutThenJoin(b, x, next);
    ScanOfComplete(specs, observing, b, base);
    ScanOfComplete(specs, observing, b + x, base);
    var more := Scan(specs, observing, later, later');
    var rest := SplitOf(specs, observing, later, x, later');
    AdvancesJoin(b, next, s.outputs, more, base);
    assert s.outputs + (more.outputs + rest.outputs) == s.outputs + more.outputs + rest.outputs;
    SplitFrom(specs, observing, b, x, base, Scanned(s.outputs + more.outputs, more.rest), rest);
  }

  lemma CutThenJoin(b: Bytes, x: Bytes, n: nat)
    requires n <= |b|
    ensures (b + x)[n..] == b[n..] + x
  {
  }

  lemma AdvancesJoin(b: Bytes, next: nat, outputs: seq<Output>, more: Scanned, base: Option<int>)
    requires next <= |b| && |more.rest| <= |b| - next
    ensures Advance(b[next..], more, Shifted(base, next)) ==
            Advance(b, Scanned(outputs + more.outputs, more.rest), base)
  {
  }

  lemma SplitOf(specs: seq<EventSpec>, observing: bool, b: Bytes, x: Bytes, base: Option<int>) returns (second: Scanned)
    requires Splits(specs, observing, b, x, base)
    ensures var first := Scan(specs, observing, b, base);
            && second == Scan(specs, observing, first.rest + x, Advance(b, first, base))
            && Scan(specs, observing, b + x, base) == Scanned(first.outputs + second.outputs, second.rest)
  {
    hide Scan;
    var first := Scan(specs, observing, b, base);
    second := Scan(specs, observing, first.rest + x, Advance(b, first, base));
  }

  lemma SplitFrom(specs: seq<EventSpec>, observing: bool, b: Bytes, x: Bytes, base: Option<int>, first: Scanned,
      second: Scanned)
    requires first == Scan(specs, observing, b, base)
    requires second == Scan(specs, observing, first.rest + x, Advance(b, first, base))
    requires Scan(specs, observing, b + x, base) == Scanned(first.outputs + second.outputs, second.rest)
    ensures Splits(specs, observing, b, x, base)
  {
    hide Scan;
  }

  /** Feeding a contiguous stream chunk by chunk. */
  function FeedAll(specs: seq<EventSpec>, observing: bool, rest: Bytes, chunks: seq<Bytes>,
      base: Option<int>): (r: Scanned)
    decreases |chunks|
  {
    if chunks == [] then Scanned([], rest)
    else
      var b := rest + chunks[0];
      var first := Scan(specs, observing, b, base);
      var more := FeedAll(specs, observing, first.rest, chunks[1..], Advance(b, first, base));
      Scanned(first.outputs + more.outputs, more.rest)
  }

  /** However a contiguous stream is chunked, the scanner decodes the same messages and records and
      ends with the same buffer as if it had come at once. */
  lemma {:induction false} ChunkingIsIrrelevant(specs: seq<EventSpec>, observing: bool, rest: Bytes,
      chunks: seq<Bytes>, base: Option<int>)
    requires chunks != []
    ensures FeedAll(specs, observing, rest, chunks, base) == Scan(specs, observing, rest + Flatten(chunks), base)
    decreases |chunks|
  {
    hide Scan;
    var b, later := rest + chunks[0], chunks[1..];
    var first := Scan(specs, observing, b, base);
    assert rest + Flatten(chunks) == b + Flatten(later);
    if later == [] {
      assert b + Flatten(later) == b;
      assert FeedAll(specs, observing, first.rest, later, Advance(b, first, base)) == Scanned([], first.rest);
      assert first.outputs + [] == first.outputs;
    } else {
      ChunkingIsIrrelevant(specs, observing, first.rest, later, Advance(b, first, base));
      ScanSplits(specs, observing, b, Flatten(later), base);
    }
  }

  // The scanner as a whole: what it keeps, and what it has reported.

  datatype ScannerState = ScannerState(buffer: Bytes, start: Option<int>, outputs: seq<Output>)

  /** Where buffered bytes begin once `data` from `streamStart` on joins them. */
  function BaseOf(s: ScannerState, streamStart: Option<int>): Option<int> {
    if s.buffer == [] then streamStart else s.start
  }

  function AfterScan(s: ScannerState, b: Bytes, base: Option<int>, r: Scanned): (n: ScannerState) {
    ScannerState(r.rest, if r.rest == [] then None else Advance(b, r, base), s.outputs + r.outputs)
  }

  function Fed(specs: seq<EventSpec>, observing: bool, s: ScannerState, data: Bytes,
      streamStart: Option<int>): (n: ScannerState)
  {
    if data == [] then s
    else
      var b, base := s.buffer + data, BaseOf(s, streamStart);
      AfterScan(s, b, base, Scan(specs, observing, b, base))
  }

  /** Two consecutive chunks fed one after the other leave the scanner as their concatenation does. */
  lemma FeedsJoin(specs: seq<EventSpec>, observing: bool, s: ScannerState, first: Bytes, second: Bytes,
                  streamStart: Option<int>, later: Option<int>)
    requires later == Shifted(BaseOf(s, streamStart), |s.buffer| + |first|)
    ensures Fed(specs, observing, Fed(specs, observing, s, first, streamStart), second, later) ==
            Fed(specs, observing, s, first + second, streamStart)
  {
    hide Scan;
    if first == [] {
      assert first + second == second;
      EmptyFirst(specs, observing, s, second, streamStart, later);
    } else if second == [] {
      assert first + second == first;
    } else {
      JoinScans(specs, observing, s, first, second, streamStart, later);
    }
  }

  lemma EmptyFirst(specs: seq<EventSpec>, observing: bool, s: ScannerState, second: Bytes, streamStart: Option<int>,
                   later: Option<int>)
    requires later == Shifted(BaseOf(s, streamStart), |s.buffer|)
    ensures Fed(specs, observing, s, second, later) == Fed(specs, observing, s, second, streamStart)
  {
    hide Scan;
    assert s.buffer == [] ==> later == streamStart;
  }

  lemma JoinScans(specs: seq<EventSpec>, observing: bool, s: ScannerState, first: Bytes, second: Bytes,
                  streamStart: Option<int>, later: Option<int>)
    requires first != [] && second != [] && later == Shifted(BaseOf(s, streamStart), |s.buffer| + |first|)
    ensures Fed(specs, observing, Fed(specs, observing, s, first, streamStart), second, later) ==
            Fed(specs, observing, s, first + second, streamStart)
  {
    hide Scan, Splits;
    var b, base := s.buffer + first, BaseOf(s, streamStart);
    ScanSplits(specs, observing, b, second, base);
    var r2 := SplitOf(specs, observing, b, second, base);
    var r1 := Scan(specs, observing, b, base);
    var mid := AfterScan(s, b, base, r1);
    assert s.buffer + (first + second) == b + second;
    assert BaseOf(mid, later) == Advance(b, r1, base);
    assert Advance(r1.rest + second, r2, Advance(b, r1, base)) == Advance(b + second, r2, base);
    Regroup(s.outputs, r1.outputs, r2.outputs);
  }

  predicate LocatedOutputs(outputs: seq<Output>) {
    forall i :: 0 <= i < |outputs| ==> outputs[i].streamSequence.Some?
  }

  lemma {:induction false} EventsAreLocated(records: seq<DecodedRecord>, message: Bytes, at: Option<int>)
    requires at.Some?
    ensures LocatedOutputs(Events(records, message, at))
  {
    if records != [] {
      EventsAreLocated(records[1..], message, at);
    }
  }

  lemma HandledIsLocated(matching: seq<EventSpec>, message: Bytes, at: Option<int>, observing: bool)
    requires at.Some?
    ensures LocatedOutputs(Handle(matching, message, at, observing).outputs)
  {
    hide ValidDecodes, Events;
    var valid := ValidDecodes(matching, message);
    if |valid| == 1 {
      EventsAreLocated(valid[0].records, message, at);
    }
  }

  /** A scan of bytes whose place is known reports everything with its place. */
  lemma {:induction false} ScanIsLocated(specs: seq<EventSpec>, observing: bool, b: Bytes, base: Option<int>)
    requires base.Some?
    ensures LocatedOutputs(Scan(specs, observing, b, base).outputs)
    decreases |b|
  {
    hide Handle, MatchingAt, Leftmost;
    var p := Leftmost(specs, b, 0);
    if p.Some? && p.value + U16(b, p.value) <= |b| {
      var at := p.value;
      HandledIsLocated(MatchingAt(specs, b, at), b[at..at + U16(b, at)], Shifted(base, at), observing);
    }
    match StepOf(specs, observing, b, base)
    case NoHeader =>
    case Incomplete(at) =>
    case Complete(outputs, next) =>
      ScanIsLocated(specs, observing, b[next..], Shifted(base, next));
  }

  /** What one call on the scanner does. */
  function Performed(specs: seq<EventSpec>, observing: bool, s: ScannerState, c: Call): (n: ScannerState) {
    match c
    case Feed(data, context) => Fed(specs, observing, s, data, context.streamStart)
    case ScanStandalone(data, context) =>
      if data == [] then s else s.(outputs := s.outputs + Scan(specs, observing, data, context.streamStart).outputs)
    case Reset => ScannerState([], None, s.outputs)
  }

  function Replayed(specs: seq<EventSpec>, observing: bool, log: Log): (s: ScannerState) {
    if log == [] then ScannerState([], None, [])
    else Performed(specs, observing, Replayed(specs, observing, log[..|log| - 1]), log[|log| - 1])
  }

  /** Every call of a reassembled flow names its place, and then so does everything the scanner reports. */
  lemma {:induction false} ReplayIsLocated(specs: seq<EventSpec>, observing: bool, log: Log)
    requires Located(log)
    ensures var s := Replayed(specs, observing, log);
            LocatedOutputs(s.outputs) && (s.buffer != [] ==> s.start.Some?)
  {
    hide Scan;
    if log != [] {
      var n := |log| - 1;
      var s, c := Replayed(specs, observing, log[..n]), log[n];
      ReplayIsLocated(specs, observing, log[..n]);
      assert LocatedCall(c);
      if !c.Reset? && c.data != [] {
        ScanIsLocated(specs, observing, c.data, c.context.streamStart);
        if c.Feed? {
          ScanIsLocated(specs, observing, s.buffer + c.data, BaseOf(s, c.context.streamStart));
        }
      }
    }
  }
}
