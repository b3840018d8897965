// The target-message scanner in place: candidate search over signature groups, and the scan loop.
module TargetScanner {
  import opened Wire
  import opened Decoder
  import opened MessageDecoder
  import opened TargetStream
  import ScannerLog

  datatype Group = Group(signature: Bytes, specs: seq<EventSpec>)

  /** The layouts with one signature, in their original order. */
  function WithSignature(specs: seq<EventSpec>, signature: Bytes): (same: seq<EventSpec>) {
    if specs == [] then []
    else (if Signature(specs[0]) == signature then [specs[0]] else []) + WithSignature(specs[1..], signature)
  }

  ghost predicate Grouped(groups: seq<Group>, specs: seq<EventSpec>) {
    && (forall i :: 0 <= i < |groups| ==>
          |groups[i].signature| == 3 && groups[i].specs == WithSignature(specs, groups[i].signature))
    && (forall i, j :: 0 <= i < j < |groups| ==> groups[i].signature != groups[j].signature)
    && (forall k :: 0 <= k < |specs| ==> HasGroup(groups, Signature(specs[k])))
  }

  ghost predicate HasGroup(groups: seq<Group>, signature: Bytes) {
    exists i :: 0 <= i < |groups| && groups[i].signature == signature
  }

  lemma {:induction false} WithSignatureAppend(specs: seq<EventSpec>, s: EventSpec, signature: Bytes)
    ensures WithSignature(specs + [s], signature) ==
            WithSignature(specs, signature) + (if Signature(s) == signature then [s] else [])
  {
    if specs != [] {
      WithSignatureAppend(specs[1..], s, signature);
      assert (specs + [s])[0] == specs[0] && (specs + [s])[1..] == specs[1..] + [s];
    }
  }

  /** Collect layouts under their signatures. */
  method GroupBySignature(specs: seq<EventSpec>) returns (groups: seq<Group>)
    ensures Grouped(groups, specs)
  {
    groups := [];
    var k := 0;
    assert specs[..0] == [];
    while k < |specs|
      invariant 0 <= k <= |specs|
      invariant Grouped(groups, specs[..k])
    {
      var signature, i := Signature(specs[k]), 0;
      while i < |groups| && groups[i].signature != signature
        invariant 0 <= i <= |groups|
        invariant forall j :: 0 <= j < i ==> groups[j].signature != signature
      {
        i := i + 1;
      }
      ghost var before := groups;
      if i < |groups| {
        groups := groups[i := Group(signature, groups[i].specs + [specs[k]])];
      } else {
        groups := groups + [Group(signature, [specs[k]])];
      }
      GroupingGrows(before, groups, specs[..k], specs[k], i);
      assert specs[..k] + [specs[k]] == specs[..k + 1];
      k := k + 1;
    }
    assert specs[..k] == specs;
  }

  lemma GroupingGrows(before: seq<Group>, groups: seq<Group>, specs: seq<EventSpec>, s: EventSpec, i: nat)
    requires Grouped(before, specs) && i <= |before| && forall j :: 0 <= j < i ==> before[j].signature != Signature(s)
    requires i < |before| ==>
               before[i].signature == Signature(s) && groups == before[i := Group(Signature(s), before[i].specs + [s])]
    requires i == |before| ==> groups == before + [Group(Signature(s), [s])]
    ensures Grouped(groups, specs + [s])
  {
    hide Signature;
    assert |Signature(s)| == 3;
    forall j | 0 <= j < |groups|
      ensures |groups[j].signature| == 3 && groups[j].specs == WithSignature(specs + [s], groups[j].signature)
    {
      WithSignatureAppend(specs, s, groups[j].signature);
      if j == |before| {
        NoGroupNoSpec(before, specs, Signature(s));
      }
    }
    forall k | 0 <= k < |specs + [s]| ensures HasGroup(groups, Signature((specs + [s])[k])) {
      if k < |specs| {
        assert HasGroup(before, Signature(specs[k]));
        var j :| 0 <= j < |before| && before[j].signature == Signature(specs[k]);
        assert groups[j].signature == Signature(specs[k]);
      } else {
        assert groups[i].signature == Signature(s);
      }
    }
  }

  lemma NoGroupNoSpec(groups: seq<Group>, specs: seq<EventSpec>, signature: Bytes)
    requires forall k :: 0 <= k < |specs| ==> HasGroup(groups, Signature(specs[k]))
    requires forall j :: 0 <= j < |groups| ==> groups[j].signature != signature
    ensures WithSignature(specs, signature) == []
  {
    hide Signature;
    forall k | 0 <= k < |specs| ensures Signature(specs[k]) != signature {
      assert HasGroup(groups, Signature(specs[k]));
    }
    NoSpecEmpty(specs, signature);
  }

  lemma {:induction false} NoSpecEmpty(specs: seq<EventSpec>, signature: Bytes)
    requires forall k :: 0 <= k < |specs| ==> Signature(specs[k]) != signature
    ensures WithSignature(specs, signature) == []
  {
    hide Signature;
    if specs != [] {
      NoSpecEmpty(specs[1..], signature);
    }
  }

  /** Where a signature stands its own group holds every layout that can match. */
  lemma {:induction false} GroupMatches(specs: seq<EventSpec>, b: Bytes, p: nat)
    requires p + 5 <= |b|
    ensures MatchingAt(WithSignature(specs, b[p + 2..p + 5]), b, p) == MatchingAt(specs, b, p)
  {
    hide Signature, LengthMatches;
    if specs != [] {
      GroupMatches(specs[1..], b, p);
      var rest := WithSignature(specs[1..], b[p + 2..p + 5]);
      if Signature(specs[0]) == b[p + 2..p + 5] {
        assert ([specs[0]] + rest)[1..] == rest;
      } else {
        assert [] + rest == rest;
      }
    }
  }

  /** Elsewhere it matches nothing. */
  lemma {:induction false} OtherGroupsDoNot(specs: seq<EventSpec>, signature: Bytes, b: Bytes, p: nat)
    requires p + 5 > |b| || b[p + 2..p + 5] != signature
    ensures MatchingAt(WithSignature(specs, signature), b, p) == []
  {
    hide Signature, LengthMatches;
    if specs != [] {
      OtherGroupsDoNot(specs[1..], signature, b, p);
      var rest := WithSignature(specs[1..], signature);
      if Signature(specs[0]) == signature {
        assert ([specs[0]] + rest)[1..] == rest;
      } else {
        assert [] + rest == rest;
      }
    }
  }

  predicate CompleteAt(b: Bytes, p: nat) {
    p + 2 <= |b| && p + U16(b, p) <= |b|
  }

  /** Candidates found so far: the layouts at the leftmost complete message, and the leftmost
      incomplete one. */
  datatype Found = Found(complete: seq<EventSpec>, at: nat, incomplete: Option<nat>)

  /** `f` is right about all headers of `specs` that start before `end`. */
  ghost predicate Best(f: Found, specs: seq<EventSpec>, b: Bytes, end: nat) {
    && (f.complete != [] ==> f.at < end && f.complete == MatchingAt(specs, b, f.at) && CompleteAt(b, f.at))
    && (f.incomplete.Some? ==>
          && f.incomplete.value < end && MatchingAt(specs, b, f.incomplete.value) != []
          && !CompleteAt(b, f.incomplete.value))
    && forall q: nat :: q < end && MatchingAt(specs, b, q) != [] ==>
         if CompleteAt(b, q) then f.complete != [] && f.at <= q else f.incomplete.Some? && f.incomplete.value <= q
  }

  /** The candidates of one signature group, searched occurrence by occurrence. */
  method SearchGroup(group: Group, b: Bytes, ghost specs: seq<EventSpec>) returns (f: Found)
    requires |group.signature| == 3 && group.specs == WithSignature(specs, group.signature)
    ensures Best(f, group.specs, b, |b|)
  {
    hide Signature, LengthMatches, MatchingAt, U16;
    f := Found([], 0, None);
    var searchAt := 0;
    ghost var done: nat := 0;
    SignatureOfGroup(specs, group.signature);
    while true
      invariant Best(f, group.specs, b, done)
      invariant done == if searchAt >= 2 then searchAt - 2 else 0
      decreases |b| + 1 - searchAt
    {
      var signatureAt := FindFrom(b, group.signature, searchAt);
      if signatureAt.None? {
        forall q: nat | done <= q < |b| ensures MatchingAt(group.specs, b, q) == [] {
          Signatureless(specs, group.signature, b, q);
        }
        return;
      }
      searchAt := signatureAt.value + 1;
      assert searchAt <= |b|;
      if signatureAt.value >= 2 {
        var p := signatureAt.value - 2;
        forall q: nat | done <= q < p ensures MatchingAt(group.specs, b, q) == [] {
          Signatureless(specs, group.signature, b, q);
        }
        var matching := MatchGroupAt(group, b, p);
        if matching != [] {
          if p + U16(b, p) <= |b| {
            if f.complete == [] {
              f := f.(complete := matching, at := p);
            }
          } else if f.incomplete.None? {
            f := f.(incomplete := Some(p));
          }
        }
        done := p + 1;
      }
    }
  }

  lemma Signatureless(specs: seq<EventSpec>, signature: Bytes, b: Bytes, q: nat)
    requires |signature| == 3 && !OccursAt(b, signature, q + 2)
    ensures MatchingAt(WithSignature(specs, signature), b, q) == []
  {
    OtherGroupsDoNot(specs, signature, b, q);
  }

  lemma {:induction false} SignatureOfGroup(specs: seq<EventSpec>, signature: Bytes)
    ensures forall i :: 0 <= i < |WithSignature(specs, signature)| ==>
              Signature(WithSignature(specs, signature)[i]) == signature
  {
    hide Signature;
    if specs != [] {
      SignatureOfGroup(specs[1..], signature);
    }
  }

  /** The layouts of the group whose length bounds fit the header at `p`. */
  method MatchGroupAt(group: Group, b: Bytes, p: nat) returns (matching: seq<EventSpec>)
    requires OccursAt(b, group.signature, p + 2) && |group.signature| == 3
    requires forall i :: 0 <= i < |group.specs| ==> Signature(group.specs[i]) == group.signature
    ensures matching == MatchingAt(group.specs, b, p)
  {
    hide Signature, LengthMatches;
    matching := [];
    var i := 0;
    assert group.specs[0..] == group.specs;
    while i < |group.specs|
      invariant 0 <= i <= |group.specs|
      invariant matching + MatchingAt(group.specs[i..], b, p) == MatchingAt(group.specs, b, p)
    {
      var spec, length := group.specs[i], U16(b, p);
      assert group.specs[i..][0] == spec && group.specs[i..][1..] == group.specs[i + 1..];
      ghost var more := MatchingAt(group.specs[i + 1..], b, p);
      if spec.minMessageLength <= length <= MAX_TARGET_MESSAGE_LENGTH && LengthMatches(spec, length) {
        assert HeaderAt(spec, b, p);
        assert matching + ([spec] + more) == matching + [spec] + more;
        matching := matching + [spec];
      }
      i := i + 1;
    }
  }

  ghost predicate Among(groups: seq<Group>, n: nat, signature: Bytes)
    requires n <= |groups|
  {
    exists i :: 0 <= i < n && groups[i].signature == signature
  }

  /** `f` is right about all headers whose signature is among the first `n` groups. */
  ghost predicate BestAmong(f: Found, groups: seq<Group>, n: nat, specs: seq<EventSpec>, b: Bytes)
    requires n <= |groups|
  {
    && (f.complete != [] ==> f.complete == MatchingAt(specs, b, f.at) && CompleteAt(b, f.at))
    && (f.incomplete.Some? ==> MatchingAt(specs, b, f.incomplete.value) != [] && !CompleteAt(b, f.incomplete.value))
    && forall q: nat :: MatchingAt(specs, b, q) != [] && Among(groups, n, b[q + 2..q + 5]) ==>
         if CompleteAt(b, q) then f.complete != [] && f.at <= q else f.incomplete.Some? && f.incomplete.value <= q
  }

  /** The earlier of two findings, for complete and for incomplete messages. */
  function Merge(f: Found, g: Found): (m: Found) {
    var complete := if g.complete != [] && (f.complete == [] || g.at < f.at) then g else f;
    var incomplete :=
      if g.incomplete.Some? && (f.incomplete.None? || g.incomplete.value < f.incomplete.value)
      then g.incomplete else f.incomplete;
    Found(complete.complete, complete.at, incomplete)
  }

  lemma GroupHeader(specs: seq<EventSpec>, signature: Bytes, b: Bytes, q: nat)
    requires MatchingAt(WithSignature(specs, signature), b, q) != []
             || (MatchingAt(specs, b, q) != [] && b[q + 2..q + 5] == signature)
    ensures q + 5 <= |b| && b[q + 2..q + 5] == signature
    ensures MatchingAt(WithSignature(specs, signature), b, q) == MatchingAt(specs, b, q)
  {
    if q + 5 > |b| || b[q + 2..q + 5] != signature {
      OtherGroupsDoNot(specs, signature, b, q);
    } else {
      GroupMatches(specs, b, q);
    }
  }

  lemma MergeIsBest(f: Found, g: Found, groups: seq<Group>, n: nat, specs: seq<EventSpec>, b: Bytes)
    requires n < |groups| && groups[n].specs == WithSignature(specs, groups[n].signature)
    requires BestAmong(f, groups, n, specs, b) && Best(g, groups[n].specs, b, |b|)
    ensures BestAmong(Merge(f, g), groups, n + 1, specs, b)
  {
    hide MatchingAt, CompleteAt, WithSignature;
    var signature, m := groups[n].signature, Merge(f, g);
    if g.complete != [] {
      GroupHeader(specs, signature, b, g.at);
    }
    if g.incomplete.Some? {
      GroupHeader(specs, signature, b, g.incomplete.value);
    }
    forall q: nat | MatchingAt(specs, b, q) != [] && Among(groups, n + 1, b[q + 2..q + 5])
      ensures if CompleteAt(b, q) then m.complete != [] && m.at <= q else m.incomplete.Some? && m.incomplete.value <= q
    {
      if !Among(groups, n, b[q + 2..q + 5]) {
        assert b[q + 2..q + 5] == signature;
        GroupHeader(specs, signature, b, q);
      }
    }
  }

  /** All groups searched: the leftmost complete and the leftmost incomplete message of any layout. */
  method Search(groups: seq<Group>, b: Bytes, ghost specs: seq<EventSpec>) returns (f: Found)
    requires Grouped(groups, specs)
    ensures Best(f, specs, b, |b|)
  {
    hide MatchingAt, CompleteAt, WithSignature, Signature, Merge, Best, BestAmong;
    f := Found([], 0, None);
    var n := 0;
    assert BestAmong(f, groups, 0, specs, b) by {
      NothingAmong(groups, specs, b);
    }
    while n < |groups|
      invariant 0 <= n <= |groups|
      invariant BestAmong(f, groups, n, specs, b)
    {
      var g := SearchGroup(groups[n], b, specs);
      MergeIsBest(f, g, groups, n, specs, b);
      f := Merge(f, g);
      n := n + 1;
    }
    AllAmong(f, groups, specs, b);
  }

  lemma NothingAmong(groups: seq<Group>, specs: seq<EventSpec>, b: Bytes)
    ensures BestAmong(Found([], 0, None), groups, 0, specs, b)
  {
  }

  lemma AllAmong(f: Found, groups: seq<Group>, specs: seq<EventSpec>, b: Bytes)
    requires Grouped(groups, specs) && BestAmong(f, groups, |groups|, specs, b)
    ensures Best(f, specs, b, |b|)
  {
    hide WithSignature, Signature, CompleteAt;
    forall q: nat | MatchingAt(specs, b, q) != [] ensures q < |b| && Among(groups, |groups|, b[q + 2..q + 5]) {
      HeaderHasGroup(groups, specs, b, q);
    }
    hide MatchingAt;
  }

  lemma HeaderHasGroup(groups: seq<Group>, specs: seq<EventSpec>, b: Bytes, q: nat)
    requires MatchingAt(specs, b, q) != [] && forall k :: 0 <= k < |specs| ==> HasGroup(groups, Signature(specs[k]))
    ensures q + 5 <= |b| && Among(groups, |groups|, b[q + 2..q + 5])
  {
    hide Signature, LengthMatches;
    var k := HeaderOfSome(specs, b, q);
    assert HasGroup(groups, Signature(specs[k]));
  }

  lemma {:induction false} HeaderOfSome(specs: seq<EventSpec>, b: Bytes, q: nat) returns (k: nat)
    requires MatchingAt(specs, b, q) != []
    ensures k < |specs| && HeaderAt(specs[k], b, q)
  {
    if HeaderAt(specs[0], b, q) {
      k := 0;
    } else {
      k := HeaderOfSome(specs[1..], b, q);
      k := k + 1;
    }
  }

  /** What the findings make of the buffer is exactly the step of the leftmost header. */
  lemma StepFromFound(f: Found, specs: seq<EventSpec>, observing: bool, b: Bytes, base: Option<int>)
    requires Best(f, specs, b, |b|)
    ensures var s := StepOf(specs, observing, b, base);
            if f.complete == [] then s == (if f.incomplete.Some? then Incomplete(f.incomplete.value) else NoHeader)
            else if f.incomplete.Some? && f.incomplete.value < f.at then s == Incomplete(f.incomplete.value)
            else
              && f.at + 2 <= |b| && f.at + U16(b, f.at) <= |b|
              && var h := Handle(f.complete, b[f.at..f.at + U16(b, f.at)], Shifted(base, f.at), observing);
                 s == Complete(h.outputs, if h.consumed then f.at + U16(b, f.at) else f.at + 1)
  {
    hide MatchingAt, Handle;
    var p := Leftmost(specs, b, 0);
    assert p.Some? ==> p.value < |b| by {
      if p.Some? {
        HeaderInside(specs, b, p.value);
      }
    }
    hide Leftmost, U16;
  }

  lemma HeaderInside(specs: seq<EventSpec>, b: Bytes, p: nat)
    requires MatchingAt(specs, b, p) != []
    ensures p + 5 <= |b|
  {
  }

  function AfterStep(s: Step, b: Bytes): (rest: Bytes)
    requires (s.Incomplete? ==> s.at <= |b|) && (s.Complete? ==> s.next <= |b|)
    ensures |rest| <= |b|
  {
    match s
    case NoHeader => SplitHeader(b)
    case Incomplete(at) => b[at..]
    case Complete(_, next) => b[next..]
  }

  function OutputsOf(s: Step): seq<Output> {
    if s.Complete? then s.outputs else []
  }

  /** What is still to come when `emitted` has been reported and `b` is left. */
  ghost predicate Remaining(whole: Scanned, emitted: seq<Output>, specs: seq<EventSpec>, observing: bool, b: Bytes,
      base: Option<int>) {
    whole == Scanned(emitted + Scan(specs, observing, b, base).outputs, Scan(specs, observing, b, base).rest)
  }

  lemma RemainingAtFirst(specs: seq<EventSpec>, observing: bool, b: Bytes, base: Option<int>)
    ensures Remaining(Scan(specs, observing, b, base), [], specs, observing, b, base)
  {
    hide Scan;
    NothingBefore(Scan(specs, observing, b, base));
  }

  lemma StepRemains(whole: Scanned, emitted: seq<Output>, specs: seq<EventSpec>, observing: bool, b: Bytes,
      base: Option<int>)
    requires Remaining(whole, emitted, specs, observing, b, base)
    ensures var s := StepOf(specs, observing, b, base);
            var rest := AfterStep(s, b);
            if s.Complete? then |rest| < |b| && Remaining(whole, emitted + OutputsOf(s), specs, observing, rest,
                Shifted(base, |b| - |rest|))
            else whole == Scanned(emitted + OutputsOf(s), rest)
  {
    hide StepOf;
    var s := StepOf(specs, observing, b, base);
    if s.Complete? {
      ScanOfComplete(specs, observing, b, base);
      hide Scan;
      var more := Scan(specs, observing, b[s.next..], Shifted(base, s.next));
      assert emitted + (s.outputs + more.outputs) == emitted + s.outputs + more.outputs;
    }
  }

  lemma ShiftedTwice(start: Option<int>, m: int, n: int)
    ensures Shifted(Shifted(start, m), n) == Shifted(start, m + n)
  {
  }

  lemma ShiftedZero(start: Option<int>)
    ensures Shifted(start, 0) == start
  {
  }

  /** Try every layout on the message. */
  method DecodeAll(matching: seq<EventSpec>, message: Bytes) returns (valid: seq<Valid>)
    ensures valid == ValidDecodes(matching, message)
  {
    hide Decode;
    valid := [];
    var i := 0;
    assert matching[0..] == matching;
    while i < |matching|
      invariant 0 <= i <= |matching|
      invariant valid + ValidDecodes(matching[i..], message) == ValidDecodes(matching, message)
    {
      var spec := matching[i];
      assert matching[i..][0] == spec && matching[i..][1..] == matching[i + 1..];
      ghost var more := ValidDecodes(matching[i + 1..], message);
      var records := Decode(spec, message, SourceContext(spec, message));
      if records.Some? {
        assert valid + ([Valid(spec, records.value)] + more) == valid + [Valid(spec, records.value)] + more;
        valid := valid + [Valid(spec, records.value)];
      }
      i := i + 1;
    }
  }

  class TargetMessageScanner {
    const specs: seq<EventSpec>
    const groups: seq<Group>
    /** A message observer is attached. */
    const observing: bool
    var buffer: Bytes
    var bufferStartSequence: Option<int>
    /** Calls made on the event callback and the message observer. */
    var outputs: seq<Output>

    ghost predicate Valid()
    {
      Grouped(groups, specs)
    }

    /** Everything a scan of `b`, whose first byte lies at `base`, leaves and reports. */
    twostate predicate Scanned(b: Bytes, base: Option<int>)
      reads this
    {
      var r := Scan(specs, observing, b, base);
      && buffer == r.rest && outputs == old(outputs) + r.outputs
      && bufferStartSequence == (if r.rest == [] then None else Advance(b, r, base))
    }

    function State(): ScannerState
      reads this`buffer, this`bufferStartSequence, this`outputs
    {
      ScannerState(buffer, bufferStartSequence, outputs)
    }

    constructor (specs: seq<EventSpec>, observing: bool)
      ensures Valid() && this.specs == specs && this.observing == observing
      ensures State() == Replayed(specs, observing, [])
    {
      var groups := GroupBySignature(specs);
      this.specs, this.groups, this.observing := specs, groups, observing;
      buffer, bufferStartSequence, outputs := [], None, [];
    }

    method Reset()
      modifies this`buffer, this`bufferStartSequence
      ensures State() == Performed(specs, observing, old(State()), ScannerLog.Reset)
    {
      buffer, bufferStartSequence := [], None;
    }

    /** A header of one of the layouts occurs somewhere in the bytes. */
    method CanAnchorAtStart(data: Bytes) returns (found: bool)
      requires Valid()
      ensures found <==> exists p: nat :: MatchingAt(specs, data, p) != []
    {
      var f := Search(groups, data, specs);
      if exists p: nat :: MatchingAt(specs, data, p) != [] {
        var p: nat :| MatchingAt(specs, data, p) != [];
        HeaderInside(specs, data, p);
      }
      return f.complete != [] || f.incomplete.Some?;
    }

    method Discard(count: nat)
      requires count <= |buffer|
      modifies this`buffer, this`bufferStartSequence
      ensures buffer == old(buffer)[count..]
      ensures bufferStartSequence ==
              if buffer == [] && count > 0 then None else Shifted(old(bufferStartSequence), count)
    {
      if count == 0 {
        return;
      }
      buffer := buffer[count..];
      if bufferStartSequence.Some? {
        bufferStartSequence := Some(bufferStartSequence.value + count);
      }
      if buffer == [] {
        bufferStartSequence := None;
      }
    }

    method EmitEvents(records: seq<DecodedRecord>, message: Bytes, at: Option<int>)
      modifies this`outputs
      ensures outputs == old(outputs) + Events(records, message, at)
    {
      var i := 0;
      assert records[0..] == records;
      while i < |records|
        invariant 0 <= i <= |records|
        invariant outputs + Events(records[i..], message, at) == old(outputs) + Events(records, message, at)
      {
        assert records[i..][0] == records[i] && records[i..][1..] == records[i + 1..];
        assert outputs + ([Event(records[i], message, at)] + Events(records[i + 1..], message, at))
            == outputs + [Event(records[i], message, at)] + Events(records[i + 1..], message, at);
        outputs := outputs + [Event(records[i], message, at)];
        i := i + 1;
      }
      assert records[i..] == [];
    }

    /** Report one complete message; true if exactly one layout proved its geometry. */
    method HandleMessage(matching: seq<EventSpec>, message: Bytes, at: Option<int>) returns (consumed: bool)
      modifies this`outputs
      ensures var h := Handle(matching, message, at, observing);
              outputs == old(outputs) + h.outputs && consumed == h.consumed
    {
      hide ValidDecodes, Events, Verdicts;
      var valid := DecodeAll(matching, message);
      ghost var was, verdicts := outputs, if observing then Verdicts(matching, valid, |message|, at) else [];
      if observing {
        outputs := outputs + Verdicts(matching, valid, |message|, at);
      }
      assert outputs == was + verdicts;
      if |valid| != 1 {
        return false;
      }
      EmitEvents(valid[0].records, message, at);
      assert was + verdicts + Events(valid[0].records, message, at) ==
             was + (verdicts + Events(valid[0].records, message, at));
      return true;
    }

    /** One round of the scan loop: act on the leftmost header; false when nothing more can be done. */
    method ScanOnce(ghost base: Option<int>) returns (again: bool)
      requires Valid() && (buffer != [] ==> bufferStartSequence == base)
      modifies this
      ensures again == StepOf(specs, observing, old(buffer), base).Complete?
      ensures buffer == AfterStep(StepOf(specs, observing, old(buffer), base), old(buffer))
      ensures outputs == old(outputs) + OutputsOf(StepOf(specs, observing, old(buffer), base))
      ensures buffer != [] ==> bufferStartSequence == Shifted(base, |old(buffer)| - |buffer|)
      ensures buffer == [] && old(buffer) != [] ==> bufferStartSequence.None?
      ensures old(buffer) == [] ==> bufferStartSequence == old(bufferStartSequence)
    {
      hide StepOf, Best, Handle, MatchingAt, Grouped, U16;
      var f := Search(groups, buffer, specs);
      StepFromFound(f, specs, observing, buffer, base);
      if f.complete == [] || (f.incomplete.Some? && f.incomplete.value < f.at) {
        hide Shifted;
        if f.incomplete.Some? {
          Discard(f.incomplete.value);
        } else if |buffer| > 4 {
          Discard(|buffer| - 4);
        } else {
          ShiftedZero(base);
        }
        return false;
      }
      var end := f.at + U16(buffer, f.at);
      var message := buffer[f.at..end];
      var consumed := HandleMessage(f.complete, message, Shifted(bufferStartSequence, f.at));
      Discard(if consumed then end else f.at + 1);
      return true;
    }

    method ScanBuffer()
      requires Valid() && buffer != []
      modifies this
      ensures Scanned(old(buffer), old(bufferStartSequence))
    {
      hide StepOf, Grouped, Scan, Shifted, OutputsOf, AfterStep, Remaining;
      ghost var b, start, base, emitted := buffer, bufferStartSequence, bufferStartSequence, [];
      ghost var whole := Scan(specs, observing, b, start);
      RemainingAtFirst(specs, observing, b, start);
      ShiftedZero(start);
      var again := true;
      while again
        invariant |buffer| <= |b| && base == Shifted(start, |b| - |buffer|)
        invariant bufferStartSequence == if buffer == [] then None else base
        invariant outputs == old(outputs) + emitted
        invariant again ==> Remaining(whole, emitted, specs, observing, buffer, base)
        invariant !again ==> whole == TargetStream.Scanned(emitted, buffer)
        decreases again, |buffer|
      {
        ghost var s, from := StepOf(specs, observing, buffer, base), buffer;
        again := ScanOnce(base);
        StepRemains(whole, emitted, specs, observing, from, base);
        emitted := emitted + OutputsOf(s);
        ShiftedTwice(start, |b| - |from|, |from| - |buffer|);
        base := Shifted(base, |from| - |buffer|);
      }
    }

    method Feed(data: Bytes, streamStart: Option<int>)
      requires Valid()
      modifies this
      ensures data == [] ==> unchanged(this)
      ensures State() == Fed(specs, observing, old(State()), data, streamStart)
    {
      hide Scan;
      if data == [] {
        return;
      }
      if buffer == [] {
        bufferStartSequence := streamStart;
      }
      buffer := buffer + data;
      ScanBuffer();
    }

    /** Scan bytes apart from the stream: whatever they yield, the buffer stays as it was. */
    method ScanStandalone(data: Bytes, streamStart: Option<int>)
      requires Valid()
      modifies this
      ensures buffer == old(buffer) && bufferStartSequence == old(bufferStartSequence)
      ensures outputs == old(outputs) + if data == [] then [] else Scan(specs, observing, data, streamStart).outputs
    {
      hide Scan;
      if data == [] {
        return;
      }
      var savedBuffer, savedStart := buffer, bufferStartSequence;
      buffer, bufferStartSequence := data, streamStart;
      ScanBuffer();
      buffer, bufferStartSequence := savedBuffer, savedStart;
    }
  }
}
