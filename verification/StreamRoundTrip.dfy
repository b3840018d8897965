// Storage wrappers written record by record, one after the other into a stream: whatever the chunks, the
// target scanner reports exactly the items, in order.
module StreamRoundTrip {
  import opened Wire
  import opened Decoder
  import opened MessageDecoder
  import opened BatchRoundTrip
  import RecordGeometry
  import opened TargetStream
  import TargetScanner

  /** A storage wrapper as a server sends it: its layout is configured as number `layout`. */
  datatype Written = Written(layout: nat, prefix: Bytes, records: seq<Bytes>, stride: nat, items: seq<StoredItem>)

  function MessageOf(w: Written): (m: Bytes) {
    w.prefix + Flatten(w.records)
  }

  /** The message declares its length and opcode, its layout tells what it is, and no other layout
      configured for the opcode decodes it. */
  ghost predicate Sent(specs: seq<EventSpec>, w: Written) {
    && w.layout < |specs|
    && var spec, m := specs[w.layout], MessageOf(w);
       && Wrapper(spec, w.prefix, w.records, w.stride, w.items)
       && spec.minMessageLength <= |m| <= 65_535 && LengthMatches(spec, |m|)
       && U16(m, 0) == |m| && m[2] == 0 && U16(m, 3) == spec.opcode
       && forall j :: 0 <= j < |specs| && j != w.layout && specs[j].opcode == spec.opcode ==>
            Undecoded(specs[j], m)
  }

  ghost predicate Undecoded(spec: EventSpec, m: Bytes) {
    Decode(spec, m, SourceContext(spec, m)).None?
  }

  ghost predicate AllSent(specs: seq<EventSpec>, ws: seq<Written>) {
    forall i :: 0 <= i < |ws| ==> Sent(specs, ws[i])
  }

  function StreamOf(ws: seq<Written>): (b: Bytes) {
    if ws == [] then [] else MessageOf(ws[0]) + StreamOf(ws[1..])
  }

  /** The output is the event of item `k` of the message, at its place. */
  ghost predicate ReportsItem(o: Output, specs: seq<EventSpec>, w: Written, k: nat, at: Option<int>)
    requires k < |w.items| && w.layout < |specs|
  {
    && o.Event? && o.message == MessageOf(w) && o.streamSequence == at
    && o.record.family == InventoryToStorage && o.record.opcode == specs[w.layout].opcode
    && o.record.itemId == w.items[k].item && o.record.quantity == w.items[k].quantity
    && o.record.storageInstance == Some(w.items[k].instance)
    && (if |w.items| > 1 then o.record.recordIndex == Some(k + 1) && o.record.recordCount == Some(|w.items|)
        else o.record.recordIndex.None? && o.record.recordCount.None?)
    && Destined(o.record, specs[w.layout], MessageOf(w))
  }

  /** The record names the storage place that the four bytes of the message say, if its layout has them. */
  ghost predicate Destined(r: DecodedRecord, spec: EventSpec, m: Bytes) {
    match spec.sourceContextOffset
    case Some(at) =>
      spec.sourceContextLength == 4 && at + 4 <= |m| ==> r.storageId == Some(LittleEndian(m[at..at + 4]))
    case None => r.storageId.None?
  }

  /** One message is reported by a verdict, if anybody observes, and an event for each of its items. */
  ghost predicate ReportsMessage(outputs: seq<Output>, specs: seq<EventSpec>, observing: bool, w: Written,
                                 at: Option<int>)
    requires w.layout < |specs|
  {
    var v := if observing then 1 else 0;
    && |outputs| == v + |w.items|
    && (observing ==> outputs[0] == Verdict(specs[w.layout].opcode, |MessageOf(w)|, true, |w.items|, at))
    && var events := outputs[v..];
       forall k :: 0 <= k < |w.items| ==> ReportsItem(events[k], specs, w, k, at)
  }

  /** All messages, one after the other, the first of them at `at`. */
  ghost predicate ReportsAll(outputs: seq<Output>, specs: seq<EventSpec>, observing: bool, ws: seq<Written>,
                             at: Option<int>)
    requires AllSent(specs, ws)
  {
    if ws == [] then outputs == []
    else
      var n := (if observing then 1 else 0) + |ws[0].items|;
      && n <= |outputs| && ReportsMessage(outputs[..n], specs, observing, ws[0], at)
      && ReportsAll(outputs[n..], specs, observing, ws[1..], Shifted(at, |MessageOf(ws[0])|))
  }

  // What decodes is reported.

  /** As many events as records, each with its record. */
  lemma {:induction false} EveryRecordIsReported(records: seq<DecodedRecord>, message: Bytes, at: Option<int>)
    ensures var events := Events(records, message, at);
            |events| == |records| && forall k :: 0 <= k < |records| ==> events[k] == Event(records[k], message, at)
  {
    if records != [] {
      EveryRecordIsReported(records[1..], message, at);
    }
  }

  /** A message that a single layout decodes, whatever its family, is consumed, and after the verdict
      each of its records is reported, in order. */
  lemma SingleIsReported(matching: seq<EventSpec>, message: Bytes, at: Option<int>, observing: bool, i: nat)
    requires i < |matching| && !Undecoded(matching[i], message)
    requires forall j :: 0 <= j < |matching| && j != i ==> Undecoded(matching[j], message)
    ensures var records := Decode(matching[i], message, SourceContext(matching[i], message)).value;
            var h := Handle(matching, message, at, observing);
            && h.consumed && |records| <= |h.outputs|
            && var v := |h.outputs| - |records|;
               && (forall k :: 0 <= k < v ==> h.outputs[k].Verdict?)
               && h.outputs[v..] == seq(|records|, (k: nat) requires k < |records| => Event(records[k], message, at))
  {
    hide Decode, SourceContext, ValidDecodes;
    OnlyOneDecodes(matching, message, i);
    EveryRecordIsReported(Decode(matching[i], message, SourceContext(matching[i], message)).value, message, at);
  }

  /** If exactly one of the layouts decodes the message, that is what is found. */
  lemma {:induction false} OnlyOneDecodes(matching: seq<EventSpec>, message: Bytes, i: nat)
    requires i < |matching| && Decode(matching[i], message, SourceContext(matching[i], message)).Some?
    requires forall j :: 0 <= j < |matching| && j != i ==> Undecoded(matching[j], message)
    ensures ValidDecodes(matching, message) ==
            [Valid(matching[i], Decode(matching[i], message, SourceContext(matching[i], message)).value)]
  {
    hide Decode, SourceContext;
    var rest := matching[1..];
    assert i > 0 ==> Undecoded(matching[0], message);
    if i == 0 {
      NoneDecodes(rest, message);
    } else {
      assert rest[i - 1] == matching[i];
      OnlyOneDecodes(rest, message, i - 1);
    }
  }

  lemma {:induction false} NoneDecodes(matching: seq<EventSpec>, message: Bytes)
    requires forall j :: 0 <= j < |matching| ==> Undecoded(matching[j], message)
    ensures ValidDecodes(matching, message) == []
  {
    hide Decode, SourceContext;
    if matching != [] {
      assert Undecoded(matching[0], message);
      NoneDecodes(matching[1..], message);
    }
  }

  /** Among the layouts whose header fits the message is the sender's, and no other one decodes it. */
  lemma {:induction false} SendersMatches(specs: seq<EventSpec>, m: Bytes, layout: nat) returns (i: nat)
    requires layout < |specs| && HeaderAt(specs[layout], m, 0)
    requires forall j :: 0 <= j < |specs| && j != layout && HeaderAt(specs[j], m, 0) ==> Undecoded(specs[j], m)
    ensures var matching := MatchingAt(specs, m, 0);
            && i < |matching| && matching[i] == specs[layout]
            && forall j :: 0 <= j < |matching| && j != i ==> Undecoded(matching[j], m)
  {
    hide Undecoded, HeaderAt;
    OneMore(specs, m);
    var rest := specs[1..];
    var matching, more := MatchingAt(specs, m, 0), MatchingAt(rest, m, 0);
    if layout == 0 {
      i := 0;
      assert matching == [specs[0]] + more;
      forall j | 0 <= j < |rest| && HeaderAt(rest[j], m, 0) ensures Undecoded(rest[j], m) {
        assert rest[j] == specs[j + 1];
      }
      OthersMatch(rest, m);
      assert forall j :: 0 < j < |matching| ==> matching[j] == more[j - 1];
    } else {
      forall j | 0 <= j < |rest| && j != layout - 1 && HeaderAt(rest[j], m, 0) ensures Undecoded(rest[j], m) {
        assert rest[j] == specs[j + 1];
      }
      i := SendersMatches(rest, m, layout - 1);
      if HeaderAt(specs[0], m, 0) {
        i := i + 1;
        assert forall j :: 0 < j < |matching| ==> matching[j] == more[j - 1];
        assert Undecoded(specs[0], m);
      }
    }
  }

  lemma {:induction false} OthersMatch(specs: seq<EventSpec>, m: Bytes)
    requires forall j :: 0 <= j < |specs| && HeaderAt(specs[j], m, 0) ==> Undecoded(specs[j], m)
    ensures var matching := MatchingAt(specs, m, 0); forall j :: 0 <= j < |matching| ==> Undecoded(matching[j], m)
  {
    hide Undecoded, HeaderAt;
    if specs != [] {
      var rest := specs[1..];
      forall j | 0 <= j < |rest| && HeaderAt(rest[j], m, 0) ensures Undecoded(rest[j], m) {
        assert rest[j] == specs[j + 1];
      }
      OthersMatch(rest, m);
      OneMore(specs, m);
      var matching, more := MatchingAt(specs, m, 0), MatchingAt(rest, m, 0);
      forall j | 0 <= j < |matching| ensures Undecoded(matching[j], m) {
        if HeaderAt(specs[0], m, 0) && j > 0 {
          assert matching[j] == more[j - 1];
        }
      }
    }
  }

  lemma OneMore(specs: seq<EventSpec>, m: Bytes)
    requires specs != []
    ensures MatchingAt(specs, m, 0) ==
            (if HeaderAt(specs[0], m, 0) then [specs[0]] else []) + MatchingAt(specs[1..], m, 0)
  {
    hide HeaderAt;
  }

  // One message.

  /** What the header says is what its layout looks for. */
  lemma HeaderFits(spec: EventSpec, m: Bytes)
    requires |m| >= 5
    ensures m[2..5] == Signature(spec) <==> m[2] == 0 && U16(m, 3) == spec.opcode
  {
    var code := Encoded(spec.opcode, 2);
    Powers();
    DecodeEncoded(spec.opcode, 2);
    assert |code| == 2 && U16(code, 0) == spec.opcode by {
      LittleEndianOfTwo(code, 0);
      assert code[0..2] == code;
    }
    assert m[2..5] == [m[2], m[3], m[4]] && Signature(spec) == [0, code[0], code[1]];
    if U16(m, 3) == spec.opcode {
      assert m[3] as int + 0x100 * (m[4] as int) == code[0] as int + 0x100 * (code[1] as int);
    }
  }

  lemma SentIsValid(specs: seq<EventSpec>, w: Written)
    requires Sent(specs, w)
    ensures var m, spec := MessageOf(w), specs[w.layout];
            var r := Decode(spec, m, SourceContext(spec, m));
            r.Some? && ValidDecodes(MatchingAt(specs, m, 0), m) == [Valid(spec, r.value)]
            && MatchingAt(specs, m, 0) != []
  {
    hide Decode, Wrapper, SourceContext, LengthMatches, U16, Signature, ValidDecodes, MatchingAt;
    var m, spec := MessageOf(w), specs[w.layout];
    assert Wrapper(spec, w.prefix, w.records, w.stride, w.items);
    StorageRoundTrip(spec, w.prefix, w.records, w.stride, w.items, SourceContext(spec, m));
    HeaderFits(spec, m);
    assert HeaderAt(spec, m, 0);
    forall j | 0 <= j < |specs| && j != w.layout && HeaderAt(specs[j], m, 0) ensures Undecoded(specs[j], m) {
      HeaderFits(specs[j], m);
    }
    var i := SendersMatches(specs, m, w.layout);
    OnlyOneDecodes(MatchingAt(specs, m, 0), m, i);
  }

  lemma {:induction false} MatchingFits(specs: seq<EventSpec>, m: Bytes, i: nat)
    requires i < |MatchingAt(specs, m, 0)| && |m| >= 5
    ensures MatchingAt(specs, m, 0)[i].opcode == U16(m, 3)
  {
    hide U16, Signature;
    OneMore(specs, m);
    HeaderFits(specs[0], m);
    var first := if HeaderAt(specs[0], m, 0) then 1 else 0;
    if i >= first {
      assert MatchingAt(specs, m, 0)[i] == MatchingAt(specs[1..], m, 0)[i - first];
      MatchingFits(specs[1..], m, i - first);
    }
  }

  lemma {:induction false} StorageLayoutsAreMatching(matching: seq<EventSpec>)
    ensures forall spec :: spec in StorageLayouts(matching) <==> spec in matching && spec.family == InventoryToStorage
  {
    if matching != [] {
      StorageLayoutsAreMatching(matching[1..]);
      assert forall spec :: spec in matching <==> spec == matching[0] || spec in matching[1..];
    }
  }

  /** What the observer is told of a message that a single storage layout decodes. */
  lemma VerdictOfOne(matching: seq<EventSpec>, spec: EventSpec, records: seq<DecodedRecord>, opcode: nat, length: nat,
                     at: Option<int>)
    requires spec in matching && spec.family == InventoryToStorage && records != []
    requires forall s :: s in matching ==> s.opcode == opcode
    ensures Verdicts(matching, [Valid(spec, records)], length, at) == [Verdict(opcode, length, true, |records|, at)]
  {
    StorageLayoutsAreMatching(matching);
    var layouts := StorageLayouts(matching);
    assert spec in layouts && layouts[0] in layouts;
    assert StorageDecodes([Valid(spec, records)]) == [Valid(spec, records)];
  }

  /** The message is consumed, and reported item by item. */
  lemma MessageIsReported(specs: seq<EventSpec>, observing: bool, w: Written, at: Option<int>)
    requires Sent(specs, w)
    ensures var m := MessageOf(w);
            var h := Handle(MatchingAt(specs, m, 0), m, at, observing);
            h.consumed && ReportsMessage(h.outputs, specs, observing, w, at)
  {
    hide Decode, Wrapper, SourceContext, MatchingAt, ValidDecodes, Verdicts, ReportsItem, LengthMatches, Undecoded,
        U16;
    var m, spec := MessageOf(w), specs[w.layout];
    SentIsValid(specs, w);
    var records := Decode(spec, m, SourceContext(spec, m)).value;
    EveryRecordIsReported(records, m, at);
    SentRecords(specs, w, at);
    if observing {
      SentVerdict(specs, w, at);
    }
  }

  lemma SentRecords(specs: seq<EventSpec>, w: Written, at: Option<int>)
    requires Sent(specs, w)
    ensures var m, spec := MessageOf(w), specs[w.layout];
            var r := Decode(spec, m, SourceContext(spec, m));
            && r.Some? && |r.value| == |w.items|
            && forall k :: 0 <= k < |w.items| ==> ReportsItem(Event(r.value[k], m, at), specs, w, k, at)
  {
    hide Decode, SourceContext, RecordGeometry.Strides, Flatten, LengthMatches, EqualParts, RecordHolds, Storable;
    var m, spec := MessageOf(w), specs[w.layout];
    StorageRoundTrip(spec, w.prefix, w.records, w.stride, w.items, SourceContext(spec, m));
    ContextIsSlice(spec, m);
  }

  lemma ContextIsSlice(spec: EventSpec, m: Bytes)
    ensures match spec.sourceContextOffset
            case None => SourceContext(spec, m).None?
            case Some(at) =>
              spec.sourceContextLength == 4 && at + 4 <= |m| ==> SourceContext(spec, m) == Some(m[at..at + 4])
  {
  }

  lemma SentVerdict(specs: seq<EventSpec>, w: Written, at: Option<int>)
    requires Sent(specs, w)
    ensures var m, spec := MessageOf(w), specs[w.layout];
            Verdicts(MatchingAt(specs, m, 0), ValidDecodes(MatchingAt(specs, m, 0), m), |m|, at) ==
            [Verdict(spec.opcode, |m|, true, |w.items|, at)]
  {
    hide Decode, SourceContext, MatchingAt, Verdicts, EqualParts, RecordHolds, Storable, LengthMatches, U16, Undecoded,
        ReportsItem;
    var m, spec := MessageOf(w), specs[w.layout];
    SentIsValid(specs, w);
    SentRecords(specs, w, at);
    var i := SenderIsMatching(specs, w);
    forall s | s in MatchingAt(specs, m, 0) ensures s.opcode == spec.opcode {
      var j :| 0 <= j < |MatchingAt(specs, m, 0)| && MatchingAt(specs, m, 0)[j] == s;
      MatchingFits(specs, m, j);
    }
    VerdictOfOne(MatchingAt(specs, m, 0), spec, Decode(spec, m, SourceContext(spec, m)).value, spec.opcode, |m|, at);
  }

  lemma SenderIsMatching(specs: seq<EventSpec>, w: Written) returns (i: nat)
    requires Sent(specs, w)
    ensures i < |MatchingAt(specs, MessageOf(w), 0)| && MatchingAt(specs, MessageOf(w), 0)[i] == specs[w.layout]
  {
    hide Decode, SourceContext, MatchingAt, Wrapper, LengthMatches, U16, Undecoded, Signature;
    var m, spec := MessageOf(w), specs[w.layout];
    HeaderFits(spec, m);
    forall j | 0 <= j < |specs| && j != w.layout && HeaderAt(specs[j], m, 0) ensures Undecoded(specs[j], m) {
      HeaderFits(specs[j], m);
    }
    i := SendersMatches(specs, m, w.layout);
  }

  /** A message that several layouts decode is ambiguous: no record is reported, and it is not consumed. */
  lemma AmbiguousIsSilent(matching: seq<EventSpec>, message: Bytes, at: Option<int>, observing: bool, i: nat, j: nat)
    requires i < j < |matching| && !Undecoded(matching[i], message) && !Undecoded(matching[j], message)
    ensures var h := Handle(matching, message, at, observing);
            !h.consumed && forall k :: 0 <= k < |h.outputs| ==> h.outputs[k].Verdict?
  {
    hide Decode, SourceContext, ValidDecodes;
    SeveralDecode(matching, message, i, j);
  }

  lemma {:induction false} SeveralDecode(matching: seq<EventSpec>, message: Bytes, i: nat, j: nat)
    requires i < j < |matching| && !Undecoded(matching[i], message) && !Undecoded(matching[j], message)
    ensures |ValidDecodes(matching, message)| >= 2
  {
    hide Decode, SourceContext;
    if i > 0 {
      SeveralDecode(matching[1..], message, i - 1, j - 1);
    } else {
      SomeDecodes(matching[1..], message, j - 1);
    }
  }

  lemma {:induction false} SomeDecodes(matching: seq<EventSpec>, message: Bytes, j: nat)
    requires j < |matching| && !Undecoded(matching[j], message)
    ensures ValidDecodes(matching, message) != []
  {
    hide Decode, SourceContext;
    if j > 0 {
      SomeDecodes(matching[1..], message, j - 1);
    }
  }

  /** A message that no layout decodes is not consumed; the observer is told so if a storage layout matches. */
  lemma UndecodedIsTold(matching: seq<EventSpec>, message: Bytes, at: Option<int>, observing: bool)
    requires forall j :: 0 <= j < |matching| ==> Undecoded(matching[j], message)
    requires exists j :: 0 <= j < |matching| && matching[j].family == InventoryToStorage
    requires forall j :: 0 <= j < |matching| ==> matching[j].opcode == matching[0].opcode
    ensures var h := Handle(matching, message, at, observing);
            !h.consumed && h.outputs ==
              if observing then [Verdict(matching[0].opcode, |message|, false, 0, at)] else []
  {
    hide Decode, SourceContext, ValidDecodes;
    NoneDecodes(matching, message);
    StorageLayoutsAreMatching(matching);
    var j :| 0 <= j < |matching| && matching[j].family == InventoryToStorage;
    assert matching[j] in StorageLayouts(matching);
    assert StorageLayouts(matching)[0] in matching;
    assert StorageDecodes([]) == [];
  }

  // The stream.

  /** In front of any further bytes the message is scanned as a whole, and then what follows it. */
  lemma MessageIsScanned(specs: seq<EventSpec>, observing: bool, w: Written, later: Bytes, at: Option<int>)
    requires Sent(specs, w)
    ensures var m := MessageOf(w);
            var h := Handle(MatchingAt(specs, m, 0), m, at, observing);
            var more := Scan(specs, observing, later, Shifted(at, |m|));
            Scan(specs, observing, m + later, at) == Scanned(h.outputs + more.outputs, more.rest)
  {
    hide Decode, Wrapper, SourceContext, MatchingAt, Handle, Scan, LengthMatches, Undecoded, Leftmost;
    var m := MessageOf(w);
    SentIsValid(specs, w);
    MatchingInPrefix(specs, m, later, 0);
    LeftmostAtStart(specs, m + later);
    MessageIsReported(specs, observing, w, at);
    assert (m + later)[0..|m|] == m && (m + later)[|m|..] == later;
    assert Shifted(at, 0) == at;
    assert StepOf(specs, observing, m + later, at) ==
           Complete(Handle(MatchingAt(specs, m, 0), m, at, observing).outputs, |m|);
    ScanOfComplete(specs, observing, m + later, at);
  }

  /** Behind the header of a message that no single layout decodes the scan goes on with the very next byte. */
  lemma FalseMessageIsSteppedInto(specs: seq<EventSpec>, observing: bool, m: Bytes, later: Bytes, at: Option<int>)
    requires |m| >= 5 && U16(m, 0) == |m| && MatchingAt(specs, m, 0) != []
    requires |ValidDecodes(MatchingAt(specs, m, 0), m)| != 1
    ensures var h := Handle(MatchingAt(specs, m, 0), m, at, observing);
            var more := Scan(specs, observing, (m + later)[1..], Shifted(at, 1));
            Scan(specs, observing, m + later, at) == Scanned(h.outputs + more.outputs, more.rest)
  {
    hide MatchingAt, Scan, Leftmost, ValidDecodes, Verdicts, Events;
    MatchingInPrefix(specs, m, later, 0);
    LeftmostAtStart(specs, m + later);
    assert (m + later)[0..|m|] == m && U16(m + later, 0) == |m|;
    assert Shifted(at, 0) == at;
    assert StepOf(specs, observing, m + later, at) ==
           Complete(Handle(MatchingAt(specs, m, 0), m, at, observing).outputs, 1);
    ScanOfComplete(specs, observing, m + later, at);
  }

  lemma LeftmostAtStart(specs: seq<EventSpec>, b: Bytes)
    requires MatchingAt(specs, b, 0) != []
    ensures Leftmost(specs, b, 0) == Some(0)
  {
    hide MatchingAt;
  }

  /** A scan of the whole stream reports every message and keeps nothing. */
  lemma {:induction false} StreamIsReported(specs: seq<EventSpec>, observing: bool, ws: seq<Written>, at: Option<int>)
    requires AllSent(specs, ws)
    ensures var r := Scan(specs, observing, StreamOf(ws), at);
            r.rest == [] && ReportsAll(r.outputs, specs, observing, ws, at)
  {
    hide Scan, Sent, ReportsMessage, Handle, MatchingAt;
    if ws == [] {
      ScanOfNothing(specs, observing, at);
    } else {
      var w, rest := ws[0], ws[1..];
      var m, later := MessageOf(w), StreamOf(ws[1..]);
      assert Sent(specs, w);
      StreamIsReported(specs, observing, rest, Shifted(at, |m|));
      MessageIsScanned(specs, observing, w, later, at);
      MessageIsReported(specs, observing, w, at);
      var h, more := Handle(MatchingAt(specs, m, 0), m, at, observing), Scan(specs, observing, later, Shifted(at, |m|));
      var n := (if observing then 1 else 0) + |w.items|;
      ReportLength(h.outputs, specs, observing, w, at);
      assert (h.outputs + more.outputs)[..n] == h.outputs && (h.outputs + more.outputs)[n..] == more.outputs;
    }
  }

  lemma ReportLength(outputs: seq<Output>, specs: seq<EventSpec>, observing: bool, w: Written, at: Option<int>)
    requires Sent(specs, w) && ReportsMessage(outputs, specs, observing, w, at)
    ensures |outputs| == (if observing then 1 else 0) + |w.items|
  {
  }

  lemma ScanOfNothing(specs: seq<EventSpec>, observing: bool, at: Option<int>)
    ensures Scan(specs, observing, [], at) == Scanned([], [])
  {
  }

  /** Storage round trip over the wire: however the stream of wrappers is cut into chunks, a scanner that
      holds nothing reports exactly their items, in order and at their places, and again holds nothing. */
  method Receive(scanner: TargetScanner.TargetMessageScanner, ghost ws: seq<Written>, chunks: seq<Bytes>, at: int)
    requires scanner.Valid() && scanner.buffer == []
    requires AllSent(scanner.specs, ws) && Flatten(chunks) == StreamOf(ws)
    modifies scanner
    ensures scanner.Valid() && scanner.buffer == [] && old(scanner.outputs) <= scanner.outputs
    ensures ReportsAll(scanner.outputs[|old(scanner.outputs)|..], scanner.specs, scanner.observing, ws, Some(at))
  {
    hide Scan, AllSent, Fed, ReportsAll, StreamOf, Flatten;
    ghost var specs, observing, s := scanner.specs, scanner.observing, scanner.State();
    var i, received := 0, 0;
    NothingReceived(specs, observing, s, chunks, at);
    while i < |chunks|
      invariant 0 <= i <= |chunks| && scanner.Valid() && received == |Flatten(chunks[..i])|
      invariant scanner.State() == Fed(specs, observing, s, Flatten(chunks[..i]), Some(at))
    {
      assert chunks[..i + 1] == chunks[..i] + [chunks[i]];
      FlattenAppend(chunks[..i], [chunks[i]]);
      FlattenOne(chunks[i]);
      scanner.Feed(chunks[i], Some(at + received));
      FeedsJoin(specs, observing, s, Flatten(chunks[..i]), chunks[i], Some(at), Some(at + received));
      received := received + |chunks[i]|;
      i := i + 1;
    }
    assert chunks[..i] == chunks;
    AllReceived(specs, observing, s, ws, at);
  }

  /** Wrappers that come late, apart from the stream, are reported just so, whatever the scanner has buffered. */
  method ReceiveLate(scanner: TargetScanner.TargetMessageScanner, ghost ws: seq<Written>, data: Bytes, at: int)
    requires scanner.Valid() && AllSent(scanner.specs, ws) && data == StreamOf(ws)
    modifies scanner
    ensures scanner.buffer == old(scanner.buffer) && scanner.bufferStartSequence == old(scanner.bufferStartSequence)
    ensures old(scanner.outputs) <= scanner.outputs
    ensures ReportsAll(scanner.outputs[|old(scanner.outputs)|..], scanner.specs, scanner.observing, ws, Some(at))
  {
    hide Scan, AllSent, ReportsAll, StreamOf;
    StreamIsReported(scanner.specs, scanner.observing, ws, Some(at));
    if data == [] {
      ScanOfNothing(scanner.specs, scanner.observing, Some(at));
    }
    ghost var was, r := scanner.outputs, Scan(scanner.specs, scanner.observing, data, Some(at));
    scanner.ScanStandalone(data, Some(at));
    assert (was + r.outputs)[|was|..] == r.outputs;
  }

  lemma FlattenOne(chunk: Bytes)
    ensures Flatten([chunk]) == chunk
  {
    assert chunk + Flatten([]) == chunk;
  }

  lemma NothingReceived(specs: seq<EventSpec>, observing: bool, s: ScannerState, chunks: seq<Bytes>, at: int)
    ensures Flatten(chunks[..0]) == [] && Fed(specs, observing, s, Flatten(chunks[..0]), Some(at)) == s
  {
  }

  lemma AllReceived(specs: seq<EventSpec>, observing: bool, s: ScannerState, ws: seq<Written>, at: int)
    requires AllSent(specs, ws) && s.buffer == []
    ensures var t := Fed(specs, observing, s, StreamOf(ws), Some(at));
            && t.buffer == [] && s.outputs <= t.outputs
            && ReportsAll(t.outputs[|s.outputs|..], specs, observing, ws, Some(at))
  {
    hide Scan, AllSent, ReportsAll;
    StreamIsReported(specs, observing, ws, Some(at));
    var b, r := StreamOf(ws), Scan(specs, observing, StreamOf(ws), Some(at));
    assert s.buffer + b == b;
    if b == [] {
      ScanOfNothing(specs, observing, Some(at));
      assert s.outputs[|s.outputs|..] == [];
    } else {
      assert (s.outputs + r.outputs)[|s.outputs|..] == r.outputs;
    }
  }
}
