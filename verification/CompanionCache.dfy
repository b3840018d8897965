// Companion discovery and its bounded cache, which must never change what discovery says.
module CompanionCache {
  import opened Wire
  import opened ScannerLog
  import opened MessageDecoder

  const TOKEN_WIDTH: nat := 8
  const MIN_TOKEN_UNIQUE_BYTES: nat := 6
  const MAX_MESSAGE_LENGTH: nat := 0xFFFF

  type Digest = Bytes -> string

  function DistinctBytes(token: Bytes): (n: nat) {
    |set i | 0 <= i < |token| :: (token[i] as int) as nat|
  }

  /** Token positions in the three messages. */
  datatype Positions = Positions(delta: nat, first: nat, second: nat)

  /** A token of the delta's prefix is informative and occurs, behind the header, in both companions. */
  predicate SharedAt(delta: Bytes, first: Bytes, second: Bytes, prefixEnd: int, at: nat) {
    && 5 <= at && at + TOKEN_WIDTH <= Min(prefixEnd, |delta|)
    && var token := delta[at..at + TOKEN_WIDTH];
    && DistinctBytes(token) >= MIN_TOKEN_UNIQUE_BYTES
    && FindFrom(first, token, 5).Some? && FindFrom(second, token, 5).Some?
  }

  function TokenAt(delta: Bytes, at: nat): Bytes
    requires at + TOKEN_WIDTH <= |delta|
  {
    delta[at..at + TOKEN_WIDTH]
  }

  /** More distinct bytes, or as many and earlier. */
  predicate Stronger(delta: Bytes, a: nat, b: nat)
    requires a + TOKEN_WIDTH <= |delta| && b + TOKEN_WIDTH <= |delta|
  {
    var x, y := DistinctBytes(TokenAt(delta, a)), DistinctBytes(TokenAt(delta, b));
    x > y || (x == y && a < b)
  }

  /** The strongest shared token from `from` on. */
  function StrongestFrom(delta: Bytes, first: Bytes, second: Bytes, prefixEnd: int, from: nat): (at: Option<nat>)
    ensures at.Some? ==> from <= at.value && SharedAt(delta, first, second, prefixEnd, at.value)
    ensures at.Some? ==> forall p: nat ::
              from <= p && p != at.value && SharedAt(delta, first, second, prefixEnd, p) ==>
                Stronger(delta, at.value, p)
    ensures at.None? ==> forall p: nat :: from <= p ==> !SharedAt(delta, first, second, prefixEnd, p)
    decreases |delta| - from
  {
    if from >= |delta| then None
    else
      var later := StrongestFrom(delta, first, second, prefixEnd, from + 1);
      if !SharedAt(delta, first, second, prefixEnd, from) then later
      else if later.None? || !Stronger(delta, later.value, from) then Some(from)
      else later
  }

  datatype Token = Token(bytes: Bytes, positions: Positions)

  function SharedToken(delta: Bytes, first: Bytes, second: Bytes, prefixEnd: int): (t: Option<Token>) {
    var at := StrongestFrom(delta, first, second, prefixEnd, 5);
    if at.None? then None
    else
      var token := TokenAt(delta, at.value);
      Some(Token(token, Positions(at.value, FindFrom(first, token, 5).value, FindFrom(second, token, 5).value)))
  }

  /** The search, keeping the strongest candidate so far. */
  method SearchSharedToken(delta: Bytes, first: Bytes, second: Bytes, prefixEnd: int) returns (t: Option<Token>)
    ensures t == SharedToken(delta, first, second, prefixEnd)
  {
    hide Stronger, DistinctBytes;
    var best: Option<nat> := None;
    var end := Min(prefixEnd, |delta|);
    var at := 5;
    while at + TOKEN_WIDTH <= end
      invariant 5 <= at
      invariant best.Some? ==> best.value < at && SharedAt(delta, first, second, prefixEnd, best.value)
      invariant best.Some? ==> forall p: nat ::
                  p < at && p != best.value && SharedAt(delta, first, second, prefixEnd, p) ==>
                    Stronger(delta, best.value, p)
      invariant best.None? ==> forall p: nat :: p < at ==> !SharedAt(delta, first, second, prefixEnd, p)
    {
      if SharedAt(delta, first, second, prefixEnd, at) {
        if best.None? || Stronger(delta, at, best.value) {
          BeatsAll(delta, first, second, prefixEnd, best, at);
          best := Some(at);
        } else {
          LastIsWeaker(delta, best.value, at);
        }
      }
      at := at + 1;
    }
    StrongestIsUnique(delta, first, second, prefixEnd, best);
    if best.None? {
      return None;
    }
    var token := TokenAt(delta, best.value);
    t := Some(Token(token, Positions(best.value, FindFrom(first, token, 5).value, FindFrom(second, token, 5).value)));
  }

  lemma LastIsWeaker(delta: Bytes, a: nat, b: nat)
    requires a + TOKEN_WIDTH <= |delta| && b + TOKEN_WIDTH <= |delta| && a != b && !Stronger(delta, b, a)
    ensures Stronger(delta, a, b)
  {
    hide DistinctBytes;
  }

  lemma BeatsAll(delta: Bytes, first: Bytes, second: Bytes, prefixEnd: int, best: Option<nat>, at: nat)
    requires SharedAt(delta, first, second, prefixEnd, at)
    requires best.Some? ==> SharedAt(delta, first, second, prefixEnd, best.value) && Stronger(delta, at, best.value)
    requires best.Some? ==> forall p: nat ::
               p < at && p != best.value && SharedAt(delta, first, second, prefixEnd, p) ==>
                 Stronger(delta, best.value, p)
    requires best.None? ==> forall p: nat :: p < at ==> !SharedAt(delta, first, second, prefixEnd, p)
    ensures forall p: nat :: p < at && SharedAt(delta, first, second, prefixEnd, p) ==> Stronger(delta, at, p)
  {
    hide DistinctBytes;
  }

  lemma StrongestIsUnique(delta: Bytes, first: Bytes, second: Bytes, prefixEnd: int, best: Option<nat>)
    requires best.Some? ==> 5 <= best.value && SharedAt(delta, first, second, prefixEnd, best.value)
    requires best.Some? ==> forall p: nat ::
               p != best.value && SharedAt(delta, first, second, prefixEnd, p) ==> Stronger(delta, best.value, p)
    requires best.None? ==> forall p: nat :: !SharedAt(delta, first, second, prefixEnd, p)
    ensures best == StrongestFrom(delta, first, second, prefixEnd, 5)
  {
    hide DistinctBytes;
  }

  /** What identifies an observation but not the match: when and where. */
  datatype Stamp = Stamp(timestamp: real, flow: FlowKey, streamSequence: Option<int>)

  datatype Observation = Observation(
    stamp: Stamp, deltaOpcode: nat, deltaLength: nat, companionOpcodes: (nat, nat), companionLengths: (nat, nat),
    tokenDigest: string, tokenOffsets: Positions)

  predicate Framed(message: Bytes) {
    5 <= |message| <= MAX_MESSAGE_LENGTH && U16(message, 0) == |message|
  }

  /** The delta and the two frames after it as one observation, if they frame correctly and share a token. */
  function DiscoverCompanions(digest: Digest, delta: Bytes, first: Bytes, second: Bytes, stamp: Stamp,
      prefixEnd: int): (o: Option<Observation>) {
    if !Framed(delta) || !Framed(first) || !Framed(second) then None
    else if !(5 + TOKEN_WIDTH <= prefixEnd <= |delta|) then None
    else
      var deltaOpcode, firstOpcode, secondOpcode := U16(delta, 3), U16(first, 3), U16(second, 3);
      if firstOpcode == deltaOpcode || secondOpcode == deltaOpcode || firstOpcode == secondOpcode then None
      else
        var shared := SharedToken(delta, first, second, prefixEnd);
        if shared.None? then None
        else Some(Observation(stamp, deltaOpcode, |delta|, (firstOpcode, secondOpcode), (|first|, |second|),
                              digest(shared.value.bytes), shared.value.positions))
  }

  /** `token` occurs in the message, behind its header, first at `at`. */
  ghost predicate FirstAt(message: Bytes, token: Bytes, at: nat) {
    5 <= at && OccursAt(message, token, at) && forall p :: 5 <= p < at ==> !OccursAt(message, token, p)
  }

  /** Eight bytes of the delta's header, six of them different, occur in both other frames. */
  ghost predicate Shares(delta: Bytes, first: Bytes, second: Bytes, prefixEnd: int, at: Positions) {
    && 5 <= at.delta && at.delta + 8 <= prefixEnd <= |delta|
    && var token := delta[at.delta..at.delta + 8];
    && DistinctBytes(token) >= 6 && FirstAt(first, token, at.first) && FirstAt(second, token, at.second)
  }

  /** No other shared token has more distinct bytes, or as many and comes earlier. */
  ghost predicate BestShared(delta: Bytes, first: Bytes, second: Bytes, prefixEnd: int, at: Positions) {
    && Shares(delta, first, second, prefixEnd, at)
    && forall other: Positions :: Shares(delta, first, second, prefixEnd, other) ==>
         var x, y := DistinctBytes(delta[at.delta..at.delta + 8]), DistinctBytes(delta[other.delta..other.delta + 8]);
         y <= x && (y == x ==> at.delta <= other.delta)
  }

  /** Three frames that declare their own lengths, are of three different kinds and share a token. */
  ghost predicate Companions(delta: Bytes, first: Bytes, second: Bytes, prefixEnd: int) {
    && (forall m :: m in [delta, first, second] ==> 5 <= |m| <= 65_535 && U16(m, 0) == |m|)
    && 13 <= prefixEnd <= |delta|
    && U16(delta, 3) != U16(first, 3) && U16(delta, 3) != U16(second, 3) && U16(first, 3) != U16(second, 3)
    && exists at :: Shares(delta, first, second, prefixEnd, at)
  }

  lemma SharesIsShared(delta: Bytes, first: Bytes, second: Bytes, prefixEnd: int, at: nat)
    requires prefixEnd <= |delta|
    ensures SharedAt(delta, first, second, prefixEnd, at) ==>
              var token := delta[at..at + 8];
              && FindFrom(first, token, 5).Some? && FindFrom(second, token, 5).Some?
              && Shares(delta, first, second, prefixEnd,
                     Positions(at, FindFrom(first, token, 5).value, FindFrom(second, token, 5).value))
    ensures forall p: Positions :: Shares(delta, first, second, prefixEnd, p) && p.delta == at ==>
              SharedAt(delta, first, second, prefixEnd, at)
  {
    hide DistinctBytes;
  }

  /** Which three frames are one observation, and what it says of them. */
  lemma CompanionsAreDiscovered(digest: Digest, delta: Bytes, first: Bytes, second: Bytes, stamp: Stamp,
                                prefixEnd: int)
    ensures var o := DiscoverCompanions(digest, delta, first, second, stamp, prefixEnd);
            && (o.Some? <==> Companions(delta, first, second, prefixEnd))
            && (o.Some? ==>
                  && o.value.stamp == stamp
                  && o.value.deltaOpcode == U16(delta, 3) && o.value.deltaLength == |delta|
                  && o.value.companionOpcodes == (U16(first, 3), U16(second, 3))
                  && o.value.companionLengths == (|first|, |second|)
                  && BestShared(delta, first, second, prefixEnd, o.value.tokenOffsets)
                  && o.value.tokenDigest ==
                     digest(delta[o.value.tokenOffsets.delta..o.value.tokenOffsets.delta + 8]))
  {
    hide DistinctBytes, StrongestFrom, SharedAt, Shares, FindFrom, Stronger, U16;
    if Framed(delta) && Framed(first) && Framed(second) && 13 <= prefixEnd <= |delta| {
      var at := StrongestFrom(delta, first, second, prefixEnd, 5);
      forall p: nat ensures SharedAt(delta, first, second, prefixEnd, p) <==>
                              exists q: Positions :: Shares(delta, first, second, prefixEnd, q) && q.delta == p {
        SharesIsShared(delta, first, second, prefixEnd, p);
      }
      if at.Some? {
        SharesIsShared(delta, first, second, prefixEnd, at.value);
        StrongestIsBest(delta, first, second, prefixEnd, at.value);
      } else {
        forall q: Positions ensures !Shares(delta, first, second, prefixEnd, q) {
          SharesIsShared(delta, first, second, prefixEnd, q.delta);
          SharedIsBehindHeader(delta, first, second, prefixEnd, q.delta);
        }
      }
    }
  }

  lemma SharedIsBehindHeader(delta: Bytes, first: Bytes, second: Bytes, prefixEnd: int, at: nat)
    ensures SharedAt(delta, first, second, prefixEnd, at) ==> 5 <= at && at + 8 <= |delta|
  {
    hide DistinctBytes;
  }

  lemma StrongestIsBest(delta: Bytes, first: Bytes, second: Bytes, prefixEnd: int, at: nat)
    requires prefixEnd <= |delta| && StrongestFrom(delta, first, second, prefixEnd, 5) == Some(at)
    ensures SharedAt(delta, first, second, prefixEnd, at)
    ensures var token := delta[at..at + 8];
            && FindFrom(first, token, 5).Some? && FindFrom(second, token, 5).Some?
            && BestShared(delta, first, second, prefixEnd,
                   Positions(at, FindFrom(first, token, 5).value, FindFrom(second, token, 5).value))
  {
    hide DistinctBytes, StrongestFrom, SharedAt, FindFrom;
    SharesIsShared(delta, first, second, prefixEnd, at);
    SharedIsBehindHeader(delta, first, second, prefixEnd, at);
    var token := delta[at..at + 8];
    var best := Positions(at, FindFrom(first, token, 5).value, FindFrom(second, token, 5).value);
    forall other: Positions | Shares(delta, first, second, prefixEnd, other)
      ensures var x, y := DistinctBytes(token), DistinctBytes(delta[other.delta..other.delta + 8]);
              y <= x && (y == x ==> at <= other.delta)
    {
      SharesIsShared(delta, first, second, prefixEnd, other.delta);
      SharedIsBehindHeader(delta, first, second, prefixEnd, other.delta);
    }
  }

  /** Python's `message[:n]`. */
  function Prefix(message: Bytes, n: int): Bytes {
    if n >= |message| then message
    else if n >= 0 then message[..n]
    else if n + |message| > 0 then message[..n + |message|]
    else []
  }

  datatype Key = Key(prefix: Bytes, length: nat, prefixEnd: int, first: Bytes, second: Bytes)

  function KeyOf(delta: Bytes, first: Bytes, second: Bytes, prefixEnd: int): Key {
    Key(Prefix(delta, prefixEnd), |delta|, prefixEnd, first, second)
  }

  /** Tokens are read from the prefix only. */
  lemma {:induction false} PrefixDecidesToken(a: Bytes, b: Bytes, first: Bytes, second: Bytes, prefixEnd: nat,
      from: nat)
    requires |a| == |b| && prefixEnd <= |a| && a[..prefixEnd] == b[..prefixEnd]
    ensures StrongestFrom(a, first, second, prefixEnd, from) == StrongestFrom(b, first, second, prefixEnd, from)
    decreases |a| - from
  {
    if from < |a| {
      PrefixDecidesToken(a, b, first, second, prefixEnd, from + 1);
      SameTokenInPrefix(a, b, first, second, prefixEnd, from);
      var later := StrongestFrom(a, first, second, prefixEnd, from + 1);
      if later.Some? {
        SameTokenInPrefix(a, b, first, second, prefixEnd, later.value);
      }
      hide DistinctBytes, SharedAt;
    }
  }

  lemma SameTokenInPrefix(a: Bytes, b: Bytes, first: Bytes, second: Bytes, prefixEnd: nat, at: nat)
    requires |a| == |b| && prefixEnd <= |a| && a[..prefixEnd] == b[..prefixEnd]
    ensures SharedAt(a, first, second, prefixEnd, at) <==> SharedAt(b, first, second, prefixEnd, at)
    ensures at + TOKEN_WIDTH <= prefixEnd ==> TokenAt(a, at) == TokenAt(b, at)
  {
    hide DistinctBytes;
    if at + TOKEN_WIDTH <= prefixEnd {
      assert a[at..at + TOKEN_WIDTH] == a[..prefixEnd][at..at + TOKEN_WIDTH];
      assert b[at..at + TOKEN_WIDTH] == b[..prefixEnd][at..at + TOKEN_WIDTH];
    }
  }

  /** Discovery depends on the delta message only through its key. */
  lemma KeyDecides(digest: Digest, a: Bytes, b: Bytes, first: Bytes, second: Bytes, stamp: Stamp, prefixEnd: int)
    requires KeyOf(a, first, second, prefixEnd) == KeyOf(b, first, second, prefixEnd)
    ensures DiscoverCompanions(digest, a, first, second, stamp, prefixEnd) ==
            DiscoverCompanions(digest, b, first, second, stamp, prefixEnd)
  {
    hide StrongestFrom;
    if 5 + TOKEN_WIDTH <= prefixEnd <= |a| {
      assert a[..prefixEnd] == Prefix(a, prefixEnd) && b[..prefixEnd] == Prefix(b, prefixEnd);
      HeaderInPrefix(a, b, prefixEnd);
      PrefixDecidesToken(a, b, first, second, prefixEnd, 5);
      var at := StrongestFrom(a, first, second, prefixEnd, 5);
      if at.Some? {
        SameTokenInPrefix(a, b, first, second, prefixEnd, at.value);
      }
      hide Prefix, U16, TokenAt;
    }
  }

  lemma HeaderInPrefix(a: Bytes, b: Bytes, n: nat)
    requires 5 <= n <= |a| == |b| && a[..n] == b[..n]
    ensures U16(a, 0) == U16(b, 0) && U16(a, 3) == U16(b, 3)
  {
    assert forall i :: 0 <= i < 5 ==> a[i] == a[..n][i] == b[..n][i] == b[i];
  }

  function Restamped(o: Option<Observation>, stamp: Stamp): Option<Observation> {
    if o.Some? then Some(o.value.(stamp := stamp)) else None
  }

  lemma StampIsLabel(digest: Digest, delta: Bytes, first: Bytes, second: Bytes, a: Stamp, b: Stamp, prefixEnd: int)
    ensures Restamped(DiscoverCompanions(digest, delta, first, second, a, prefixEnd), b) ==
            DiscoverCompanions(digest, delta,
        first, second, b, prefixEnd)
  {
  }

  datatype Entry = Entry(key: Key, observation: Option<Observation>, size: nat)

  function TotalSize(entries: seq<Entry>): nat {
    if entries == [] then 0 else entries[0].size + TotalSize(entries[1..])
  }

  lemma {:induction false} SizesAdd(a: seq<Entry>, b: seq<Entry>)
    ensures TotalSize(a + b) == TotalSize(a) + TotalSize(b)
  {
    if a == [] {
      assert a + b == b;
    } else {
      SizesAdd(a[1..], b);
      assert (a + b)[1..] == a[1..] + b;
    }
  }

  function SizeOf(key: Key): nat {
    |key.prefix| + |key.first| + |key.second|
  }

  /** The bytes that the keys of these entries hold. */
  ghost function KeyBytes(entries: seq<Entry>): (n: nat) {
    if entries == [] then 0
    else |entries[0].key.prefix| + |entries[0].key.first| + |entries[0].key.second| + KeyBytes(entries[1..])
  }

  lemma {:induction false} KeySizes(entries: seq<Entry>, digest: Digest)
    requires forall i :: 0 <= i < |entries| ==> Right(digest, entries[i])
    ensures KeyBytes(entries) == TotalSize(entries)
  {
    if entries != [] {
      assert Right(digest, entries[0]);
      KeySizes(entries[1..], digest);
    }
  }

  /** The entry is what some direct discovery under its key said. */
  ghost predicate Right(digest: Digest, e: Entry) {
    && e.size == SizeOf(e.key)
    && exists delta: Bytes, stamp: Stamp ::
         KeyOf(delta, e.key.first, e.key.second, e.key.prefixEnd) == e.key
         && e.observation == DiscoverCompanions(digest, delta, e.key.first, e.key.second, stamp, e.key.prefixEnd)
  }

  /** What is remembered under a key is what any discovery under that key says, but for the stamp. */
  lemma RightForAll(digest: Digest, e: Entry, delta: Bytes, first: Bytes, second: Bytes, stamp: Stamp, prefixEnd: int)
    requires Right(digest, e) && e.key == KeyOf(delta, first, second, prefixEnd)
    ensures Restamped(e.observation, stamp) == DiscoverCompanions(digest, delta, first, second, stamp, prefixEnd)
  {
    hide DiscoverCompanions, Prefix;
    var known: Bytes, was: Stamp :|
      KeyOf(known, e.key.first, e.key.second, e.key.prefixEnd) == e.key
      && e.observation == DiscoverCompanions(digest, known, e.key.first, e.key.second, was, e.key.prefixEnd);
    KeyDecides(digest, known, delta, first, second, was, prefixEnd);
    StampIsLabel(digest, delta, first, second, was, stamp, prefixEnd);
  }

  function Find(entries: seq<Entry>, key: Key): (at: Option<nat>)
    ensures at.Some? ==> at.value < |entries| && entries[at.value].key == key
    ensures at.None? ==> forall i :: 0 <= i < |entries| ==> entries[i].key != key
  {
    if entries == [] then None
    else if entries[|entries| - 1].key == key then Some(|entries| - 1)
    else Find(entries[..|entries| - 1], key)
  }

  function Without(entries: seq<Entry>, i: nat): (r: seq<Entry>)
    requires i < |entries|
    ensures |r| == |entries| - 1
    ensures forall k :: 0 <= k < |r| ==> r[k] == entries[if k < i then k else k + 1]
  {
    entries[..i] + entries[i + 1..]
  }

  predicate DistinctKeys(entries: seq<Entry>) {
    forall i, j :: 0 <= i < j < |entries| ==> entries[i].key != entries[j].key
  }

  lemma TouchingKeepsSizes(entries: seq<Entry>, i: nat)
    requires i < |entries|
    ensures TotalSize(Without(entries, i) + [entries[i]]) == TotalSize(entries)
  {
    SizesAdd(entries[..i], entries[i + 1..]);
    SizesAdd(Without(entries, i), [entries[i]]);
    SizesAdd([entries[i]], entries[i + 1..]);
    SizesAdd(entries[..i], [entries[i]] + entries[i + 1..]);
    assert entries == entries[..i] + ([entries[i]] + entries[i + 1..]);
  }

  class CompanionDiscoveryCache {
    const limit: nat := 4096
    const byteLimit: nat := 2 * 1024 * 1024
    const digest: Digest

    /** Least recently used first. */
    var entries: seq<Entry>
    var bytes: nat

    ghost predicate Valid()
      reads this
    {
      && DistinctKeys(entries) && |entries| <= limit
      && bytes == TotalSize(entries) && bytes <= byteLimit
      && forall i :: 0 <= i < |entries| ==> Right(digest, entries[i])
    }

    constructor (digest: Digest)
      ensures Valid() && entries == [] && this.digest == digest
    {
      this.digest := digest;
      entries, bytes := [], 0;
    }

    /** At most 4096 entries are remembered, with keys of at most two mebibytes together. */
    lemma IsBounded()
      requires Valid()
      ensures |entries| <= 4096 && KeyBytes(entries) <= 2_097_152
    {
      hide Right;
      KeySizes(entries, digest);
    }

    method Clear()
      modifies this
      ensures Valid() && entries == []
    {
      entries, bytes := [], 0;
    }

    /** Transparent in every state: the answer is that of a direct discovery. */
    method Discover(delta: Bytes, first: Bytes, second: Bytes, stamp: Stamp, prefixEnd: int)
      returns (o: Option<Observation>)
      requires Valid()
      modifies this
      ensures Valid() && o == DiscoverCompanions(digest, delta, first, second, stamp, prefixEnd)
      ensures var key := KeyOf(delta, first, second, prefixEnd);
              if Find(old(entries), key).Some? then
                var at := Find(old(entries), key).value; entries == Without(old(entries), at) + [old(entries)[at]]
              else if SizeOf(key) > byteLimit then entries == old(entries)
              else Remembered(old(entries), Entry(key, o, SizeOf(key)))
    {
      hide Right, KeyOf, DiscoverCompanions, DistinctKeys;
      var key := KeyOf(delta, first, second, prefixEnd);
      KeyIs(delta, first, second, prefixEnd);
      var at := Find(entries, key);
      if at.Some? {
        var e := entries[at.value];
        Touch(at.value);
        RightForAll(digest, e, delta, first, second, stamp, prefixEnd);
        o := if e.observation.None? then None else Some(e.observation.value.(stamp := stamp));
        return;
      }
      o := DiscoverCompanions(digest, delta, first, second, stamp, prefixEnd);
      var size := |key.prefix| + |first| + |second|;
      if limit > 0 && size <= byteLimit {
        DirectIsRight(delta, first, second, stamp, prefixEnd);
        Remember(Entry(key, o, size));
      }
    }

    /** The new entry is last, and no more of the oldest ones went than it needed. */
    ghost predicate Remembered(before: seq<Entry>, e: Entry)
      reads this
    {
      entries != [] && entries[|entries| - 1] == e && |entries| - 1 <= |before|
      && var evicted := |before| - (|entries| - 1);
      && entries == before[evicted..] + [e]
      && (evicted > 0 ==> |before| - evicted + 1 >= limit || TotalSize(before[evicted - 1..]) + e.size > byteLimit)
    }

    lemma DirectIsRight(delta: Bytes, first: Bytes, second: Bytes, stamp: Stamp, prefixEnd: int)
      ensures var key := KeyOf(delta, first, second, prefixEnd);
              Right(digest, Entry(key, DiscoverCompanions(digest, delta, first, second, stamp, prefixEnd), SizeOf(key)))
    {
      hide DiscoverCompanions, Prefix;
    }

    lemma KeyIs(delta: Bytes, first: Bytes, second: Bytes, prefixEnd: int)
      ensures var key := KeyOf(delta, first, second, prefixEnd); key.first == first && key.second == second
    {
    }

    method Touch(at: nat)
      requires Valid() && at < |entries|
      modifies this`entries
      ensures Valid() && entries == Without(old(entries), at) + [old(entries)[at]]
    {
      hide Right;
      TouchingKeepsSizes(entries, at);
      entries := Without(entries, at) + [entries[at]];
    }

    /** Make room and remember. */
    method Remember(e: Entry)
      requires Valid() && Right(digest, e) && e.size <= byteLimit
      requires forall i :: 0 <= i < |entries| ==> entries[i].key != e.key
      modifies this
      ensures Valid() && Remembered(old(entries), e)
    {
      hide Right;
      ghost var evicted := 0;
      while entries != [] && (|entries| >= limit || bytes + e.size > byteLimit)
        invariant Valid() && evicted <= |old(entries)| && entries == old(entries)[evicted..]
        invariant evicted > 0 ==> |entries| + 1 >= limit || TotalSize(old(entries)[evicted - 1..]) + e.size > byteLimit
        decreases |entries|
      {
        assert old(entries)[evicted..][1..] == old(entries)[evicted + 1..];
        bytes := bytes - entries[0].size;
        entries := entries[1..];
        evicted := evicted + 1;
      }
      SizesAdd(entries, [e]);
      assert TotalSize([e]) == e.size;
      entries, bytes := entries + [e], bytes + e.size;
    }
  }
}
