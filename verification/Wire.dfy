// Bytes, little-endian fields, and the "true stream" every reassembly claim is measured against.
module Wire {

  type Byte = b: int | 0 <= b < 0x100

  type Bytes = seq<Byte>

  /** The byte a TCP peer sent at each absolute stream position. */
  type Stream = int -> Byte

  datatype Option<+T> = None | Some(value: T)

  /** `data` is what the stream carries from position `at` on. */
  ghost predicate On(stream: Stream, at: int, data: Bytes) {
    forall i :: 0 <= i < |data| ==> data[i] == stream(at + i)
  }

  lemma OnParts(stream: Stream, at: int, data: Bytes, cut: nat)
    requires On(stream, at, data) && cut <= |data|
    ensures On(stream, at, data[..cut]) && On(stream, at + cut, data[cut..])
  {
  }

  lemma SameStreamSameBytes(stream: Stream, at: int, a: Bytes, b: Bytes)
    requires On(stream, at, a) && On(stream, at, b) && |a| == |b|
    ensures a == b
  {
    assert forall i :: 0 <= i < |a| ==> a[i] == stream(at + i) == b[i];
  }

  /** `needle` occurs in `message` at `at`. */
  predicate OccursAt(message: Bytes, needle: Bytes, at: int) {
    0 <= at && at + |needle| <= |message| && message[at..at + |needle|] == needle
  }

  /** The unsigned little-endian integer the bytes spell; 0 for no bytes. */
  function LittleEndian(b: Bytes): (n: nat)
  {
    if b == [] then 0 else (b[0] as int) + 0x100 * LittleEndian(b[1..])
  }

  /** The uint16 at `at`. */
  function U16(message: Bytes, at: int): (n: nat)
    requires 0 <= at && at + 2 <= |message|
    ensures n <= 0xFFFF
  {
    message[at] as int + 0x100 * (message[at + 1] as int)
  }

  lemma LittleEndianOfTwo(message: Bytes, at: int)
    requires 0 <= at && at + 2 <= |message|
    ensures LittleEndian(message[at..at + 2]) == U16(message, at)
  {
    var b := message[at..at + 2];
    assert b[1..][0] == message[at + 1] && b[1..][1..] == [];
    assert LittleEndian(b) == (b[0] as int) + 0x100 * LittleEndian(b[1..]);
  }

  /** Python's `s[lo:hi]` for non-negative bounds: bounds past the end are clipped. */
  function Slice(s: Bytes, lo: nat, hi: nat): (r: Bytes)
    ensures lo <= hi <= |s| ==> r == s[lo..hi]
  {
    var top := if hi < |s| then hi else |s|;
    if lo <= top then s[lo..top] else []
  }

  function Min(a: int, b: int): (m: int) {
    if a <= b then a else b
  }

  function Max(a: int, b: int): (m: int) {
    if a >= b then a else b
  }

  lemma {:induction false} SubsetIsSmaller<T>(a: set<T>, b: set<T>)
    requires a <= b
    ensures |a| <= |b|
  {
    if a != {} {
      var x :| x in a;
      SubsetIsSmaller(a - {x}, b - {x});
    }
  }

  /** The parts one after the other. */
  function Flatten(parts: seq<Bytes>): (b: Bytes) {
    if parts == [] then [] else parts[0] + Flatten(parts[1..])
  }

  lemma Regroup<T>(a: seq<T>, b: seq<T>, c: seq<T>)
    ensures a + b + c == a + (b + c)
  {
  }

  lemma FlattenFirst(first: Bytes, rest: seq<Bytes>)
    ensures Flatten([first] + rest) == first + Flatten(rest)
  {
    assert ([first] + rest)[1..] == rest;
  }

  lemma {:induction false} FlattenAppend(a: seq<Bytes>, b: seq<Bytes>)
    ensures Flatten(a + b) == Flatten(a) + Flatten(b)
  {
    if a == [] {
      assert a + b == b;
    } else {
      hide Flatten;
      var first, rest := a[0], a[1..];
      FlattenAppend(rest, b);
      FlattenFirst(first, rest);
      FlattenFirst(first, rest + b);
      assert a == [first] + rest;
      Regroup([first], rest, b);
      Regroup(first, Flatten(rest), Flatten(b));
    }
  }

  /** `n` in `width` little-endian bytes. */
  function Encoded(n: nat, width: nat): (b: Bytes)
    ensures |b| == width
  {
    if width == 0 then [] else [(n % 0x100) as Byte] + Encoded(n / 0x100, width - 1)
  }

  function Power256(width: nat): (p: nat)
    ensures p > 0
  {
    if width == 0 then 1 else 0x100 * Power256(width - 1)
  }

  /** Reading little-endian bytes undoes writing them, for every number that fits. */
  lemma {:induction false} DecodeEncoded(n: nat, width: nat)
    requires n < Power256(width)
    ensures LittleEndian(Encoded(n, width)) == n
  {
    if width > 0 {
      DecodeEncoded(n / 0x100, width - 1);
      var b := Encoded(n, width);
      assert b[1..] == Encoded(n / 0x100, width - 1);
    }
  }
}
