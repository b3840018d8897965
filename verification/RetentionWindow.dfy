// The bounded evidence window of a calibration session.
module RetentionWindow {
  import opened Wire

  function TotalLength(frames: seq<Bytes>): nat {
    if frames == [] then 0 else |frames[0]| + TotalLength(frames[1..])
  }

  lemma {:induction false} TotalSplits(a: seq<Bytes>, b: seq<Bytes>)
    ensures TotalLength(a + b) == TotalLength(a) + TotalLength(b)
  {
    if a == [] {
      assert a + b == b;
    } else {
      TotalSplits(a[1..], b);
      assert (a + b)[1..] == a[1..] + b;
    }
  }

  predicate Fits(frames: seq<Bytes>, maxFrames: nat, maxBytes: nat) {
    |frames| <= maxFrames && TotalLength(frames) <= maxBytes
  }

  function Tail(all: seq<Bytes>, n: nat): (t: seq<Bytes>)
    requires n <= |all|
    ensures |t| == n
  {
    all[|all| - n..]
  }

  /** No tail of more than `n` frames is within both limits. */
  ghost predicate LongerIsTooMuch(all: seq<Bytes>, n: nat, maxFrames: nat, maxBytes: nat) {
    forall m :: n < m <= |all| ==> !Fits(Tail(all, m), maxFrames, maxBytes)
  }

  /** `kept` is the longest tail of `all` within both limits. */
  ghost predicate LongestTail(kept: seq<Bytes>, all: seq<Bytes>, maxFrames: nat, maxBytes: nat) {
    && |kept| <= |all| && kept == Tail(all, |kept|) && Fits(kept, maxFrames, maxBytes)
    && LongerIsTooMuch(all, |kept|, maxFrames, maxBytes)
  }

  lemma LongestTailIsUnique(a: seq<Bytes>, b: seq<Bytes>, all: seq<Bytes>, maxFrames: nat, maxBytes: nat)
    requires LongestTail(a, all, maxFrames, maxBytes) && LongestTail(b, all, maxFrames, maxBytes)
    ensures a == b
  {
    assert !(|a| < |b|) by { assert Fits(Tail(all, |b|), maxFrames, maxBytes); }
    assert !(|b| < |a|) by { assert Fits(Tail(all, |a|), maxFrames, maxBytes); }
  }

  /** What was too much before one more frame is too much after it. */
  lemma LongerStaysTooMuch(all: seq<Bytes>, frame: Bytes, n: nat, maxFrames: nat, maxBytes: nat)
    requires LongerIsTooMuch(all, n, maxFrames, maxBytes)
    ensures LongerIsTooMuch(all + [frame], n + 1, maxFrames, maxBytes)
  {
    forall m | n + 1 < m <= |all| + 1 ensures !Fits(Tail(all + [frame], m), maxFrames, maxBytes) {
      assert Tail(all + [frame], m) == Tail(all, m - 1) + [frame];
      TotalSplits(Tail(all, m - 1), [frame]);
    }
  }

  lemma Shorter(all: seq<Bytes>, n: nat, maxFrames: nat, maxBytes: nat)
    requires 0 < n <= |all| && LongerIsTooMuch(all, n, maxFrames, maxBytes) && !Fits(Tail(all, n), maxFrames, maxBytes)
    ensures LongerIsTooMuch(all, n - 1, maxFrames, maxBytes) && Tail(all, n)[1..] == Tail(all, n - 1)
  {
  }

  class RetainedFrames {
    const maxFrames: nat
    const maxBytes: nat
    var frames: seq<Bytes>
    var framesObserved: nat
    var framesDiscarded: nat
    var bytesObserved: nat
    var bytesRetained: nat
    var bytesDiscarded: nat
    /** Every frame since the session began. */
    ghost var observed: seq<Bytes>

    /** The counters add up. */
    ghost predicate Accounted()
      reads this
    {
      && framesObserved == |observed| && bytesObserved == TotalLength(observed) && bytesRetained == TotalLength(frames)
      && framesObserved == |frames| + framesDiscarded && bytesObserved == bytesRetained + bytesDiscarded
    }

    ghost predicate Valid()
      reads this
    {
      Accounted() && LongestTail(frames, observed, maxFrames, maxBytes)
    }

    constructor (maxFrames: nat, maxBytes: nat)
      ensures Valid() && observed == [] && this.maxFrames == maxFrames && this.maxBytes == maxBytes
    {
      this.maxFrames, this.maxBytes := maxFrames, maxBytes;
      frames, framesObserved, framesDiscarded, bytesObserved, bytesRetained, bytesDiscarded := [], 0, 0, 0, 0, 0;
      observed := [];
    }

    method Reset()
      modifies this
      ensures Valid() && observed == [] && frames == []
    {
      frames, framesObserved, framesDiscarded, bytesObserved, bytesRetained, bytesDiscarded := [], 0, 0, 0, 0, 0;
      observed := [];
    }

    /** The window may be too long, but no tail longer than it fits. */
    ghost predicate Untrimmed()
      reads this
    {
      Accounted() && |frames| <= |observed| && frames == Tail(observed, |frames|) && LongerIsTooMuch(observed, |frames|,
          maxFrames, maxBytes)
    }

    /** Retain one frame; the oldest ones go until both limits hold again. */
    method Retain(frame: Bytes)
      requires Valid()
      modifies this
      ensures Valid() && observed == old(observed) + [frame]
    {
      hide Tail, LongerIsTooMuch, TotalLength;
      Append(frame);
      while frames != [] && (|frames| > maxFrames || bytesRetained > maxBytes)
        invariant Untrimmed() && observed == old(observed) + [frame]
        decreases |frames|
      {
        DropOldest();
      }
      NoFrames();
    }

    method Append(frame: Bytes)
      requires Valid()
      modifies this
      ensures Untrimmed() && observed == old(observed) + [frame]
    {
      hide LongerIsTooMuch;
      LongerStaysTooMuch(observed, frame, |frames|, maxFrames, maxBytes);
      AppendTotals(frames, observed, frame);
      hide Tail, TotalLength;
      framesObserved, bytesObserved := framesObserved + 1, bytesObserved + |frame|;
      frames, bytesRetained := frames + [frame], bytesRetained + |frame|;
      observed := observed + [frame];
    }

    method DropOldest()
      requires Untrimmed() && frames != [] && (|frames| > maxFrames || bytesRetained > maxBytes)
      modifies this`frames, this`framesDiscarded, this`bytesDiscarded, this`bytesRetained
      ensures Untrimmed() && |frames| < |old(frames)|
    {
      hide LongerIsTooMuch, Tail;
      Shorter(observed, |frames|, maxFrames, maxBytes);
      var discarded := frames[0];
      frames := frames[1..];
      framesDiscarded, bytesDiscarded := framesDiscarded + 1, bytesDiscarded + |discarded|;
      bytesRetained := bytesRetained - |discarded|;
    }
  }

  lemma NoFrames()
    ensures TotalLength([]) == 0
  {
  }

  lemma AppendTotals(frames: seq<Bytes>, all: seq<Bytes>, frame: Bytes)
    requires |frames| <= |all| && frames == Tail(all, |frames|)
    ensures TotalLength(frames + [frame]) == TotalLength(frames) + |frame|
    ensures TotalLength(all + [frame]) == TotalLength(all) + |frame|
    ensures frames + [frame] == Tail(all + [frame], |frames| + 1)
  {
    TotalSplits(frames, [frame]);
    TotalSplits(all, [frame]);
    assert TotalLength([frame]) == |frame|;
  }
}
