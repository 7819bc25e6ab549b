/** Newline framing of the request stream (ev3/supervisor_daemon.py:143-194). */
module RequestFraming {
  import opened Common

  const MAX_FRAME_BYTES: nat := 4096
  const NEWLINE: bv8 := 10

  type Bytes = seq<bv8>

  /** How reading ends: a frame that is too long, the end of input, or a frame
      after which the session takes no more. */
  datatype Verdict = FrameTooLarge | EndOfInput | Refused

  datatype Outcome = Outcome(frames: seq<Bytes>, verdict: Verdict)

  function Concat(chunks: seq<Bytes>): Bytes {
    if chunks == [] then [] else chunks[0] + Concat(chunks[1..])
  }

  /** The reads before the first empty one, which ends the input. */
  function Received(chunks: seq<Bytes>): seq<Bytes> {
    if chunks == [] || chunks[0] == [] then [] else [chunks[0]] + Received(chunks[1..])
  }

  lemma ReceivedStep(chunks: seq<Bytes>, i: nat)
    requires i < |chunks|
    ensures Concat(Received(chunks[i..])) ==
      if chunks[i] == [] then [] else chunks[i] + Concat(Received(chunks[i + 1..]))
  {
    assert chunks[i..][1..] == chunks[i + 1..];
    if chunks[i] != [] {
      assert ([chunks[i]] + Received(chunks[i + 1..]))[1..] == Received(chunks[i + 1..]);
    }
  }

  /** How the input was split into reads does not matter: any split of the same
      bytes into non-empty reads is received whole, and nothing after an empty read
      is. */
  lemma {:induction false} ReceivedWhole(chunks: seq<Bytes>, after: seq<Bytes>)
    requires forall i :: 0 <= i < |chunks| ==> chunks[i] != []
    ensures Received(chunks) == chunks && Received(chunks + [[]] + after) == chunks
  {
    if chunks == [] {
      assert chunks + [[]] + after == [[]] + after;
    } else {
      ReceivedWhole(chunks[1..], after);
      assert chunks == [chunks[0]] + chunks[1..];
      assert (chunks + [[]] + after)[1..] == chunks[1..] + [[]] + after;
    }
  }

  /** Index of the first newline, or the length when there is none. */
  function FirstNewline(bytes: Bytes): (n: nat)
    ensures n <= |bytes| && (n < |bytes| ==> bytes[n] == NEWLINE) && NEWLINE !in bytes[..n]
  {
    if bytes == [] || bytes[0] == NEWLINE then 0
    else
      assert forall n: nat :: n < |bytes| ==> bytes[..n + 1] == [bytes[0]] + bytes[1..][..n];
      1 + FirstNewline(bytes[1..])
  }

  /** What the whole input amounts to, read in one piece. `accepts` says whether
      the session goes on after the frames delivered so far. */
  function Scan(bytes: Bytes, delivered: seq<Bytes>, accepts: seq<Bytes> -> bool): Outcome
    decreases |bytes|
  {
    var n := FirstNewline(bytes);
    if n == |bytes| then Outcome(delivered, if |bytes| > MAX_FRAME_BYTES then FrameTooLarge else EndOfInput)
    else if n + 1 > MAX_FRAME_BYTES then Outcome(delivered, FrameTooLarge)
    else
      var longer := delivered + [bytes[..n + 1]];
      if !accepts(longer) then Outcome(longer, Refused) else Scan(bytes[n + 1..], longer, accepts)
  }

  lemma {:induction false} FirstNewlineIs(bytes: Bytes, n: nat)
    requires n <= |bytes| && NEWLINE !in bytes[..n] && (n < |bytes| ==> bytes[n] == NEWLINE)
    ensures FirstNewline(bytes) == n
  {
    var m := FirstNewline(bytes);
    assert forall k :: 0 <= k < n ==> bytes[k] in bytes[..n];
    assert forall k :: 0 <= k < m ==> bytes[k] in bytes[..m];
  }

  /** More input after a complete first frame does not change that frame. */
  lemma FirstFrameStands(bytes: Bytes, more: Bytes)
    requires FirstNewline(bytes) < |bytes|
    ensures FirstNewline(bytes + more) == FirstNewline(bytes)
  {
    var n := FirstNewline(bytes);
    assert (bytes + more)[..n] == bytes[..n];
    FirstNewlineIs(bytes + more, n);
  }

  /** An unfinished frame that is already too long stays too long. */
  lemma TooLongStays(bytes: Bytes, more: Bytes, delivered: seq<Bytes>, accepts: seq<Bytes> -> bool)
    requires NEWLINE !in bytes && |bytes| > MAX_FRAME_BYTES
    ensures Scan(bytes + more, delivered, accepts) == Outcome(delivered, FrameTooLarge)
  {
    assert forall k :: 0 <= k < |bytes| ==> (bytes + more)[k] == bytes[k] && bytes[k] in bytes;
  }

  /** One step of the inner loop on a buffer that holds a complete frame. */
  lemma ScanStep(bytes: Bytes, more: Bytes, delivered: seq<Bytes>, accepts: seq<Bytes> -> bool)
    requires FirstNewline(bytes) < |bytes|
    ensures var n := FirstNewline(bytes);
      var longer := delivered + [bytes[..n + 1]];
      Scan(bytes + more, delivered, accepts) ==
        if n + 1 > MAX_FRAME_BYTES then Outcome(delivered, FrameTooLarge)
        else if !accepts(longer) then Outcome(longer, Refused)
        else Scan(bytes[n + 1..] + more, longer, accepts)
  {
    var n := FirstNewline(bytes);
    FirstFrameStands(bytes, more);
    assert (bytes + more)[..n + 1] == bytes[..n + 1];
    assert (bytes + more)[n + 1..] == bytes[n + 1..] + more;
  }

  /** Deliver every complete frame of the buffer; `None` means reading goes on. */
  method DrainBuffer(buffer: Bytes, delivered: seq<Bytes>, accepts: seq<Bytes> -> bool, ghost more: Bytes)
    returns (rest: Bytes, frames: seq<Bytes>, verdict: Option<Verdict>)
    ensures verdict.Some? ==> Scan(buffer + more, delivered, accepts) == Outcome(frames, verdict.value)
    ensures verdict.None? ==> Scan(buffer + more, delivered, accepts) == Scan(rest + more, frames, accepts)
    ensures verdict.None? ==> NEWLINE !in rest && |rest| <= MAX_FRAME_BYTES
  {
    rest, frames := buffer, delivered;
    while NEWLINE in rest
      invariant Scan(buffer + more, delivered, accepts) == Scan(rest + more, frames, accepts)
      decreases |rest|
    {
      var boundary := FirstNewline(rest) + 1;
      assert NEWLINE in rest[..FirstNewline(rest)] || FirstNewline(rest) < |rest| by {
        assert rest[..|rest|] == rest;
      }
      ScanStep(rest, more, frames, accepts);
      var raw := rest[..boundary];
      if |raw| > MAX_FRAME_BYTES {
        return rest, frames, Some(FrameTooLarge);
      }
      frames := frames + [raw];
      if !accepts(frames) {
        return rest, frames, Some(Refused);
      }
      rest := rest[boundary..];
    }
    if |rest| > MAX_FRAME_BYTES {
      TooLongStays(rest, more, frames, accepts);
      return rest, frames, Some(FrameTooLarge);
    }
    verdict := None;
  }

  /** The delivered frames and the verdict are those of the whole input: they
      depend only on the bytes received before the input ended, never on how the
      reads split them. */
  method RunDescriptor(chunks: seq<Bytes>, accepts: seq<Bytes> -> bool) returns (outcome: Outcome)
    ensures outcome == Scan(Concat(Received(chunks)), [], accepts)
  {
    var buffered: Bytes, frames: seq<Bytes> := [], [];
    var i := 0;
    assert chunks[0..] == chunks && [] + Concat(Received(chunks)) == Concat(Received(chunks));
    while i < |chunks| && chunks[i] != []
      invariant 0 <= i <= |chunks|
      invariant NEWLINE !in buffered && |buffered| <= MAX_FRAME_BYTES
      invariant Scan(Concat(Received(chunks)), [], accepts) == Scan(buffered + Concat(Received(chunks[i..])), frames, accepts)
    {
      ghost var more := Concat(Received(chunks[i + 1..]));
      ReceivedStep(chunks, i);
      assert buffered + Concat(Received(chunks[i..])) == (buffered + chunks[i]) + more;
      var verdict;
      buffered, frames, verdict := DrainBuffer(buffered + chunks[i], frames, accepts, more);
      if verdict.Some? {
        return Outcome(frames, verdict.value);
      }
      i := i + 1;
    }
    assert Concat(Received(chunks[i..])) == [];
    assert buffered + Concat(Received(chunks[i..])) == buffered;
    assert forall k :: 0 <= k < |buffered| ==> buffered[k] in buffered;
    return Outcome(frames, EndOfInput);
  }

  /** A frame ends with its only newline and respects the size limit. */
  predicate WholeFrame(frame: Bytes) {
    0 < |frame| <= MAX_FRAME_BYTES && frame[|frame| - 1] == NEWLINE && NEWLINE !in frame[..|frame| - 1]
  }

  lemma {:induction false} ScanKeepsDelivered(bytes: Bytes, delivered: seq<Bytes>, accepts: seq<Bytes> -> bool)
    ensures delivered <= Scan(bytes, delivered, accepts).frames
    decreases |bytes|
  {
    var n := FirstNewline(bytes);
    if n < |bytes| && n + 1 <= MAX_FRAME_BYTES && accepts(delivered + [bytes[..n + 1]]) {
      ScanKeepsDelivered(bytes[n + 1..], delivered + [bytes[..n + 1]], accepts);
    }
  }

  /** Every delivered frame is whole. */
  lemma {:induction false} FramesAreWhole(bytes: Bytes, delivered: seq<Bytes>, accepts: seq<Bytes> -> bool, i: nat)
    requires |delivered| <= i < |Scan(bytes, delivered, accepts).frames|
    ensures WholeFrame(Scan(bytes, delivered, accepts).frames[i])
    decreases |bytes|
  {
    var n := FirstNewline(bytes);
    var longer := delivered + [bytes[..n + 1]];
    assert bytes[..n + 1][..n] == bytes[..n];
    if accepts(longer) {
      ScanKeepsDelivered(bytes[n + 1..], longer, accepts);
      if i > |delivered| {
        FramesAreWhole(bytes[n + 1..], longer, accepts, i);
      }
    }
  }

  /** Nothing is lost, invented or reordered: the delivered frames together are a
      prefix of the input. */
  lemma {:induction false} FramesAreThePrefix(bytes: Bytes, delivered: seq<Bytes>, accepts: seq<Bytes> -> bool)
    ensures delivered <= Scan(bytes, delivered, accepts).frames
    ensures Concat(Scan(bytes, delivered, accepts).frames[|delivered|..]) <= bytes
    decreases |bytes|, 1
  {
    var n := FirstNewline(bytes);
    var frames := Scan(bytes, delivered, accepts).frames;
    ScanKeepsDelivered(bytes, delivered, accepts);
    if n < |bytes| && n + 1 <= MAX_FRAME_BYTES {
      PrefixStep(bytes, delivered, accepts);
    } else {
      assert frames[|delivered|..] == [];
    }
  }

  lemma FirstThenRest(first: Bytes, tail: seq<Bytes>, rest: Bytes)
    requires Concat(tail) <= rest
    ensures Concat([first] + tail) <= first + rest
  {
    assert ([first] + tail)[1..] == tail;
    assert first + rest == (first + Concat(tail)) + rest[|Concat(tail)|..];
  }

  lemma PrefixStep(bytes: Bytes, delivered: seq<Bytes>, accepts: seq<Bytes> -> bool)
    requires FirstNewline(bytes) < |bytes| && FirstNewline(bytes) + 1 <= MAX_FRAME_BYTES
    requires delivered <= Scan(bytes, delivered, accepts).frames
    ensures Concat(Scan(bytes, delivered, accepts).frames[|delivered|..]) <= bytes
    decreases |bytes|, 0
  {
    var n := FirstNewline(bytes);
    var first, rest, longer := bytes[..n + 1], bytes[n + 1..], delivered + [bytes[..n + 1]];
    var frames := Scan(bytes, delivered, accepts).frames;
    assert bytes == first + rest;
    if accepts(longer) {
      FramesAreThePrefix(rest, longer, accepts);
      FirstThenRest(first, frames[|longer|..], rest);
      assert frames[|delivered|..] == [first] + frames[|longer|..];
    } else {
      FirstThenRest(first, [], rest);
      assert frames[|delivered|..] == [first] + [];
    }
  }
}
