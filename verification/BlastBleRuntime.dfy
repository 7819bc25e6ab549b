/** Host side of the sampled-audio transfer (src/robot_agent/blast_ble_runtime.py):
    payload validation, the transfer checksum and the AppData writes. */
module BlastBleRuntime {
  import opened Common

  type Byte = b: int | 0 <= b < 256

  const MAX_SAMPLES := 128000
  const HEADER_BYTES := 7
  const MAX_BYTES := HEADER_BYTES + MAX_SAMPLES / 2
  const DMA_CHUNK_SAMPLES := 256
  const DMA_CHUNK_DURATION_MS := 16
  const WRITE_APP_DATA_COMMAND: Byte := 7
  const APP_DATA_MAX_DATA_BYTES := 509
  const APP_DATA_WRITES_PER_BATCH := 8

  function HeaderCount(payload: seq<Byte>): nat
    requires |payload| >= HEADER_BYTES
  {
    payload[3] as int + 256 * payload[4] as int + 65536 * payload[5] as int + 16777216 * payload[6] as int
  }

  /** The canonical-utterance check; `None` is the source's ValueError. */
  function AdpcmSampleCount(payload: seq<Byte>): Option<nat> {
    if !(HEADER_BYTES <= |payload| <= MAX_BYTES) then None
    else
      var count := HeaderCount(payload);
      if payload[2] > 88 || !(1 <= count <= MAX_SAMPLES) then None
      else if |payload| != HEADER_BYTES + count / 2 then None
      else if count % 2 == 0 && payload[|payload| - 1] / 16 != 0 then None
      else Some(count)
  }

  function AdpcmDurationMs(sampleCount: nat): Option<nat> {
    if 1 <= sampleCount <= MAX_SAMPLES
    then Some(CeilDiv(sampleCount, DMA_CHUNK_SAMPLES) * DMA_CHUNK_DURATION_MS)
    else None
  }

  /** Playback lasts a whole number of transfer blocks of 256 samples and 16
      milliseconds each, the last one started but not wasted. */
  lemma DurationIsWholeBlocks(sampleCount: nat)
    ensures AdpcmDurationMs(sampleCount).Some? <==> 1 <= sampleCount <= 128000
    ensures AdpcmDurationMs(sampleCount).Some? ==>
      var ms := AdpcmDurationMs(sampleCount).value;
      ms % 16 == 0 && (ms / 16 - 1) * 256 < sampleCount <= ms / 16 * 256
  {
    CeilDivIsLeast(sampleCount, DMA_CHUNK_SAMPLES, CeilDiv(sampleCount, DMA_CHUNK_SAMPLES));
    CeilDivIsLeast(sampleCount, DMA_CHUNK_SAMPLES, CeilDiv(sampleCount, DMA_CHUNK_SAMPLES) - 1);
  }

  /** What an accepted payload is: a start index in the table, a count within the
      limit, exactly the bytes its nibbles need, and no stray last nibble. */
  lemma AcceptedPayload(payload: seq<Byte>, count: nat)
    ensures AdpcmSampleCount(payload) == Some(count) <==>
      && 1 <= count <= 128000 && |payload| == 7 + count / 2 && payload[2] <= 88
      && payload[3] as int + 0x100 * payload[4] as int + 0x1_0000 * payload[5] as int
         + 0x100_0000 * payload[6] as int == count
      && (count % 2 == 0 ==> payload[|payload| - 1] < 16)
  {
  }

  // -------------------------------------------------------------- checksum

  function Sum(s: seq<Byte>): nat {
    if s == [] then 0 else Sum(s[..|s| - 1]) + s[|s| - 1] as int
  }

  /** Each byte weighted by its distance to the end: the closed form behind the
      second Fletcher accumulator. */
  function WeightedSum(s: seq<Byte>): nat {
    if s == [] then 0 else WeightedSum(s[..|s| - 1]) + Sum(s)
  }

  function Checksum(payload: seq<Byte>): int {
    256 * (WeightedSum(payload) % 255) + Sum(payload) % 255
  }

  lemma AddModulo(a: nat, b: nat)
    ensures (a % 255 + b) % 255 == (a + b) % 255 == (a % 255 + b % 255) % 255
  {
  }

  /** The checksum loop computes the two closed-form sums modulo 255. */
  method Fletcher16(payload: seq<Byte>) returns (checksum: int)
    ensures checksum == Checksum(payload)
  {
    var sum1: int, sum2: int := 0, 0;
    for i := 0 to |payload|
      invariant sum1 == Sum(payload[..i]) % 255
      invariant sum2 == WeightedSum(payload[..i]) % 255
    {
      assert payload[..i + 1][..i] == payload[..i];
      AddModulo(Sum(payload[..i]), payload[i]);
      AddModulo(WeightedSum(payload[..i]), Sum(payload[..i + 1]));
      sum1 := (sum1 + payload[i] as int) % 255;
      sum2 := (sum2 + sum1) % 255;
    }
    assert payload[..|payload|] == payload;
    checksum := 256 * sum2 + sum1;
  }

  lemma {:induction false} ChangeShiftsSums(s: seq<Byte>, i: nat, b: Byte)
    requires i < |s|
    ensures Sum(s[i := b]) == Sum(s) + (b as int - s[i] as int)
    ensures WeightedSum(s[i := b]) == WeightedSum(s) + (|s| - i) * (b as int - s[i] as int)
  {
    var t := s[i := b];
    var n := |s| - 1;
    if i == n {
      assert t[..n] == s[..n];
    } else {
      ChangeShiftsSums(s[..n], i, b);
      assert t[..n] == s[..n][i := b];
      var d := b as int - s[i] as int;
      assert (|s| - i) * d == (n - i) * d + d;
    }
  }

  lemma EqualResidues(a: nat, b: nat)
    ensures a % 255 == b % 255 <==> (a - b) % 255 == 0
  {
  }

  lemma MultipleOf255(k: int, m: int)
    ensures (255 * m * k) % 255 == 0
  {
    assert 255 * m * k == 255 * (m * k);
  }

  lemma SmallMultiple(d: int)
    requires -255 <= d <= 255
    ensures d % 255 == 0 <==> d == 0 || d == 255 || d == -255
  {
  }

  /** A single changed byte escapes the checksum exactly when it flips between
      0x00 and 0xFF. */
  lemma SingleByteDetection(s: seq<Byte>, i: nat, b: Byte)
    requires i < |s| && b != s[i]
    ensures Checksum(s[i := b]) == Checksum(s) <==> (s[i] == 0 && b == 255) || (s[i] == 255 && b == 0)
  {
    ChangeShiftsSums(s, i, b);
    var d := b as int - s[i] as int;
    EqualResidues(Sum(s[i := b]), Sum(s));
    SmallMultiple(d);
    if d == 255 || d == -255 {
      EqualResidues(WeightedSum(s[i := b]), WeightedSum(s));
      MultipleOf255(|s| - i, d / 255);
      assert (|s| - i) * d == 255 * (d / 255) * (|s| - i);
    }
  }

  lemma SwapShiftsSums(s: seq<Byte>, i: nat)
    requires i + 1 < |s|
    ensures var u := s[i := s[i + 1]][i + 1 := s[i]];
      Sum(u) == Sum(s) && WeightedSum(u) == WeightedSum(s) + (s[i + 1] as int - s[i] as int)
  {
    var d := s[i + 1] as int - s[i] as int;
    ChangeShiftsSums(s, i, s[i + 1]);
    ChangeShiftsSums(s[i := s[i + 1]], i + 1, s[i]);
    var n := |s| - i;
    assert n * d + (n - 1) * (-d) == d;
  }

  /** Swapping two different neighbours escapes it only for the same pair. */
  lemma NeighbourSwapDetection(s: seq<Byte>, i: nat)
    requires i + 1 < |s| && s[i] != s[i + 1]
    ensures Checksum(s[i := s[i + 1]][i + 1 := s[i]]) == Checksum(s) <==>
      (s[i] == 0 && s[i + 1] == 255) || (s[i] == 255 && s[i + 1] == 0)
  {
    SwapShiftsSums(s, i);
    EqualResidues(WeightedSum(s[i := s[i + 1]][i + 1 := s[i]]), WeightedSum(s));
  }

  // --------------------------------------------------------- AppData writes

  type Frame = seq<Byte>

  /** What the hub does with one AppData frame: store its data at the little
      endian 16-bit offset in its second and third byte. */
  function Store(buffer: seq<Byte>, frame: Frame): Option<seq<Byte>> {
    if |frame| < 3 || frame[0] != WRITE_APP_DATA_COMMAND then None
    else
      var offset := frame[1] as int + 256 * frame[2] as int;
      var data := frame[3..];
      if offset + |data| > |buffer| then None
      else Some(buffer[..offset] + data + buffer[offset + |data|..])
  }

  function StoreAll(buffer: seq<Byte>, frames: seq<Frame>): Option<seq<Byte>> {
    if frames == [] then Some(buffer)
    else
      var before := StoreAll(buffer, frames[..|frames| - 1]);
      if before.None? then None else Store(before.value, frames[|frames| - 1])
  }

  function Data(frames: seq<Frame>): seq<Byte> {
    if frames == [] then []
    else
      var last := frames[|frames| - 1];
      Data(frames[..|frames| - 1]) + (if |last| > 3 then last[3..] else [])
  }

  /** Every frame is well formed and starts where its predecessor ended, so the
      decoded offsets tile `offset..offset + |Data(frames)|` exactly once. */
  ghost predicate Tiles(frames: seq<Frame>, offset: nat) {
    frames != [] ==>
      var init, last := frames[..|frames| - 1], frames[|frames| - 1];
      && |last| > 3
      && last[0] == WRITE_APP_DATA_COMMAND
      && last[1] as int + 256 * last[2] as int == offset + |Data(init)|
      && Tiles(init, offset)
  }

  lemma {:induction false} DataConcat(a: seq<Frame>, b: seq<Frame>)
    ensures Data(a + b) == Data(a) + Data(b)
  {
    if b == [] {
      assert a + b == a;
    } else {
      DataConcat(a, b[..|b| - 1]);
      assert (a + b)[..|a + b| - 1] == a + b[..|b| - 1];
    }
  }

  lemma {:induction false} TilesConcat(a: seq<Frame>, b: seq<Frame>, offset: nat)
    requires Tiles(a, offset) && Tiles(b, offset + |Data(a)|)
    ensures Tiles(a + b, offset)
  {
    if b == [] {
      assert a + b == a;
    } else {
      var init, last := b[..|b| - 1], b[|b| - 1];
      TilesConcat(a, init, offset);
      DataConcat(a, init);
      assert (a + b)[..|a + b| - 1] == a + init;
      assert (a + b)[|a + b| - 1] == last;
    }
  }

  /** Frames that tile a range store exactly their data there and touch nothing
      else, whatever the hub buffer held. */
  lemma {:induction false} TilesStore(buffer: seq<Byte>, frames: seq<Frame>, offset: nat)
    requires Tiles(frames, offset) && offset + |Data(frames)| <= |buffer|
    ensures StoreAll(buffer, frames) == Some(Overwrite(buffer, offset, Data(frames)))
  {
    if frames == [] {
      assert Overwrite(buffer, offset, []) == buffer;
    } else {
      var init, last := frames[..|frames| - 1], frames[|frames| - 1];
      TilesStore(buffer, init, offset);
      var at := offset + |Data(init)|;
      assert Store(StoreAll(buffer, init).value, last) == Some(Overwrite(StoreAll(buffer, init).value, at, last[3..]));
      OverwriteTwice(buffer, offset, Data(init), last[3..]);
    }
  }

  function Overwrite(buffer: seq<Byte>, offset: nat, data: seq<Byte>): seq<Byte>
    requires offset + |data| <= |buffer|
  {
    buffer[..offset] + data + buffer[offset + |data|..]
  }

  lemma OverwriteTwice(buffer: seq<Byte>, offset: nat, a: seq<Byte>, b: seq<Byte>)
    requires offset + |a + b| <= |buffer|
    ensures Overwrite(Overwrite(buffer, offset, a), offset + |a|, b) == Overwrite(buffer, offset, a + b)
  {
    var was := Overwrite(buffer, offset, a);
    assert was[..offset + |a|] == buffer[..offset] + a;
    assert was[offset + |a + b|..] == buffer[offset + |a + b|..];
  }

  /** The negotiated data bytes of one AppData write. */
  function WriteSize(maximumWriteSize: int): int {
    Min(APP_DATA_MAX_DATA_BYTES, maximumWriteSize - 3)
  }

  function BatchBytes(maximumWriteSize: int): int {
    WriteSize(maximumWriteSize) * APP_DATA_WRITES_PER_BATCH
  }

  predicate BatchAccepted(offset: nat, payload: seq<Byte>, maximumWriteSize: int) {
    && WriteSize(maximumWriteSize) >= 1
    && 1 <= |payload| <= BatchBytes(maximumWriteSize)
    && offset + |payload| <= MAX_BYTES
  }

  /** How sending a batch ends: the source's refusal, all of it sent, or an
      exception in between, by cancellation or from the transport. */
  datatype Batch = Refused | Sent(frames: seq<Frame>) | Cut(frames: seq<Frame>)

  /** What becomes of one write. */
  datatype Write = Acknowledged | Unacknowledged | NotWritten

  ghost predicate AllAcknowledged(hub: nat -> Write, count: nat) {
    forall i: nat :: i < count ==> hub(i) == Acknowledged
  }

  lemma AcknowledgedNext(hub: nat -> Write, count: nat)
    requires AllAcknowledged(hub, count)
    ensures hub(count) == NotWritten ==> CutAt(hub, count)
    ensures hub(count) == Unacknowledged ==> CutAt(hub, count + 1)
    ensures hub(count) == Acknowledged ==> AllAcknowledged(hub, count + 1)
  {
  }

  /** The batch was cut where the first of its writes failed: a write that reached the
      hub without an acknowledgement is still one of its frames. */
  ghost predicate CutAt(hub: nat -> Write, count: nat) {
    && AllAcknowledged(hub, Max(0, count - 1))
    && (if count > 0 && hub(count - 1) != Acknowledged then hub(count - 1) == Unacknowledged else hub(count) == NotWritten)
  }

  /** Send one batch: at most eight bounded frames that tile it, in order. An
      exception leaves the frames of a beginning of it with the hub. */
  method WritePcmBatch(offset: nat, payload: seq<Byte>, maximumWriteSize: int, hub: nat -> Write) returns (r: Batch)
    ensures r.Refused? <==>
      || maximumWriteSize <= 3 || payload == [] || |payload| > 8 * (Min(512, maximumWriteSize) - 3)
      || offset + |payload| > 64007
    ensures !r.Refused? ==> |r.frames| <= 8 && Bounded(r.frames, Min(512, maximumWriteSize))
    ensures !r.Refused? ==> Tiles(r.frames, offset) && Data(r.frames) <= payload
    ensures r.Sent? ==> Data(r.frames) == payload
    ensures r.Sent? ==> AllAcknowledged(hub, |r.frames|)
    ensures r.Cut? ==> CutAt(hub, |r.frames|)
  {
    AcceptedOnNumbers(offset, payload, maximumWriteSize);
    if !BatchAccepted(offset, payload, maximumWriteSize) {
      return Refused;
    }
    r := SendFrames(offset, payload, WriteSize(maximumWriteSize), hub);
  }

  lemma AcceptedOnNumbers(offset: nat, payload: seq<Byte>, maximumWriteSize: int)
    ensures BatchAccepted(offset, payload, maximumWriteSize) <==>
      && maximumWriteSize > 3 && 1 <= |payload| <= 8 * (Min(512, maximumWriteSize) - 3) && offset + |payload| <= 64007
    ensures WriteSize(maximumWriteSize) + 3 == Min(512, maximumWriteSize)
  {
  }

  /** The frames of an accepted batch, one write after another. */
  method SendFrames(offset: nat, payload: seq<Byte>, dataSize: nat, hub: nat -> Write) returns (r: Batch)
    requires 1 <= |payload| <= dataSize * APP_DATA_WRITES_PER_BATCH && offset + |payload| <= MAX_BYTES
    ensures !r.Refused? && |r.frames| <= APP_DATA_WRITES_PER_BATCH && Bounded(r.frames, 3 + dataSize)
    ensures Tiles(r.frames, offset) && Data(r.frames) <= payload
    ensures r.Sent? ==> Data(r.frames) == payload
    ensures r.Sent? ==> AllAcknowledged(hub, |r.frames|)
    ensures r.Cut? ==> CutAt(hub, |r.frames|)
  {
    var sent: seq<Frame> := [];
    var chunkOffset := 0;
    while chunkOffset < |payload|
      invariant 0 <= chunkOffset < |payload| + dataSize
      invariant Multiple(chunkOffset, dataSize, |sent|) && |sent| <= APP_DATA_WRITES_PER_BATCH
      invariant Bounded(sent, 3 + dataSize)
      invariant AllAcknowledged(hub, |sent|)
      invariant Tiles(sent, offset) && Data(sent) == payload[..Min(chunkOffset, |payload|)]
      decreases |payload| - chunkOffset
    {
      var frameOffset := offset + chunkOffset;
      var end := Min(chunkOffset + dataSize, |payload|);
      var frame: Frame := [WRITE_APP_DATA_COMMAND, frameOffset % 256, frameOffset / 256] + payload[chunkOffset..end];
      AcknowledgedNext(hub, |sent|);
      if hub(|sent|) == NotWritten {
        return Cut(sent);
      }
      SendStep(sent, offset, frame, payload, chunkOffset, dataSize);
      sent := sent + [frame];
      chunkOffset := chunkOffset + dataSize;
      if hub(|sent| - 1) == Unacknowledged {
        return Cut(sent);
      }
    }
    assert payload[..|payload|] == payload;
    return Sent(sent);
  }

  lemma SendStep(sent: seq<Frame>, offset: nat, frame: Frame, payload: seq<Byte>, from: nat, dataSize: nat)
    requires from < |payload| <= dataSize * APP_DATA_WRITES_PER_BATCH && dataSize >= 1 && offset + |payload| <= MAX_BYTES
    requires Multiple(from, dataSize, |sent|) && Bounded(sent, 3 + dataSize)
    requires Tiles(sent, offset) && Data(sent) == payload[..from]
    requires var end := Min(from + dataSize, |payload|);
      frame == [WRITE_APP_DATA_COMMAND, (offset + from) % 256, (offset + from) / 256] + payload[from..end]
    ensures Multiple(from + dataSize, dataSize, |sent| + 1) && |sent| + 1 <= APP_DATA_WRITES_PER_BATCH
    ensures Bounded(sent + [frame], 3 + dataSize)
    ensures Tiles(sent + [frame], offset) && Data(sent + [frame]) == payload[..Min(from + dataSize, |payload|)]
  {
    FrameExtends(sent, offset, frame, payload, from, Min(from + dataSize, |payload|));
    NextMultiple(from, dataSize, |sent|);
    BoundedLonger(sent, frame, 3 + dataSize);
    BatchCount(|sent| + 1, dataSize, from + dataSize, |payload|);
  }

  predicate Bounded(frames: seq<Frame>, size: int) {
    forall i :: 0 <= i < |frames| ==> |frames[i]| <= size
  }

  lemma BoundedLonger(frames: seq<Frame>, frame: Frame, size: int)
    requires Bounded(frames, size) && |frame| <= size
    ensures Bounded(frames + [frame], size)
  {
  }

  ghost predicate Multiple(x: nat, unit: nat, count: nat) {
    x == count * unit
  }

  lemma NextMultiple(x: nat, unit: nat, count: nat)
    requires Multiple(x, unit, count)
    ensures Multiple(x + unit, unit, count + 1)
  {
  }

  lemma BatchCount(count: nat, dataSize: nat, sent: nat, total: nat)
    requires dataSize >= 1 && Multiple(sent, dataSize, count) && sent < total + dataSize
    requires total <= dataSize * APP_DATA_WRITES_PER_BATCH
    ensures count <= APP_DATA_WRITES_PER_BATCH
  {
    if count >= APP_DATA_WRITES_PER_BATCH + 1 {
      ScaleOrder(APP_DATA_WRITES_PER_BATCH + 1, count, dataSize);
    }
  }

  /** The 16-bit offset of every admitted write survives its two-byte encoding. */
  lemma FrameExtends(sent: seq<Frame>, offset: nat, frame: Frame, payload: seq<Byte>, from: nat, end: nat)
    requires Tiles(sent, offset) && from < end <= |payload| && Data(sent) == payload[..from]
    requires offset + |payload| <= MAX_BYTES
    requires frame == [WRITE_APP_DATA_COMMAND, (offset + from) % 256, (offset + from) / 256] + payload[from..end]
    ensures Tiles(sent + [frame], offset) && Data(sent + [frame]) == payload[..end]
  {
    assert (sent + [frame])[..|sent|] == sent;
    assert frame[3..] == payload[from..end];
    assert payload[..from] + payload[from..end] == payload[..end];
  }

  /** Upload one utterance batch by batch. Whatever admissible lengths the batches
      have, the hub buffer ends up equal to the payload; an upload that is cut short
      has written a beginning of it and nothing else. */
  method Upload(payload: seq<Byte>, maximumWriteSize: int, initial: seq<Byte>, hub: nat -> nat -> Write)
    returns (frames: seq<Frame>, complete: bool)
    requires |initial| == |payload| <= MAX_BYTES && maximumWriteSize > 3
    ensures Data(frames) <= payload
    ensures StoreAll(initial, frames) == Some(Data(frames) + initial[|Data(frames)|..])
    ensures complete ==> StoreAll(initial, frames) == Some(payload)
    ensures !complete ==> exists b: nat, i: nat :: hub(b)(i) != Acknowledged
  {
    var offset, batches := 0, 0;
    ghost var reached: nat := 0;
    frames, complete := [], true;
    while offset < |payload| && complete
      invariant offset <= |payload| && reached <= |payload|
      invariant Tiles(frames, 0) && Data(frames) == payload[..reached]
      invariant complete ==> reached == offset
      invariant !complete ==> exists b: nat, i: nat :: hub(b)(i) != Acknowledged
      decreases |payload| - offset
    {
      AcceptedOnNumbers(0, [payload[offset]], maximumWriteSize);
      var length: nat :| 1 <= length <= BatchBytes(maximumWriteSize) && length <= |payload| - offset;
      AcceptedOnNumbers(offset, payload[offset..offset + length], maximumWriteSize);
      var batch := WritePcmBatch(offset, payload[offset..offset + length], maximumWriteSize, hub(batches));
      BatchExtends(payload, offset, |Data(batch.frames)|, frames, batch.frames);
      reached := offset + |Data(batch.frames)|;
      frames, complete := frames + batch.frames, batch.Sent?;
      assert batch.Cut? ==>
        var n := |batch.frames|;
        hub(batches)(n) != Acknowledged || hub(batches)(n - 1) != Acknowledged;
      offset, batches := offset + length, batches + 1;
    }
    UploadStores(payload, initial, frames, reached);
  }

  lemma UploadStores(payload: seq<Byte>, initial: seq<Byte>, frames: seq<Frame>, reached: nat)
    requires reached <= |payload| == |initial| && Tiles(frames, 0) && Data(frames) == payload[..reached]
    ensures Data(frames) <= payload
    ensures StoreAll(initial, frames) == Some(Data(frames) + initial[|Data(frames)|..])
    ensures reached == |payload| ==> StoreAll(initial, frames) == Some(payload)
  {
    TilesStore(initial, frames, 0);
    var data := Data(frames);
    assert Overwrite(initial, 0, data) == data + initial[|data|..];
    assert reached == |payload| ==> data == payload && data + initial[|data|..] == payload;
  }

  lemma BatchExtends(payload: seq<Byte>, from: nat, length: nat, done: seq<Frame>, batch: seq<Frame>)
    requires from + length <= |payload|
    requires Tiles(done, 0) && Data(done) == payload[..from]
    requires Tiles(batch, from) && Data(batch) == payload[from..from + length]
    ensures Tiles(done + batch, 0) && Data(done + batch) == payload[..from + length]
  {
    TilesConcat(done, batch, 0);
    DataConcat(done, batch);
    SlicesJoin(payload, from, length);
  }

  lemma SlicesJoin(payload: seq<Byte>, from: nat, length: nat)
    requires from + length <= |payload|
    ensures payload[..from] + payload[from..from + length] == payload[..from + length]
  {
  }
}
