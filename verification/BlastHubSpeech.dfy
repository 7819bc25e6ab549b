/** The IMA ADPCM utterance encoder (src/robot_agent/blast_hub_speech.py).

    The encoder writes nibbles while tracking what a decoder will reconstruct.
    Here the decoder is written down independently, from the wire format alone,
    and the encoder is proved against it. */
module BlastHubSpeech {
  import opened Common
  import opened BlastBleRuntime

  type Step = s: int | 7 <= s <= 32767 witness 7
  type StepIndex = i: nat | i <= 88
  type Sample = x: int | -32768 <= x <= 32767
  type Nibble = n: nat | n < 16

  const SAMPLE_RATE_HZ := 16000

  const STEPS_0: seq<Step> := [7, 8, 9, 10, 11, 12, 13, 14, 16, 17, 19, 21, 23, 25, 28, 31]
  const STEPS_1: seq<Step> := [34, 37, 41, 45, 50, 55, 60, 66, 73, 80, 88, 97, 107, 118]
  const STEPS_2: seq<Step> := [130, 143, 157, 173, 190, 209, 230, 253, 279, 307, 337, 371]
  const STEPS_3: seq<Step> := [408, 449, 494, 544, 598, 658, 724, 796, 876, 963, 1060, 1166]
  const STEPS_4: seq<Step> := [1282, 1411, 1552, 1707, 1878, 2066, 2272, 2499, 2749, 3024]
  const STEPS_5: seq<Step> := [3327, 3660, 4026, 4428, 4871, 5358, 5894, 6484, 7132, 7845]
  const STEPS_6: seq<Step> := [8630, 9493, 10442, 11487, 12635, 13899, 15289, 16818, 18500]
  const STEPS_7: seq<Step> := [20350, 22385, 24623, 27086, 29794, 32767]
  const STEP_SIZES := STEPS_0 + STEPS_1 + STEPS_2 + STEPS_3 + STEPS_4 + STEPS_5 + STEPS_6 + STEPS_7

  function StepSize(i: StepIndex): Step {
    STEP_SIZES[i]
  }

  function IndexChange(code: Nibble): int {
    [-1, -1, -1, -1, 2, 4, 6, 8][code % 8]
  }

  /** Small codes shrink the step by one place, large ones grow it by twice their
      excess over three; the sign bit does not matter. */
  lemma IndexChangeMeaning(code: Nibble)
    ensures IndexChange(code) == IndexChange(code % 8)
    ensures code % 8 < 4 ==> IndexChange(code) == -1
    ensures code % 8 >= 4 ==> IndexChange(code) == 2 * (code % 8 - 3)
  {
  }

  /** Each step is a tenth larger than the one before, within one; the last may be
      cut at full scale. */
  ghost predicate Tenths(s: seq<Step>) {
    forall i :: 0 <= i < |s| - 1 ==> Tenth(s[i], s[i + 1])
  }

  ghost predicate Tenth(step: Step, next: Step) {
    || -10 < 10 * (next as int) - 11 * (step as int) < 10
    || (next == 32767 && 11 * (step as int) >= 327670)
  }

  lemma TenthsJoin(a: seq<Step>, b: seq<Step>)
    requires Tenths(a) && Tenths(b) && a != [] && b != [] && Tenth(a[|a| - 1], b[0])
    ensures Tenths(a + b) && |a + b| == |a| + |b| && (a + b)[0] == a[0] && (a + b)[|a + b| - 1] == b[|b| - 1]
  {
  }

  lemma FirstRowsAreTenths()
    ensures Tenths(STEPS_0) && Tenths(STEPS_1)
  {
  }

  lemma SecondRowsAreTenths()
    ensures Tenths(STEPS_2) && Tenths(STEPS_3)
  {
  }

  lemma ThirdRowsAreTenths()
    ensures Tenths(STEPS_4) && Tenths(STEPS_5)
  {
  }

  lemma LastRowsAreTenths()
    ensures Tenths(STEPS_6) && Tenths(STEPS_7)
  {
  }

  /** The step table rises by a tenth a place from 7 to full scale. */
  lemma StepsGrowByTenth(i: StepIndex)
    ensures StepSize(0) == 7 && StepSize(88) == 32767
    ensures i < 88 ==> Tenth(StepSize(i), StepSize(i + 1))
  {
    FirstRowsAreTenths();
    SecondRowsAreTenths();
    ThirdRowsAreTenths();
    LastRowsAreTenths();
    TenthsJoin(STEPS_0, STEPS_1);
    TenthsJoin(STEPS_0 + STEPS_1, STEPS_2);
    TenthsJoin(STEPS_0 + STEPS_1 + STEPS_2, STEPS_3);
    TenthsJoin(STEPS_0 + STEPS_1 + STEPS_2 + STEPS_3, STEPS_4);
    TenthsJoin(STEPS_0 + STEPS_1 + STEPS_2 + STEPS_3 + STEPS_4, STEPS_5);
    TenthsJoin(STEPS_0 + STEPS_1 + STEPS_2 + STEPS_3 + STEPS_4 + STEPS_5, STEPS_6);
    TenthsJoin(STEPS_0 + STEPS_1 + STEPS_2 + STEPS_3 + STEPS_4 + STEPS_5 + STEPS_6, STEPS_7);
  }

  function Clamp(low: int, high: int, x: int): int {
    Max(low, Min(high, x))
  }

  // -------------------------------------------------------- reference decoder

  /** What a decoder knows between two nibbles. */
  datatype State = State(predictor: Sample, index: StepIndex)

  /** Magnitude a code stands for: one eighth of the step plus the selected
      whole, half and quarter steps, each rounded down. */
  function Magnitude(step: Step, code: Nibble): nat {
    step / 8
    + (if code % 8 >= 4 then step as int else 0)
    + (if code % 4 >= 2 then step / 2 else 0)
    + (if code % 2 >= 1 then step / 4 else 0)
  }

  function Decode(s: State, code: Nibble): State {
    var m := Magnitude(StepSize(s.index), code);
    State(
      Clamp(-32768, 32767, if code >= 8 then s.predictor - m else s.predictor + m),
      Clamp(0, 88, s.index + IndexChange(code)))
  }

  /** Little endian two's complement. */
  function Signed16(low: Byte, high: Byte): Sample {
    var u := low as int + 256 * high as int;
    if u >= 32768 then u - 65536 else u
  }

  predicate HasNibbles(payload: seq<Byte>, count: nat) {
    |payload| >= HEADER_BYTES + (count + 1) / 2
  }

  function NibbleAt(payload: seq<Byte>, k: nat): Nibble
    requires HasNibbles(payload, k + 1)
  {
    var b := payload[HEADER_BYTES + k / 2];
    if k % 2 == 0 then b % 16 else b / 16
  }

  /** Decoder state after `count` nibbles, from the transmitted bytes alone. */
  function Replay(payload: seq<Byte>, count: nat): State
    requires HasNibbles(payload, count) && |payload| >= HEADER_BYTES && payload[2] <= 88
  {
    if count == 0 then State(Signed16(payload[0], payload[1]), payload[2])
    else Decode(Replay(payload, count - 1), NibbleAt(payload, count - 1))
  }

  /** One sample is followed faithfully: within an eighth of a step plus two when
      it was within two steps, and otherwise approached without passing it. */
  ghost predicate Tracks(was: State, sample: Sample, now: State) {
    var step := StepSize(was.index);
    if Abs(sample - was.predictor) < 2 * step then Abs(sample - now.predictor) <= step / 8 + 2
    else if sample > was.predictor then was.predictor < now.predictor < sample
    else sample < now.predictor < was.predictor
  }

  // ----------------------------------------------------------------- encoder

  /** The quantiser inside the sample loop. */
  method Quantise(step: Step, predictor: Sample, sample: Sample) returns (code: Nibble, decoded: nat)
    ensures decoded == Magnitude(step, code)
    ensures code >= 8 <==> sample < predictor
    ensures Close(step, Abs(sample - predictor), decoded)
  {
    var difference := sample as int - predictor as int;
    if difference < 0 {
      code, decoded := QuantiseMagnitude(step, -difference);
      code := code + 8;
    } else {
      code, decoded := QuantiseMagnitude(step, difference);
    }
  }

  ghost predicate Close(step: Step, distance: nat, decoded: nat) {
    if distance < 2 * step then -(step / 8) <= distance - decoded <= step / 8 + 2
    else 0 < decoded < distance
  }

  method QuantiseMagnitude(step: Step, distance: nat) returns (code: nat, decoded: nat)
    ensures code < 8 && decoded == Magnitude(step, code) && Close(step, distance, decoded)
  {
    var difference := distance;
    code, decoded := 0, step / 8;
    if difference >= step {
      code := 4;
      difference := difference - step;
      decoded := decoded + step;
    }
    assert distance < 2 * step <==> difference < step;
    var halfStep := step / 2;
    if difference >= halfStep {
      code := code + 2;
      difference := difference - halfStep;
      decoded := decoded + halfStep;
    }
    assert distance < 2 * step ==> difference < step - step / 2;
    assert difference + (decoded - step / 8) == distance;
    var quarterStep := step / 4;
    if difference >= quarterStep {
      code := code + 1;
      decoded := decoded + quarterStep;
    }
  }

  lemma QuantisedSampleTracks(was: State, sample: Sample, code: Nibble)
    requires code >= 8 <==> sample < was.predictor
    requires Close(StepSize(was.index), Abs(sample - was.predictor), Magnitude(StepSize(was.index), code))
    ensures Tracks(was, sample, Decode(was, code))
  {
  }

  /** The encoded utterance follows the samples at every position. */
  ghost predicate Faithful(payload: seq<Byte>, samples: seq<Sample>)
    requires |samples| >= 1 && HasNibbles(payload, |samples| - 1)
    requires |payload| >= HEADER_BYTES && payload[2] <= 88
  {
    && Replay(payload, 0).predictor == samples[0]
    && forall k :: 0 <= k < |samples| - 1 ==> Tracks(Replay(payload, k), samples[k + 1], Replay(payload, k + 1))
  }

  /** One pass of the sample loop: the tracked predictor is what a decoder of
      the emitted code reconstructs. */
  method EncodeSample(predictor: Sample, stepIndex: StepIndex, sample: Sample)
    returns (code: Nibble, nextPredictor: Sample, nextIndex: StepIndex)
    ensures State(nextPredictor, nextIndex) == Decode(State(predictor, stepIndex), code)
    ensures Tracks(State(predictor, stepIndex), sample, State(nextPredictor, nextIndex))
  {
    var decoded;
    code, decoded := Quantise(StepSize(stepIndex), predictor, sample);
    QuantisedSampleTracks(State(predictor, stepIndex), sample, code);
    nextPredictor := Clamp(-32768, 32767, if code >= 8 then predictor - decoded else predictor + decoded);
    nextIndex := Clamp(0, 88, stepIndex + IndexChange(code));
  }

  ghost predicate Follows(states: seq<State>, codes: seq<Nibble>, samples: seq<Sample>) {
    && |states| == |codes| + 1 <= |samples|
    && forall j :: 0 <= j < |codes| ==>
      states[j + 1] == Decode(states[j], codes[j]) && Tracks(states[j], samples[j + 1], states[j + 1])
  }

  /** Encode one utterance; `None` is the source's ValueError. */
  method EncodeImaAdpcm(samples: seq<Sample>, initialStepIndex: int)
    returns (encoded: Option<(seq<Byte>, StepIndex)>)
    ensures encoded.Some? <==> 1 <= |samples| <= MAX_SAMPLES && 0 <= initialStepIndex <= 88
    ensures encoded.Some? ==>
      var payload := encoded.value.0;
      && AdpcmSampleCount(payload) == Some(|samples|)
      && payload[2] == initialStepIndex
      && Faithful(payload, samples)
      && encoded.value.1 == Replay(payload, |samples| - 1).index
  {
    var n := |samples|;
    if !(1 <= n <= MAX_SAMPLES) || !(0 <= initialStepIndex <= 88) {
      return None;
    }
    var output := new Byte[HEADER_BYTES + n / 2](_ => 0);
    WriteHeader(output, samples[0], initialStepIndex, n);
    var stepIndex, states, codes := EncodeBody(output, samples, initialStepIndex);
    var payload := output[..];
    HeaderDecodes(payload, samples[0], initialStepIndex, n);
    PackedReplays(payload, codes, states, samples);
    PackedParses(payload, codes);
    return Some((payload, stepIndex));
  }

  /** The sample loop. The ghost results are the decoder's view of the body. */
  method EncodeBody(output: array<Byte>, samples: seq<Sample>, initialStepIndex: StepIndex)
    returns (stepIndex: StepIndex, ghost states: seq<State>, ghost codes: seq<Nibble>)
    requires |samples| >= 1 && output.Length == HEADER_BYTES + |samples| / 2
    requires Packed(output[..], [])
    modifies output
    ensures output[..HEADER_BYTES] == old(output[..HEADER_BYTES])
    ensures Packed(output[..], codes) && Follows(states, codes, samples)
    ensures |states| == |samples| && states[0] == State(samples[0], initialStepIndex)
    ensures stepIndex == states[|samples| - 1].index
  {
    var predictor: Sample := samples[0];
    stepIndex := initialStepIndex;
    states, codes := [State(predictor, stepIndex)], [];
    for k := 0 to |samples| - 1
      invariant output[..HEADER_BYTES] == old(output[..HEADER_BYTES])
      invariant |codes| == k && Follows(states, codes, samples)
      invariant states[0] == State(samples[0], initialStepIndex)
      invariant states[k] == State(predictor, stepIndex)
      invariant Packed(output[..], codes)
    {
      var code;
      code, predictor, stepIndex := EncodeSample(predictor, stepIndex, samples[k + 1]);
      WriteCode(output, codes, k, code);
      FollowsOn(states, codes, samples, State(predictor, stepIndex), code);
      states, codes := states + [State(predictor, stepIndex)], codes + [code];
    }
  }

  lemma FollowsOn(states: seq<State>, codes: seq<Nibble>, samples: seq<Sample>, now: State, code: Nibble)
    requires Follows(states, codes, samples) && |states| < |samples|
    requires now == Decode(states[|codes|], code) && Tracks(states[|codes|], samples[|states|], now)
    ensures Follows(states + [now], codes + [code], samples)
  {
  }

  function Header(first: Sample, index: StepIndex, n: nat): seq<Byte>
    requires n <= MAX_SAMPLES
  {
    [first % 256, (first / 256) % 256, index, n % 256, (n / 256) % 256, (n / 65536) % 256, n / 16777216]
  }

  method WriteHeader(output: array<Byte>, first: Sample, index: StepIndex, n: nat)
    requires output.Length >= HEADER_BYTES && n <= MAX_SAMPLES
    modifies output
    ensures output[..HEADER_BYTES] == Header(first, index, n)
    ensures output[HEADER_BYTES..] == old(output[HEADER_BYTES..])
  {
    output[0] := first % 256;
    output[1] := (first / 256) % 256;
    output[2] := index;
    output[3] := n % 256;
    output[4] := (n / 256) % 256;
    output[5] := (n / 65536) % 256;
    output[6] := n / 16777216;
  }

  method WriteCode(output: array<Byte>, ghost codes: seq<Nibble>, k: nat, code: Nibble)
    requires k == |codes| && Packed(output[..], codes) && HasNibbles(output[..], k + 1)
    modifies output
    ensures Packed(output[..], codes + [code])
    ensures output[..HEADER_BYTES] == old(output[..HEADER_BYTES])
  {
    ghost var was := output[..];
    var byteIndex := HEADER_BYTES + k / 2;
    if k % 2 == 1 {
      output[byteIndex] := output[byteIndex] + code * 16;
    } else {
      output[byteIndex] := code;
    }
    assert output[..] == was[byteIndex := output[byteIndex]];
    PackOne(was, codes, code, output[..]);
  }

  /** The codes occupy the body low nibble first and the rest is still zero. */
  ghost predicate Packed(payload: seq<Byte>, codes: seq<Nibble>) {
    && HasNibbles(payload, |codes|)
    && |payload| >= HEADER_BYTES
    && (forall j :: 0 <= j < |codes| ==> NibbleAt(payload, j) == codes[j])
    && (|codes| % 2 == 1 ==> payload[HEADER_BYTES + |codes| / 2] < 16)
    && (forall i :: HEADER_BYTES + (|codes| + 1) / 2 <= i < |payload| ==> payload[i] == 0)
  }

  lemma PackOne(was: seq<Byte>, codes: seq<Nibble>, code: Nibble, now: seq<Byte>)
    requires Packed(was, codes) && HasNibbles(was, |codes| + 1)
    requires var b := HEADER_BYTES + |codes| / 2;
      now == was[b := if |codes| % 2 == 1 then was[b] + code * 16 else code]
    ensures Packed(now, codes + [code])
  {
    forall j | 0 <= j < |codes| + 1
      ensures NibbleAt(now, j) == (codes + [code])[j]
    {
      if j < |codes| {
        assert NibbleAt(was, j) == codes[j];
      }
    }
  }

  lemma HeaderDecodes(payload: seq<Byte>, first: Sample, index: StepIndex, n: nat)
    requires 1 <= n <= MAX_SAMPLES && |payload| >= HEADER_BYTES
    requires payload[..HEADER_BYTES] == Header(first, index, n)
    ensures Signed16(payload[0], payload[1]) == first
    ensures payload[2] == index && HeaderCount(payload) == n
  {
    var h := payload[..HEADER_BYTES];
    assert h[0] == payload[0] && h[1] == payload[1] && h[2] == payload[2] && h[3] == payload[3];
    assert h[4] == payload[4] && h[5] == payload[5] && h[6] == payload[6];
  }

  /** A packed payload with a truthful header passes the host's validation,
      including its padding-nibble rule. */
  lemma PackedParses(payload: seq<Byte>, codes: seq<Nibble>)
    requires Packed(payload, codes) && payload[2] <= 88
    requires HeaderCount(payload) == |codes| + 1 <= MAX_SAMPLES
    requires |payload| == HEADER_BYTES + (|codes| + 1) / 2
    ensures AdpcmSampleCount(payload) == Some(|codes| + 1)
  {
    if |codes| % 2 == 1 {
      assert HEADER_BYTES + |codes| / 2 == |payload| - 1;
    }
  }

  lemma PackedReplays(payload: seq<Byte>, codes: seq<Nibble>, states: seq<State>, samples: seq<Sample>)
    requires Packed(payload, codes) && payload[2] <= 88
    requires Follows(states, codes, samples) && states[0] == Replay(payload, 0)
    ensures forall k :: 0 <= k <= |codes| ==> HasNibbles(payload, k) && Replay(payload, k) == states[k]
  {
    for k := 0 to |codes|
      invariant forall j :: 0 <= j <= k ==> HasNibbles(payload, j) && Replay(payload, j) == states[j]
    {
      assert NibbleAt(payload, k) == codes[k];
    }
  }

  // --------------------------------------------- resampling and companding

  const PCM16_MAX := 32767

  function SoftCompand(sample: Sample): Sample {
    var magnitude := Abs(sample);
    CompandBounds(magnitude);
    var compressed: int := Compress(magnitude);
    if sample < 0 then -compressed else compressed
  }

  function Compress(magnitude: nat): nat {
    (magnitude * (PCM16_MAX + PCM16_MAX)) / (magnitude + PCM16_MAX)
  }

  /** `q` stays below the compressed value exactly while the cross product does. */
  lemma CompressReaches(m: nat, q: int)
    ensures q <= Compress(m) <==> q * (m + PCM16_MAX) <= m * (PCM16_MAX + PCM16_MAX)
  {
    FloorReaches(m * (PCM16_MAX + PCM16_MAX), m + PCM16_MAX, q);
  }

  /** The companded magnitude on numbers: the largest whose cross product with the
      magnitude and full scale stays below. The sign is the sample's. */
  lemma SoftCompandExactly(x: Sample)
    ensures var q := Abs(SoftCompand(x));
      q * (Abs(x) + 32767) <= Abs(x) * 65534 < (q + 1) * (Abs(x) + 32767)
    ensures x < 0 ==> SoftCompand(x) <= 0
    ensures x >= 0 ==> SoftCompand(x) >= 0
  {
    CompandBounds(Abs(x));
    CompressReaches(Abs(x), Compress(Abs(x)));
    CompressReaches(Abs(x), Compress(Abs(x)) + 1);
  }

  /** Louder, never above full scale. */
  lemma CompandBounds(m: nat)
    requires m <= 32768
    ensures Min(m, PCM16_MAX) <= Compress(m) <= PCM16_MAX
  {
    CompressReaches(m, Min(m, PCM16_MAX));
    CompressReaches(m, PCM16_MAX + 1);
    assert m <= PCM16_MAX ==> m * (m + PCM16_MAX) <= m * (PCM16_MAX + PCM16_MAX);
  }

  lemma CrossProductGrows(a: nat, b: nat, q: nat, m: nat)
    requires a <= b && q <= m + m && q * (a + m) <= a * (m + m)
    ensures q * (b + m) <= b * (m + m)
  {
    ScaleOrder(a, b, m + m - q);
    assert a * (m + m - q) == a * (m + m) - a * q;
    assert b * (m + m - q) == b * (m + m) - b * q;
    assert q * (a + m) == a * q + q * m;
    assert q * (b + m) == b * q + q * m;
  }

  lemma CompressIsMonotone(a: nat, b: nat)
    requires a <= b <= 32768
    ensures Compress(a) <= Compress(b)
  {
    CompandBounds(a);
    CompressReaches(a, Compress(a));
    CrossProductGrows(a, b, Compress(a), PCM16_MAX);
    CompressReaches(b, Compress(a));
  }

  /** Companding keeps the order and the sign of samples and never lowers a
      magnitude that full scale can hold. */
  lemma SoftCompandKeepsShape(x: Sample, y: Sample)
    requires x <= y
    ensures SoftCompand(x) <= SoftCompand(y)
    ensures SoftCompand(0) == 0
    ensures Abs(SoftCompand(x)) >= Min(Abs(x), PCM16_MAX)
    ensures -32767 <= x ==> SoftCompand(-x) == -SoftCompand(x)
  {
    CompandBounds(Abs(x));
    CompandBounds(Abs(y));
    if 0 <= x {
      CompressIsMonotone(x, y);
    } else if y < 0 {
      CompressIsMonotone(Abs(y), Abs(x));
    }
  }

  /** One output sample of the linear interpolation at the target rate. */
  function Interpolated(signed: seq<Sample>, rate: nat, i: nat): Sample
    requires |signed| >= 1
  {
    var left, fraction := (i * rate) / SAMPLE_RATE_HZ, (i * rate) % SAMPLE_RATE_HZ;
    if left >= |signed| - 1 then signed[|signed| - 1]
    else
      BlendStaysBetween(signed[left], signed[left + 1], fraction);
      Blend(signed[left], signed[left + 1], fraction)
  }

  function Blend(left: Sample, right: Sample, fraction: nat): int {
    (left * (SAMPLE_RATE_HZ - fraction) + right * fraction) / SAMPLE_RATE_HZ
  }

  /** Interpolation never leaves the interval of its two neighbours, so the
      source's clamp to 16 bits is never active. */
  lemma BlendStaysBetween(left: Sample, right: Sample, fraction: nat)
    requires fraction < SAMPLE_RATE_HZ
    ensures Min(left, right) <= Blend(left, right, fraction) <= Max(left, right)
    ensures fraction == 0 ==> Blend(left, right, fraction) == left
  {
    BlendBetween(left, right, fraction, SAMPLE_RATE_HZ);
    var low, high := Min(left, right), Max(left, right);
    FloorBetween(low, high, left * (SAMPLE_RATE_HZ - fraction) + right * fraction, SAMPLE_RATE_HZ);
  }

  lemma BlendBetween(left: int, right: int, f: nat, t: nat)
    requires f <= t
    ensures Min(left, right) * t <= left * (t - f) + right * f <= Max(left, right) * t
  {
    var low, high := Min(left, right), Max(left, right);
    ScaleOrder(low, left, t - f);
    ScaleOrder(low, right, f);
    ScaleOrder(left, high, t - f);
    ScaleOrder(right, high, f);
    assert low * (t - f) + low * f == low * t;
    assert high * (t - f) + high * f == high * t;
  }

  /** The output sample `i` on numbers: it lies `fraction` sixteen-thousandths of the
      way from input sample `left` to the next, rounded down; past the last input
      sample it is held. */
  lemma InterpolatedExactly(signed: seq<Sample>, rate: nat, i: nat, left: nat, fraction: nat)
    requires |signed| >= 1 && i * rate == left * 16000 + fraction && fraction < 16000
    ensures var value := Interpolated(signed, rate, i);
      if left + 1 >= |signed| then value == signed[|signed| - 1]
      else 16000 * value <= signed[left] * (16000 - fraction) + signed[left + 1] * fraction < 16000 * (value + 1)
  {
    PositionIs(i * rate, left, fraction);
    if left + 1 < |signed| {
      BlendStaysBetween(signed[left], signed[left + 1], fraction);
      FloorBounds(signed[left] * (16000 - fraction) + signed[left + 1] * fraction);
    }
  }

  lemma PositionIs(position: nat, left: nat, fraction: nat)
    requires position == left * 16000 + fraction && fraction < 16000
    ensures position / SAMPLE_RATE_HZ == left && position % SAMPLE_RATE_HZ == fraction
  {
  }

  lemma FloorBounds(v: int)
    ensures 16000 * (v / SAMPLE_RATE_HZ) <= v < 16000 * (v / SAMPLE_RATE_HZ + 1)
  {
  }

  /** The output covers the input's duration and not a sample more. */
  lemma OutputCoversInput(frames: nat, rate: nat)
    requires rate >= 1
    ensures (OutputCount(frames, rate) - 1) * rate < frames * 16000 <= OutputCount(frames, rate) * rate
  {
    CeilDivIsLeast(frames * SAMPLE_RATE_HZ, rate, OutputCount(frames, rate));
    CeilDivIsLeast(frames * SAMPLE_RATE_HZ, rate, OutputCount(frames, rate) - 1);
  }

  function ConvertedSample(signed: seq<Sample>, rate: nat, compensate: bool, i: nat): Sample
    requires |signed| >= 1
  {
    if compensate then SoftCompand(Interpolated(signed, rate, i)) else Interpolated(signed, rate, i)
  }

  function Signal(signed: seq<Sample>, rate: nat, compensate: bool, count: nat): seq<Sample>
    requires |signed| >= 1
  {
    seq(count, i requires 0 <= i => ConvertedSample(signed, rate, compensate, i))
  }

  function OutputCount(frames: nat, rate: nat): int
    requires rate >= 1
  {
    CeilDiv(frames * SAMPLE_RATE_HZ, rate)
  }

  datatype Conversion =
    | Converted(payload: seq<Byte>, durationMs: nat, sampleCount: nat)
    | NoAudio
    | AudioTooLong

  /** PCM16 in, transferable utterance out: the payload the host will accept,
      following the interpolated and companded signal at every sample. */
  method Pcm16ToBlastAdpcm(signed: seq<Sample>, rate: nat, compensate: bool) returns (r: Conversion)
    requires rate >= 1
    ensures r.NoAudio? <==> signed == []
    ensures r.AudioTooLong? <==> |signed| * SAMPLE_RATE_HZ > MAX_SAMPLES * rate
    ensures r.Converted? ==>
      && r.sampleCount == OutputCount(|signed|, rate)
      && AdpcmSampleCount(r.payload) == Some(r.sampleCount) && r.payload[2] == 0
      && AdpcmDurationMs(r.sampleCount) == Some(r.durationMs)
      && Faithful(r.payload, Signal(signed, rate, compensate, r.sampleCount))
  {
    var count := OutputCount(|signed|, rate);
    CeilDivIsLeast(|signed| * SAMPLE_RATE_HZ, rate, 0);
    CeilDivIsLeast(|signed| * SAMPLE_RATE_HZ, rate, MAX_SAMPLES);
    if count <= 0 {
      return NoAudio;
    }
    if count > MAX_SAMPLES {
      return AudioTooLong;
    }
    var converted: seq<Sample> := [];
    for i := 0 to count
      invariant converted == Signal(signed, rate, compensate, i)
    {
      var left, fraction := (i * rate) / SAMPLE_RATE_HZ, (i * rate) % SAMPLE_RATE_HZ;
      var value: int;
      if left >= |signed| - 1 {
        value := signed[|signed| - 1];
      } else {
        value := (signed[left] * (SAMPLE_RATE_HZ - fraction) + signed[left + 1] * fraction) / SAMPLE_RATE_HZ;
        BlendStaysBetween(signed[left], signed[left + 1], fraction);
      }
      value := Clamp(-32768, 32767, value);
      converted := converted + [if compensate then SoftCompand(value) else value];
    }
    var encoded := EncodeImaAdpcm(converted, 0);
    return Converted(encoded.value.0, AdpcmDurationMs(count).value, count);
  }

  /** At the native rate, without companding, the converter is the identity. */
  lemma NativeRateIsIdentity(signed: seq<Sample>, i: nat)
    requires i < |signed|
    ensures OutputCount(|signed|, SAMPLE_RATE_HZ) == |signed|
    ensures ConvertedSample(signed, SAMPLE_RATE_HZ, false, i) == signed[i]
  {
    if i < |signed| - 1 {
      BlendStaysBetween(signed[i], signed[i + 1], 0);
    }
  }
}
