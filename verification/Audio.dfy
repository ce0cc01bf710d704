/** The machine's sound: every playing stream pulled for what one frame is worth,
    resampled by holding, and added into one stereo buffer of 16-bit samples. */
module Audio {
  import opened Division
  import opened Saturation

  /** A sample at a volume, the fraction dropped toward zero. */
  function Scaled(s: Sample, volume: real): int {
    var x := s as real * volume;
    if x >= 0.0 then x.Floor else -(-x).Floor
  }

  /** Between silence and full volume a sample only gets quieter. */
  lemma ScaledIsQuieter(s: Sample, volume: real)
    requires 0.0 <= volume <= 1.0
    ensures Abs(Scaled(s, volume)) <= Abs(s)
    ensures Scaled(s, volume) != 0 ==> (Scaled(s, volume) > 0 <==> s > 0)
  {
    var n: int := s;
    if n >= 0 {
      FractionFloored(n, volume);
    } else {
      FractionFloored(-n, volume);
      assert (-n) as real * volume == -(n as real * volume);
    }
  }

  lemma FractionFloored(n: nat, volume: real)
    requires 0.0 <= volume <= 1.0
    ensures 0.0 <= n as real * volume <= n as real
    ensures 0 <= (n as real * volume).Floor <= n
  {
    Fraction(n, volume);
  }

  lemma {:induction false} Fraction(n: nat, volume: real)
    requires 0.0 <= volume <= 1.0
    ensures 0.0 <= n as real * volume <= n as real
  {
    if n > 0 {
      Fraction(n - 1, volume);
      RealTimes((n - 1) as real, volume);
      assert n as real == (n - 1) as real + 1.0;
    }
  }

  lemma RealTimes(x: real, volume: real)
    ensures (x + 1.0) * volume == x * volume + volume
  {
  }

  // ---- resampling --------------------------------------------------------

  /** How many of a stream's frames `frames` of ours are worth, rounded up. */
  function Wanted(frames: nat, rate: nat, outRate: nat): nat {
    if outRate != 0 then (frames * rate + outRate - 1) / outRate else frames
  }

  /** The stream's frame held at our frame `i`. */
  function Source(i: nat, frames: nat, want: nat): nat
    requires i < frames
  {
    if want == frames then i else i * want / frames
  }

  /** The held frame stays inside what was asked for and never goes back. */
  lemma SourceInBounds(i: nat, j: nat, frames: nat, want: nat)
    requires i <= j < frames && want > 0
    ensures Source(i, frames, want) <= Source(j, frames, want) < want
  {
    ProductMonotone(i, j, want);
    ProductMonotone(j + 1, frames, want);
    SumTimes(j, 1, want);
    QuotientBelow(j * want, want, frames);
    QuotientMonotone(i * want, j * want, frames);
  }

  /** Upsampling skips no frame of the stream: the first is 0, the last the last, and
      each step moves on by at most one. */
  lemma UpsamplingSkipsNothing(i: nat, frames: nat, want: nat)
    requires 0 < want <= frames && i < frames
    ensures Source(0, frames, want) == 0 && Source(frames - 1, frames, want) == want - 1
    ensures i + 1 < frames ==> Source(i + 1, frames, want) <= Source(i, frames, want) + 1
  {
    if want < frames {
      QuotientBelow(0, 1, frames);
      LastSource(frames, want);
      SourceInBounds(frames - 1, frames - 1, frames, want);
      NextSource(i, frames, want);
    }
  }

  lemma LastSource(frames: nat, want: nat)
    requires 0 < want <= frames
    ensures want - 1 <= (frames - 1) * want / frames
  {
    DifferenceTimes(frames, 1, want);
    DifferenceTimes(want, 1, frames);
    QuotientAtLeast(want - 1, (frames - 1) * want, frames);
  }

  lemma NextSource(i: nat, frames: nat, want: nat)
    requires 0 < want <= frames
    ensures (i + 1) * want / frames <= i * want / frames + 1
  {
    var q := i * want / frames;
    Divided(i * want, frames);
    SumTimes(i, 1, want);
    SumTimes(q, 2, frames);
    QuotientBelow((i + 1) * want, q + 2, frames);
  }

  // ---- the streams -------------------------------------------------------

  /** What a callback gives for the frames asked of it: the samples it wrote and how many frames. */
  datatype Pulled = Pulled(samples: seq<Sample>, got: nat)

  class AudioStream {
    const rate: nat
    const channels: nat
    const hasCallback: bool
    /** The callback: what it gives at each of its calls. */
    const callback: (nat, nat) -> Pulled
    var pulls: nat
    var playing: bool
    var volume: real
    var position: nat

    constructor (rate: nat, channels: nat, hasCallback: bool, callback: (nat, nat) -> Pulled)
      requires channels > 0
      requires forall call, want :: Honest(callback(call, want), want, channels)
      ensures Valid() && !playing && volume == 1.0 && position == 0
    {
      this.rate, this.channels, this.hasCallback, this.callback := rate, channels, hasCallback, callback;
      pulls, playing, volume, position := 0, false, 1.0, 0;
    }

    ghost predicate Valid()
    {
      channels > 0 && forall call, want :: Honest(callback(call, want), want, channels)
    }

    /** What this stream adds at our frame `i`: on the left, or on the right. */
    function Contribution(frames: nat, outRate: nat, i: nat, right: bool): int
      requires Valid() && i < frames
      reads this
    {
      var want := Wanted(frames, rate, outRate);
      if playing && hasCallback then Heard(callback(pulls, want), volume, channels, frames, want, i, right) else 0
    }

    /** Once mixed in: how often its callback was asked, and its position, moved by what that gave. */
    function Moved(frames: nat, outRate: nat): (int, int)
      requires Valid()
      reads this
    {
      if playing && hasCallback then (pulls + 1, position + callback(pulls, Wanted(frames, rate, outRate)).got)
      else (pulls, position)
    }

    /** Adds this stream's frames to `out`, each sample clamped to 16 bits. */
    method MixInto(out: array<Sample>, frames: nat, outRate: nat)
      requires Valid() && out.Length == 2 * frames
      modifies this`pulls, this`position, out
      ensures Valid() && playing == old(playing) && volume == old(volume)
      ensures forall i | 0 <= i < frames ::
                && out[2 * i] == Clamp(old(out[2 * i]) + old(Contribution(frames, outRate, i, false)))
                && out[2 * i + 1] == Clamp(old(out[2 * i + 1]) + old(Contribution(frames, outRate, i, true)))
      ensures (pulls, position) == old(Moved(frames, outRate))
    {
      if !playing || !hasCallback {
        return;
      }
      var want := Wanted(frames, rate, outRate);
      var pulled := callback(pulls, want);
      pulls := pulls + 1;
      if pulled.got == 0 {
        return;
      }
      position := position + pulled.got;
      MixFrames(out, frames, want, pulled);
    }

    /** Holds the nearest of the stream's frames at each of ours, as long as there are any. */
    method MixFrames(out: array<Sample>, frames: nat, want: nat, pulled: Pulled)
      requires out.Length == 2 * frames && channels > 0 && Honest(pulled, want, channels)
      modifies out
      ensures forall i | 0 <= i < frames ::
                && out[2 * i] == Clamp(old(out[2 * i]) + Heard(pulled, volume, channels, frames, want, i, false))
                && out[2 * i + 1] == Clamp(old(out[2 * i + 1]) + Heard(pulled, volume, channels, frames, want, i, true))
    {
      for i := 0 to frames
        invariant forall k | 0 <= k < i ::
                    && out[2 * k] == Clamp(old(out[2 * k]) + Heard(pulled, volume, channels, frames, want, k, false))
                    && out[2 * k + 1] == Clamp(old(out[2 * k + 1]) + Heard(pulled, volume, channels, frames, want, k, true))
        invariant forall k | i <= k < frames :: out[2 * k] == old(out[2 * k]) && out[2 * k + 1] == old(out[2 * k + 1])
      {
        var source := Source(i, frames, want);
        if source >= pulled.got {
          NothingMore(pulled, volume, channels, frames, want, i);
          break;
        }
        Within(source, want, channels);
        var left := pulled.samples[source * channels];
        var right := if channels > 1 then pulled.samples[source * channels + 1] else left;
        out[2 * i] := Clamp(out[2 * i] + Scaled(left, volume));
        out[2 * i + 1] := Clamp(out[2 * i + 1] + Scaled(right, volume));
      }
    }
  }

  /** A callback fills the buffer it was given and never returns more frames than were asked. */
  predicate Honest(p: Pulled, want: nat, channels: nat) {
    |p.samples| == want * channels && p.got <= want
  }

  /** What is heard of a pull at our frame `i`: the held frame's sample, nothing past the last. */
  function Heard(pulled: Pulled, volume: real, channels: nat, frames: nat, want: nat, i: nat, right: bool): int
    requires i < frames && channels > 0 && Honest(pulled, want, channels)
  {
    var source := Source(i, frames, want);
    if source >= pulled.got then 0
    else
      Within(source, want, channels);
      Scaled(pulled.samples[source * channels + (if right && channels > 1 then 1 else 0)], volume)
  }

  /** Once the held frame runs past what was given, so do all after it. */
  lemma NothingMore(pulled: Pulled, volume: real, channels: nat, frames: nat, want: nat, i: nat)
    requires i < frames && channels > 0 && Honest(pulled, want, channels) && Source(i, frames, want) >= pulled.got
    ensures forall k, right | i <= k < frames :: Heard(pulled, volume, channels, frames, want, k, right) == 0
  {
    forall k, right | i <= k < frames
      ensures Heard(pulled, volume, channels, frames, want, k, right) == 0
    {
      if want > 0 {
        SourceInBounds(i, k, frames, want);
      }
    }
  }

  /** The samples of a frame lie within those of all the frames. */
  lemma Within(frame: nat, want: nat, channels: nat)
    requires frame < want && channels > 0
    ensures frame * channels + channels <= want * channels
  {
    ProductMonotone(frame + 1, want, channels);
    SumTimes(frame, 1, channels);
  }

  // ---- the sink ----------------------------------------------------------

  ghost function Contributions(streams: seq<AudioStream>, frames: nat, rate: nat, i: nat, right: bool): (cs: seq<int>)
    requires (forall s | s in streams :: s.Valid()) && i < frames
    reads streams
    ensures |cs| == |streams|
    ensures forall k | 0 <= k < |cs| :: cs[k] == streams[k].Contribution(frames, rate, i, right)
    decreases |streams|
  {
    if streams == [] then []
    else Contributions(streams[..|streams| - 1], frames, rate, i, right)
         + [streams[|streams| - 1].Contribution(frames, rate, i, right)]
  }

  class AudioSink {
    const rate: nat
    var streams: seq<AudioStream>

    constructor (rate: nat)
      ensures Valid() && this.rate == rate && streams == []
    {
      this.rate, streams := rate, [];
    }

    ghost predicate Valid()
      reads this
    {
      && (forall s | s in streams :: s.Valid())
      && (forall j, k | 0 <= j < k < |streams| :: streams[j] != streams[k])
    }

    method Add(stream: AudioStream)
      requires Valid() && stream.Valid() && stream !in streams
      modifies this
      ensures Valid() && streams == old(streams) + [stream]
    {
      streams := streams + [stream];
    }

    /** One frame's worth of sound: at each sample the saturating sum, in order, of what
        every stream gives. */
    method Render(out: array<Sample>, frames: nat)
      requires Valid() && out.Length == 2 * frames
      modifies out, streams
      ensures Valid()
      ensures forall i | 0 <= i < frames ::
                && out[2 * i] == Mixed(old(Contributions(streams, frames, rate, i, false)))
                && out[2 * i + 1] == Mixed(old(Contributions(streams, frames, rate, i, true)))
      ensures forall s | s in streams :: HasMoved(s, frames, rate)
    {
      forall i | 0 <= i < out.Length {
        out[i] := 0;
      }
      ghost var given := Given(streams, frames, rate);
      SilenceHolds(out, given);
      MixAll(out, given);
      AllHeld(out, given, |streams|);
    }

    /** Adds the streams one after the other to a buffer of silence. */
    method MixAll(out: array<Sample>, ghost given: seq<Pair>)
      requires Valid() && Holds(out, given, 0) && given == Given(streams, |given|, rate)
      modifies out, streams
      ensures Holds(out, given, |streams|)
      ensures forall s | s in streams :: HasMoved(s, |given|, rate)
    {
      var playing := streams;
      for k := 0 to |playing|
        invariant playing == streams && Holds(out, given, k)
        invariant forall j | 0 <= j < k :: HasMoved(playing[j], |given|, rate)
        invariant forall j | k <= j < |playing| :: unchanged(playing[j])
      {
        MixOne(playing[k], out, given, k);
      }
    }

    /** Adds one more stream to a buffer that holds the sums of those before it. */
    method MixOne(stream: AudioStream, out: array<Sample>, ghost given: seq<Pair>, ghost k: nat)
      requires stream.Valid() && Holds(out, given, k)
      requires forall i | 0 <= i < |given| :: GivesAt(stream, given, rate, i, k)
      modifies out, stream
      ensures Holds(out, given, k + 1) && HasMoved(stream, |given|, rate)
    {
      ghost var next := k + 1;
      var frames := out.Length / 2;
      stream.MixInto(out, frames, rate);
      forall i: nat | i < |given|
        ensures SampleHolds(out, given, i, next)
      {
        assert old(SampleHolds(out, given, i, k)) && old(GivesAt(stream, given, rate, i, k));
        MixedStep(given[i].left, k);
        MixedStep(given[i].right, k);
      }
    }
  }

  /** The stream went on by one frame's worth, and nothing else of it changed. */
  twostate predicate HasMoved(s: AudioStream, frames: nat, rate: nat)
    requires s.Valid()
    reads s
  {
    (s.pulls, s.position) == old(s.Moved(frames, rate)) && s.playing == old(s.playing) && s.volume == old(s.volume)
  }

  /** What the streams give at one of our frames, on the left and on the right. */
  datatype Pair = Pair(left: seq<int>, right: seq<int>)

  ghost function Given(streams: seq<AudioStream>, frames: nat, rate: nat): (given: seq<Pair>)
    requires forall s | s in streams :: s.Valid()
    reads streams
    ensures |given| == frames
    ensures forall i | 0 <= i < frames :: given[i] == GivenAt(streams, frames, rate, i)
  {
    seq(frames, i requires 0 <= i < frames reads streams => GivenAt(streams, frames, rate, i))
  }

  ghost function GivenAt(streams: seq<AudioStream>, frames: nat, rate: nat, i: nat): Pair
    requires (forall s | s in streams :: s.Valid()) && i < frames
    reads streams
  {
    Pair(Contributions(streams, frames, rate, i, false), Contributions(streams, frames, rate, i, true))
  }

  /** The stream is the one that gives entry `k` of what is given at frame `i`. */
  ghost predicate GivesAt(stream: AudioStream, given: seq<Pair>, rate: nat, i: nat, k: nat)
    requires stream.Valid() && i < |given|
    reads stream
  {
    && k < |given[i].left| && given[i].left[k] == stream.Contribution(|given|, rate, i, false)
    && k < |given[i].right| && given[i].right[k] == stream.Contribution(|given|, rate, i, true)
  }

  /** A frame of the buffer holds the sums of what the first `k` streams give. */
  ghost predicate SampleHolds(out: array<Sample>, given: seq<Pair>, i: nat, k: nat)
    requires out.Length == 2 * |given| && i < |given|
    reads out
  {
    && k <= |given[i].left| && out[2 * i] == Mixed(given[i].left[..k])
    && k <= |given[i].right| && out[2 * i + 1] == Mixed(given[i].right[..k])
  }

  lemma SilenceHolds(out: array<Sample>, given: seq<Pair>)
    requires out.Length == 2 * |given| && forall i | 0 <= i < out.Length :: out[i] == 0
    ensures Holds(out, given, 0)
  {
    forall i: nat | i < |given|
      ensures SampleHolds(out, given, i, 0)
    {
      assert given[i].left[..0] == [] && given[i].right[..0] == [];
    }
  }

  lemma AllHeld(out: array<Sample>, given: seq<Pair>, count: nat)
    requires Holds(out, given, count) && forall g | g in given :: |g.left| == |g.right| == count
    ensures forall i | 0 <= i < |given| :: out[2 * i] == Mixed(given[i].left) && out[2 * i + 1] == Mixed(given[i].right)
  {
    forall i | 0 <= i < |given|
      ensures out[2 * i] == Mixed(given[i].left) && out[2 * i + 1] == Mixed(given[i].right)
    {
      assert SampleHolds(out, given, i, count);
      assert given[i].left[..count] == given[i].left && given[i].right[..count] == given[i].right;
    }
  }

  ghost predicate Holds(out: array<Sample>, given: seq<Pair>, k: nat)
    reads out
  {
    out.Length == 2 * |given| && forall i: nat | i < |given| :: SampleHolds(out, given, i, k)
  }
}
