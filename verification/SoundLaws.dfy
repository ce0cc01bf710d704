/** What is heard of a stream, told by the samples its callback gives: which of them, how loud,
    on which side, and how many are asked for. */
module SoundLaws {
  import opened Division
  import opened Saturation
  import opened Audio

  // ---- one sample --------------------------------------------------------

  /** The whole part of the product, toward silence. */
  lemma ScaledExactly(s: Sample, volume: real)
    ensures var x, n := s as real * volume, Scaled(s, volume) as real;
            if x >= 0.0 then n <= x < n + 1.0 && n >= 0.0 else n - 1.0 < x <= n && n <= 0.0
  {
  }

  /** At full volume a sample is heard as it is, at none not at all. */
  lemma FullVolume(s: Sample)
    ensures Scaled(s, 1.0) == s && Scaled(s, 0.0) == 0
  {
  }

  /** A sum is held at the nearest sample there is. */
  lemma ClampIsNearest(x: int, s: Sample)
    ensures Abs(Clamp(x) - x) <= Abs(s - x)
  {
  }

  // ---- how many frames ---------------------------------------------------

  /** A sink without a rate asks for as many frames as it needs, each heard as it is. */
  lemma NoRate(frames: nat, rate: nat, i: nat)
    requires i < frames
    ensures Wanted(frames, rate, 0) == frames && Source(i, frames, Wanted(frames, rate, 0)) == i
  {
  }

  /** The fewest frames of the stream that last as long as the frames wanted. */
  lemma WantedExactly(frames: nat, rate: nat, outRate: nat, n: nat)
    requires outRate > 0
    ensures n >= Wanted(frames, rate, outRate) <==> n * outRate >= frames * rate
  {
    var asked := frames * rate;
    var q := (asked + outRate - 1) / outRate;
    Divided(asked + outRate - 1, outRate);
    if n >= q {
      ProductMonotone(q, n, outRate);
    } else {
      ProductMonotone(n + 1, q, outRate);
      SumTimes(n, 1, outRate);
    }
  }

  lemma SameRate(frames: nat, rate: nat)
    requires rate > 0
    ensures Wanted(frames, rate, rate) == frames
  {
    WantedExactly(frames, rate, rate, frames);
    if Wanted(frames, rate, rate) < frames {
      WantedExactly(frames, rate, rate, frames - 1);
      ProductMonotone(frames - 1, frames, rate);
      DifferenceTimes(frames, 1, rate);
    }
  }

  /** The last of the stream's frames that begins no later than ours, when both last equally long. */
  lemma SourceExactly(i: nat, frames: nat, want: nat, n: nat)
    requires i < frames
    ensures n <= Source(i, frames, want) <==> n * frames <= i * want
  {
    if want == frames {
      if n <= i {
        ProductMonotone(n, i, frames);
      } else {
        ProductMonotone(i + 1, n, frames);
        SumTimes(i, 1, frames);
      }
    } else {
      var q := i * want / frames;
      Divided(i * want, frames);
      if n <= q {
        ProductMonotone(n, q, frames);
      } else {
        ProductMonotone(q + 1, n, frames);
        SumTimes(q, 1, frames);
      }
    }
  }

  // ---- one stream alone --------------------------------------------------

  /** What the stream's callback gives when it is next asked for that many frames. */
  function Given(s: AudioStream, want: nat): Pulled
    reads s
  {
    s.callback(s.pulls, want)
  }

  /** A stream that plays at full volume, at the sink's own rate. */
  predicate PlaysAsIs(s: AudioStream, rate: nat)
    reads s
  {
    s.playing && s.hasCallback && s.volume == 1.0 && s.rate == rate && rate > 0
  }

  /** The sample heard of a stereo stream: its own, on each side, as far as it gave any. */
  function StereoAt(p: Pulled, i: nat, right: bool): int
    requires 2 * i + 1 < |p.samples|
  {
    if i >= p.got then 0 else if right then p.samples[2 * i + 1] else p.samples[2 * i]
  }

  function MonoAt(p: Pulled, i: nat): int
    requires i < |p.samples|
  {
    if i >= p.got then 0 else p.samples[i]
  }

  lemma StereoHeard(p: Pulled, frames: nat, i: nat, right: bool)
    requires i < frames && Honest(p, frames, 2)
    ensures Heard(p, 1.0, 2, frames, frames, i, right) == StereoAt(p, i, right)
  {
    if i < p.got {
      FullVolume(p.samples[2 * i]);
      FullVolume(p.samples[2 * i + 1]);
    }
  }

  lemma MonoHeard(p: Pulled, frames: nat, i: nat, right: bool)
    requires i < frames && Honest(p, frames, 1)
    ensures Heard(p, 1.0, 1, frames, frames, i, right) == MonoAt(p, i)
  {
    if i < p.got {
      FullVolume(p.samples[i]);
    }
  }

  /** A sink with one stereo stream gives its samples out again, left to left and right to right. */
  method RenderStereo(sink: AudioSink, s: AudioStream, out: array<Sample>, frames: nat)
    requires sink.Valid() && sink.streams == [s] && PlaysAsIs(s, sink.rate) && s.channels == 2 && out.Length == 2 * frames
    modifies out, sink.streams
    ensures var p := old(Given(s, frames));
            && |p.samples| == 2 * frames
            && forall i | 0 <= i < frames ::
                 out[2 * i] == StereoAt(p, i, false) && out[2 * i + 1] == StereoAt(p, i, true)
    ensures s.pulls == old(s.pulls) + 1 && s.position == old(s.position) + old(Given(s, frames)).got
  {
    ghost var p := Given(s, frames);
    SameRate(frames, sink.rate);
    assert s in sink.streams && Honest(s.callback(s.pulls, frames), frames, 2);
    forall i, right | 0 <= i < frames
      ensures Mixed(Contributions(sink.streams, frames, sink.rate, i, right)) == StereoAt(p, i, right)
    {
      StereoHeard(p, frames, i, right);
      MixedAlone(Contributions(sink.streams, frames, sink.rate, i, right), StereoAt(p, i, right));
    }
    sink.Render(out, frames);
  }

  /** One of a mono stream gives each of its samples twice. */
  method RenderMono(sink: AudioSink, s: AudioStream, out: array<Sample>, frames: nat)
    requires sink.Valid() && sink.streams == [s] && PlaysAsIs(s, sink.rate) && s.channels == 1 && out.Length == 2 * frames
    modifies out, sink.streams
    ensures var p := old(Given(s, frames));
            && |p.samples| == frames
            && forall i | 0 <= i < frames :: out[2 * i] == out[2 * i + 1] == MonoAt(p, i)
    ensures s.pulls == old(s.pulls) + 1 && s.position == old(s.position) + old(Given(s, frames)).got
  {
    ghost var p := Given(s, frames);
    SameRate(frames, sink.rate);
    assert s in sink.streams && Honest(s.callback(s.pulls, frames), frames, 1);
    forall i, right | 0 <= i < frames
      ensures Mixed(Contributions(sink.streams, frames, sink.rate, i, right)) == MonoAt(p, i)
    {
      MonoHeard(p, frames, i, right);
      MixedAlone(Contributions(sink.streams, frames, sink.rate, i, right), MonoAt(p, i));
    }
    sink.Render(out, frames);
  }

  /** A stream that does not play, or has nothing to ask, is not heard among the others and does not move. */
  lemma NotHeard(streams: seq<AudioStream>, k: nat, frames: nat, rate: nat, i: nat, right: bool)
    requires (forall s | s in streams :: s.Valid()) && k < |streams| && i < frames
    requires !streams[k].playing || !streams[k].hasCallback
    ensures Contributions(streams, frames, rate, i, right)[k] == 0
    ensures streams[k].Moved(frames, rate) == (streams[k].pulls, streams[k].position)
  {
  }

  lemma MixedAlone(cs: seq<int>, s: Sample)
    requires cs == [s]
    ensures Mixed(cs) == s
  {
    assert cs[..0] == [];
  }

  // ---- the two sides -----------------------------------------------------

  /** Every sample of one side of the frames is silent: the first of each frame is the left,
      the second the right. */
  predicate SilentSide(p: Pulled, want: nat, channels: nat, right: bool)
    requires channels >= 2 && Honest(p, want, channels)
  {
    forall f: nat | f < want :: SideOf(p, want, channels, f, right) == 0
  }

  function SideOf(p: Pulled, want: nat, channels: nat, frame: nat, right: bool): Sample
    requires channels >= 2 && Honest(p, want, channels) && frame < want
  {
    Within(frame, want, channels);
    if right then p.samples[frame * channels + 1] else p.samples[frame * channels]
  }

  /** A stream that is silent on one side is not heard there, at whatever volume and rate. */
  lemma SilentSideStays(p: Pulled, volume: real, channels: nat, frames: nat, want: nat, i: nat, right: bool)
    requires i < frames && channels >= 2 && Honest(p, want, channels) && SilentSide(p, want, channels, right)
    ensures Heard(p, volume, channels, frames, want, i, right) == 0
  {
    var source := Source(i, frames, want);
    if source < p.got {
      assert SideOf(p, want, channels, source, right) == 0;
    }
  }

  /** What is heard of any stream: the held frame's sample of that side, scaled. */
  lemma HeardIsSide(p: Pulled, volume: real, channels: nat, frames: nat, want: nat, i: nat, right: bool)
    requires i < frames && channels >= 2 && Honest(p, want, channels) && Source(i, frames, want) < p.got
    ensures Heard(p, volume, channels, frames, want, i, right)
            == Scaled(SideOf(p, want, channels, Source(i, frames, want), right), volume)
  {
  }
}
