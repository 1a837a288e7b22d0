/** The crossfade as a function of the absolute frame since the new model was adopted. */
module Crossfade {
  import opened RateAdapterSpec

  /** One side of a fade: no model passes the input through, a model runs and is scaled by
      the normalization gain of its output mode. */
  datatype Voice<!S> = Dry | Wet(step: Dsp<S>, state: S, gain: real)

  function Scaled(ys: seq<real>, gain: real): (r: seq<real>)
    ensures |r| == |ys|
  {
    seq(|ys|, i requires 0 <= i < |ys| => ys[i] * gain)
  }

  function VoiceRun<S>(v: Voice<S>, xs: seq<real>): (r: (Voice<S>, seq<real>))
    ensures |r.1| == |xs|
  {
    match v
    case Dry => (v, xs)
    case Wet(step, state, gain) =>
      var (after, ys) := DspRun(step, state, xs);
      (Wet(step, after, gain), Scaled(ys, gain))
  }

  /** Share of the new side at frame `i` of a fade of `length` frames. */
  function Mix(length: nat, i: nat): real {
    if length <= 1 then 1.0
    else if i as real / (length - 1) as real < 1.0 then i as real / (length - 1) as real
    else 1.0
  }

  function Share(difference: real, mix: real): real { difference * mix }

  function Blend(previous: real, current: real, mix: real): real { previous + Share(current - previous, mix) }

  datatype Fade<!S> = Fade(from: Voice<S>, to: Voice<S>, position: nat, active: bool)

  /** Both voices move on over a block; the old one only while the fade lasts. */
  function Moved<S>(f: Fade<S>, xs: seq<real>): Fade<S> {
    f.(to := VoiceRun(f.to, xs).0, from := if f.active then VoiceRun(f.from, xs).0 else f.from)
  }

  /** The fade after `n` more frames: over when its length has passed. */
  function AfterFrames<S>(length: nat, f: Fade<S>, n: nat): Fade<S> {
    if !f.active then f
    else if f.position + n >= length then Fade(Dry, f.to, 0, false)
    else f.(position := f.position + n)
  }

  /** What a block sounds like. */
  function Mixed<S>(length: nat, f: Fade<S>, xs: seq<real>): (r: seq<real>)
    ensures |r| == |xs|
  {
    var current := VoiceRun(f.to, xs).1;
    if !f.active then current
    else
      var previous := VoiceRun(f.from, xs).1;
      seq(|xs|, i requires 0 <= i < |xs| => Blend(previous[i], current[i], Mix(length, f.position + i)))
  }

  /** One block of `process` after the pending node was accepted or not. */
  function FadeBlock<S>(length: nat, f: Fade<S>, xs: seq<real>): (r: (Fade<S>, seq<real>))
    ensures |r.1| == |xs|
  {
    (AfterFrames(length, Moved(f, xs), |xs|), Mixed(length, f, xs))
  }

  function FadeRun<S>(length: nat, f: Fade<S>, blocks: seq<seq<real>>): (r: (Fade<S>, seq<real>)) {
    if blocks == [] then (f, [])
    else
      var (g, out) := FadeRun(length, f, blocks[..|blocks| - 1]);
      var (h, more) := FadeBlock(length, g, blocks[|blocks| - 1]);
      (h, out + more)
  }

  /** The same stream in one piece, without blocks, positions or an end of the fade. */
  function Faded<S>(length: nat, from: Voice<S>, to: Voice<S>, xs: seq<real>): (r: seq<real>)
    ensures |r| == |xs|
  {
    seq(|xs|, i requires 0 <= i < |xs| => Blend(VoiceRun(from, xs).1[i], VoiceRun(to, xs).1[i], Mix(length, i)))
  }

  // ---- shape of the fade -----------------------------------------------------------

  /** The mix rises from zero in equal steps and is one from the last frame of the fade on. */
  lemma MixShape(length: nat, i: nat)
    ensures 0.0 <= Mix(length, i) <= 1.0
    ensures length > 1 ==> Mix(length, 0) == 0.0
    ensures i + 1 >= length ==> Mix(length, i) == 1.0
    ensures i + 1 < length ==> Mix(length, i + 1) - Mix(length, i) == 1.0 / (length - 1) as real
  {
    if i + 1 < length {
      var d := (length - 1) as real;
      assert i as real / d < 1.0;
      assert (i + 1) as real / d == i as real / d + 1.0 / d;
      assert (i + 1) as real / d <= 1.0;
    }
  }

  /** Nothing is louder than the louder side: the output lies between the two. */
  lemma BlendBetween(previous: real, current: real, mix: real)
    requires 0.0 <= mix <= 1.0
    ensures previous <= current ==> previous <= Blend(previous, current, mix) <= current
    ensures current <= previous ==> current <= Blend(previous, current, mix) <= previous
  {
    hide Share;
    if previous <= current {
      ShareOf(current - previous, mix);
    } else {
      ShareOf(previous - current, mix);
      Opposite(current - previous, mix, previous - current);
    }
  }

  lemma Opposite(d: real, mix: real, e: real)
    requires e == -d
    ensures Share(e, mix) == -Share(d, mix)
  {
  }

  lemma ShareOf(d: real, mix: real)
    requires 0.0 <= d && 0.0 <= mix <= 1.0
    ensures 0.0 <= Share(d, mix) <= d
  {
    assert d * mix == d - d * (1.0 - mix);
  }

  lemma FullShare(d: real)
    ensures Share(d, 1.0) == d && Share(d, 0.0) == 0.0
  {
  }

  /** The blend is linear in the frame, and the new side alone from the last frame on. */
  lemma BlendIsWeighted(length: nat, frame: nat, previous: real, current: real)
    ensures Blend(previous, current, Mix(length, frame))
            == if frame + 1 >= length then current
               else previous * (1.0 - frame as real / (length - 1) as real)
                    + current * (frame as real / (length - 1) as real)
  {
    MixShape(length, frame);
    if frame + 1 >= length {
      FullShare(current - previous);
    } else {
      var w := frame as real / (length - 1) as real;
      assert w < 1.0;
      hide Mix;
      Weighted(previous, current, w);
    }
  }

  lemma Weighted(previous: real, current: real, w: real)
    ensures previous + (current - previous) * w == previous * (1.0 - w) + current * w
  {
  }

  /** A sample of one side. */
  lemma VoiceSample<S>(v: Voice<S>, xs: seq<real>, i: nat)
    requires i < |xs|
    ensures VoiceRun(v, xs).1[i] == if v.Dry? then xs[i] else DspRun(v.step, v.state, xs).1[i] * v.gain
  {
    hide DspRun;
  }

  /** The same signal, louder by a factor. */
  predicate LouderBy(quiet: seq<real>, loud: seq<real>, factor: real) {
    |quiet| == |loud| && forall i :: 0 <= i < |quiet| ==> loud[i] == quiet[i] * factor
  }

  /** A model that is louder by a factor, with a gain that is lower by it, sounds the same. */
  lemma SameSound<S>(a: Voice<S>, b: Voice<S>, factor: real, xs: seq<real>)
    requires a.Wet? && b.Wet? && a.gain == factor * b.gain
    requires LouderBy(DspRun(a.step, a.state, xs).1, DspRun(b.step, b.state, xs).1, factor)
    ensures VoiceRun(a, xs).1 == VoiceRun(b, xs).1
  {
    hide DspRun, VoiceRun;
    forall i | 0 <= i < |xs|
      ensures VoiceRun(a, xs).1[i] == VoiceRun(b, xs).1[i]
    {
      VoiceSample(a, xs, i);
      VoiceSample(b, xs, i);
      Regrouped(DspRun(a.step, a.state, xs).1[i], factor, b.gain, a.gain);
    }
  }

  lemma Regrouped(y: real, a: real, b: real, ab: real)
    requires ab == a * b
    ensures y * ab == (y * a) * b
  {
  }

  /** A sample of a block of an active fade. */
  lemma FadingVoices<S>(length: nat, f: Fade<S>, xs: seq<real>, i: nat)
    requires i < |xs| && f.active
    ensures FadeBlock(length, f, xs).1[i]
            == Blend(VoiceRun(f.from, xs).1[i], VoiceRun(f.to, xs).1[i], Mix(length, f.position + i))
  {
    hide VoiceRun, Mix, Blend;
  }

  lemma FadeStaysBetween<S>(length: nat, from: Voice<S>, to: Voice<S>, xs: seq<real>, i: nat)
    requires i < |xs|
    ensures var p, c, y := VoiceRun(from, xs).1[i], VoiceRun(to, xs).1[i], Faded(length, from, to, xs)[i];
            && (p <= y <= c || c <= y <= p)
            && (i + 1 >= length ==> y == c)
            && (i == 0 && length > 1 ==> y == p)
  {
    MixShape(length, i);
    FullShare(VoiceRun(to, xs).1[i] - VoiceRun(from, xs).1[i]);
    BlendBetween(VoiceRun(from, xs).1[i], VoiceRun(to, xs).1[i], Mix(length, i));
    hide VoiceRun, Mix, Share;
  }

  // ---- independence of the block cut -----------------------------------------------

  lemma ScaledAppend(a: seq<real>, b: seq<real>, gain: real)
    ensures Scaled(a + b, gain) == Scaled(a, gain) + Scaled(b, gain)
  {
    forall i | 0 <= i < |a + b|
      ensures Scaled(a + b, gain)[i] == (Scaled(a, gain) + Scaled(b, gain))[i]
    {
    }
  }

  lemma VoiceAppend<S>(v: Voice<S>, xs: seq<real>, ys: seq<real>)
    ensures VoiceRun(v, xs + ys)
            == (VoiceRun(VoiceRun(v, xs).0, ys).0, VoiceRun(v, xs).1 + VoiceRun(VoiceRun(v, xs).0, ys).1)
  {
    if v.Wet? {
      DspAppend(v.step, v.state, xs, ys);
      var (after, a) := DspRun(v.step, v.state, xs);
      ScaledAppend(a, DspRun(v.step, after, ys).1, v.gain);
    }
  }

  /** Where a fade stands after the frames `xs`: over exactly when `length` frames passed. */
  function Standing<S>(length: nat, from: Voice<S>, to: Voice<S>, xs: seq<real>): Fade<S> {
    if |xs| < length then Fade(VoiceRun(from, xs).0, VoiceRun(to, xs).0, |xs|, true)
    else Fade(Dry, VoiceRun(to, xs).0, 0, false)
  }

  lemma VoiceAt<S>(v: Voice<S>, xs: seq<real>, ys: seq<real>)
    ensures forall i :: 0 <= i < |xs| ==> VoiceRun(v, xs + ys).1[i] == VoiceRun(v, xs).1[i]
    ensures forall i :: 0 <= i < |ys| ==> VoiceRun(v, xs + ys).1[|xs| + i] == VoiceRun(VoiceRun(v, xs).0, ys).1[i]
  {
    VoiceAppend(v, xs, ys);
    hide VoiceRun;
  }

  lemma StandingContinues<S>(length: nat, from: Voice<S>, to: Voice<S>, xs: seq<real>, block: seq<real>)
    requires length > 0
    ensures AfterFrames(length, Moved(Standing(length, from, to, xs), block), |block|)
            == Standing(length, from, to, xs + block)
  {
    VoiceAppend(from, xs, block);
    VoiceAppend(to, xs, block);
    hide VoiceRun;
  }

  /** A frame of the block, while the fade lasts and after it. */
  lemma BlockFrame<S>(length: nat, from: Voice<S>, to: Voice<S>, xs: seq<real>, block: seq<real>, i: nat)
    requires i < |block|
    ensures Mixed(length, Standing(length, from, to, xs), block)[i] == Faded(length, from, to, xs + block)[|xs| + i]
  {
    VoiceAt(from, xs, block);
    VoiceAt(to, xs, block);
    hide VoiceRun, Mix, Share;
    if |xs| >= length {
      MixShape(length, |xs| + i);
      FullShare(VoiceRun(to, xs + block).1[|xs| + i] - VoiceRun(from, xs + block).1[|xs| + i]);
    }
  }

  lemma BlockFrames<S>(length: nat, from: Voice<S>, to: Voice<S>, xs: seq<real>, block: seq<real>)
    ensures forall i :: 0 <= i < |block| ==>
              Mixed(length, Standing(length, from, to, xs), block)[i] == Faded(length, from, to, xs + block)[|xs| + i]
  {
    hide Mixed, Standing, Faded;
    forall i | 0 <= i < |block|
      ensures Mixed(length, Standing(length, from, to, xs), block)[i] == Faded(length, from, to, xs + block)[|xs| + i]
    {
      BlockFrame(length, from, to, xs, block, i);
    }
  }

  lemma EarlierFrames<S>(length: nat, from: Voice<S>, to: Voice<S>, xs: seq<real>, block: seq<real>)
    ensures forall i :: 0 <= i < |xs| ==> Faded(length, from, to, xs)[i] == Faded(length, from, to, xs + block)[i]
  {
    VoiceAt(from, xs, block);
    VoiceAt(to, xs, block);
    hide VoiceRun, Mix, Blend;
  }

  lemma BlockContinues<S>(length: nat, from: Voice<S>, to: Voice<S>, xs: seq<real>, block: seq<real>)
    requires length > 0
    ensures FadeBlock(length, Standing(length, from, to, xs), block).0 == Standing(length, from, to, xs + block)
    ensures Faded(length, from, to, xs) + FadeBlock(length, Standing(length, from, to, xs), block).1
            == Faded(length, from, to, xs + block)
  {
    StandingContinues(length, from, to, xs, block);
    EarlierFrames(length, from, to, xs, block);
    BlockFrames(length, from, to, xs, block);
    hide Standing, Faded, Mixed, AfterFrames, VoiceRun;
    Joined(Faded(length, from, to, xs), Mixed(length, Standing(length, from, to, xs), block),
           Faded(length, from, to, xs + block));
  }

  lemma Joined(a: seq<real>, b: seq<real>, whole: seq<real>)
    requires |whole| == |a| + |b|
    requires forall i :: 0 <= i < |a| ==> a[i] == whole[i]
    requires forall i :: 0 <= i < |b| ==> b[i] == whole[|a| + i]
    ensures a + b == whole
  {
    forall i | |a| <= i < |whole|
      ensures (a + b)[i] == whole[i]
    {
      assert b[i - |a|] == whole[|a| + (i - |a|)];
    }
  }

  /** However the stream is cut into blocks, the output is the one-piece fade, and the fade is
      over exactly when its length has passed. */
  lemma {:induction false} FadeIgnoresCut<S>(length: nat, from: Voice<S>, to: Voice<S>, blocks: seq<seq<real>>)
    requires length > 0
    ensures FadeRun(length, Fade(from, to, 0, true), blocks)
            == (Standing(length, from, to, Flatten(blocks)), Faded(length, from, to, Flatten(blocks)))
  {
    if blocks == [] {
    } else {
      var init := blocks[..|blocks| - 1];
      FadeIgnoresCut(length, from, to, init);
      BlockContinues(length, from, to, Flatten(init), blocks[|blocks| - 1]);
      hide Standing, Faded, FadeBlock;
    }
  }
}
