/** A run of processor calls with fixed settings and no publication on the way: the stream that
    leaves the processor, as a function of the mono stream that enters it. */
module ProcessorHistory {
  import opened RateAdapterSpec
  import opened Crossfade
  import opened DcBlocker

  /** What is carried from block to block. */
  datatype Chain<!S> = Chain(fade: Fade<S>, memory: Memory)

  /** Fade length, filter coefficient, output gain and bypass. */
  datatype Settings = Settings(length: nat, coefficient: real, gain: real, bypassed: bool)

  /** One call. Bypass leaves the fade where it is. */
  function ChainBlock<S>(g: Settings, chain: Chain<S>, mono: seq<real>): (Chain<S>, seq<real>) {
    var (fade, heard) := if g.bypassed then (chain.fade, mono) else FadeBlock(g.length, chain.fade, mono);
    var (memory, filtered) := DspRun(Filter(g.coefficient), chain.memory, heard);
    (Chain(fade, memory), Scaled(filtered, g.gain))
  }

  function ChainRun<S>(g: Settings, chain: Chain<S>, blocks: seq<seq<real>>): (Chain<S>, seq<real>) {
    if blocks == [] then (chain, [])
    else
      var (before, out) := ChainRun(g, chain, blocks[..|blocks| - 1]);
      var (after, more) := ChainBlock(g, before, blocks[|blocks| - 1]);
      (after, out + more)
  }

  /** Filter and gain in one piece behind any cut of what is heard. */
  lemma FilteredInOnePiece(g: Settings, memory: Memory, heard: seq<real>, more: seq<real>)
    ensures var (first, out) := DspRun(Filter(g.coefficient), memory, heard);
            var (second, rest) := DspRun(Filter(g.coefficient), first, more);
            && DspRun(Filter(g.coefficient), memory, heard + more) == (second, out + rest)
            && Scaled(out + rest, g.gain) == Scaled(out, g.gain) + Scaled(rest, g.gain)
  {
    DspAppend(Filter(g.coefficient), memory, heard, more);
    var (first, out) := DspRun(Filter(g.coefficient), memory, heard);
    ScaledAppend(out, DspRun(Filter(g.coefficient), first, more).1, g.gain);
  }

  /** What the whole stream becomes once it is heard as `heard`. */
  function Whole<S>(g: Settings, fade: Fade<S>, memory: Memory, heard: seq<real>): (Chain<S>, seq<real>) {
    var (after, filtered) := DspRun(Filter(g.coefficient), memory, heard);
    (Chain(fade, after), Scaled(filtered, g.gain))
  }

  lemma WholeContinues<S>(g: Settings, fade: Fade<S>, next: Fade<S>, memory: Memory, heard: seq<real>, more: seq<real>,
                          mono: seq<real>)
    requires (next, more) == if g.bypassed then (fade, mono) else FadeBlock(g.length, fade, mono)
    ensures var (chain, out) := Whole(g, fade, memory, heard);
            var (after, rest) := ChainBlock(g, chain, mono);
            (after, out + rest) == Whole(g, next, memory, heard + more)
  {
    FilteredInOnePiece(g, memory, heard, more);
    hide DspRun, Scaled, FadeBlock;
  }

  /** From the start of a fade: the one-piece fade, filtered and scaled in one piece. */
  lemma {:induction false} FadingHistory<S>(g: Settings, from: Voice<S>, to: Voice<S>, memory: Memory, blocks: seq<seq<real>>)
    requires g.length > 0 && !g.bypassed
    ensures ChainRun(g, Chain(Fade(from, to, 0, true), memory), blocks)
            == Whole(g, Standing(g.length, from, to, Flatten(blocks)), memory, Faded(g.length, from, to, Flatten(blocks)))
  {
    if blocks != [] {
      var init, block := blocks[..|blocks| - 1], blocks[|blocks| - 1];
      FadingHistory(g, from, to, memory, init);
      var xs := Flatten(init);
      BlockContinues(g.length, from, to, xs, block);
      hide Standing, Faded, FadeBlock, ChainBlock, Whole;
      var (next, more) := FadeBlock(g.length, Standing(g.length, from, to, xs), block);
      WholeContinues(g, Standing(g.length, from, to, xs), next, memory, Faded(g.length, from, to, xs), more, block);
    } else {
      hide Filter;
    }
  }

  /** Without a fade: the current model alone. */
  lemma {:induction false} SteadyHistory<S>(g: Settings, to: Voice<S>, memory: Memory, blocks: seq<seq<real>>)
    requires !g.bypassed
    ensures ChainRun(g, Chain(Fade(Dry, to, 0, false), memory), blocks)
            == Whole(g, Fade(Dry, VoiceRun(to, Flatten(blocks)).0, 0, false), memory, VoiceRun(to, Flatten(blocks)).1)
  {
    if blocks != [] {
      var init, block := blocks[..|blocks| - 1], blocks[|blocks| - 1];
      SteadyHistory(g, to, memory, init);
      var (before, heard) := VoiceRun(to, Flatten(init));
      VoiceAppend(to, Flatten(init), block);
      var fade := Fade(Dry, before, 0, false);
      var (next, more) := FadeBlock(g.length, fade, block);
      assert next == Fade(Dry, VoiceRun(before, block).0, 0, false) && more == VoiceRun(before, block).1;
      hide VoiceRun, FadeBlock, ChainBlock, Whole;
      WholeContinues(g, fade, next, memory, heard, more, block);
    } else {
      hide Filter;
    }
  }

  /** Bypassed: the input, and a frozen slot. */
  lemma {:induction false} BypassedHistory<S>(g: Settings, chain: Chain<S>, blocks: seq<seq<real>>)
    requires g.bypassed
    ensures ChainRun(g, chain, blocks) == Whole(g, chain.fade, chain.memory, Flatten(blocks))
  {
    if blocks != [] {
      var init, block := blocks[..|blocks| - 1], blocks[|blocks| - 1];
      BypassedHistory(g, chain, init);
      hide ChainBlock, Whole;
      WholeContinues(g, chain.fade, chain.fade, chain.memory, Flatten(init), block, block);
    } else {
      hide Filter;
    }
  }

  /** So two cuts of one stream leave the processor the same, state included. */
  lemma CutDoesNotMatter<S>(g: Settings, chain: Chain<S>, a: seq<seq<real>>, b: seq<seq<real>>)
    requires g.length > 0 && Flatten(a) == Flatten(b)
    requires (chain.fade.active && chain.fade.position == 0) || chain.fade == Fade(Dry, chain.fade.to, 0, false) || g.bypassed
    ensures ChainRun(g, chain, a) == ChainRun(g, chain, b)
  {
    hide ChainRun, Whole, Standing, Faded;
    if g.bypassed {
      BypassedHistory(g, chain, a);
      BypassedHistory(g, chain, b);
    } else if chain.fade.active {
      FadingHistory(g, chain.fade.from, chain.fade.to, chain.memory, a);
      FadingHistory(g, chain.fade.from, chain.fade.to, chain.memory, b);
    } else {
      SteadyHistory(g, chain.fade.to, chain.memory, a);
      SteadyHistory(g, chain.fade.to, chain.memory, b);
    }
  }
}
