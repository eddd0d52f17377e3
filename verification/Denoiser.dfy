// The multi-pass denoiser's texture states, checked against a machine that executes the command list.
module Denoiser {
  import opened Grid

  datatype TexState = RenderTarget | ShaderResource | Present

  // Slots of the offscreen targets; the last slot is the frame's back buffer.
  const INDIRECT0: nat := 0
  const INDIRECT1: nat := 1
  const DIRECT: nat := 2
  const ALBEDO: nat := 3
  const GBUF: nat := 4
  const VARIANCE: nat := 5
  const BACK_BUFFER: nat := 6
  const OFFSCREEN: nat := 6
  const SLOTS: nat := 7

  datatype Pass = SinglePass | Shade | Atrous(iteration: nat) | Composite

  datatype Command =
    | Barrier(slot: nat, before: TexState, after: TexState)
    | Draw(pass: Pass, sources: seq<nat>, targets: seq<nat>)

  // ------------------------------------------------------------------------------------------
  // The machine
  // ------------------------------------------------------------------------------------------

  // What a target holds: an output of the shading pass of some frame, or a filtered image.
  datatype Image =
    | Nothing
    | Shaded(frame: nat, slot: nat)
    | Filtered(source: Image, gbuf: Image, variance: Image, iteration: nat)

  // What a frame puts on the screen.
  datatype Final = Plain | Composed(direct: Image, albedo: Image, indirect: Image)

  // True states and contents of the slots, and the frames shown so far.
  datatype Machine = Machine(states: seq<TexState>, images: seq<Image>, shown: seq<Final>)

  predicate Sized(m: Machine) {
    |m.states| == SLOTS && |m.images| == SLOTS
  }

  predicate AllIn(m: Machine, slots: seq<nat>, s: TexState)
    requires Sized(m)
  {
    forall i :: 0 <= i < |slots| ==> slots[i] < SLOTS && m.states[slots[i]] == s
  }

  // A barrier must name the true state; a draw reads shader resources only, writes render
  // targets only, and never reads what it writes.
  predicate Allowed(m: Machine, c: Command) {
    Sized(m) &&
    match c
    case Barrier(slot, before, after) => slot < SLOTS && m.states[slot] == before && before != after
    case Draw(pass, sources, targets) =>
      && AllIn(m, sources, ShaderResource) && AllIn(m, targets, RenderTarget)
      && (forall i, j :: 0 <= i < |sources| && 0 <= j < |targets| ==> sources[i] != targets[j])
      && (match pass
          case SinglePass => true
          case Shade => true
          case Atrous(_) => |sources| == 3 && |targets| == 1
          case Composite => |sources| == 3)
  }

  function Execute(m: Machine, c: Command): (m': Machine)
    requires Allowed(m, c)
    ensures Sized(m')
  {
    match c
    case Barrier(slot, _, after) => m.(states := m.states[slot := after])
    case Draw(pass, sources, targets) =>
      match pass
      case SinglePass => m.(shown := m.shown + [Plain])
      case Shade => m.(images := seq(SLOTS, s requires 0 <= s < SLOTS && Sized(m) =>
        if s in targets then Shaded(|m.shown|, s) else m.images[s]))
      case Atrous(k) =>
        var filtered := Filtered(m.images[sources[0]], m.images[sources[1]], m.images[sources[2]], k);
        m.(images := m.images[targets[0] := filtered])
      case Composite =>
        m.(shown := m.shown + [Composed(m.images[sources[0]], m.images[sources[1]], m.images[sources[2]])])
  }

  // All offscreen targets are render targets, the back buffer is on screen.
  function Initial(): Machine {
    Machine(seq(SLOTS, s => if s == BACK_BUFFER then Present else RenderTarget), seq(SLOTS, _ => Nothing), [])
  }

  // Executes a command list, or fails at its first command that is not allowed.
  function Replay(commands: seq<Command>): Option<Machine> {
    if commands == [] then Some(Initial())
    else
      var last := commands[|commands| - 1];
      var m := Replay(commands[..|commands| - 1]);
      if m.Some? && Allowed(m.value, last) then Some(Execute(m.value, last)) else None
  }

  // The image after n filter iterations on what a frame shaded.
  function FilterChain(frame: nat, n: nat): Image {
    if n == 0 then Shaded(frame, INDIRECT0)
    else Filtered(FilterChain(frame, n - 1), Shaded(frame, GBUF), Shaded(frame, VARIANCE), n - 1)
  }

  // Settings of a frame that matter here.
  datatype FrameKind = Single | Multi(iterations: int)

  function Iterations(k: FrameKind): nat
    requires k.Multi?
  {
    Max(1, Min(k.iterations, 6))
  }

  // A multi-pass frame shows its own shading, filtered exactly as often as asked (1 to 6 times).
  function Expected(frame: nat, k: FrameKind): Final {
    if k.Single? then Plain
    else Composed(Shaded(frame, DIRECT), Shaded(frame, ALBEDO), FilterChain(frame, Iterations(k)))
  }

  // How often an image went through the filter.
  function TimesFiltered(i: Image): nat {
    if i.Filtered? then TimesFiltered(i.source) + 1 else 0
  }

  lemma {:induction false} ChainLength(frame: nat, n: nat)
    ensures TimesFiltered(FilterChain(frame, n)) == n
  {
    if n > 0 {
      ChainLength(frame, n - 1);
    }
  }

  // A single-pass frame shows no filtered image; in the others the filter ran a number of times
  // from 1 to 6, the one nearest to what was asked for.
  ghost predicate FilteredAsAsked(f: Final, k: FrameKind) {
    match k
    case Single => f == Plain
    case Multi(n) => f.Composed? && NearestTimes(n, TimesFiltered(f.indirect))
  }

  ghost predicate NearestTimes(n: int, times: int) {
    1 <= times <= 6 && forall t :: 1 <= t <= 6 ==> Gap(times, n) <= Gap(t, n)
  }

  lemma ExpectedIsAsked(frame: nat, k: FrameKind)
    ensures FilteredAsAsked(Expected(frame, k), k)
  {
    if k.Multi? {
      ChainLength(frame, Iterations(k));
    }
    hide FilterChain;
  }

  // ------------------------------------------------------------------------------------------
  // The recorder
  // ------------------------------------------------------------------------------------------

  class Recorder {
    var texState: seq<TexState>
    var commands: seq<Command>

    // The tracker tells the true states, and everything recorded so far is executable.
    ghost predicate Valid()
      reads this
    {
      && |texState| == OFFSCREEN
      && Replay(commands).Some? && Sized(Gpu()) && forall s :: 0 <= s < OFFSCREEN ==> Gpu().states[s] == texState[s]
    }

    ghost function Gpu(): Machine
      reads this
    {
      var m := Replay(commands);
      if m.Some? then m.value else Initial()
    }

    ghost predicate BetweenFrames()
      reads this
    {
      Valid() && Gpu().states == Initial().states
    }

    constructor ()
      ensures BetweenFrames() && Gpu().shown == []
    {
      texState, commands := seq(OFFSCREEN, _ => RenderTarget), [];
    }

    method Record(c: Command)
      requires Replay(commands).Some? && Allowed(Gpu(), c)
      modifies this`commands
      ensures Replay(commands).Some? && Gpu() == Execute(old(Gpu()), c)
    {
      ghost var was := commands;
      commands := commands + [c];
      assert commands[..|commands| - 1] == was;
    }

    // Transition of one offscreen target, recorded only when its state changes.
    method ToState(slot: nat, after: TexState)
      requires Valid() && slot < OFFSCREEN
      modifies this
      ensures Valid() && Gpu() == old(Gpu()).(states := old(Gpu()).states[slot := after])
      ensures texState == old(texState)[slot := after]
    {
      if texState[slot] == after {
        assert Gpu().states[slot := after] == Gpu().states;
        return;
      }
      hide Replay;
      Record(Barrier(slot, texState[slot], after));
      texState := texState[slot := after];
    }

    method AllToRenderTarget()
      requires Valid()
      modifies this
      ensures Valid() && Gpu().images == old(Gpu()).images && Gpu().shown == old(Gpu()).shown
      ensures Gpu().states[BACK_BUFFER] == old(Gpu()).states[BACK_BUFFER]
      ensures forall s :: 0 <= s < OFFSCREEN ==> Gpu().states[s] == RenderTarget
    {
      hide Replay;
      for i := 0 to OFFSCREEN
        invariant Valid() && Gpu().images == old(Gpu()).images && Gpu().shown == old(Gpu()).shown
        invariant Gpu().states[BACK_BUFFER] == old(Gpu()).states[BACK_BUFFER]
        invariant forall s :: 0 <= s < i ==> Gpu().states[s] == RenderTarget
      {
        ToState(i, RenderTarget);
      }
    }

    // The single-pass frame touches the back buffer only.
    method SinglePassFrame()
      requires BetweenFrames()
      modifies this
      ensures BetweenFrames() && Gpu().shown == old(Gpu()).shown + [Plain]
    {
      hide Replay;
      Record(Barrier(BACK_BUFFER, Present, RenderTarget));
      Record(Draw(SinglePass, [], [BACK_BUFFER]));
      Record(Barrier(BACK_BUFFER, RenderTarget, Present));
    }

    // The shading pass and the two guide images made readable.
    method ShadePass()
      requires BetweenFrames()
      modifies this
      ensures Valid() && Gpu().shown == old(Gpu()).shown && Filtering(Gpu(), 0, INDIRECT0)
    {
      hide Replay;
      AllToRenderTarget();
      Record(Draw(Shade, [], [INDIRECT0, DIRECT, ALBEDO, GBUF, VARIANCE]));
      ToState(GBUF, ShaderResource);
      ToState(VARIANCE, ShaderResource);
    }

    // The filter iterations, ping-pong between the two indirect targets.
    method FilterPasses(iterations: nat) returns (src: nat)
      requires Valid() && Filtering(Gpu(), 0, INDIRECT0)
      modifies this
      ensures Valid() && Gpu().shown == old(Gpu()).shown && Filtering(Gpu(), iterations, src)
    {
      hide Replay;
      src := INDIRECT0;
      for it := 0 to iterations
        invariant Valid() && Gpu().shown == old(Gpu()).shown && Filtering(Gpu(), it, src)
      {
        var dst := if src == INDIRECT0 then INDIRECT1 else INDIRECT0;
        ToState(src, ShaderResource);
        ToState(dst, RenderTarget);
        Record(Draw(Atrous(it), [src, GBUF, VARIANCE], [dst]));
        src := dst;
      }
    }

    // The composite onto the back buffer, after which every target is a render target again.
    method CompositePass(src: nat, ghost iterations: nat)
      requires Valid() && Filtering(Gpu(), iterations, src)
      modifies this
      ensures BetweenFrames()
      ensures var f := |old(Gpu()).shown|;
        Gpu().shown == old(Gpu()).shown + [Composed(Shaded(f, DIRECT), Shaded(f, ALBEDO), FilterChain(f, iterations))]
    {
      hide Replay;
      ToState(src, ShaderResource);
      ToState(DIRECT, ShaderResource);
      ToState(ALBEDO, ShaderResource);
      Record(Barrier(BACK_BUFFER, Present, RenderTarget));
      Record(Draw(Composite, [DIRECT, ALBEDO, src], [BACK_BUFFER]));
      Record(Barrier(BACK_BUFFER, RenderTarget, Present));
      AllToRenderTarget();
    }

    method RecordFrame(k: FrameKind)
      requires BetweenFrames()
      modifies this
      ensures BetweenFrames() && Gpu().shown == old(Gpu()).shown + [Expected(|old(Gpu()).shown|, k)]
    {
      hide Replay, FilterChain, Filtering;
      if k.Single? {
        SinglePassFrame();
      } else {
        ShadePass();
        var src := FilterPasses(Iterations(k));
        CompositePass(src, Iterations(k));
      }
    }

    // Any sequence of frames is executable from the initial states, and every frame shows what
    // it should.
    method RecordFrames(kinds: seq<FrameKind>)
      requires BetweenFrames() && Gpu().shown == []
      modifies this
      ensures BetweenFrames() && |Gpu().shown| == |kinds|
      ensures forall f :: 0 <= f < |kinds| ==> Gpu().shown[f] == Expected(f, kinds[f])
      ensures forall f :: 0 <= f < |kinds| ==> FilteredAsAsked(Gpu().shown[f], kinds[f])
    {
      hide Replay, Expected, FilteredAsAsked;
      for i := 0 to |kinds|
        invariant BetweenFrames() && |Gpu().shown| == i
        invariant forall f :: 0 <= f < i ==> Gpu().shown[f] == Expected(f, kinds[f])
        invariant forall f :: 0 <= f < i ==> FilteredAsAsked(Gpu().shown[f], kinds[f])
      {
        ExpectedIsAsked(i, kinds[i]);
        RecordFrame(kinds[i]);
      }
    }
  }

  // Between the shading pass and the composite, after n filter iterations with the result in src.
  ghost predicate Filtering(m: Machine, n: nat, src: nat) {
    && Sized(m) && (src == INDIRECT0 || src == INDIRECT1)
    && m.states[BACK_BUFFER] == Present && m.states[GBUF] == m.states[VARIANCE] == ShaderResource
    && var f := |m.shown|;
    && m.images[DIRECT] == Shaded(f, DIRECT) && m.images[ALBEDO] == Shaded(f, ALBEDO)
    && m.images[GBUF] == Shaded(f, GBUF) && m.images[VARIANCE] == Shaded(f, VARIANCE)
    && m.images[src] == FilterChain(f, n)
  }
}
