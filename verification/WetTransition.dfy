/**
  Parameter ramps and the bypass/parallel transition around a stateful wet processor. The transition
  takes shortcuts at zero and at full wet; they cannot be heard, and neither can the block size.
 */
module WetTransitions {
  import opened Common

  // The ramp

  datatype Ramp = Ramp(current: real, target: real, step: real, rampSampleCount: nat, remaining: nat) {
    /** The steps that remain lead exactly to the target. */
    ghost predicate Valid() {
      && rampSampleCount > 0
      && current + step * remaining as real == target
    }

    predicate Still(value: real) { current == value && remaining == 0 }
  }

  function Round(x: real): int {
    if x >= 0.0 then (x + 0.5).Floor else -((-x + 0.5).Floor)
  }

  function Prepared(r: Ramp, sampleRate: real): Ramp {
    var rampSamples := Round(sampleRate * 0.01);
    r.(rampSampleCount := if rampSamples > 1 then rampSamples else 1)
  }

  function Targeted(r: Ramp, target: real): (q: Ramp)
    requires r.Valid()
    ensures q.Valid() && q.target == target && q.current == r.current
  {
    if target == r.target then r
    else if target == r.current then r.(target := target, step := 0.0, remaining := 0)
    else r.(target := target, remaining := r.rampSampleCount, step := (target - r.current) / r.rampSampleCount as real)
  }

  /** Rounding takes a closest integer, the one away from zero where two are. */
  lemma RoundIsClosest(x: real)
    ensures -0.5 <= Round(x) as real - x <= 0.5
    ensures x >= 0.0 ==> Round(x) as real - x > -0.5
    ensures Round(-x) == -Round(x)
  {
  }

  /** A ramp takes ten milliseconds, to half a sample, and at least one sample. */
  lemma RampsTakeTenMilliseconds(r: Ramp, sampleRate: real)
    ensures var count := Prepared(r, sampleRate).rampSampleCount;
      && count >= 1
      && (sampleRate * 0.01 >= 0.5 ==> -0.5 <= count as real - sampleRate * 0.01 <= 0.5)
      && (sampleRate * 0.01 < 1.5 ==> count == 1)
  {
    RoundIsClosest(sampleRate * 0.01);
  }

  function Advanced(r: Ramp, count: nat): Ramp {
    if r.remaining == 0 || count == 0 then r
    else if count >= r.remaining then r.(current := r.target, step := 0.0, remaining := 0)
    else r.(current := r.current + r.step * count as real, remaining := r.remaining - count)
  }

  lemma AdvanceStaysValid(r: Ramp, count: nat)
    requires r.Valid()
    ensures Advanced(r, count).Valid() && Advanced(r, count).target == r.target
  {
  }

  /** Two advances are one. */
  lemma AdvanceAdds(r: Ramp, a: nat, b: nat)
    ensures Advanced(Advanced(r, a), b) == Advanced(r, a + b)
  {
  }

  /** The ramp moves on a straight line and hits its target exactly, after exactly the samples that
      remain, from where it does not move. */
  lemma RampHitsItsTarget(r: Ramp, count: nat)
    requires r.Valid()
    ensures count >= r.remaining ==> Advanced(r, count).current == r.target && Advanced(r, count).remaining == 0
    ensures count < r.remaining ==>
      && Advanced(r, count).remaining > 0
      && Advanced(r, count).current * r.remaining as real ==
         r.current * (r.remaining - count) as real + r.target * count as real
  {
  }

  /** The ramp leads in a straight line from `from` to `to`, in exactly `samples` samples, and rests there. */
  ghost predicate Leads(r: Ramp, from: real, to: real, samples: nat) {
    && r.remaining == samples
    && (forall k: nat {:trigger Advanced(r, k)} :: k < samples ==>
          && Advanced(r, k).remaining == samples - k
          && (Advanced(r, k).current - from) * samples as real == (to - from) * k as real)
    && (forall k: nat {:trigger Advanced(r, k)} :: k >= samples ==> Advanced(r, k).Still(to))
  }

  /** A new target is reached after exactly the prepared number of samples, from where the ramp is, also in
      the middle of another ramp. */
  lemma TargetIsReachedInTime(r: Ramp, target: real)
    requires r.Valid() && target != r.target && target != r.current
    ensures Leads(Targeted(r, target), r.current, target, r.rampSampleCount)
  {
    var q, n := Targeted(r, target), r.rampSampleCount;
    forall k: nat | k < n
      ensures Advanced(q, k).remaining == n - k
      ensures (Advanced(q, k).current - r.current) * n as real == (target - r.current) * k as real
    {
      RampHitsItsTarget(q, k);
      Proportional(Advanced(q, k).current, r.current, target, n, k);
    }
    forall k: nat | k >= n ensures Advanced(q, k).Still(target) {
      RampHitsItsTarget(q, k);
    }
  }

  lemma Proportional(value: real, from: real, to: real, n: nat, k: nat)
    requires k <= n && value * n as real == from * (n - k) as real + to * k as real
    ensures (value - from) * n as real == (to - from) * k as real
  {
  }

  class ParameterRamp {
    var currentValue: real
    var targetValue: real
    var step: real
    var rampSampleCount: nat
    var remainingSamples: nat

    function State(): Ramp
      reads this
    {
      Ramp(currentValue, targetValue, step, rampSampleCount, remainingSamples)
    }

    constructor (initialValue: real)
      ensures State() == Ramp(initialValue, initialValue, 0.0, 1, 0)
    {
      currentValue, targetValue, step, rampSampleCount, remainingSamples := initialValue, initialValue, 0.0, 1, 0;
    }

    method Prepare(sampleRate: real)
      modifies this
      ensures State() == Prepared(old(State()), sampleRate)
    {
      var rampSamples := Round(sampleRate * 0.01);
      rampSampleCount := if rampSamples > 1 then rampSamples else 1;
    }

    method Reset()
      modifies this
      ensures State() == Ramp(old(targetValue), old(targetValue), 0.0, old(rampSampleCount), 0)
    {
      currentValue, step, remainingSamples := targetValue, 0.0, 0;
    }

    method SetTarget(target: real)
      requires State().Valid()
      modifies this
      ensures State() == Targeted(old(State()), target)
      ensures targetValue == target && currentValue == old(currentValue) && rampSampleCount == old(rampSampleCount)
      ensures target == old(targetValue) ==> State() == old(State())
      ensures target != old(targetValue) && target == currentValue ==> remainingSamples == 0 && step == 0.0
      ensures target != old(targetValue) && target != currentValue ==>
        Leads(State(), currentValue, target, rampSampleCount)
    {
      if target != targetValue && target != currentValue {
        TargetIsReachedInTime(State(), target);
      }
      if target == targetValue {
        return;
      }
      targetValue := target;
      if targetValue == currentValue {
        step, remainingSamples := 0.0, 0;
        return;
      }
      remainingSamples := rampSampleCount;
      step := (targetValue - currentValue) / remainingSamples as real;
    }

    method NextValue() returns (value: real)
      modifies this
      ensures value == old(currentValue) && State() == Advanced(old(State()), 1)
    {
      value := currentValue;
      Advance(1);
    }

    method Advance(sampleCount: nat)
      modifies this
      ensures State() == Advanced(old(State()), sampleCount)
    {
      if remainingSamples == 0 || sampleCount == 0 {
        return;
      }
      if sampleCount >= remainingSamples {
        currentValue, step, remainingSamples := targetValue, 0.0, 0;
        return;
      }
      currentValue := currentValue + step * sampleCount as real;
      remainingSamples := remainingSamples - sampleCount;
    }
  }

  // What is heard

  datatype Frame = Frame(left: real, right: real)

  /** The channels that are present and that the channel mode selects. */
  datatype Selection = Selection(left: bool, right: bool)

  type Step<!S> = (S, Frame) -> (S, Frame)

  /** In state `s` the processor leaves channels that are not selected alone. */
  ghost predicate Untouched<S(!new)>(step: Step<S>, selection: Selection, s: S) {
    forall x: Frame {:trigger step(s, x)} ::
      && (!selection.left ==> step(s, x).1.left == x.left)
      && (!selection.right ==> step(s, x).1.right == x.right)
  }

  ghost predicate Respects<S(!new)>(step: Step<S>, selection: Selection) {
    forall s: S :: Untouched(step, selection, s)
  }

  /** The processor leaves them alone from its second sample on. */
  ghost predicate RespectsLater<S(!new)>(step: Step<S>, selection: Selection) {
    forall s: S, w: Frame {:trigger step(s, w)} :: Untouched(step, selection, step(s, w).0)
  }

  function Mix(wet: real, selection: Selection, dry: Frame, branch: Frame): Frame {
    Frame(if selection.left then dry.left + wet * (branch.left - dry.left) else dry.left,
          if selection.right then dry.right + wet * (branch.right - dry.right) else dry.right)
  }

  /** Dry at zero, wet at one, and in between on the straight line from one to the other; channels that are
      not selected stay dry. These fix the mix. */
  lemma MixIsLinear(selection: Selection, dry: Frame, branch: Frame, a: real, b: real, t: real)
    ensures Mix(0.0, selection, dry, branch) == dry
    ensures Mix(1.0, selection, dry, branch) ==
      Frame(if selection.left then branch.left else dry.left, if selection.right then branch.right else dry.right)
    ensures var x, y, z := Mix(a, selection, dry, branch), Mix(b, selection, dry, branch),
                           Mix(a + t * (b - a), selection, dry, branch);
      z.left == x.left + t * (y.left - x.left) && z.right == x.right + t * (y.right - x.right)
  {
    Collinear(a, b, t, dry.left, branch.left - dry.left);
    Collinear(a, b, t, dry.right, branch.right - dry.right);
  }

  lemma Collinear(a: real, b: real, t: real, d: real, e: real)
    ensures d + (a + t * (b - a)) * e == (d + a * e) + t * ((d + b * e) - (d + a * e))
  {
    assert (a + t * (b - a)) * e == a * e + t * (b * e - a * e);
  }

  function RunWet<S>(step: Step<S>, s: S, frames: seq<Frame>): (r: (S, seq<Frame>))
    ensures |r.1| == |frames|
    decreases |frames|
  {
    if frames == [] then (s, [])
    else
      var (next, y) := step(s, frames[0]);
      var (last, rest) := RunWet(step, next, frames[1..]);
      (last, [y] + rest)
  }

  /** The reference: every sample is the ramped mix of dry and wet, with the processor running all the
      time and no shortcuts. */
  function Wetted<S>(step: Step<S>, selection: Selection, r: Ramp, s: S, frames: seq<Frame>): (out: seq<Frame>)
    ensures |out| == |frames|
    decreases |frames|
  {
    if frames == [] then []
    else
      var (next, y) := step(s, frames[0]);
      [Mix(r.current, selection, frames[0], y)] + Wetted(step, selection, Advanced(r, 1), next, frames[1..])
  }

  /** At rest at zero nothing of the wet branch is heard, whatever state the processor is in. */
  lemma {:induction false} BypassIsDry<S>(step: Step<S>, selection: Selection, r: Ramp, s: S, frames: seq<Frame>)
    requires r.Still(0.0)
    ensures Wetted(step, selection, r, s, frames) == frames
    decreases |frames|
  {
    if frames != [] {
      BypassIsDry(step, selection, Advanced(r, 1), step(s, frames[0]).0, frames[1..]);
    }
  }

  /** At rest at one the processor alone is heard. */
  lemma {:induction false} FullIsWet<S(!new)>(step: Step<S>, selection: Selection, r: Ramp, s: S, frames: seq<Frame>)
    requires r.Still(1.0) && Untouched(step, selection, s) && RespectsLater(step, selection)
    ensures Wetted(step, selection, r, s, frames) == RunWet(step, s, frames).1
    decreases |frames|
  {
    if frames != [] {
      FullIsWet(step, selection, Advanced(r, 1), step(s, frames[0]).0, frames[1..]);
      assert Mix(1.0, selection, frames[0], step(s, frames[0]).1) == step(s, frames[0]).1;
    }
  }

  /** The reference does not care where it is cut. */
  lemma {:induction false} WettedCuts<S>(step: Step<S>, selection: Selection, r: Ramp, s: S, a: seq<Frame>,
                                         b: seq<Frame>)
    ensures Wetted(step, selection, r, s, a + b) ==
      Wetted(step, selection, r, s, a) + Wetted(step, selection, Advanced(r, |a|), RunWet(step, s, a).0, b)
    decreases |a|
  {
    if a == [] {
      assert a + b == b;
    } else {
      assert (a + b)[0] == a[0] && (a + b)[1..] == a[1..] + b;
      WettedCuts(step, selection, Advanced(r, 1), step(s, a[0]).0, a[1..], b);
      AdvanceAdds(r, 1, |a| - 1);
    }
  }

  // The device

  datatype Device<S> = Device(ramp: Ramp, processor: S, wasProcessing: bool)

  /** One block, with the shortcuts: bypassed at rest at zero, in place at rest at one. */
  function ProcessBlock<S>(step: Step<S>, initial: S, selection: Selection, d: Device<S>, block: seq<Frame>)
    : (Device<S>, seq<Frame>)
  {
    if d.ramp.Still(0.0) then
      (Device(d.ramp, if d.wasProcessing then initial else d.processor, false), block)
    else
      var (s, branch) := RunWet(step, d.processor, block);
      if d.ramp.Still(1.0) then (Device(d.ramp, s, true), branch)
      else (Device(Advanced(d.ramp, |block|), s, true), Wetted(step, selection, d.ramp, d.processor, block))
  }

  /** The shortcuts of a block are not heard, except perhaps that a processor at rest at one is heard on
      channels that are not selected. */
  lemma BlockIsWetted<S(!new)>(step: Step<S>, initial: S, selection: Selection, d: Device<S>, block: seq<Frame>)
    requires d.ramp.Still(1.0) ==> Untouched(step, selection, d.processor) && RespectsLater(step, selection)
    ensures ProcessBlock(step, initial, selection, d, block).1 == Wetted(step, selection, d.ramp, d.processor, block)
    ensures ProcessBlock(step, initial, selection, d, block).0.ramp == Advanced(d.ramp, |block|)
  {
    if d.ramp.Still(0.0) {
      BypassIsDry(step, selection, d.ramp, d.processor, block);
    } else if d.ramp.Still(1.0) {
      FullIsWet(step, selection, d.ramp, d.processor, block);
    }
  }

  /** A bypassed device has forgotten what it processed: whatever blocks came before, it starts anew when it
      is switched on again. Otherwise the processor runs on, heard or not. */
  lemma BypassForgets<S(!new)>(step: Step<S>, initial: S, selection: Selection, d: Device<S>, block: seq<Frame>)
    requires d.wasProcessing || d.processor == initial
    ensures var next := ProcessBlock(step, initial, selection, d, block).0;
      && (next.wasProcessing || next.processor == initial)
      && next.processor == if d.ramp.Still(0.0) then initial else RunWet(step, d.processor, block).0
  {
  }

  /** Every block of every device gives the reference output exactly when the processor leaves channels
      that are not selected alone. */
  lemma BlocksAreWettedExactly<S(!new)>(step: Step<S>, initial: S, selection: Selection)
    ensures Respects(step, selection) <==>
      forall d: Device<S>, block ::
        ProcessBlock(step, initial, selection, d, block).1 == Wetted(step, selection, d.ramp, d.processor, block)
  {
    if Respects(step, selection) {
      forall d: Device<S>, block
        ensures ProcessBlock(step, initial, selection, d, block).1 ==
          Wetted(step, selection, d.ramp, d.processor, block)
      {
        BlockIsWetted(step, initial, selection, d, block);
      }
    } else {
      var s: S :| !Untouched(step, selection, s);
      var x: Frame :|
        !(!selection.left ==> step(s, x).1.left == x.left) || !(!selection.right ==> step(s, x).1.right == x.right);
      var d := Device(Ramp(1.0, 1.0, 0.0, 1, 0), s, true);
      assert [x][1..] == [];
      assert ProcessBlock(step, initial, selection, d, [x]).1[0] == step(s, x).1;
      assert Wetted(step, selection, d.ramp, s, [x])[0] == Mix(1.0, selection, x, step(s, x).1);
    }
  }

  function Concat(blocks: seq<seq<Frame>>): seq<Frame> {
    if blocks == [] then [] else blocks[0] + Concat(blocks[1..])
  }

  function ProcessBlocks<S>(step: Step<S>, initial: S, selection: Selection, d: Device<S>,
                            blocks: seq<seq<Frame>>): seq<Frame>
    decreases |blocks|
  {
    if blocks == [] then []
    else
      var (next, out) := ProcessBlock(step, initial, selection, d, blocks[0]);
      out + ProcessBlocks(step, initial, selection, next, blocks[1..])
  }

  /** Between two changes of the target, the output is the reference output of the whole audio, however
      it is cut into blocks: shortcuts and resets of the processor are never heard. */
  lemma {:induction false} BlocksCannotBeHeard<S(!new)>(step: Step<S>, initial: S, selection: Selection, d: Device<S>,
                                                       blocks: seq<seq<Frame>>)
    requires RespectsLater(step, selection) && (d.ramp.Still(1.0) ==> Untouched(step, selection, d.processor))
    ensures ProcessBlocks(step, initial, selection, d, blocks) ==
      Wetted(step, selection, d.ramp, d.processor, Concat(blocks))
    decreases |blocks|
  {
    if blocks != [] {
      var block, rest := blocks[0], blocks[1..];
      var next := ProcessBlock(step, initial, selection, d, block).0;
      BlockIsWetted(step, initial, selection, d, block);
      if d.ramp.Still(0.0) {
        StillBlocksAreDry(step, initial, selection, next, rest);
        BypassIsDry(step, selection, d.ramp, d.processor, Concat(blocks));
      } else {
        LaterStates(step, selection, d.processor, block);
        BlocksCannotBeHeard(step, initial, selection, next, rest);
        WettedCuts(step, selection, d.ramp, d.processor, block, Concat(rest));
      }
    }
  }

  lemma {:induction false} StillBlocksAreDry<S>(step: Step<S>, initial: S, selection: Selection, d: Device<S>,
                                                blocks: seq<seq<Frame>>)
    requires d.ramp.Still(0.0)
    ensures ProcessBlocks(step, initial, selection, d, blocks) == Concat(blocks)
    decreases |blocks|
  {
    if blocks != [] {
      StillBlocksAreDry(step, initial, selection, ProcessBlock(step, initial, selection, d, blocks[0]).0, blocks[1..]);
    }
  }

  lemma {:induction false} LaterStates<S(!new)>(step: Step<S>, selection: Selection, s: S, frames: seq<Frame>)
    requires RespectsLater(step, selection)
    ensures frames != [] || Untouched(step, selection, s) ==> Untouched(step, selection, RunWet(step, s, frames).0)
    decreases |frames|
  {
    if frames != [] {
      assert Untouched(step, selection, step(s, frames[0]).0);
      LaterStates(step, selection, step(s, frames[0]).0, frames[1..]);
    }
  }

  /** At rest at one the cuts are never heard, whatever the processor does. */
  lemma {:induction false} FullBlocksAreWet<S>(step: Step<S>, initial: S, selection: Selection, d: Device<S>,
                                               blocks: seq<seq<Frame>>)
    requires d.ramp.Still(1.0)
    ensures ProcessBlocks(step, initial, selection, d, blocks) == RunWet(step, d.processor, Concat(blocks)).1
    decreases |blocks|
  {
    if blocks != [] {
      FullBlocksAreWet(step, initial, selection, ProcessBlock(step, initial, selection, d, blocks[0]).0, blocks[1..]);
      RunWetCuts(step, d.processor, blocks[0], Concat(blocks[1..]));
    }
  }

  lemma CutsCannotBeHeard<S(!new)>(step: Step<S>, initial: S, selection: Selection, d: Device<S>,
                                   blocks: seq<seq<Frame>>, others: seq<seq<Frame>>)
    requires RespectsLater(step, selection) && Concat(blocks) == Concat(others)
    ensures ProcessBlocks(step, initial, selection, d, blocks) == ProcessBlocks(step, initial, selection, d, others)
  {
    if d.ramp.Still(1.0) {
      FullBlocksAreWet(step, initial, selection, d, blocks);
      FullBlocksAreWet(step, initial, selection, d, others);
    } else {
      BlocksCannotBeHeard(step, initial, selection, d, blocks);
      BlocksCannotBeHeard(step, initial, selection, d, others);
    }
  }

  lemma RunSingle<S>(step: Step<S>, s: S, x: Frame)
    ensures RunWet(step, s, [x]) == (step(s, x).0, [step(s, x).1])
  {
    assert [x][1..] == [] && [step(s, x).1] + [] == [step(s, x).1];
  }

  /** A processor that touches a channel that is not selected, from its second sample on, makes the end
      of a ramp audible: cut after the ramp the touched sample is heard, uncut it is not. */
  lemma TouchedChannelsAreHeard<S(!new)>(step: Step<S>, initial: S, selection: Selection, s: S, w: Frame, x: Frame)
    requires var y := step(step(s, w).0, x).1;
      (!selection.left && y.left != x.left) || (!selection.right && y.right != x.right)
    ensures Concat([[w], [x]]) == Concat([[w, x]])
    ensures var d := Device(Ramp(0.5, 1.0, 0.5, 1, 1), s, true);
      ProcessBlocks(step, initial, selection, d, [[w], [x]]) != ProcessBlocks(step, initial, selection, d, [[w, x]])
  {
    var d := Device(Ramp(0.5, 1.0, 0.5, 1, 1), s, true);
    assert [[w], [x]][1..] == [[x]] && [[x]][1..] == [] && [[w, x]][1..] == [];
    assert [w, x][1..] == [x] && [w][1..] == [] && [x][1..] == [];
    assert Concat([[x]]) == [x] && Concat([[w, x]]) == [w, x];
    RunSingle(step, s, w);
    RunSingle(step, step(s, w).0, x);
    var (next, first) := ProcessBlock(step, initial, selection, d, [w]);
    assert next == Device(Advanced(d.ramp, 1), step(s, w).0, true) && next.ramp.Still(1.0);
    var (last, second) := ProcessBlock(step, initial, selection, next, [x]);
    assert second == [step(next.processor, x).1];
    var cut := ProcessBlocks(step, initial, selection, d, [[w], [x]]);
    assert ProcessBlocks(step, initial, selection, next, [[x]]) == second + [];
    assert cut == first + (second + []) && |first| == 1 && cut[1] == step(next.processor, x).1;
    var uncut := ProcessBlocks(step, initial, selection, d, [[w, x]]);
    assert uncut == ProcessBlock(step, initial, selection, d, [w, x]).1 + [];
    WettedAt(step, selection, d.ramp, s, [w, x], 1);
    RunWetCuts(step, s, [w], [x]);
    assert [w] + [x] == [w, x];
    assert uncut[1] == Mix(1.0, selection, x, step(next.processor, x).1);
  }

  /** No cut of any audio is ever heard exactly when the processor leaves channels that are not selected
      alone from its second sample on. */
  lemma CutsAreInaudibleExactly<S(!new)>(step: Step<S>, initial: S, selection: Selection)
    ensures RespectsLater(step, selection) <==>
      forall d: Device<S>, blocks, others :: Concat(blocks) == Concat(others) ==>
        ProcessBlocks(step, initial, selection, d, blocks) == ProcessBlocks(step, initial, selection, d, others)
  {
    if RespectsLater(step, selection) {
      forall d: Device<S>, blocks, others | Concat(blocks) == Concat(others)
        ensures ProcessBlocks(step, initial, selection, d, blocks) == ProcessBlocks(step, initial, selection, d, others)
      {
        CutsCannotBeHeard(step, initial, selection, d, blocks, others);
      }
    } else {
      var s: S, w: Frame :| !Untouched(step, selection, step(s, w).0);
      var t := step(s, w).0;
      var x: Frame :|
        !(!selection.left ==> step(t, x).1.left == x.left) || !(!selection.right ==> step(t, x).1.right == x.right);
      TouchedChannelsAreHeard(step, initial, selection, s, w, x);
    }
  }

  lemma {:induction false} RunWetCuts<S>(step: Step<S>, s: S, a: seq<Frame>, b: seq<Frame>)
    ensures var (middle, front) := RunWet(step, s, a);
      var (last, back) := RunWet(step, middle, b);
      RunWet(step, s, a + b) == (last, front + back)
    decreases |a|
  {
    if a == [] {
      assert a + b == b && [] + RunWet(step, s, b).1 == RunWet(step, s, b).1;
    } else {
      assert (a + b)[0] == a[0] && (a + b)[1..] == a[1..] + b;
      var (next, y) := step(s, a[0]);
      RunWetCuts(step, next, a[1..], b);
      var front := RunWet(step, next, a[1..]);
      var back := RunWet(step, front.0, b).1;
      assert [y] + (front.1 + back) == ([y] + front.1) + back;
    }
  }

  /** Every output sample is the mix of its dry and its wet sample at the ramp value of its index. */
  lemma {:induction false} WettedAt<S>(step: Step<S>, selection: Selection, r: Ramp, s: S, frames: seq<Frame>, k: nat)
    requires k < |frames|
    ensures Wetted(step, selection, r, s, frames)[k] ==
      Mix(Advanced(r, k).current, selection, frames[k], RunWet(step, s, frames).1[k])
    decreases k
  {
    if k > 0 {
      WettedAt(step, selection, Advanced(r, 1), step(s, frames[0]).0, frames[1..], k - 1);
      AdvanceAdds(r, 1, k - 1);
    }
  }

  // The device on buffers

  datatype ChannelMode = Stereo | Left | Right

  /** Lanes that are null are absent; a frame shows zero for them. */
  datatype AudioBuffer = AudioBuffer(left: array?<real>, right: array?<real>, frameCount: nat) {
    ghost predicate Valid() {
      && (left != null ==> frameCount <= left.Length)
      && (right != null ==> frameCount <= right.Length)
      && (left != null && right != null ==> left != right)
    }

    function At(index: nat): Frame
      requires Valid() && index < frameCount
      reads left, right
    {
      Frame(if left != null then left[index] else 0.0, if right != null then right[index] else 0.0)
    }

    ghost function Frames(): (r: seq<Frame>)
      requires Valid()
      reads left, right
      ensures |r| == frameCount && forall k :: 0 <= k < frameCount ==> r[k] == At(k)
    {
      seq(frameCount, k requires 0 <= k < frameCount reads left, right => At(k))
    }

    function Present(): Selection { Selection(left != null, right != null) }

    function Selected(mode: ChannelMode): Selection {
      Selection(left != null && mode != Right, right != null && mode != Left)
    }

    method Set(index: nat, frame: Frame)
      requires Valid() && index < frameCount
      modifies left, right
      ensures forall k :: 0 <= k < frameCount && k != index ==> At(k) == old(At(k))
      ensures At(index) == Frame(if left != null then frame.left else 0.0, if right != null then frame.right else 0.0)
    {
      if left != null {
        left[index] := frame.left;
      }
      if right != null {
        right[index] := frame.right;
      }
    }
  }

  /** Stereo selects the channels that are present; left and right divide them, and neither selects the other
      side. */
  lemma ModesDivideTheChannels(audio: AudioBuffer)
    ensures audio.Selected(Stereo) == audio.Present()
    ensures !audio.Selected(Left).right && !audio.Selected(Right).left
    ensures var left, right := audio.Selected(Left), audio.Selected(Right);
      Selection(left.left || right.left, left.right || right.right) == audio.Present()
  {
  }

  /** The wet callback runs over a borrowed buffer in place and touches nothing but its lanes. */
  method RunInPlace<S(!new)>(step: Step<S>, processor: S, audio: AudioBuffer) returns (next: S)
    requires audio.Valid() && Respects(step, audio.Present())
    modifies audio.left, audio.right
    ensures (next, audio.Frames()) == RunWet(step, processor, old(audio.Frames()))
  {
    ghost var frames := audio.Frames();
    next := processor;
    for index := 0 to audio.frameCount
      invariant forall k :: index <= k < audio.frameCount ==> audio.At(k) == frames[k]
      invariant (next, audio.Frames()[..index]) == RunWet(step, processor, frames[..index])
    {
      ghost var done, state := audio.Frames()[..index], next;
      var x := audio.At(index);
      var (s, y) := step(next, x);
      assert Untouched(step, audio.Present(), next);
      audio.Set(index, y);
      next := s;
      assert audio.Frames()[..index] == done;
      assert audio.Frames()[..index + 1] == done + [y];
      RunWetCuts(step, processor, frames[..index], [x]);
      assert frames[..index + 1] == frames[..index] + [x];
      assert [x][0] == x && [x][1..] == [];
      assert RunWet(step, state, [x]) == (s, [y]) by {
        assert [y] + [] == [y];
      }
    }
    assert frames[..audio.frameCount] == frames && audio.Frames()[..audio.frameCount] == audio.Frames();
  }

  class WetTransition {
    const wet: ParameterRamp
    var left: array<real>
    var right: array<real>
    var wasProcessing: bool

    ghost predicate Valid()
      reads this`left, this`right
    {
      left != right
    }

    constructor ()
      ensures Valid() && !wasProcessing && fresh(wet) && wet.State() == Ramp(0.0, 0.0, 0.0, 1, 0)
    {
      wet := new ParameterRamp(0.0);
      left, right := new real[0], new real[0];
      wasProcessing := false;
    }

    method Prepare(sampleRate: real, maximumFrameCount: nat)
      modifies this`left, this`right, wet
      ensures Valid() && left.Length == right.Length == maximumFrameCount && fresh(left) && fresh(right)
      ensures wet.State() == Prepared(old(wet.State()), sampleRate)
    {
      left := new real[maximumFrameCount](_ => 0.0);
      right := new real[maximumFrameCount](_ => 0.0);
      wet.Prepare(sampleRate);
    }

    method Reset()
      modifies this`wasProcessing, wet
      ensures !wasProcessing && wet.State().Still(old(wet.targetValue))
    {
      wet.Reset();
      wasProcessing := false;
    }

    method SetTarget(target: real)
      requires wet.State().Valid()
      modifies wet
      ensures wet.State() == Targeted(old(wet.State()), target)
      ensures wet.targetValue == target && wet.currentValue == old(wet.currentValue)
      ensures target == old(wet.targetValue) ==> wet.State() == old(wet.State())
      ensures target != old(wet.targetValue) && target == wet.currentValue ==> wet.State().Still(target)
      ensures target != old(wet.targetValue) && target != wet.currentValue ==>
        Leads(wet.State(), wet.currentValue, target, wet.rampSampleCount)
    {
      wet.SetTarget(target);
    }

    /** The buffer fits the scratch lanes and shares no lane with them. */
    ghost predicate Accepts(audio: AudioBuffer)
      reads this`left, this`right
    {
      && audio.Valid()
      && audio.frameCount <= left.Length && audio.frameCount <= right.Length
      && audio.left != left && audio.left != right && audio.right != left && audio.right != right
    }

    function State<S>(processor: S): Device<S>
      reads this`wasProcessing, wet
    {
      Device(wet.State(), processor, wasProcessing)
    }

    method Process<S(!new)>(audio: AudioBuffer, mode: ChannelMode, step: Step<S>, initial: S, processor: S)
      returns (next: S)
      requires Valid() && Accepts(audio) && Respects(step, audio.Present())
      modifies this`wasProcessing, wet, left, right, audio.left, audio.right
      ensures (State(next), audio.Frames()) ==
        ProcessBlock(step, initial, audio.Selected(mode), old(State(processor)), old(audio.Frames()))
    {
      next := processor;
      if wet.currentValue == 0.0 && wet.remainingSamples == 0 {
        if wasProcessing {
          next := initial;
          wasProcessing := false;
        }
        return;
      }
      wasProcessing := true;
      if wet.currentValue == 1.0 && wet.remainingSamples == 0 {
        next := RunInPlace(step, processor, audio);
        return;
      }
      next := ProcessBranch(audio, mode, step, processor);
    }

    /** The wet branch runs on a copy, which is then mixed in sample by sample. */
    method ProcessBranch<S(!new)>(audio: AudioBuffer, mode: ChannelMode, step: Step<S>, processor: S) returns (next: S)
      requires Valid() && Accepts(audio) && Respects(step, audio.Present())
      modifies wet, left, right, audio.left, audio.right
      ensures next == RunWet(step, processor, old(audio.Frames())).0
      ensures audio.Frames() == Wetted(step, audio.Selected(mode), old(wet.State()), processor, old(audio.Frames()))
      ensures wet.State() == Advanced(old(wet.State()), audio.frameCount)
    {
      ghost var frames, ramp := audio.Frames(), wet.State();
      var branch := AudioBuffer(if audio.left != null then left else null, if audio.right != null then right else null,
                                audio.frameCount);
      Copy(audio, branch);
      assert branch.Frames() == frames;
      next := RunInPlace(step, processor, branch);
      ghost var wetFrames := branch.Frames();
      Blend(audio, branch, mode);
      forall k | 0 <= k < audio.frameCount
        ensures audio.Frames()[k] == Wetted(step, audio.Selected(mode), ramp, processor, frames)[k]
      {
        WettedAt(step, audio.Selected(mode), ramp, processor, frames, k);
      }
    }

    method Copy(audio: AudioBuffer, branch: AudioBuffer)
      requires audio.Valid() && branch.Valid() && audio.frameCount == branch.frameCount
      requires (audio.left == null) == (branch.left == null) && (audio.right == null) == (branch.right == null)
      requires branch.left != null ==> audio.left != branch.left && audio.right != branch.left
      requires branch.right != null ==> audio.left != branch.right && audio.right != branch.right
      modifies branch.left, branch.right
      ensures branch.Frames() == old(audio.Frames())
    {
      for index := 0 to audio.frameCount
        invariant forall k :: 0 <= k < index ==> branch.At(k) == audio.At(k)
      {
        branch.Set(index, audio.At(index));
      }
    }

    method Blend(audio: AudioBuffer, branch: AudioBuffer, mode: ChannelMode)
      requires audio.Valid() && branch.Valid() && audio.frameCount == branch.frameCount
      requires audio.left != null ==> audio.left != branch.left && audio.left != branch.right
      requires audio.right != null ==> audio.right != branch.left && audio.right != branch.right
      modifies wet, audio.left, audio.right
      ensures wet.State() == Advanced(old(wet.State()), audio.frameCount)
      ensures forall k :: 0 <= k < audio.frameCount ==>
        audio.At(k) ==
          Mix(Advanced(old(wet.State()), k).current, audio.Selected(mode), old(audio.At(k)), old(branch.At(k)))
    {
      var channels := audio.Selected(mode);
      for index := 0 to audio.frameCount
        invariant wet.State() == Advanced(old(wet.State()), index)
        invariant forall k :: index <= k < audio.frameCount ==> audio.At(k) == old(audio.At(k))
        invariant forall k :: 0 <= k < index ==>
          audio.At(k) == Mix(Advanced(old(wet.State()), k).current, channels, old(audio.At(k)), old(branch.At(k)))
      {
        AdvanceAdds(old(wet.State()), index, 1);
        var value := wet.NextValue();
        audio.Set(index, Mix(value, channels, audio.At(index), branch.At(index)));
      }
    }
  }
}
