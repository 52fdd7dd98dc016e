/**
  The stratified sampler: observations lie in buckets, and whole rounds over the buckets pick one
  observation each, spread over the bucket, until the wanted number is reached.
 */
module ObservationSampler {
  import opened Common

  /** The `round`-th pick of a bucket takes the observation at `index`. */
  datatype Pick = Pick(bucket: nat, round: nat, index: nat)

  function Sum(counts: seq<nat>): nat {
    if counts == [] then 0 else counts[0] + Sum(counts[1..])
  }

  function PerBucket(maximum: nat, buckets: nat): nat
    requires buckets > 0
  {
    var even := (maximum + buckets - 1) / buckets;
    if even > 1 then even else 1
  }

  /** The middle of the `round`-th of `perBucket` equal parts of a bucket. */
  function Spread(size: nat, round: nat, perBucket: nat): nat
    requires perBucket > 0
  {
    Divide((2 * round + 1) * size, 2 * perBucket)
  }

  function Divide(a: nat, b: nat): nat
    requires b > 0
  {
    a / b
  }

  function SourceIndex(size: nat, round: nat, perBucket: nat): (index: nat)
    requires perBucket > 0 && size > 0
    ensures index < size
  {
    Min(size - 1, Spread(size, round, perBucket))
  }

  // The spread

  lemma DivideBelow(a: nat, b: nat, n: nat)
    requires b > 0
    ensures a / b < n <==> a < n * b
  {
    assert a == b * (a / b) + a % b;
    if a / b < n {
      assert (a / b + 1) * b <= n * b;
    } else {
      assert n * b <= (a / b) * b;
    }
  }

  /** A pick is never clamped exactly in the first `perBucket` rounds. */
  lemma ClampedAfterPerBucketRounds(size: nat, round: nat, perBucket: nat)
    requires perBucket > 0 && size > 0
    ensures Spread(size, round, perBucket) < size <==> round < perBucket
  {
    DivideBelow((2 * round + 1) * size, 2 * perBucket, size);
    var a, b := 2 * round + 1, 2 * perBucket;
    assert size * b == b * size;
    if a < b {
      assert a * size < b * size;
    } else {
      assert a * size >= b * size;
    }
  }

  /** Which observation a pick takes: the one that the middle of the `round`-th of `perBucket` equal parts of
      its bucket falls on; the last one when there are no parts left. */
  predicate InTheMiddle(size: nat, round: nat, perBucket: nat, index: nat) {
    if round < perBucket
    then 2 * perBucket * index <= (2 * round + 1) * size < 2 * perBucket * (index + 1)
    else index == size - 1
  }

  lemma SourceIsInTheMiddle(size: nat, round: nat, perBucket: nat)
    requires perBucket > 0 && size > 0
    ensures forall index: nat ::
      InTheMiddle(size, round, perBucket, index) <==> index == SourceIndex(size, round, perBucket)
  {
    ClampedAfterPerBucketRounds(size, round, perBucket);
    forall index: nat | round < perBucket
      ensures InTheMiddle(size, round, perBucket, index) <==> index == Spread(size, round, perBucket)
    {
      DivideBelow((2 * round + 1) * size, 2 * perBucket, index);
      DivideBelow((2 * round + 1) * size, 2 * perBucket, index + 1);
    }
  }

  lemma DivideMonotone(a: nat, c: nat, b: nat)
    requires b > 0 && a + b <= c
    ensures a / b < c / b
  {
  }

  /** With enough observations, later rounds pick later ones. */
  lemma {:induction false} SpreadIncreases(size: nat, first: nat, second: nat, perBucket: nat)
    requires perBucket > 0 && perBucket <= size && first < second
    ensures Spread(size, first, perBucket) < Spread(size, second, perBucket)
    decreases second
  {
    var b := 2 * perBucket;
    assert (2 * second + 1) * size == (2 * (second - 1) + 1) * size + 2 * size;
    DivideMonotone((2 * (second - 1) + 1) * size, (2 * second + 1) * size, b);
    if first < second - 1 {
      SpreadIncreases(size, first, second - 1, perBucket);
    }
  }

  /** The first `count` rounds of a bucket take later and later observations. */
  ghost predicate RoundsIncrease(size: nat, perBucket: nat, count: nat)
    requires perBucket > 0 && size > 0
  {
    forall first: nat, second: nat :: first < second < count ==>
      SourceIndex(size, first, perBucket) < SourceIndex(size, second, perBucket)
  }

  lemma {:induction false} IncreasingOutgrows(size: nat, perBucket: nat, count: nat, round: nat)
    requires perBucket > 0 && size > 0 && RoundsIncrease(size, perBucket, count) && round < count
    ensures SourceIndex(size, round, perBucket) >= round
  {
    if round > 0 {
      IncreasingOutgrows(size, perBucket, count, round - 1);
    }
  }

  /** A bucket of `size` that is smaller than its share of `perBucket` and picked from until it is
      exhausted: only a single observation, or two in three rounds, are never picked twice. */
  lemma ShortBucket(size: nat, perBucket: nat)
    requires 0 < size < perBucket
    ensures RoundsIncrease(size, perBucket, size) <==> size == 1 || (size == 2 && perBucket == 3)
  {
    if size > 1 && RoundsIncrease(size, perBucket, size) {
      IncreasingOutgrows(size, perBucket, size, size - 1);
      assert Spread(size, size - 1, perBucket) >= size - 1;
      DivideBelow((2 * (size - 1) + 1) * size, 2 * perBucket, size - 1);
      OnlyTwoInThree(size, perBucket);
    }
  }

  lemma OnlyTwoInThree(size: nat, perBucket: nat)
    requires 1 < size < perBucket && (2 * (size - 1) + 1) * size >= (size - 1) * (2 * perBucket)
    ensures size == 2 && perBucket == 3
  {
    assert (size - 1) * (2 * perBucket) >= (size - 1) * (2 * (size + 1)) == 2 * size * size - 2;
    assert (2 * (size - 1) + 1) * size == 2 * size * size - size;
  }

  /** A bucket that can serve its share: `count` rounds do not repeat an observation as long as there
      are no more than its share, or one more, clamped, that the round before did not reach. */
  lemma WideBucket(size: nat, perBucket: nat, count: nat)
    requires 0 < perBucket <= size
    ensures RoundsIncrease(size, perBucket, count) <==>
      count <= perBucket || (count == perBucket + 1 && size > 2 * perBucket)
  {
    forall first: nat, second: nat | first < second < perBucket
      ensures SourceIndex(size, first, perBucket) < SourceIndex(size, second, perBucket)
    {
      SpreadIncreases(size, first, second, perBucket);
      ClampedAfterPerBucketRounds(size, first, perBucket);
      ClampedAfterPerBucketRounds(size, second, perBucket);
    }
    forall round: nat | round >= perBucket ensures SourceIndex(size, round, perBucket) == size - 1 {
      ClampedAfterPerBucketRounds(size, round, perBucket);
    }
    LastUnclamped(size, perBucket);
    if count == perBucket + 1 && size > 2 * perBucket {
      forall first: nat | first < perBucket ensures SourceIndex(size, first, perBucket) < size - 1 {
        if first < perBucket - 1 {
          SpreadIncreases(size, first, perBucket - 1, perBucket);
        }
      }
    }
    assert count > perBucket && RoundsIncrease(size, perBucket, count) ==>
      SourceIndex(size, perBucket - 1, perBucket) < SourceIndex(size, perBucket, perBucket);
    if count > perBucket + 1 {
      assert SourceIndex(size, perBucket, perBucket) == SourceIndex(size, perBucket + 1, perBucket);
    }
  }

  /** The last round that is not clamped stays below the last observation exactly in wide buckets. */
  lemma LastUnclamped(size: nat, perBucket: nat)
    requires 0 < perBucket <= size
    ensures SourceIndex(size, perBucket - 1, perBucket) < size - 1 <==> size > 2 * perBucket
  {
    DivideBelow((2 * (perBucket - 1) + 1) * size, 2 * perBucket, size - 1);
    assert (2 * (perBucket - 1) + 1) * size == 2 * perBucket * size - size;
    assert (size - 1) * (2 * perBucket) == 2 * perBucket * size - 2 * perBucket;
  }

  // Counting picks

  function Count(picks: seq<Pick>, bucket: nat): nat {
    if picks == [] then 0
    else Count(picks[..|picks| - 1], bucket) + if picks[|picks| - 1].bucket == bucket then 1 else 0
  }

  lemma CountAppend(picks: seq<Pick>, pick: Pick, bucket: nat)
    ensures Count(picks + [pick], bucket) == Count(picks, bucket) + if pick.bucket == bucket then 1 else 0
  {
  }

  lemma {:induction false} SumUpdate(counts: seq<nat>, i: nat)
    requires i < |counts|
    ensures Sum(counts[i := counts[i] + 1]) == Sum(counts) + 1
    decreases i
  {
    if i > 0 {
      assert counts[i := counts[i] + 1][1..] == counts[1..][i - 1 := counts[i] + 1];
      SumUpdate(counts[1..], i - 1);
    }
  }

  lemma {:induction false} SumBound(counts: seq<nat>, sizes: seq<nat>)
    requires |counts| == |sizes| && forall b :: 0 <= b < |sizes| ==> counts[b] >= sizes[b]
    ensures Sum(counts) >= Sum(sizes)
    decreases |sizes|
  {
    if sizes != [] {
      SumBound(counts[1..], sizes[1..]);
    }
  }

  lemma {:induction false} SumAtMost(counts: seq<nat>, most: nat)
    requires forall b :: 0 <= b < |counts| ==> counts[b] <= most
    ensures Sum(counts) <= |counts| * most
    decreases |counts|
  {
    if counts != [] {
      SumAtMost(counts[1..], most);
      assert |counts| * most == most + (|counts| - 1) * most;
    }
  }

  lemma {:induction false} SumAtLeast(counts: seq<nat>, least: nat)
    requires forall b :: 0 <= b < |counts| ==> counts[b] >= least
    ensures Sum(counts) >= |counts| * least
    decreases |counts|
  {
    if counts != [] {
      SumAtLeast(counts[1..], least);
      assert |counts| * least == least + (|counts| - 1) * least;
    }
  }

  /** `round` full rounds have been made, and buckets before `position` have had one more turn. */
  predicate RoundRobin(sizes: seq<nat>, counts: seq<nat>, round: nat, position: nat) {
    && |counts| == |sizes| && position <= |sizes|
    && forall b :: 0 <= b < |sizes| ==> counts[b] == Min(if b < position then round + 1 else round, sizes[b])
  }

  ghost predicate Tallied(picks: seq<Pick>, counts: seq<nat>) {
    && |picks| == Sum(counts)
    && forall b :: 0 <= b < |counts| ==> counts[b] == Count(picks, b)
  }

  /** Each pick is the next round of its bucket and takes the observation that round stands for. */
  predicate Sound(sizes: seq<nat>, picks: seq<Pick>, perBucket: nat)
    requires perBucket > 0
  {
    forall i :: 0 <= i < |picks| ==>
      var p := picks[i];
      && p.bucket < |sizes| && p.round < sizes[p.bucket]
      && p.round == Count(picks[..i], p.bucket)
      && p.index == SourceIndex(sizes[p.bucket], p.round, perBucket)
  }

  /** Every pick takes the observation in the middle of its part. */
  predicate Central(sizes: seq<nat>, picks: seq<Pick>, perBucket: nat) {
    forall i :: 0 <= i < |picks| ==>
      picks[i].bucket < |sizes| && InTheMiddle(sizes[picks[i].bucket], picks[i].round, perBucket, picks[i].index)
  }

  lemma SoundPicksAreCentral(sizes: seq<nat>, picks: seq<Pick>, perBucket: nat)
    requires perBucket > 0 && Sound(sizes, picks, perBucket)
    ensures Central(sizes, picks, perBucket)
  {
    forall i | 0 <= i < |picks|
      ensures InTheMiddle(sizes[picks[i].bucket], picks[i].round, perBucket, picks[i].index)
    {
      SourceIsInTheMiddle(sizes[picks[i].bucket], picks[i].round, perBucket);
    }
  }

  /** `p` comes before the turn of `bucket` in `round`. */
  predicate Earlier(p: Pick, round: nat, bucket: nat) {
    p.round < round || (p.round == round && p.bucket < bucket)
  }

  /** The picks are made round after round, and in every round bucket after bucket. */
  predicate Ordered(picks: seq<Pick>) {
    forall i, j :: 0 <= i < j < |picks| ==> Earlier(picks[i], picks[j].round, picks[j].bucket)
  }

  predicate AllEarlier(picks: seq<Pick>, round: nat, bucket: nat) {
    forall i :: 0 <= i < |picks| ==> Earlier(picks[i], round, bucket)
  }

  /** Buckets that are not exhausted have been picked from evenly. */
  predicate Balanced(sizes: seq<nat>, picks: seq<Pick>) {
    forall b, c :: 0 <= b < |sizes| && 0 <= c < |sizes| && Count(picks, b) < sizes[b] ==>
      Count(picks, c) <= Count(picks, b) + 1
  }

  // How often each bucket is picked from

  function Counts(picks: seq<Pick>, buckets: nat): (r: seq<nat>)
    ensures |r| == buckets && forall b :: 0 <= b < buckets ==> r[b] == Count(picks, b)
  {
    seq(buckets, b requires 0 <= b => Count(picks, b))
  }

  /** How often each bucket has been picked from after `round` whole rounds and `position` more turns. */
  function Served(sizes: seq<nat>, round: nat, position: nat): (r: seq<nat>)
    ensures |r| == |sizes|
    ensures forall b :: 0 <= b < |sizes| ==> r[b] == Min(if b < position then round + 1 else round, sizes[b])
  {
    seq(|sizes|, b requires 0 <= b < |sizes| => Min(if b < position then round + 1 else round, sizes[b]))
  }

  /** The picks are those of `round` whole rounds and `position` more turns. */
  ghost predicate InTurn(sizes: seq<nat>, picks: seq<Pick>, round: nat, position: nat) {
    position <= |sizes| && Counts(picks, |sizes|) == Served(sizes, round, position)
  }

  lemma TalliedInTurn(sizes: seq<nat>, picks: seq<Pick>, counts: seq<nat>, round: nat, position: nat)
    requires Tallied(picks, counts) && RoundRobin(sizes, counts, round, position)
    ensures InTurn(sizes, picks, round, position)
  {
  }

  /** The sampling loop. It is entered only when there are more observations than wanted. */
  method Sample(sizes: seq<nat>, maximum: nat) returns (picks: seq<Pick>)
    requires 0 < maximum < Sum(sizes) && forall b :: 0 <= b < |sizes| ==> sizes[b] > 0
    ensures |sizes| > 0 && |picks| == maximum
    ensures Sound(sizes, picks, PerBucket(maximum, |sizes|)) && Balanced(sizes, picks)
    ensures Central(sizes, picks, PerBucket(maximum, |sizes|)) && Ordered(picks)
    ensures exists round: nat, position: nat :: InTurn(sizes, picks, round, position)
  {
    var perBucket := PerBucket(maximum, |sizes|);
    picks := [];
    ghost var counts := Zeros(|sizes|);
    var round := 0;
    while |picks| < maximum
      invariant |picks| <= maximum && Sound(sizes, picks, perBucket) && Tallied(picks, counts)
      invariant Balanced(sizes, picks) && Ordered(picks)
      invariant |picks| < maximum ==> AllEarlier(picks, round, 0)
      invariant |picks| < maximum ==> RoundRobin(sizes, counts, round, 0)
      invariant picks != [] ==> exists round: nat, position: nat :: InTurn(sizes, picks, round, position)
      decreases maximum - |picks|
    {
      var added;
      picks, added, counts := Round(sizes, maximum, round, perBucket, picks, counts);
      ghost var position: nat :| RoundRobin(sizes, counts, round, position);
      Evenly(sizes, picks, counts, round, position);
      TalliedInTurn(sizes, picks, counts, round, position);
      if !added {
        break;
      }
      round := round + 1;
    }
    SoundPicksAreCentral(sizes, picks, perBucket);
  }

  ghost function Zeros(n: nat): (r: seq<nat>)
    ensures |r| == n && Sum(r) == 0 && forall i :: 0 <= i < n ==> r[i] == 0
  {
    if n == 0 then [] else [0] + Zeros(n - 1)
  }

  /** One turn over the buckets, broken off when enough has been picked. While more observations are
      left than wanted, every turn adds something. */
  method Round(sizes: seq<nat>, maximum: nat, round: nat, perBucket: nat, selected: seq<Pick>, ghost counts: seq<nat>)
    returns (picks: seq<Pick>, added: bool, ghost after: seq<nat>)
    requires perBucket > 0 && |selected| < maximum < Sum(sizes)
    requires Sound(sizes, selected, perBucket) && Tallied(selected, counts) && RoundRobin(sizes, counts, round, 0)
    requires Ordered(selected) && AllEarlier(selected, round, 0)
    ensures Sound(sizes, picks, perBucket) && Tallied(picks, after)
    ensures Ordered(picks) && AllEarlier(picks, round + 1, 0)
    ensures added && |selected| < |picks| <= maximum
    ensures exists position: nat {:trigger RoundRobin(sizes, after, round, position)} ::
      RoundRobin(sizes, after, round, position)
    ensures |picks| < maximum ==> RoundRobin(sizes, after, round + 1, 0)
  {
    picks, added, after := selected, false, counts;
    var bucket := 0;
    while bucket < |sizes|
      invariant RoundRobin(sizes, after, round, bucket) && |selected| <= |picks| <= maximum
      invariant Sound(sizes, picks, perBucket) && Tallied(picks, after)
      invariant Ordered(picks) && AllEarlier(picks, round, bucket)
      invariant added <==> |picks| > |selected|
      invariant !added ==> forall b :: 0 <= b < bucket ==> sizes[b] <= round
    {
      if |picks| == maximum {
        break;
      }
      if round < sizes[bucket] {
        Picked(sizes, picks, after, round, bucket, perBucket);
        picks := picks + [Pick(bucket, round, SourceIndex(sizes[bucket], round, perBucket))];
        added, after := true, after[bucket := round + 1];
      } else {
        PassedOver(sizes, after, round, bucket);
      }
      bucket := bucket + 1;
    }
    if !added {
      SumBound(after, sizes);
    }
    RoundIsOver(sizes, after, round, bucket);
  }

  lemma PassedOver(sizes: seq<nat>, counts: seq<nat>, round: nat, bucket: nat)
    requires bucket < |sizes| && RoundRobin(sizes, counts, round, bucket) && round >= sizes[bucket]
    ensures RoundRobin(sizes, counts, round, bucket + 1)
  {
  }

  lemma RoundIsOver(sizes: seq<nat>, counts: seq<nat>, round: nat, position: nat)
    requires RoundRobin(sizes, counts, round, position)
    ensures position == |sizes| ==> RoundRobin(sizes, counts, round + 1, 0)
  {
  }

  lemma Picked(sizes: seq<nat>, previous: seq<Pick>, counts: seq<nat>, round: nat, bucket: nat, perBucket: nat)
    requires perBucket > 0 && Sound(sizes, previous, perBucket) && Tallied(previous, counts)
    requires bucket < |sizes| && RoundRobin(sizes, counts, round, bucket) && round < sizes[bucket]
    ensures var picks := previous + [Pick(bucket, round, SourceIndex(sizes[bucket], round, perBucket))];
      var next := counts[bucket := round + 1];
      Sound(sizes, picks, perBucket) && Tallied(picks, next) && RoundRobin(sizes, next, round, bucket + 1)
  {
    var picks := previous + [Pick(bucket, round, SourceIndex(sizes[bucket], round, perBucket))];
    var next := counts[bucket := round + 1];
    SumUpdate(counts, bucket);
    forall b | 0 <= b < |counts| ensures next[b] == Count(picks, b) {
      CountAppend(previous, picks[|previous|], b);
    }
    forall i | 0 <= i < |picks|
      ensures picks[i].bucket < |sizes| && picks[i].round < sizes[picks[i].bucket]
      ensures picks[i].round == Count(picks[..i], picks[i].bucket)
      ensures picks[i].index == SourceIndex(sizes[picks[i].bucket], picks[i].round, perBucket)
    {
      assert picks[..i] == previous[..i];
      if i == |previous| {
        assert previous[..i] == previous;
      } else {
        assert picks[i] == previous[i];
      }
    }
  }

  lemma Evenly(sizes: seq<nat>, picks: seq<Pick>, counts: seq<nat>, round: nat, position: nat)
    requires RoundRobin(sizes, counts, round, position) && Tallied(picks, counts)
    ensures Balanced(sizes, picks)
  {
  }

  // What the picks of a finished run have in common

  lemma {:induction false} CountsAddUp(picks: seq<Pick>, buckets: nat)
    requires forall i :: 0 <= i < |picks| ==> picks[i].bucket < buckets
    ensures Sum(Counts(picks, buckets)) == |picks|
    decreases |picks|
  {
    if picks == [] {
      SumAtMost(Counts(picks, buckets), 0);
    } else {
      var front, last := picks[..|picks| - 1], picks[|picks| - 1];
      assert forall i :: 0 <= i < |front| ==> front[i] == picks[i];
      CountsAddUp(front, buckets);
      var before := Counts(front, buckets);
      SumUpdate(before, last.bucket);
      assert Counts(picks, buckets) == before[last.bucket := before[last.bucket] + 1];
    }
  }

  lemma {:induction false} CountGrows(picks: seq<Pick>, i: nat, j: nat, bucket: nat)
    requires i < j <= |picks|
    ensures Count(picks[..j], bucket) >= Count(picks[..i], bucket) + if picks[i].bucket == bucket then 1 else 0
    decreases j
  {
    assert picks[..j][..j - 1] == picks[..j - 1];
    if i < j - 1 {
      CountGrows(picks, i, j - 1, bucket);
    }
  }

  lemma {:induction false} SumAbove(counts: seq<nat>, least: nat, i: nat)
    requires i < |counts| && counts[i] > least && forall b :: 0 <= b < |counts| ==> counts[b] >= least
    ensures Sum(counts) > |counts| * least
  {
    var lower := counts[i := counts[i] - 1];
    SumAtLeast(lower, least);
    SumUpdate(lower, i);
    assert lower[i := lower[i] + 1] == counts;
  }

  lemma EnoughRounds(maximum: nat, buckets: nat)
    requires buckets > 0
    ensures buckets * PerBucket(maximum, buckets) >= maximum
  {
  }

  /** When every bucket has at least `perBucket` observations, no bucket is picked from more often. */
  lemma RoundsStayBelow(sizes: seq<nat>, picks: seq<Pick>, maximum: nat, i: nat)
    requires |sizes| > 0 && |picks| == maximum && i < |picks|
    requires Sound(sizes, picks, PerBucket(maximum, |sizes|)) && Balanced(sizes, picks)
    requires forall b :: 0 <= b < |sizes| ==> sizes[b] >= PerBucket(maximum, |sizes|)
    ensures picks[i].round < PerBucket(maximum, |sizes|)
  {
    var perBucket, b := PerBucket(maximum, |sizes|), picks[i].bucket;
    if picks[i].round >= perBucket {
      var counts := Counts(picks, |sizes|);
      CountGrows(picks, i, |picks|, b);
      assert picks[..|picks|] == picks;
      assert counts[b] > perBucket;
      forall c | 0 <= c < |sizes| ensures counts[c] >= perBucket {
        assert Count(picks, c) < sizes[c] ==> Count(picks, b) <= Count(picks, c) + 1;
      }
      CountsAddUp(picks, |sizes|);
      SumAbove(counts, perBucket, b);
      EnoughRounds(maximum, |sizes|);
    }
  }

  /** With that many observations in every bucket no pick is clamped, and within a bucket every pick
      lies after the ones before it. */
  lemma WideBucketsAreSpread(sizes: seq<nat>, picks: seq<Pick>, maximum: nat, i: nat, j: nat)
    requires |sizes| > 0 && |picks| == maximum && i < j < |picks|
    requires Sound(sizes, picks, PerBucket(maximum, |sizes|)) && Balanced(sizes, picks)
    requires forall b :: 0 <= b < |sizes| ==> sizes[b] >= PerBucket(maximum, |sizes|)
    ensures var perBucket := PerBucket(maximum, |sizes|);
      && picks[j].index == Spread(sizes[picks[j].bucket], picks[j].round, perBucket)
      && (picks[i].bucket == picks[j].bucket ==> picks[i].index < picks[j].index)
  {
    var perBucket := PerBucket(maximum, |sizes|);
    RoundsStayBelow(sizes, picks, maximum, i);
    RoundsStayBelow(sizes, picks, maximum, j);
    ClampedAfterPerBucketRounds(sizes[picks[i].bucket], picks[i].round, perBucket);
    ClampedAfterPerBucketRounds(sizes[picks[j].bucket], picks[j].round, perBucket);
    if picks[i].bucket == picks[j].bucket {
      CountGrows(picks, i, j, picks[i].bucket);
      SpreadIncreases(sizes[picks[i].bucket], picks[i].round, picks[j].round, perBucket);
    }
  }

  /** The picks of one bucket take later and later observations. */
  predicate Increasing(picks: seq<Pick>, bucket: nat) {
    forall i, j :: 0 <= i < j < |picks| && picks[i].bucket == bucket && picks[j].bucket == bucket ==>
      picks[i].index < picks[j].index
  }

  lemma {:induction false} RoundAppears(picks: seq<Pick>, bucket: nat, round: nat) returns (i: nat)
    requires round < Count(picks, bucket)
    ensures i < |picks| && picks[i].bucket == bucket && Count(picks[..i], bucket) == round
    decreases |picks|
  {
    var n := |picks| - 1;
    if round < Count(picks[..n], bucket) {
      i := RoundAppears(picks[..n], bucket, round);
      assert picks[..n][..i] == picks[..i];
    } else {
      i := n;
    }
  }

  /** The picks of a bucket are its rounds, in order. */
  lemma PicksAreRounds(sizes: seq<nat>, picks: seq<Pick>, perBucket: nat, b: nat)
    requires perBucket > 0 && Sound(sizes, picks, perBucket) && b < |sizes| && sizes[b] > 0
    ensures Increasing(picks, b) <==> RoundsIncrease(sizes[b], perBucket, Count(picks, b))
  {
    if Increasing(picks, b) {
      forall first: nat, second: nat | first < second < Count(picks, b)
        ensures SourceIndex(sizes[b], first, perBucket) < SourceIndex(sizes[b], second, perBucket)
      {
        var i := RoundAppears(picks, b, first);
        var j := RoundAppears(picks, b, second);
        if j < i {
          CountGrows(picks, j, i, b);
        }
      }
    }
    if RoundsIncrease(sizes[b], perBucket, Count(picks, b)) {
      forall i, j | 0 <= i < j < |picks| && picks[i].bucket == b && picks[j].bucket == b
        ensures picks[i].index < picks[j].index
      {
        CountGrows(picks, i, j, b);
        CountGrows(picks, j, |picks|, b);
        assert picks[..|picks|] == picks;
      }
    }
  }

  /** A bucket that is smaller than its share is exhausted in the end. */
  lemma ShortBucketsAreExhausted(sizes: seq<nat>, picks: seq<Pick>, maximum: nat, b: nat)
    requires b < |sizes| && |picks| == maximum && sizes[b] < PerBucket(maximum, |sizes|)
    requires Sound(sizes, picks, PerBucket(maximum, |sizes|)) && Balanced(sizes, picks)
    requires forall c :: 0 <= c < |sizes| ==> sizes[c] > 0
    ensures Count(picks, b) >= sizes[b]
  {
    if Count(picks, b) < sizes[b] {
      var perBucket, counts := PerBucket(maximum, |sizes|), Counts(picks, |sizes|);
      CountsAddUp(picks, |sizes|);
      SumAtMost(counts, perBucket - 1);
      ShareIsNeeded(maximum, |sizes|);
    }
  }

  /** The share of a bucket is the least with which the buckets together can make the picks. */
  lemma ShareIsTheLeast(maximum: nat, buckets: nat, share: nat)
    requires buckets > 0
    ensures share >= PerBucket(maximum, buckets) <==> share >= 1 && buckets * share >= maximum
  {
    EnoughRounds(maximum, buckets);
    var least := PerBucket(maximum, buckets);
    if share >= least {
      TimesIsMonotone(buckets, least, share);
    } else if least > 1 {
      ShareIsNeeded(maximum, buckets);
      TimesIsMonotone(buckets, share, least - 1);
    }
  }

  lemma TimesIsMonotone(n: nat, a: nat, b: nat)
    requires a <= b
    ensures n * a <= n * b
  {
  }

  lemma ShareIsNeeded(maximum: nat, buckets: nat)
    requires buckets > 0 && PerBucket(maximum, buckets) > 1
    ensures buckets * (PerBucket(maximum, buckets) - 1) < maximum
  {
    var share := PerBucket(maximum, buckets);
    assert share * buckets <= maximum + buckets - 1;
    assert buckets * (share - 1) == share * buckets - buckets;
  }

  lemma CountIsBounded(sizes: seq<nat>, picks: seq<Pick>, perBucket: nat, b: nat)
    requires perBucket > 0 && Sound(sizes, picks, perBucket) && b < |sizes|
    ensures Count(picks, b) <= sizes[b]
  {
    if Count(picks, b) > 0 {
      var i := RoundAppears(picks, b, Count(picks, b) - 1);
    }
  }

  lemma {:induction false} SumIsMonotone(counts: seq<nat>, others: seq<nat>)
    requires |counts| == |others| && forall b :: 0 <= b < |counts| ==> counts[b] <= others[b]
    ensures Sum(counts) <= Sum(others) && (Sum(counts) == Sum(others) ==> counts == others)
    decreases |counts|
  {
    if counts != [] {
      SumIsMonotone(counts[1..], others[1..]);
      assert counts == [counts[0]] + counts[1..] && others == [others[0]] + others[1..];
    }
  }

  /** The number of picks decides how often each bucket is picked from. */
  lemma ServedIsUnique(sizes: seq<nat>, round: nat, position: nat, other: nat, place: nat)
    requires position <= |sizes| && place <= |sizes|
    requires Sum(Served(sizes, round, position)) == Sum(Served(sizes, other, place))
    ensures Served(sizes, round, position) == Served(sizes, other, place)
  {
    if round < other || (round == other && position <= place) {
      SumIsMonotone(Served(sizes, round, position), Served(sizes, other, place));
    } else {
      SumIsMonotone(Served(sizes, other, place), Served(sizes, round, position));
    }
  }

  /** How often bucket `b` is picked from, by the sizes and the number of picks alone. */
  lemma CountIsServed(sizes: seq<nat>, picks: seq<Pick>, round: nat, position: nat, b: nat)
    requires b < |sizes| && position <= |sizes| && Sum(Served(sizes, round, position)) == |picks|
    requires forall i :: 0 <= i < |picks| ==> picks[i].bucket < |sizes|
    requires exists round: nat, position: nat :: InTurn(sizes, picks, round, position)
    ensures Count(picks, b) == Served(sizes, round, position)[b]
  {
    var other: nat, place: nat :| InTurn(sizes, picks, other, place);
    CountsAddUp(picks, |sizes|);
    ServedIsUnique(sizes, round, position, other, place);
  }

  /** Exactly when the picks of a bucket never repeat an observation and keep their order: `round` whole
      rounds and `position` more turns make up the wanted number of picks, as can be computed from the
      sizes. */
  lemma PicksIncreaseExactly(sizes: seq<nat>, picks: seq<Pick>, maximum: nat, round: nat, position: nat, b: nat)
    requires b < |sizes| && |picks| == maximum && forall c :: 0 <= c < |sizes| ==> sizes[c] > 0
    requires Sound(sizes, picks, PerBucket(maximum, |sizes|)) && Balanced(sizes, picks)
    requires exists round: nat, position: nat :: InTurn(sizes, picks, round, position)
    requires position <= |sizes| && Sum(Served(sizes, round, position)) == maximum
    ensures var size, perBucket, count := sizes[b], PerBucket(maximum, |sizes|), Served(sizes, round, position)[b];
      Increasing(picks, b) <==>
        if size < perBucket then size == 1 || (size == 2 && perBucket == 3)
        else count <= perBucket || (count == perBucket + 1 && size > 2 * perBucket)
  {
    var size, perBucket := sizes[b], PerBucket(maximum, |sizes|);
    PicksAreRounds(sizes, picks, perBucket, b);
    CountIsServed(sizes, picks, round, position, b);
    if size < perBucket {
      ShortBucketsAreExhausted(sizes, picks, maximum, b);
      CountIsBounded(sizes, picks, perBucket, b);
      ShortBucket(size, perBucket);
    } else {
      WideBucket(size, perBucket, Count(picks, b));
    }
  }

  lemma SumOfTwo(a: nat, b: nat)
    ensures Sum([a, b]) == a + b
  {
    assert [b][1..] == [] && Sum([b]) == b;
    assert [a, b][1..] == [b];
  }

  /** Six rounds over buckets of two and of ten. */
  lemma SixRounds()
    ensures Sum([2, 10]) == 12 && Served([2, 10], 6, 0) == [2, 6] && Sum([2, 6]) == 8
  {
    SumOfTwo(2, 10);
    SumOfTwo(2, 6);
    var served := Served([2, 10], 6, 0);
    assert served[0] == 2 && served[1] == 6;
  }

  /** Both rounds of a bucket of two with a share of four take its first observation. */
  lemma TwoInFour()
    ensures PerBucket(8, 2) == 4 && SourceIndex(2, 0, 4) == SourceIndex(2, 1, 4) == 0
  {
  }

  predicate Repeats(picks: seq<Pick>, b: nat) {
    exists i, j :: 0 <= i < j < |picks| && picks[i].bucket == picks[j].bucket == b && picks[i].index == picks[j].index
  }

  lemma PairRepeats(sizes: seq<nat>, picks: seq<Pick>, perBucket: nat, b: nat)
    requires perBucket > 0 && Sound(sizes, picks, perBucket) && b < |sizes| && sizes[b] == 2
    requires SourceIndex(2, 0, perBucket) == SourceIndex(2, 1, perBucket) && !Increasing(picks, b)
    ensures Repeats(picks, b)
  {
    var i, j :|
      0 <= i < j < |picks| && picks[i].bucket == b && picks[j].bucket == b && picks[i].index >= picks[j].index;
    CountGrows(picks, i, j, b);
    assert picks[i].round == 0 && picks[j].round == 1;
  }

  /** Eight picks from a bucket of two and a bucket of ten take one observation of the first twice. */
  method ShortBucketsRepeat() returns (picks: seq<Pick>, i: nat, j: nat)
    ensures |picks| == 8 && Sound([2, 10], picks, PerBucket(8, 2)) && Balanced([2, 10], picks)
    ensures i < j < |picks| && picks[i].bucket == picks[j].bucket == 0 && picks[i].index == picks[j].index
  {
    SixRounds();
    picks := Sample([2, 10], 8);
    EightRepeat(picks);
    i, j :| 0 <= i < j < |picks| && picks[i].bucket == picks[j].bucket == 0 && picks[i].index == picks[j].index;
  }

  lemma EightRepeat(picks: seq<Pick>)
    requires |picks| == 8 && Sound([2, 10], picks, PerBucket(8, 2)) && Balanced([2, 10], picks)
    requires exists round: nat, position: nat :: InTurn([2, 10], picks, round, position)
    ensures Repeats(picks, 0)
  {
    SixRounds();
    TwoInFour();
    PicksIncreaseExactly([2, 10], picks, 8, 6, 0, 0);
    PairRepeats([2, 10], picks, 4, 0);
  }
}
