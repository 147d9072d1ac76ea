/**
 * WeightedRandom: picks elements with probability proportional to integer weights.
 * `randomWeighted` maps a pseudo-random int to an index; the object keeps one weight per element.
 */
module WeightedRandoms {
  import opened Common

  datatype Error =
    | EmptyWeights                         // "weights can't be empty"
    | NegativeWeight(index: nat, weight: int)  // "weights[i] <= 0: w"
    | SumTooHigh                           // "sum of weights is too high"
    | NoPositiveWeight                     // "no weights were > 0"
    | NegativeWeightSet(given: int)        // setWeight: "weight can't be negative"
    | NoSuchElement                        // setWeight on an element not held

  /** The sum of the first i weights. */
  function Prefix(w: seq<Int32>, i: nat): int
    requires i <= |w|
  {
    if i == 0 then 0 else Prefix(w, i - 1) + w[i - 1]
  }

  ghost predicate AllNonNegative(w: seq<Int32>)
  {
    forall i :: 0 <= i < |w| ==> w[i] >= 0
  }

  lemma {:induction false} PrefixMonotone(w: seq<Int32>, i: nat, j: nat)
    requires i <= j <= |w| && AllNonNegative(w)
    ensures 0 <= Prefix(w, i) <= Prefix(w, j)
    decreases j
  {
    if j > 0 {
      PrefixMonotone(w, if i < j then i else j - 1, j - 1);
    }
  }

  /** The first loop of `randomWeighted`, from index i with running sum `sum`: each weight is
      checked for sign, then added, and the running sum must stay below 2^31. */
  function CheckFrom(w: seq<Int32>, i: nat, sum: int): (r: Result<int, Error>)
    requires i <= |w|
    ensures 0 <= sum < TWO_31 && r.Success? ==> sum <= r.value < TWO_31
    decreases |w| - i
  {
    if i == |w| then Success(sum)
    else if w[i] < 0 then Failure(NegativeWeight(i, w[i]))
    else if sum + w[i] >= TWO_31 then Failure(SumTooHigh)
    else CheckFrom(w, i + 1, sum + w[i])
  }

  /** The index of the first w[i] whose inclusive prefix sum exceeds target, searching from i. */
  function FirstAbove(w: seq<Int32>, target: int, i: nat): (k: nat)
    requires i <= |w|
    ensures i <= k <= |w|
    decreases |w| - i
  {
    if i == |w| then |w|
    else if target < Prefix(w, i + 1) then i
    else FirstAbove(w, target, i + 1)
  }

  /** `randomWeighted(pseudoRandom, weights)`: the index it returns, or the exception it throws. */
  function RandomWeighted(pseudoRandom: Int32, w: seq<Int32>): Result<nat, Error>
  {
    if |w| == 0 then Failure(EmptyWeights)
    else match CheckFrom(w, 0, 0)
      case Failure(e) => Failure(e)
      case Success(total) =>
        if total == 0 then Failure(NoPositiveWeight)
        else Success(FirstAbove(w, JavaAbs32(JavaRem(pseudoRandom, total) as Int32), 0))
  }

  /** Weighted selection target: |pseudoRandom % total|, which Java computes without overflow here. */
  lemma TargetInRange(pseudoRandom: Int32, total: int)
    requires 0 < total < TWO_31
    ensures 0 <= JavaAbs32(JavaRem(pseudoRandom, total) as Int32) < total
    ensures JavaAbs32(JavaRem(pseudoRandom, total) as Int32)
            == (if pseudoRandom >= 0 then pseudoRandom as int else -(pseudoRandom as int)) % total
  {
  }

  /** The prefix sums are checked in order: the scan accepts exactly when every remaining weight is
      non-negative and the whole sum stays below 2^31, and then it yields that sum. */
  lemma {:induction false} CheckFromAccepts(w: seq<Int32>, i: nat, sum: int)
    requires i <= |w| && sum == Prefix(w, i) && 0 <= sum < TWO_31
    requires forall j :: 0 <= j < i ==> w[j] >= 0
    ensures CheckFrom(w, i, sum).Success? <==> AllNonNegative(w) && Prefix(w, |w|) < TWO_31
    ensures CheckFrom(w, i, sum).Success? ==> CheckFrom(w, i, sum).value == Prefix(w, |w|)
    decreases |w| - i
  {
    if i < |w| {
      if w[i] < 0 {
      } else if sum + w[i] >= TWO_31 {
        if AllNonNegative(w) { PrefixMonotone(w, i + 1, |w|); }
      } else {
        CheckFromAccepts(w, i + 1, sum + w[i]);
      }
    }
  }

  /** `randomWeighted` succeeds exactly on non-empty, non-negative weights whose sum is positive and
      below 2^31. */
  lemma RandomWeightedAccepts(pseudoRandom: Int32, w: seq<Int32>)
    ensures RandomWeighted(pseudoRandom, w).Success?
        <==> |w| > 0 && AllNonNegative(w) && 0 < Prefix(w, |w|) < TWO_31
    ensures |w| == 0 ==> RandomWeighted(pseudoRandom, w) == Failure(EmptyWeights)
  {
    CheckFromAccepts(w, 0, 0);
  }

  /** Any negative weight is rejected, as is an array whose weights are all zero. */
  lemma RandomWeightedRejects(pseudoRandom: Int32, w: seq<Int32>)
    ensures (exists i :: 0 <= i < |w| && w[i] < 0) ==> RandomWeighted(pseudoRandom, w).Failure?
    ensures (forall i :: 0 <= i < |w| ==> w[i] == 0) ==> RandomWeighted(pseudoRandom, w).Failure?
  {
    RandomWeightedAccepts(pseudoRandom, w);
    if forall i :: 0 <= i < |w| ==> w[i] == 0 {
      AllZeroPrefix(w, |w|);
    }
  }

  lemma {:induction false} AllZeroPrefix(w: seq<Int32>, i: nat)
    requires i <= |w| && forall j :: 0 <= j < |w| ==> w[j] == 0
    ensures Prefix(w, i) == 0
  {
    if i > 0 { AllZeroPrefix(w, i - 1); }
  }

  lemma {:induction false} FirstAboveIsFirst(w: seq<Int32>, target: int, i: nat)
    requires i <= |w| && AllNonNegative(w)
    requires Prefix(w, i) <= target < Prefix(w, |w|)
    ensures FirstAbove(w, target, i) < |w|
    ensures Prefix(w, FirstAbove(w, target, i)) <= target < Prefix(w, FirstAbove(w, target, i) + 1)
    decreases |w| - i
  {
    if i < |w| && target >= Prefix(w, i + 1) {
      FirstAboveIsFirst(w, target, i + 1);
    }
  }

  /** On success the index is in range, holds a positive weight, and is the first index whose
      prefix sum exceeds |pseudoRandom % total|. */
  lemma RandomWeightedChoice(pseudoRandom: Int32, w: seq<Int32>)
    requires RandomWeighted(pseudoRandom, w).Success?
    ensures 0 < Prefix(w, |w|) < TWO_31
    ensures var k := RandomWeighted(pseudoRandom, w).value;
            var target := (if pseudoRandom >= 0 then pseudoRandom as int else -(pseudoRandom as int)) % Prefix(w, |w|);
            k < |w| && w[k] > 0
            && Prefix(w, k) <= target < Prefix(w, k + 1)
            && forall j :: 0 < j <= k ==> Prefix(w, j) <= target
  {
    RandomWeightedAccepts(pseudoRandom, w);
    CheckFromAccepts(w, 0, 0);
    var total := Prefix(w, |w|);
    TargetInRange(pseudoRandom, total);
    var target := JavaAbs32(JavaRem(pseudoRandom, total) as Int32);
    FirstAboveIsFirst(w, target, 0);
    var k := FirstAbove(w, target, 0);
    forall j | 0 < j <= k ensures Prefix(w, j) <= target {
      PrefixMonotone(w, j, k);
    }
  }

  /** The static `randomWeighted`, over the array it is given. */
  method RandomWeightedIndex(pseudoRandom: Int32, weights: array<Int32>) returns (r: Result<nat, Error>)
    ensures r == RandomWeighted(pseudoRandom, weights[..])
  {
    ghost var w := weights[..];
    var totalWeight: Int32 := INT_MIN;
    if weights.Length == 0 {
      return Failure(EmptyWeights);
    }
    var i := 0;
    while i < weights.Length
      invariant 0 <= i <= weights.Length
      invariant forall j :: 0 <= j < i ==> w[j] >= 0
      invariant 0 <= Prefix(w, i) < TWO_31
      invariant totalWeight as int == INT_MIN + Prefix(w, i)
      invariant CheckFrom(w, 0, 0) == CheckFrom(w, i, Prefix(w, i))
    {
      var weight := weights[i];
      if weight < 0 {
        return Failure(NegativeWeight(i, weight));
      }
      totalWeight := Wrap32(totalWeight + weight);
      if totalWeight >= 0 {
        return Failure(SumTooHigh);
      }
      i := i + 1;
    }
    totalWeight := Wrap32(totalWeight - INT_MIN);
    if totalWeight == 0 {
      return Failure(NoPositiveWeight);
    }
    TargetInRange(pseudoRandom, totalWeight);
    var target := JavaAbs32(JavaRem(pseudoRandom, totalWeight) as Int32);
    assert AllNonNegative(w);
    i := 0;
    var sum: Int32 := weights[0];
    while target >= sum
      invariant 0 <= i < weights.Length
      invariant sum as int == Prefix(w, i + 1)
      invariant Prefix(w, i) <= target
      invariant FirstAbove(w, target, 0) == FirstAbove(w, target, i)
      decreases weights.Length - i
    {
      PrefixMonotone(w, i + 1, |w|);
      PrefixMonotone(w, i + 2, |w|);
      i := i + 1;
      sum := Wrap32(sum + weights[i]);
    }
    return Success(i);
  }

  /** The source of pseudo-random ints: a state and the step that advances it. */
  class Randomizer {
    var state: Int32
    const step: Int32 -> Int32

    constructor (seed: Int32, step: Int32 -> Int32)
      ensures state == seed && this.step == step
    {
      state := seed;
      this.step := step;
    }

    method NextInt() returns (r: Int32)
      modifies this
      ensures state == step(old(state)) && r == state
    {
      state := step(state);
      r := state;
    }
  }

  /** The position of the first occurrence of x. */
  function IndexOfElement<T(==)>(s: seq<T>, x: T): (i: nat)
    requires x in s
    ensures i < |s| && s[i] == x && forall j :: 0 <= j < i ==> s[j] != x
  {
    if s[0] == x then 0 else 1 + IndexOfElement(s[1..], x)
  }

  class WeightedRandom<T(==)> {
    const elements: seq<T>
    const weights: array<Int32>
    const randomizer: Randomizer

    ghost predicate Valid()
      reads this
    {
      weights.Length == |elements|
    }

    /** Every element starts with weight 1. */
    constructor (randomizer: Randomizer, elements: seq<T>)
      ensures Valid() && this.randomizer == randomizer && this.elements == elements
      ensures fresh(weights) && weights[..] == seq(|elements|, _ => 1)
    {
      this.randomizer := randomizer;
      this.elements := elements;
      weights := new Int32[|elements|];
      new;
      var i := 0;
      while i < weights.Length
        invariant 0 <= i <= weights.Length
        invariant forall j :: 0 <= j < i ==> weights[j] == 1
      {
        weights[i] := 1;
        i := i + 1;
      }
    }

    /** `WeightedRandom(randomizer, elements)`: a null randomizer is rejected. */
    static method Create(randomizer: Randomizer?, elements: seq<T>) returns (r: Option<WeightedRandom<T>>)
      ensures r.None? <==> randomizer == null
      ensures r.Some? ==> fresh(r.value) && fresh(r.value.weights) && r.value.Valid()
                          && r.value.randomizer == randomizer && r.value.elements == elements
                          && r.value.weights[..] == seq(|elements|, _ => 1)
    {
      if randomizer == null {
        return None;
      }
      var wr := new WeightedRandom(randomizer, elements);
      return Some(wr);
    }

    /** `setWeight`: negative weights and absent elements are rejected; otherwise only the slot
        of the first matching element changes. */
    method SetWeight(element: T, weight: Int32) returns (o: Outcome<Error>)
      requires Valid()
      modifies weights
      ensures weight < 0 ==> o == Fail(NegativeWeightSet(weight)) && weights[..] == old(weights[..])
      ensures weight >= 0 && element !in elements ==> o == Fail(NoSuchElement) && weights[..] == old(weights[..])
      ensures weight >= 0 && element in elements ==>
        o == Pass && weights[..] == old(weights[..])[IndexOfElement(elements, element) := weight]
    {
      if weight < 0 {
        return Fail(NegativeWeightSet(weight));
      }
      var i := 0;
      while i < |elements|
        invariant 0 <= i <= |elements|
        invariant forall j :: 0 <= j < i ==> elements[j] != element
        invariant weights[..] == old(weights[..])
      {
        if element == elements[i] {
          weights[i] := weight;
          return Pass;
        }
        i := i + 1;
      }
      return Fail(NoSuchElement);
    }

    /** `hasWeights`: some weight is positive. */
    method HasWeights() returns (b: bool)
      ensures b <==> exists i :: 0 <= i < weights.Length && weights[i] > 0
    {
      var i := 0;
      while i < weights.Length
        invariant 0 <= i <= weights.Length
        invariant forall j :: 0 <= j < i ==> weights[j] <= 0
      {
        if weights[i] > 0 {
          return true;
        }
        i := i + 1;
      }
      return false;
    }

    /** `get(weightDelta)`: draws the next pseudo-random int, picks an index by weight, and adds
        weightDelta (with int wrap-around) to that index's weight alone. */
    method Get(weightDelta: Int32) returns (r: Result<T, Error>)
      requires Valid()
      modifies weights, randomizer
      ensures randomizer.state == randomizer.step(old(randomizer.state))
      ensures var choice := RandomWeighted(randomizer.state, old(weights[..]));
              match choice
                case Failure(e) => r == Failure(e) && weights[..] == old(weights[..])
                case Success(k) =>
                  k < |elements| && r == Success(elements[k])
                  && weights[..] == old(weights[..])[k := Wrap32(old(weights[k]) + weightDelta)]
    {
      var rand := randomizer.NextInt();
      var index := RandomWeightedIndex(rand, weights);
      match index
        case Failure(e) =>
          r := Failure(e);
        case Success(k) =>
          RandomWeightedChoice(rand, weights[..]);
          weights[k] := Wrap32(weights[k] + weightDelta);
          r := Success(elements[k]);
    }
  }
}
