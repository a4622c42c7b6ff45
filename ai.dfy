// The action-selection helpers of the AI service: the index of the
// largest predicted value, and the correction of one prediction by the
// reward. Predicted values are modelled as reals.

module Ai {

  /// Index of the largest value of `values`, the earliest one on ties,
  /// and -1 when there are none. The values are only read.
  method GetMaxIndex(values: array<real>) returns (maxIndex: int)
    ensures values.Length == 0 <==> maxIndex == -1
    ensures values.Length > 0 ==> 0 <= maxIndex < values.Length
    ensures values.Length > 0 ==> forall j :: 0 <= j < values.Length ==> values[j] <= values[maxIndex]
    ensures values.Length > 0 ==> forall j :: 0 <= j < maxIndex ==> values[j] < values[maxIndex]
  {
    if values.Length == 0 {
      return -1;
    }
    var max := values[0];
    maxIndex := 0;
    for i := 1 to values.Length
      invariant 0 <= maxIndex < i
      invariant max == values[maxIndex]
      invariant forall j :: 0 <= j < i ==> values[j] <= max
      invariant forall j :: 0 <= j < maxIndex ==> values[j] < max
    {
      if values[i] > max {
        maxIndex := i;
        max := values[i];
      }
    }
  }

  /// Being a largest value with only smaller values before it singles
  /// out one index: the contract of `GetMaxIndex` fixes its result.
  lemma FirstMaxUnique(values: seq<real>, i: nat, k: nat)
    requires i < |values| && k < |values|
    requires forall j :: 0 <= j < |values| ==> values[j] <= values[i] && values[j] <= values[k]
    requires forall j :: 0 <= j < i ==> values[j] < values[i]
    requires forall j :: 0 <= j < k ==> values[j] < values[k]
    ensures i == k
  {
    // both are largest, so they hold equal values, and neither can then
    // come before the other
    assert values[i] == values[k];
  }

  /// The predictions with entry `actionIndex` raised by `reward`.
  function Corrected(predicted: seq<real>, actionIndex: nat, reward: real): (corrected: seq<real>)
    requires actionIndex < |predicted|
    ensures |corrected| == |predicted|
    ensures corrected[actionIndex] == predicted[actionIndex] + reward
    ensures forall j :: 0 <= j < |predicted| && j != actionIndex ==> corrected[j] == predicted[j]
  {
    predicted[actionIndex := predicted[actionIndex] + reward]
  }

  /// The training target. The predicted array is corrected in place,
  /// through the alias that names it the corrected output, and the
  /// result is a copy of its values, as the 1 x n tensor built from them
  /// holds.
  method GetOutputTensor(predicted: array<real>, actionIndex: nat, reward: real)
      returns (output: seq<real>)
    requires actionIndex < predicted.Length
    modifies predicted
    ensures predicted[..] == Corrected(old(predicted[..]), actionIndex, reward)
    ensures output == predicted[..]
  {
    var correctedOutput := predicted;
    correctedOutput[actionIndex] := correctedOutput[actionIndex] + reward;
    output := correctedOutput[..];
  }
}
