/**
 The joint correspondence of the fitting set-up: each entry of the data map
 pairs a joint index of the body model with a joint index of the target
 data set. Initialisation splits the pairs into two parallel index lists.
 */
module DataMap {

  /** The pairs taken back from two parallel lists. */
  function Zip(a: seq<int>, b: seq<int>): seq<(int, int)>
    requires |a| == |b|
  {
    seq(|a|, i requires 0 <= i < |a| => (a[i], b[i]))
  }

  /**
   One pass over the data map, appending the first component of every pair
   to the model index list and the second to the data-set index list.
   */
  method UnzipIndex(dataMap: seq<(int, int)>) returns (smplIndex: seq<int>, datasetIndex: seq<int>)
    ensures |smplIndex| == |dataMap| && |datasetIndex| == |dataMap|
    ensures forall i :: 0 <= i < |dataMap| ==> smplIndex[i] == dataMap[i].0
    ensures forall i :: 0 <= i < |dataMap| ==> datasetIndex[i] == dataMap[i].1
    ensures Zip(smplIndex, datasetIndex) == dataMap
  {
    smplIndex := [];
    datasetIndex := [];
    var k := 0;
    while k < |dataMap|
      invariant 0 <= k <= |dataMap|
      invariant |smplIndex| == k && |datasetIndex| == k
      invariant forall i :: 0 <= i < k ==> smplIndex[i] == dataMap[i].0
      invariant forall i :: 0 <= i < k ==> datasetIndex[i] == dataMap[i].1
    {
      smplIndex := smplIndex + [dataMap[k].0];
      datasetIndex := datasetIndex + [dataMap[k].1];
      k := k + 1;
    }
  }

  /** The two-pair data map from the fitting set-up splits as expected. */
  method UnzipExample() returns (smplIndex: seq<int>, datasetIndex: seq<int>)
    ensures smplIndex == [0, 2] && datasetIndex == [1, 3]
  {
    smplIndex, datasetIndex := UnzipIndex([(0, 1), (2, 3)]);
    assert smplIndex[0] == 0 && smplIndex[1] == 2;
    assert datasetIndex[0] == 1 && datasetIndex[1] == 3;
  }
}
