/** The custom slot type of `addons/slots.py`: a list slot featurised by
    whether it is empty, holds one item, or holds several. */
module SlotFeatures {
  import opened Wrappers
  import History

  /** The number of features the slot contributes. */
  const Dimensionality: nat := 3

  /** `_as_feature` for a slot value: None or an empty list light the first
      component, a single item the second, several items the third. */
  function AsFeature<T>(value: Option<seq<T>>): (r: seq<real>)
    ensures |r| == Dimensionality
    ensures forall k :: 0 <= k < |r| ==> r[k] == 0.0 || r[k] == 1.0
    ensures r[0] == 1.0 <==> value.None? || |value.value| == 0
    ensures r[1] == 1.0 <==> value.Some? && |value.value| == 1
    ensures r[2] == 1.0 <==> value.Some? && |value.value| >= 2
  {
    if value.None? || |value.value| == 0 then [1.0, 0.0, 0.0]
    else if |value.value| == 1 then [0.0, 1.0, 0.0]
    else [0.0, 0.0, 1.0]
  }

  /** The position of the lit component. */
  function Hot(features: seq<real>): (i: nat)
    requires |features| == Dimensionality
    requires exists k :: 0 <= k < |features| && features[k] == 1.0
    ensures i < |features| && features[i] == 1.0
  {
    if features[0] == 1.0 then 0 else if features[1] == 1.0 then 1 else 2
  }

  /** Exactly one component is lit, and it names the same case as the
      zero/one/multiple label the counting actions store. */
  lemma OneHotAgreesWithCount<T>(value: Option<seq<T>>)
    ensures var r := AsFeature(value);
            var n := if value.None? then 0 else |value.value|;
            && (forall a, b :: 0 <= a < b < |r| ==> !(r[a] == 1.0 && r[b] == 1.0))
            && (exists k :: 0 <= k < |r| && r[k] == 1.0)
            && History.CountLabel(n) == ["zero", "one", "multiple"][Hot(r)]
  {
    var r := AsFeature(value);
    assert r[0] == 1.0 || r[1] == 1.0 || r[2] == 1.0;
  }
}
