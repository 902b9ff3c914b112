/** Timestamped samples and the projections every detector starts from (utils.go). */
module Utils {

  /** One sample of a series: unix seconds and the measured value. */
  datatype Point = Point(timestamp: int, value: real)

  /** The values of a series, in order. */
  function Values(ts: seq<Point>): seq<real>
  {
    seq(|ts|, i requires 0 <= i < |ts| => ts[i].value)
  }

  /** The timestamps of a series, in order. */
  function Timestamps(ts: seq<Point>): seq<int>
  {
    seq(|ts|, i requires 0 <= i < |ts| => ts[i].timestamp)
  }

  /** TimeArray: one timestamp per point, in input order. */
  method TimeArray(ts: seq<Point>) returns (t: seq<int>)
    ensures |t| == |ts|
    ensures forall i :: 0 <= i < |ts| ==> t[i] == ts[i].timestamp
    ensures t == Timestamps(ts)
  {
    t := [];
    var k := 0;
    while k < |ts|
      invariant 0 <= k <= |ts|
      invariant |t| == k
      invariant forall i :: 0 <= i < k ==> t[i] == ts[i].timestamp
    {
      t := t + [ts[k].timestamp];
      k := k + 1;
    }
  }

  /** TimeArray64: the timestamps converted to floating values, in input order. */
  method TimeArray64(ts: seq<Point>) returns (t: seq<real>)
    ensures |t| == |ts|
    ensures forall i :: 0 <= i < |ts| ==> t[i] == ts[i].timestamp as real
  {
    t := [];
    var k := 0;
    while k < |ts|
      invariant 0 <= k <= |ts|
      invariant |t| == k
      invariant forall i :: 0 <= i < k ==> t[i] == ts[i].timestamp as real
    {
      t := t + [ts[k].timestamp as real];
      k := k + 1;
    }
  }

  /** ValueArray: one value per point, in input order. */
  method ValueArray(ts: seq<Point>) returns (v: seq<real>)
    ensures |v| == |ts|
    ensures forall i :: 0 <= i < |ts| ==> v[i] == ts[i].value
    ensures v == Values(ts)
  {
    v := [];
    var k := 0;
    while k < |ts|
      invariant 0 <= k <= |ts|
      invariant |v| == k
      invariant forall i :: 0 <= i < k ==> v[i] == ts[i].value
    {
      v := v + [ts[k].value];
      k := k + 1;
    }
  }
}
