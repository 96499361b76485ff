/** Runtime bucketing: each title's runtime mapped to a 30-minute label. */
module Runtime {
  import opened Rows

  /** The label of one runtime. The buckets are half-open on the left:
      (0,30], (30,60], (60,90], (90,120] get their own labels; (120,150] and
      (150,180] both get "120_150"; everything else, zero and negative
      runtimes included, gets ">=180". */
  function RuntimeGroup(time: real): (group: string)
    ensures group == "0_30" <==> 0.0 < time <= 30.0
    ensures group == "30_60" <==> 30.0 < time <= 60.0
    ensures group == "60_90" <==> 60.0 < time <= 90.0
    ensures group == "90_120" <==> 90.0 < time <= 120.0
    ensures group == "120_150" <==> 120.0 < time <= 180.0
    ensures group == ">=180" <==> time <= 0.0 || 180.0 < time
  {
    if 0.0 < time <= 30.0 then "0_30"
    else if 30.0 < time <= 60.0 then "30_60"
    else if 60.0 < time <= 90.0 then "60_90"
    else if 90.0 < time <= 120.0 then "90_120"
    else if 120.0 < time <= 150.0 then "120_150"
    else if 150.0 < time <= 180.0 then "120_150"
    else ">=180"
  }

  /** `create_runtime_groups`: one label per row, in row order. */
  method CreateRuntimeGroups(rows: seq<Row>) returns (groups: seq<string>)
    ensures |groups| == |rows|
    ensures forall i :: 0 <= i < |rows| ==> groups[i] == RuntimeGroup(rows[i].runtime)
  {
    groups := [];
    for i := 0 to |rows|
      invariant |groups| == i
      invariant forall j :: 0 <= j < i ==> groups[j] == RuntimeGroup(rows[j].runtime)
    {
      var time := rows[i].runtime;
      if 0.0 < time <= 30.0 {
        groups := groups + ["0_30"];
      } else if 30.0 < time <= 60.0 {
        groups := groups + ["30_60"];
      } else if 60.0 < time <= 90.0 {
        groups := groups + ["60_90"];
      } else if 90.0 < time <= 120.0 {
        groups := groups + ["90_120"];
      } else if 120.0 < time <= 150.0 {
        groups := groups + ["120_150"];
      } else if 150.0 < time <= 180.0 {
        groups := groups + ["120_150"];
      } else {
        groups := groups + [">=180"];
      }
    }
  }

  /** The boundary cases: a bucket includes its upper bound, 180 falls in the
      duplicated "120_150" bucket, and 0 and negative runtimes fall in the
      catch-all. */
  lemma RuntimeBoundaries()
    ensures RuntimeGroup(30.0) == "0_30" && RuntimeGroup(30.01) == "30_60"
    ensures RuntimeGroup(180.0) == "120_150" && RuntimeGroup(181.0) == ">=180"
    ensures RuntimeGroup(0.0) == ">=180" && RuntimeGroup(-5.0) == ">=180"
  {
  }
}
