/** The download-speed report of the telemetry auto-sync service: a raw
    speed histogram from the download manager becomes one "network speed"
    interact event whose distribution is keyed by human-readable ranges. */
module SpeedTelemetry {
  import opened Wrappers

  /** The raw log the download manager plugin hands back: the kilobytes
      downloaded in the interval and a count per speed bucket, keyed by the
      bucket's upper bound in KB/s ("32", "64", ... "4096"). */
  datatype DownloadSpeedLog = DownloadSpeedLog(
    totalKBdownloaded: int,
    distributionInKBPS: map<string, int>)

  /** A plain JavaScript object with string keys, as its entries in
      insertion order (the order `Object.keys` reports for non-numeric
      keys). */
  type JsObject = seq<(string, int)>

  function KeysOf(obj: JsObject): set<string> {
    if obj == [] then {} else {obj[0].0} + KeysOf(obj[1..])
  }

  /** Property read `obj[k]`: the value of the entry with key `k`, if any. */
  function Get(obj: JsObject, k: string): (r: Option<int>)
    ensures r.Some? <==> k in KeysOf(obj)
  {
    if obj == [] then None
    else if obj[0].0 == k then Some(obj[0].1)
    else Get(obj[1..], k)
  }

  /** Property write `obj[k] = v`: an existing key keeps its position and
      takes the new value; a new key is appended at the end. */
  function Put(obj: JsObject, k: string, v: int): (r: JsObject)
    ensures KeysOf(r) == KeysOf(obj) + {k}
    ensures Get(r, k) == Some(v)
    ensures forall k' :: k' != k ==> Get(r, k') == Get(obj, k')
    ensures k !in KeysOf(obj) ==> r == obj + [(k, v)]
  {
    if obj == [] then [(k, v)]
    else if obj[0].0 == k then [(k, v)] + obj[1..]
    else
      var rest := Put(obj[1..], k, v);
      assert ([obj[0]] + rest)[1..] == rest;
      [obj[0]] + rest
  }

  /** The source's `rangeMap`: raw bucket key to range label, in the order
      `Object.keys` lists them. The keys are integer-like, so that order is
      ascending numeric order, which here is also the declaration order. */
  const RangeMap: seq<(string, string)> := [
    ("32", "0-32"),
    ("64", "32-64"),
    ("128", "64-128"),
    ("256", "128-256"),
    ("512", "256-512"),
    ("1024", "512-1024"),
    ("1536", "1024-1536"),
    ("2048", "1536-2048"),
    ("2560", "2048-2560"),
    ("3072", "2560-3072"),
    ("3584", "3072-3584"),
    ("4096", "3584-above")
  ]

  function RawKeys(pairs: seq<(string, string)>): set<string> {
    if pairs == [] then {} else {pairs[0].0} + RawKeys(pairs[1..])
  }

  function Labels(pairs: seq<(string, string)>): set<string> {
    if pairs == [] then {} else {pairs[0].1} + Labels(pairs[1..])
  }

  /** No label occurs twice: each is absent from the labels after it. */
  predicate DistinctLabels(pairs: seq<(string, string)>) {
    pairs == [] || (pairs[0].1 !in Labels(pairs[1..]) && DistinctLabels(pairs[1..]))
  }

  /** The twelve raw bucket keys, the domain of `RangeMap`. */
  const RangeKeys: set<string> := {
    "32", "64", "128", "256", "512", "1024", "1536", "2048", "2560", "3072", "3584", "4096"
  }

  /** The count reported for one raw bucket: the raw value when it is
      truthy, else 0 (a missing bucket reads as `undefined`). */
  function Count(raw: map<string, int>, key: string): (c: int)
    ensures c == 0 <==> key !in raw || raw[key] == 0
    ensures c != 0 ==> c == raw[key]
  {
    if key in raw && raw[key] != 0 then raw[key] else 0
  }

  /** The `reduce` over the keys of `rangeMap`, writing one label per step
      into the accumulator object. */
  function FoldRange(pairs: seq<(string, string)>, raw: map<string, int>, acc: JsObject): JsObject
    decreases |pairs|
  {
    if pairs == [] then acc
    else FoldRange(pairs[1..], raw, Put(acc, pairs[0].1, Count(raw, pairs[0].0)))
  }

  /** Reference definition of the output: one entry per pair, in order. */
  function Tabulate(pairs: seq<(string, string)>, raw: map<string, int>): (r: JsObject)
    ensures |r| == |pairs|
    ensures forall i :: 0 <= i < |pairs| ==> r[i] == (pairs[i].1, Count(raw, pairs[i].0))
  {
    if pairs == [] then []
    else [(pairs[0].1, Count(raw, pairs[0].0))] + Tabulate(pairs[1..], raw)
  }

  /** One fold step with a label new to the accumulator appends its entry. */
  lemma FoldStep(pairs: seq<(string, string)>, raw: map<string, int>, acc: JsObject)
    requires pairs != []
    requires pairs[0].1 !in KeysOf(acc)
    ensures var entry := (pairs[0].1, Count(raw, pairs[0].0));
      && FoldRange(pairs, raw, acc) == FoldRange(pairs[1..], raw, acc + [entry])
      && KeysOf(acc + [entry]) == KeysOf(acc) + {entry.0}
  {
  }

  /** Folding pairs whose labels are new to the accumulator appends exactly
      their tabulation: nothing is overwritten or reordered. */
  lemma {:induction false} FoldRangeAppends(pairs: seq<(string, string)>, raw: map<string, int>, acc: JsObject)
    requires DistinctLabels(pairs)
    requires Labels(pairs) !! KeysOf(acc)
    ensures FoldRange(pairs, raw, acc) == acc + Tabulate(pairs, raw)
    decreases |pairs|
  {
    if pairs != [] {
      var rest := pairs[1..];
      var entry := (pairs[0].1, Count(raw, pairs[0].0));
      assert Labels(pairs) == {entry.0} + Labels(rest);
      FoldStep(pairs, raw, acc);
      FoldRangeAppends(rest, raw, acc + [entry]);
      assert Tabulate(pairs, raw) == [entry] + Tabulate(rest, raw);
      assert acc + [entry] + Tabulate(rest, raw) == acc + Tabulate(pairs, raw);
    }
  }

  /** A label found at no position is not among the labels. */
  lemma {:induction false} AbsentLabel(pairs: seq<(string, string)>, l: string)
    requires forall i :: 0 <= i < |pairs| ==> pairs[i].1 != l
    ensures l !in Labels(pairs)
    decreases |pairs|
  {
    if pairs != [] {
      assert forall i :: 0 <= i < |pairs| - 1 ==> pairs[1..][i] == pairs[i + 1];
      AbsentLabel(pairs[1..], l);
    }
  }

  /** Pairwise-different labels at distinct positions make the labels
      distinct. */
  lemma {:induction false} PairwiseDistinctLabels(pairs: seq<(string, string)>)
    requires forall i, j :: 0 <= i < j < |pairs| ==> pairs[i].1 != pairs[j].1
    ensures DistinctLabels(pairs)
    decreases |pairs|
  {
    if pairs != [] {
      var rest := pairs[1..];
      assert forall i :: 0 <= i < |rest| ==> rest[i] == pairs[i + 1];
      AbsentLabel(rest, pairs[0].1);
      PairwiseDistinctLabels(rest);
    }
  }

  lemma {:induction false} LabelAtIndex(pairs: seq<(string, string)>, i: int)
    requires 0 <= i < |pairs|
    ensures pairs[i].1 in Labels(pairs)
    decreases |pairs|
  {
    if i > 0 {
      assert pairs[1..][i - 1] == pairs[i];
      LabelAtIndex(pairs[1..], i - 1);
    }
  }

  lemma {:induction false} TabulateKeys(pairs: seq<(string, string)>, raw: map<string, int>)
    ensures KeysOf(Tabulate(pairs, raw)) == Labels(pairs)
    decreases |pairs|
  {
    if pairs != [] {
      TabulateKeys(pairs[1..], raw);
      assert Tabulate(pairs, raw)[1..] == Tabulate(pairs[1..], raw);
    }
  }

  /** With distinct labels, reading a label back from the tabulation finds
      the count of the bucket it came from. */
  lemma {:induction false} GetTabulate(pairs: seq<(string, string)>, raw: map<string, int>, i: int)
    requires DistinctLabels(pairs)
    requires 0 <= i < |pairs|
    ensures Get(Tabulate(pairs, raw), pairs[i].1) == Some(Count(raw, pairs[i].0))
    decreases |pairs|
  {
    var t := Tabulate(pairs, raw);
    assert t[0] == (pairs[0].1, Count(raw, pairs[0].0));
    if i > 0 {
      var rest := pairs[1..];
      assert rest[i - 1] == pairs[i];
      LabelAtIndex(rest, i - 1);
      assert t[1..] == Tabulate(rest, raw);
      GetTabulate(rest, raw, i - 1);
    }
  }

  /** No range label of `rangeMap` occurs twice. */
  lemma RangeLabelsPairwise()
    ensures forall i, j :: 0 <= i < j < |RangeMap| ==> RangeMap[i].1 != RangeMap[j].1
  {
  }

  lemma RangeLabelsDistinct()
    ensures DistinctLabels(RangeMap)
  {
    RangeLabelsPairwise();
    PairwiseDistinctLabels(RangeMap);
  }

  /** Every raw key of the pairs lies in `keys` when each position's does. */
  lemma {:induction false} RawKeysWithin(pairs: seq<(string, string)>, keys: set<string>)
    requires forall i :: 0 <= i < |pairs| ==> pairs[i].0 in keys
    ensures RawKeys(pairs) <= keys
    decreases |pairs|
  {
    if pairs != [] {
      assert forall i :: 0 <= i < |pairs[1..]| ==> pairs[1..][i] == pairs[i + 1];
      RawKeysWithin(pairs[1..], keys);
    }
  }

  /** Every raw key `RangeMap` reads is one of the twelve bucket keys. */
  lemma RangeKeysShape()
    ensures RawKeys(RangeMap) <= RangeKeys
  {
    assert forall i :: 0 <= i < |RangeMap| ==> RangeMap[i].0 in RangeKeys;
    RawKeysWithin(RangeMap, RangeKeys);
  }

  /** The range-labelled distribution the event carries. */
  function Distribution(raw: map<string, int>): (r: JsObject)
    ensures r == Tabulate(RangeMap, raw)
    ensures KeysOf(r) == Labels(RangeMap)
    ensures forall i :: 0 <= i < |RangeMap| ==> Get(r, RangeMap[i].1) == Some(Count(raw, RangeMap[i].0))
  {
    RangeLabelsDistinct();
    FoldRangeAppends(RangeMap, raw, []);
    TabulateKeys(RangeMap, raw);
    var r := FoldRange(RangeMap, raw, []);
    assert r == Tabulate(RangeMap, raw);
    forall i | 0 <= i < |RangeMap|
      ensures Get(r, RangeMap[i].1) == Some(Count(raw, RangeMap[i].0))
    {
      GetTabulate(RangeMap, raw, i);
    }
    r
  }

  /** A bucket whose key is not among `pairs` never changes their
      tabulation. */
  lemma {:induction false} ForeignBucketIgnored(pairs: seq<(string, string)>, raw: map<string, int>, k: string, v: int)
    requires k !in RawKeys(pairs)
    ensures Tabulate(pairs, raw[k := v]) == Tabulate(pairs, raw)
    decreases |pairs|
  {
    if pairs != [] {
      assert Count(raw[k := v], pairs[0].0) == Count(raw, pairs[0].0);
      ForeignBucketIgnored(pairs[1..], raw, k, v);
    }
  }

  /** Raw buckets outside `rangeMap` never influence the distribution. */
  lemma ForeignBucketsIgnored(raw: map<string, int>, k: string, v: int)
    requires k !in RangeKeys
    ensures Distribution(raw[k := v]) == Distribution(raw)
  {
    RangeKeysShape();
    ForeignBucketIgnored(RangeMap, raw, k, v);
  }

  datatype InteractType = Other
  datatype InteractSubType = NetworkSpeed

  datatype ValueMap = ValueMap(
    duration: real,
    totalKBDownloaded: int,
    distributionInKBPS: JsObject)

  /** The interact event handed to the telemetry logger. */
  datatype InteractEvent = InteractEvent(
    interactType: InteractType,
    subType: InteractSubType,
    env: string,
    pageId: string,
    id: string,
    valueMap: ValueMap)

  /** The event logged for one speed log, or `None` when the raw
      distribution has no keys and the report returns early. The interval
      is in milliseconds; the duration is exact seconds. */
  function GenerateDownloadSpeedTelemetry(intervalTime: int, log: DownloadSpeedLog): (r: Option<InteractEvent>)
    ensures r.None? <==> |log.distributionInKBPS| == 0
    ensures r.Some? ==> r.value.interactType == Other && r.value.subType == NetworkSpeed
    ensures r.Some? ==> r.value.env == "sdk" && r.value.pageId == "sdk" && r.value.id == "sdk"
    ensures r.Some? ==> r.value.valueMap.duration * 1000.0 == intervalTime as real
    ensures r.Some? ==> r.value.valueMap.totalKBDownloaded == log.totalKBdownloaded
    ensures r.Some? ==> r.value.valueMap.distributionInKBPS == Tabulate(RangeMap, log.distributionInKBPS)
    ensures r.Some? ==> KeysOf(r.value.valueMap.distributionInKBPS) == Labels(RangeMap)
    ensures r.Some? ==> forall i :: 0 <= i < |RangeMap| ==>
      Get(r.value.valueMap.distributionInKBPS, RangeMap[i].1) == Some(Count(log.distributionInKBPS, RangeMap[i].0))
  {
    if |log.distributionInKBPS| == 0 then None
    else
      Some(InteractEvent(Other, NetworkSpeed, "sdk", "sdk", "sdk",
        ValueMap(intervalTime as real / 1000.0, log.totalKBdownloaded, Distribution(log.distributionInKBPS))))
  }

  /** The whole report: a failed speed-log fetch rejects the report's
      promise, so nothing is logged; otherwise the log is transformed. */
  function SpeedReport(intervalTime: int, fetched: Result<DownloadSpeedLog>): (r: Option<InteractEvent>)
    ensures r.Some? <==> fetched.Success? && |fetched.value.distributionInKBPS| > 0
    ensures r.Some? ==> r == GenerateDownloadSpeedTelemetry(intervalTime, fetched.value)
  {
    match fetched
    case Success(log) => GenerateDownloadSpeedTelemetry(intervalTime, log)
    case Failure(_) => None
  }

  /** With a single raw bucket, only the labels of that bucket's key carry
      its count; every other label reads 0. */
  lemma OnlyBucketCounted(pairs: seq<(string, string)>, raw: map<string, int>, k: string)
    requires raw.Keys == {k}
    ensures forall i :: 0 <= i < |pairs| ==>
      Tabulate(pairs, raw)[i] == (pairs[i].1, if pairs[i].0 == k then raw[k] else 0)
  {
  }

  /** A log whose only bucket is "32" tabulates that count under "0-32" and
      zero under every other range. */
  lemma SingleBucketDistribution(raw: map<string, int>)
    requires raw.Keys == {"32"}
    ensures Tabulate(RangeMap, raw) == [
      ("0-32", raw["32"]), ("32-64", 0), ("64-128", 0), ("128-256", 0),
      ("256-512", 0), ("512-1024", 0), ("1024-1536", 0), ("1536-2048", 0),
      ("2048-2560", 0), ("2560-3072", 0), ("3072-3584", 0), ("3584-above", 0)]
  {
    var d := Tabulate(RangeMap, raw);
    OnlyBucketCounted(RangeMap, raw, "32");
    assert |d| == 12;
  }

  /** A five-second interval with that log yields a five-second event. */
  lemma FiveSecondScenario(total: int)
    ensures GenerateDownloadSpeedTelemetry(5000, DownloadSpeedLog(total, map["32" := 10]))
      == Some(InteractEvent(Other, NetworkSpeed, "sdk", "sdk", "sdk",
           ValueMap(5.0, total, Tabulate(RangeMap, map["32" := 10]))))
  {
  }
}
