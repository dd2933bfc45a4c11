/**
  The aggregation engine. Each record names its bucket in a discriminator
  field. The bucket's recipe says which fields make up the tag key, which
  field holds the sample and which holds the time. Samples collect per
  (bucket, tag key) until Dump turns every list into statistics and starts
  a new time window.
*/
module Aggregator {
  import opened Wrappers
  import opened GoInt
  import opened Strconv
  import opened Faults
  import opened Stats

  // ---------------------------------------------------------------------
  // Recipes and records.

  /** AggregatorConfig: the recipe of one bucket. */
  datatype Config = Config(tags: seq<string>, aggregations: seq<string>, target: string, time: string)

  /** The zero AggregatorConfig, which a lookup of an unknown bucket name yields. */
  const ZeroConfig := Config([], [], "", "")

  /** aggregatorConfigs[bucketName], with Go's zero value for a missing key. */
  function ConfigFor(configs: map<string, Config>, bucketName: string): (c: Config)
    ensures bucketName in configs ==> c == configs[bucketName]
    ensures bucketName !in configs ==> c.tags == [] && c.aggregations == [] && c.target == "" && c.time == ""
  {
    if bucketName in configs then configs[bucketName] else ZeroConfig
  }

  /** A value of a record (a map[string]interface{}): a string or anything else. */
  datatype Field = Str(s: string) | Other

  /** fields[key].(string): the string stored under key, or None where the assertion panics. */
  function StringField(fields: map<string, Field>, key: string): (r: Option<string>)
    ensures r.Some? <==> key in fields && fields[key].Str?
    ensures r.Some? ==> fields[key] == Str(r.value)
  {
    if key in fields && fields[key].Str? then Some(fields[key].s) else None
  }

  // ---------------------------------------------------------------------
  // The tag key.

  /** The part of the tag key contributed by one tag. */
  function Segment(tag: string, value: string): string
  {
    "," + tag + "=" + value
  }

  /** The loop of Record that builds bucketTag, tag by tag; a missing tag field panics. */
  function TagKey(tags: seq<string>, fields: map<string, Field>): (r: Result<string, Fault>)
    ensures r.Failure? ==>
              r.error.MissingTagField? && r.error.tag in tags && StringField(fields, r.error.tag).None?
  {
    if tags == [] then Success("")
    else
      match TagKey(tags[..|tags| - 1], fields)
      case Failure(f) => Failure(f)
      case Success(key) =>
        var tag := tags[|tags| - 1];
        match StringField(fields, tag)
        case None => Failure(MissingTagField(tag))
        case Some(v) => Success(key + Segment(tag, v))
  }

  /** Every configured tag field holds a string. */
  predicate HasTags(tags: seq<string>, fields: map<string, Field>)
  {
    forall i :: 0 <= i < |tags| ==> StringField(fields, tags[i]).Some?
  }

  /** The tag key written front to back: one segment per tag, in the configured order. */
  function Join(tags: seq<string>, fields: map<string, Field>): string
    requires HasTags(tags, fields)
  {
    if tags == [] then ""
    else
      assert forall i :: 0 <= i < |tags| - 1 ==> tags[1..][i] == tags[i + 1];
      Segment(tags[0], StringField(fields, tags[0]).value) + Join(tags[1..], fields)
  }

  lemma {:induction false} JoinSnoc(tags: seq<string>, fields: map<string, Field>)
    requires tags != [] && HasTags(tags, fields)
    ensures HasTags(tags[..|tags| - 1], fields)
    ensures var last := tags[|tags| - 1];
      Join(tags, fields) == Join(tags[..|tags| - 1], fields) + Segment(last, StringField(fields, last).value)
  {
    var init := tags[..|tags| - 1];
    assert forall i :: 0 <= i < |init| ==> init[i] == tags[i];
    if |tags| > 1 {
      var rest := tags[1..];
      assert HasTags(rest, fields) by {
        assert forall i :: 0 <= i < |rest| ==> rest[i] == tags[i + 1];
      }
      JoinSnoc(rest, fields);
      assert rest[..|rest| - 1] == init[1..];
      assert rest[|rest| - 1] == tags[|tags| - 1];
    } else {
      assert init == [];
      assert tags[1..] == [];
    }
  }

  /**
    The tag key exists exactly when every tag field is a string, and it is
    then the in-order concatenation of "," + tag + "=" + value; with no
    tags it is "".
  */
  lemma {:induction false} TagKeyJoin(tags: seq<string>, fields: map<string, Field>)
    ensures TagKey(tags, fields).Success? <==> HasTags(tags, fields)
    ensures HasTags(tags, fields) ==> TagKey(tags, fields) == Success(Join(tags, fields))
  {
    if tags != [] {
      var init := tags[..|tags| - 1];
      TagKeyJoin(init, fields);
      assert forall i :: 0 <= i < |init| ==> init[i] == tags[i];
      if HasTags(tags, fields) {
        JoinSnoc(tags, fields);
      } else if HasTags(init, fields) {
        assert StringField(fields, tags[|tags| - 1]).None?;
      }
    }
  }

  /** When the tag key cannot be built, the fault names the first tag whose field is missing. */
  lemma {:induction false} TagKeyFailure(tags: seq<string>, fields: map<string, Field>)
    requires TagKey(tags, fields).Failure?
    ensures exists i :: (0 <= i < |tags| && StringField(fields, tags[i]).None? &&
      TagKey(tags, fields).error == MissingTagField(tags[i]) &&
      forall j :: 0 <= j < i ==> StringField(fields, tags[j]).Some?)
  {
    var init := tags[..|tags| - 1];
    assert forall i :: 0 <= i < |init| ==> init[i] == tags[i];
    if TagKey(init, fields).Failure? {
      TagKeyFailure(init, fields);
    } else {
      TagKeyJoin(init, fields);
      assert StringField(fields, tags[|tags| - 1]).None?;
    }
  }

  /** Once a prefix of the tags fails, the whole list fails the same way. */
  lemma {:induction false} TagKeyPrefixFailure(tags: seq<string>, fields: map<string, Field>, k: nat)
    requires k <= |tags| && TagKey(tags[..k], fields).Failure?
    ensures TagKey(tags, fields) == TagKey(tags[..k], fields)
    decreases |tags| - k
  {
    if k < |tags| {
      assert tags[..k + 1][..k] == tags[..k];
      TagKeyPrefixFailure(tags, fields, k + 1);
    } else {
      assert tags[..k] == tags;
    }
  }

  predicate NoComma(s: string)
  {
    forall i :: 0 <= i < |s| ==> s[i] != ','
  }

  /** Every tag value present is free of commas. */
  predicate CommaFreeValues(tags: seq<string>, fields: map<string, Field>)
  {
    forall i :: 0 <= i < |tags| && StringField(fields, tags[i]).Some? ==> NoComma(StringField(fields, tags[i]).value)
  }

  /** The index of the last comma in s, or -1. */
  function LastComma(s: string): int
  {
    if s == [] then -1
    else if s[|s| - 1] == ',' then |s| - 1
    else LastComma(s[..|s| - 1])
  }

  lemma {:induction false} LastCommaOf(k: string, w: string)
    requires NoComma(w)
    ensures LastComma(k + "," + w) == |k|
  {
    var s := k + "," + w;
    if w != [] {
      var init := w[..|w| - 1];
      assert s[..|s| - 1] == k + "," + init;
      assert s[|s| - 1] == w[|w| - 1];
      LastCommaOf(k, init);
    } else {
      assert s[|s| - 1] == ',';
    }
  }

  /** A string splits at its last comma in one way only. */
  lemma SplitAtLastComma(k1: string, w1: string, k2: string, w2: string)
    requires NoComma(w1) && NoComma(w2) && k1 + "," + w1 == k2 + "," + w2
    ensures k1 == k2 && w1 == w2
  {
    var s := k1 + "," + w1;
    LastCommaOf(k1, w1);
    LastCommaOf(k2, w2);
    assert k1 == s[..|k1|] == k2;
    assert w1 == s[|k1| + 1..] == w2;
  }

  lemma SegmentInjective(k1: string, v1: string, k2: string, v2: string, tag: string)
    requires NoComma(tag) && NoComma(v1) && NoComma(v2)
    requires k1 + Segment(tag, v1) == k2 + Segment(tag, v2)
    ensures k1 == k2 && v1 == v2
  {
    var w1, w2 := tag + "=" + v1, tag + "=" + v2;
    assert k1 + Segment(tag, v1) == k1 + "," + w1;
    assert k2 + Segment(tag, v2) == k2 + "," + w2;
    SplitAtLastComma(k1, w1, k2, w2);
    assert v1 == w1[|tag| + 1..] && v2 == w2[|tag| + 1..];
  }

  /**
    With comma-free tag names and values, two records of one bucket get the
    same tag key only when they agree on every tag field.
  */
  lemma {:induction false} TagKeyInjective(tags: seq<string>, f1: map<string, Field>, f2: map<string, Field>)
    requires forall i :: 0 <= i < |tags| ==> NoComma(tags[i])
    requires CommaFreeValues(tags, f1) && CommaFreeValues(tags, f2)
    requires TagKey(tags, f1).Success? && TagKey(tags, f1) == TagKey(tags, f2)
    ensures forall i :: 0 <= i < |tags| ==> StringField(f1, tags[i]) == StringField(f2, tags[i])
  {
    if tags != [] {
      var init, last := tags[..|tags| - 1], tags[|tags| - 1];
      assert forall i :: 0 <= i < |init| ==> init[i] == tags[i];
      var k1, k2 := TagKey(init, f1).value, TagKey(init, f2).value;
      var v1, v2 := StringField(f1, last).value, StringField(f2, last).value;
      assert NoComma(v1) && NoComma(v2) by {
        assert tags[|tags| - 1] == last;
      }
      SegmentInjective(k1, v1, k2, v2, last);
      TagKeyInjective(init, f1, f2);
    }
  }

  /** Without that restriction two different records can share a tag key. */
  lemma TagKeyCollision()
    ensures var f1 := map["a" := Str("x,b=y"), "b" := Str("z")];
      var f2 := map["a" := Str("x"), "b" := Str("y,b=z")];
      TagKey(["a", "b"], f1) == TagKey(["a", "b"], f2) == Success(",a=x,b=y,b=z") && f1 != f2
  {
    var f1 := map["a" := Str("x,b=y"), "b" := Str("z")];
    var f2 := map["a" := Str("x"), "b" := Str("y,b=z")];
    TagKeyOfTwo("a", "b", f1, "x,b=y", "z");
    TagKeyOfTwo("a", "b", f2, "x", "y,b=z");
    assert Segment("a", "x,b=y") + Segment("b", "z") == ",a=x,b=y,b=z";
    assert Segment("a", "x") + Segment("b", "y,b=z") == ",a=x,b=y,b=z";
    assert f1["a"] != f2["a"];
  }

  lemma TagKeyOfTwo(t1: string, t2: string, fields: map<string, Field>, v1: string, v2: string)
    requires StringField(fields, t1) == Some(v1) && StringField(fields, t2) == Some(v2)
    ensures TagKey([t1, t2], fields) == Success(Segment(t1, v1) + Segment(t2, v2))
  {
    var tags := [t1, t2];
    assert tags[..1] == [t1] && [t1][..0] == [];
    assert TagKey([t1], fields) == Success("" + Segment(t1, v1));
    assert "" + Segment(t1, v1) == Segment(t1, v1);
  }

  // ---------------------------------------------------------------------
  // The buckets and one record's effect on them.

  /** int_bool: some aggregation other than "cnt" needs the numeric target. */
  predicate NeedsTarget(aggregations: seq<string>)
  {
    exists i :: 0 <= i < |aggregations| && aggregations[i] != "cnt"
  }

  /** bucket name -> tag key -> samples */
  type Buckets = map<string, map<string, seq<int>>>

  /** buckets[bucketName][bucketTag], read through Go's nil map and nil slice. */
  function Samples(b: Buckets, bucketName: string, bucketTag: string): seq<int>
  {
    if bucketName in b && bucketTag in b[bucketName] then b[bucketName][bucketTag] else []
  }

  /** Every stored sample list holds at least one sample. */
  predicate BucketsValid(b: Buckets)
  {
    forall bn, tag :: bn in b && tag in b[bn] ==> |b[bn][tag]| > 0
  }

  /** buckets[bucketName][bucketTag] = append(buckets[bucketName][bucketTag], x) */
  function Append(b: Buckets, bucketName: string, bucketTag: string, x: int): (r: Buckets)
    requires bucketName in b
    ensures r.Keys == b.Keys && r[bucketName].Keys == b[bucketName].Keys + {bucketTag}
    ensures Samples(r, bucketName, bucketTag) == Samples(b, bucketName, bucketTag) + [x]
  {
    b[bucketName := b[bucketName][bucketTag := Samples(b, bucketName, bucketTag) + [x]]]
  }

  /** What Record returns and leaves behind when it does not panic. */
  datatype Recorded = Recorded(now: Int64, buckets: Buckets)

  /** Record, as a function of the recipes, the discriminator, the buckets and the record. */
  function Ingest(configs: map<string, Config>, name: string, b: Buckets, fields: map<string, Field>)
    : (r: Result<Recorded, Fault>)
    ensures r.Success? ==>
              StringField(fields, name).Some? &&
              b.Keys <= r.value.buckets.Keys <= b.Keys + {StringField(fields, name).value}
  {
    match StringField(fields, name)
    case None => Failure(MissingDiscriminator)
    case Some(bucketName) =>
      var config := ConfigFor(configs, bucketName);
      match TagKey(config.tags, fields)
      case Failure(f) => Failure(f)
      case Success(bucketTag) =>
        match StringField(fields, config.target)
        case None => Failure(MissingTargetField)
        case Some(aggValue) =>
          match StringField(fields, config.time)
          case None => Failure(MissingTimeField)
          case Some(timeText) =>
            var now := ParseInt(timeText);
            if !now.ok then Success(Recorded(now.value, b))
            else
              var created := if bucketName in b then b else b[bucketName := map[]];
              if !NeedsTarget(config.aggregations) then
                Success(Recorded(now.value, Append(created, bucketName, bucketTag, 1)))
              else
                var target := ParseInt(aggValue);
                if !target.ok then Success(Recorded(now.value, created))
                else Success(Recorded(now.value, Append(created, bucketName, bucketTag, target.value)))
  }

  lemma AppendKeepsValid(b: Buckets, bucketName: string, bucketTag: string, x: int)
    requires BucketsValid(b) && bucketName in b
    ensures BucketsValid(Append(b, bucketName, bucketTag, x))
  {
  }

  /** A record never leaves an empty sample list behind. */
  lemma IngestKeepsValid(configs: map<string, Config>, name: string, b: Buckets, fields: map<string, Field>)
    requires BucketsValid(b) && Ingest(configs, name, b, fields).Success?
    ensures BucketsValid(Ingest(configs, name, b, fields).value.buckets)
  {
    var bucketName := StringField(fields, name).value;
    var created := if bucketName in b then b else b[bucketName := map[]];
    assert BucketsValid(created);
    forall tag: string, x: int
      ensures BucketsValid(Append(created, bucketName, tag, x))
    {
      AppendKeepsValid(created, bucketName, tag, x);
    }
  }

  /**
    A time field that does not parse leaves the buckets as they are, and
    Record returns what the parser returned (0, or the clamped bound on a
    range error).
  */
  lemma IngestTimeUnparsed(configs: map<string, Config>, name: string, b: Buckets,
                           fields: map<string, Field>, bucketName: string, timeText: string)
    requires StringField(fields, name) == Some(bucketName)
    requires StringField(fields, ConfigFor(configs, bucketName).time) == Some(timeText)
    requires !ParseInt(timeText).ok
    requires Ingest(configs, name, b, fields).Success?
    ensures Ingest(configs, name, b, fields).value == Recorded(ParseInt(timeText).value, b)
    ensures Ingest(configs, name, b, fields).value.now in {0, MIN, MAX}
  {
  }

  /**
    A record whose time parses returns that time. It makes sure its
    bucket exists, and it appends 1 when the recipe only counts, the
    parsed target when it needs one, or nothing when the target does not
    parse. No other (bucket, tag key) list changes.
  */
  lemma IngestAppends(configs: map<string, Config>, name: string, b: Buckets, fields: map<string, Field>,
                      bucketName: string, bucketTag: string, timeText: string, targetText: string)
    requires StringField(fields, name) == Some(bucketName)
    requires TagKey(ConfigFor(configs, bucketName).tags, fields) == Success(bucketTag)
    requires StringField(fields, ConfigFor(configs, bucketName).time) == Some(timeText)
    requires StringField(fields, ConfigFor(configs, bucketName).target) == Some(targetText)
    requires ParseInt(timeText).ok
    ensures Ingest(configs, name, b, fields).Success?
    ensures var rec := Ingest(configs, name, b, fields).value;
      var aggregations := ConfigFor(configs, bucketName).aggregations;
      && rec.now == ParseInt(timeText).value
      && rec.buckets.Keys == b.Keys + {bucketName}
      && (forall bn :: bn in b && bn != bucketName ==> rec.buckets[bn] == b[bn])
      && (forall tag :: tag != bucketTag ==> Samples(rec.buckets, bucketName, tag) == Samples(b, bucketName, tag))
      && (!NeedsTarget(aggregations) ==>
            Samples(rec.buckets, bucketName, bucketTag) == Samples(b, bucketName, bucketTag) + [1])
      && (NeedsTarget(aggregations) && ParseInt(targetText).ok ==>
            Samples(rec.buckets, bucketName, bucketTag) == Samples(b, bucketName, bucketTag) + [ParseInt(targetText).value])
      && (NeedsTarget(aggregations) && !ParseInt(targetText).ok ==>
            Samples(rec.buckets, bucketName, bucketTag) == Samples(b, bucketName, bucketTag))
  {
    var created := if bucketName in b then b else b[bucketName := map[]];
    assert created.Keys == b.Keys + {bucketName};
    assert forall bn :: bn in b && bn != bucketName ==> created[bn] == b[bn];
    assert forall tag :: Samples(created, bucketName, tag) == Samples(b, bucketName, tag);
    forall x: int {
      AppendSamples(created, bucketName, bucketTag, x);
    }
  }

  lemma AppendSamples(b: Buckets, bucketName: string, bucketTag: string, x: int)
    requires bucketName in b
    ensures var b' := Append(b, bucketName, bucketTag, x);
      && b'.Keys == b.Keys
      && (forall bn :: bn in b && bn != bucketName ==> b'[bn] == b[bn])
      && (forall tag :: tag != bucketTag ==> Samples(b', bucketName, tag) == Samples(b, bucketName, tag))
      && Samples(b', bucketName, bucketTag) == Samples(b, bucketName, bucketTag) + [x]
  {
  }

  // ---------------------------------------------------------------------
  // Time windows.

  /**
    q is the index of the window of length len that holds ts, counted the
    way a quotient truncated toward zero counts: window 0 spans
    (-len, len), and every other window is len wide.
  */
  predicate InWindow(ts: int, len: int, q: int)
  {
    if ts >= 0 then q * len <= ts < q * len + len
    else q * len - len < ts <= q * len
  }

  /** Each timestamp lies in one window only. */
  lemma WindowUnique(ts: int, len: int, q1: int, q2: int)
    requires len > 0 && InWindow(ts, len, q1) && InWindow(ts, len, q2)
    ensures q1 == q2
  {
    if q1 < q2 {
      MulNonneg(q2 - q1 - 1, len);
    } else if q2 < q1 {
      MulNonneg(q1 - q2 - 1, len);
    }
  }

  /**
    getSampleTime: ts / interval, which panics on a zero interval. For a
    positive interval it is the index of the window holding ts; a negative
    interval counts the same windows with the opposite sign.
  */
  function SampleTime(ts: Int64, interval: Int64): (r: Result<Int64, Fault>)
    ensures r.Failure? <==> interval == 0
    ensures r.Failure? ==> r.error == DivideByZero
    ensures interval > 0 ==> InWindow(ts, interval, r.value)
    ensures interval < 0 && !(ts == MIN && interval == -1) ==>
      InWindow(ts, -(interval as int), -(r.value as int))
    ensures ts == MIN && interval == -1 ==> r.value == MIN
  {
    if interval == 0 then Failure(DivideByZero)
    else
      var q := Div(ts, interval);
      assert -(q as int) * -(interval as int) == q * interval;
      Success(q)
  }

  // ---------------------------------------------------------------------
  // Dump's output.

  /** A value of Dump's result map: one bucket's statistics, or the timestamp. */
  datatype Output = Statistics(values: map<string, int>) | Timestamp(time: Int64)

  /** v is what getAggregation computes from the list under (bucketName, bucketTag). */
  ghost predicate Yields(b: Buckets, configs: map<string, Config>, bucketName: string, bucketTag: string, v: Output)
  {
    && bucketName in b && bucketTag in b[bucketName] && |b[bucketName][bucketTag]| > 0
    && v.Statistics?
    && Aggregate(b[bucketName][bucketTag], ConfigFor(configs, bucketName).aggregations) == Success(v.values)
  }

  /** Every entry of out other than "timestamp" comes from some (bucket, tag key) list. */
  ghost predicate FromBuckets(b: Buckets, configs: map<string, Config>, out: map<string, Output>)
  {
    forall k :: k in out && k != "timestamp" ==>
      exists bn, tag :: bn + tag == k && Yields(b, configs, bn, tag, out[k])
  }

  /** No (bucket, tag key) list makes getAggregation panic. */
  ghost predicate AllAggregate(b: Buckets, configs: map<string, Config>)
  {
    forall bn, tag :: bn in b && tag in b[bn] ==>
      |b[bn][tag]| > 0 && Aggregate(b[bn][tag], ConfigFor(configs, bn).aggregations).Success?
  }

  /** Some (bucket, tag key) list makes getAggregation panic with f. */
  ghost predicate FailsWith(b: Buckets, configs: map<string, Config>, f: Fault)
  {
    exists bn, tag :: bn in b && tag in b[bn] &&
      |b[bn][tag]| > 0 && Aggregate(b[bn][tag], ConfigFor(configs, bn).aggregations) == Failure(f)
  }

  /**
    The result of a complete Dump: "timestamp" maps to the timestamp, every
    bucketName+bucketTag is a key, and every other entry is the statistics
    of a list whose names concatenate to its key (when two lists share a
    key, or one's key is "timestamp", the later write wins).
  */
  ghost predicate DumpOutput(b: Buckets, configs: map<string, Config>, timestamp: Int64, out: map<string, Output>)
  {
    && "timestamp" in out && out["timestamp"] == Timestamp(timestamp)
    && (forall bn, tag :: bn in b && tag in b[bn] ==> bn + tag in out)
    && FromBuckets(b, configs, out)
  }

  /** The keys of Dump's result are "timestamp" and the bucketName+bucketTag names. */
  lemma DumpKeys(b: Buckets, configs: map<string, Config>, timestamp: Int64, out: map<string, Output>)
    requires DumpOutput(b, configs, timestamp, out)
    ensures out.Keys == {"timestamp"} + (set bn, tag | bn in b && tag in b[bn] :: bn + tag)
  {
    var names := set bn, tag | bn in b && tag in b[bn] :: bn + tag;
    forall k | k in out && k != "timestamp"
      ensures k in names
    {
      var bn, tag :| bn + tag == k && Yields(b, configs, bn, tag, out[k]);
    }
  }

  /** With no buckets, Dump returns only the timestamp. */
  lemma DumpOfEmpty(configs: map<string, Config>, timestamp: Int64, out: map<string, Output>)
    requires DumpOutput(map[], configs, timestamp, out)
    ensures out == map["timestamp" := Timestamp(timestamp)]
  {
    DumpKeys(map[], configs, timestamp, out);
  }

  /**
    A list whose name bucketName+bucketTag no other list shares (and which is
    not "timestamp") appears in Dump's result with exactly its statistics.
  */
  lemma DumpEntry(b: Buckets, configs: map<string, Config>, timestamp: Int64, out: map<string, Output>,
                  bucketName: string, bucketTag: string)
    requires DumpOutput(b, configs, timestamp, out)
    requires bucketName in b && bucketTag in b[bucketName] && bucketName + bucketTag != "timestamp"
    requires forall bn, tag :: bn in b && tag in b[bn] && bn + tag == bucketName + bucketTag ==>
      bn == bucketName && tag == bucketTag
    ensures bucketName + bucketTag in out
    ensures Yields(b, configs, bucketName, bucketTag, out[bucketName + bucketTag])
  {
    var k := bucketName + bucketTag;
    var bn, tag :| bn + tag == k && Yields(b, configs, bn, tag, out[k]);
  }

  /**
    getAggregation divides by zero only on an empty list; the other faults
    come from the aggregation identifiers.
  */
  lemma NonEmptyNeverDivides(samples: seq<int>, aggregations: seq<string>)
    requires |samples| > 0
    ensures Aggregate(samples, aggregations) != Failure(DivideByZero)
  {
    if Aggregate(samples, aggregations).Failure? {
      AggregateFailure(samples, aggregations);
    }
  }

  // ---------------------------------------------------------------------
  // The aggregator.

  class Aggregator {
    const interval: Int64
    const name: string
    const configs: map<string, Config>
    var buckets: Buckets
    var postTime: Int64

    ghost predicate Valid()
      reads this
    {
      BucketsValid(buckets)
    }

    /** NewAggregator: no samples yet, and window 0 taken as the last one flushed. */
    constructor (interval: Int64, name: string, configs: map<string, Config>)
      ensures Valid()
      ensures this.interval == interval && this.name == name && this.configs == configs
      ensures buckets == map[] && postTime == 0
    {
      this.interval := interval;
      this.name := name;
      this.configs := configs;
      buckets := map[];
      postTime := 0;
    }

    /**
      IsDeadline: whether timestamp lies outside the window flushed last.
      It panics on a zero interval. A negative interval counts the windows
      with the opposite sign, and MIN / -1 wraps to MIN.
    */
    function IsDeadline(timestamp: Int64): (r: Result<bool, Fault>)
      reads this
      ensures r.Failure? <==> interval == 0
      ensures interval > 0 ==> r == Success(!InWindow(timestamp, interval, postTime))
      ensures interval < 0 && !(timestamp == MIN && interval == -1) ==>
        r == Success(!InWindow(timestamp, -(interval as int), -(postTime as int)))
      ensures timestamp == MIN && interval == -1 ==> r == Success(postTime != MIN)
    {
      match SampleTime(timestamp, interval)
      case Failure(f) => Failure(f)
      case Success(nowTime) =>
        if interval > 0 && InWindow(timestamp, interval, postTime) then
          WindowUnique(timestamp, interval, nowTime, postTime);
          Success(postTime != nowTime)
        else if interval < 0 && !(timestamp == MIN && interval == -1) &&
                InWindow(timestamp, -(interval as int), -(postTime as int)) then
          WindowUnique(timestamp, -(interval as int), -(nowTime as int), -(postTime as int));
          Success(postTime != nowTime)
        else
          Success(postTime != nowTime)
    }

    /**
      Record: route one record to its bucket and tag key and append its
      sample. Returns the parsed time.
    */
    method Record(fields: map<string, Field>) returns (r: Result<Int64, Fault>)
      requires Valid()
      modifies this
      ensures Valid()
      ensures postTime == old(postTime)
      ensures match Ingest(configs, name, old(buckets), fields)
        case Failure(f) => r == Failure(f) && buckets == old(buckets)
        case Success(rec) => r == Success(rec.now) && buckets == rec.buckets
    {
      var bucketName: string;
      match StringField(fields, name) {
        case None => return Failure(MissingDiscriminator);
        case Some(s) => bucketName := s;
      }
      var config := ConfigFor(configs, bucketName);
      var key := BuildTagKey(config.tags, fields);
      var bucketTag: string;
      match key {
        case Failure(f) => return Failure(f);
        case Success(k) => bucketTag := k;
      }
      var intBool := HasNonCount(config.aggregations);
      var aggValue: string;
      match StringField(fields, config.target) {
        case None => return Failure(MissingTargetField);
        case Some(s) => aggValue := s;
      }
      var timeText: string;
      match StringField(fields, config.time) {
        case None => return Failure(MissingTimeField);
        case Some(s) => timeText := s;
      }
      var now := ParseInt(timeText);
      if !now.ok {
        return Success(now.value);
      }
      if bucketName !in buckets {
        buckets := buckets[bucketName := map[]];
      }
      assert BucketsValid(buckets);
      if !intBool {
        AppendKeepsValid(buckets, bucketName, bucketTag, 1);
        buckets := Append(buckets, bucketName, bucketTag, 1);
      } else {
        var target := ParseInt(aggValue);
        if !target.ok {
          return Success(now.value);
        }
        AppendKeepsValid(buckets, bucketName, bucketTag, target.value);
        buckets := Append(buckets, bucketName, bucketTag, target.value);
      }
      return Success(now.value);
    }

    /**
      Dump: the statistics of every (bucket, tag key) list plus the
      timestamp; then the window of timestamp becomes the last one flushed
      and the buckets are emptied. A panic while aggregating, or a zero
      interval, leaves the state as it was.
    */
    method Dump(timestamp: Int64) returns (r: Result<map<string, Output>, Fault>)
      requires Valid()
      modifies this
      ensures Valid()
      ensures r.Success? <==> AllAggregate(old(buckets), configs) && interval != 0
      ensures r.Success? ==>
        && DumpOutput(old(buckets), configs, timestamp, r.value)
        && buckets == map[]
        && SampleTime(timestamp, interval) == Success(postTime)
        && IsDeadline(timestamp) == Success(false)
      ensures r.Failure? ==> buckets == old(buckets) && postTime == old(postTime)
      ensures r.Failure? ==> FailsWith(old(buckets), configs, r.error) || (interval == 0 && r.error == DivideByZero)
      ensures r == Failure(DivideByZero) ==> interval == 0
    {
      var all := DumpAll(configs, buckets);
      if all.Failure? {
        return Failure(all.error);
      }
      StampKeepsFromBuckets(buckets, configs, all.value, timestamp);
      var fields := all.value["timestamp" := Timestamp(timestamp)];
      if interval == 0 {
        return Failure(DivideByZero);
      }
      postTime := SampleTime(timestamp, interval).value;
      buckets := map[];
      r := Success(fields);
    }
  }

  /** The tag loop of Record: bucketTag built tag by tag. */
  method BuildTagKey(tags: seq<string>, fields: map<string, Field>) returns (r: Result<string, Fault>)
    ensures r == TagKey(tags, fields)
  {
    var bucketTag := "";
    for i := 0 to |tags|
      invariant TagKey(tags[..i], fields) == Success(bucketTag)
    {
      assert tags[..i + 1][..i] == tags[..i];
      match StringField(fields, tags[i]) {
        case None =>
          TagKeyPrefixFailure(tags, fields, i + 1);
          return Failure(MissingTagField(tags[i]));
        case Some(v) =>
          bucketTag := bucketTag + Segment(tags[i], v);
      }
    }
    assert tags[..|tags|] == tags;
    return Success(bucketTag);
  }

  /** The int_bool loop of Record: whether some aggregation is not "cnt". */
  method HasNonCount(aggregations: seq<string>) returns (intBool: bool)
    ensures intBool <==> NeedsTarget(aggregations)
  {
    intBool := false;
    for i := 0 to |aggregations|
      invariant intBool <==> NeedsTarget(aggregations[..i])
    {
      assert aggregations[..i + 1][i] == aggregations[i];
      assert forall j :: 0 <= j < i ==> aggregations[..i + 1][j] == aggregations[..i][j];
      if aggregations[i] != "cnt" {
        intBool := true;
      }
    }
    assert aggregations[..|aggregations|] == aggregations;
  }

  /** The loops of Dump: the statistics of every (bucket, tag key) list. */
  method DumpAll(configs: map<string, Config>, b: Buckets) returns (r: Result<map<string, Output>, Fault>)
    requires BucketsValid(b)
    ensures r.Success? <==> AllAggregate(b, configs)
    ensures r.Success? ==> FromBuckets(b, configs, r.value)
    ensures r.Success? ==> forall bn, tag :: bn in b && tag in b[bn] ==> bn + tag in r.value
    ensures r.Failure? ==> FailsWith(b, configs, r.error) && r.error != DivideByZero
  {
    var fields: map<string, Output> := map[];
    var names := b.Keys;
    while names != {}
      invariant names <= b.Keys
      invariant FromBuckets(b, configs, fields)
      invariant forall bn, tag :: bn in b && bn !in names && tag in b[bn] ==>
        bn + tag in fields && Aggregate(b[bn][tag], ConfigFor(configs, bn).aggregations).Success?
      decreases names
    {
      var bucketName :| bucketName in names;
      var next := DumpBucket(configs, b, bucketName, fields);
      if next.Failure? {
        return next;
      }
      fields := next.value;
      names := names - {bucketName};
    }
    return Success(fields);
  }

  /** The inner loop of Dump: the statistics of every list of one bucket, added to fields. */
  method DumpBucket(configs: map<string, Config>, b: Buckets, bucketName: string, fields: map<string, Output>)
    returns (r: Result<map<string, Output>, Fault>)
    requires BucketsValid(b) && bucketName in b && FromBuckets(b, configs, fields)
    ensures r.Success? ==> FromBuckets(b, configs, r.value) && fields.Keys <= r.value.Keys
    ensures r.Success? ==> forall tag :: tag in b[bucketName] ==>
      bucketName + tag in r.value && Aggregate(b[bucketName][tag], ConfigFor(configs, bucketName).aggregations).Success?
    ensures r.Failure? ==> exists tag :: (tag in b[bucketName] &&
      Aggregate(b[bucketName][tag], ConfigFor(configs, bucketName).aggregations) == Failure(r.error))
    ensures r.Failure? ==> FailsWith(b, configs, r.error) && r.error != DivideByZero
  {
    var inner := b[bucketName];
    var aggregations := ConfigFor(configs, bucketName).aggregations;
    var out := fields;
    var tags := inner.Keys;
    while tags != {}
      invariant tags <= inner.Keys
      invariant FromBuckets(b, configs, out) && fields.Keys <= out.Keys
      invariant forall tag :: tag in inner && tag !in tags ==>
        bucketName + tag in out && Aggregate(inner[tag], aggregations).Success?
      decreases tags
    {
      var bucketTag :| bucketTag in tags;
      var a := GetAggregation(inner[bucketTag], aggregations);
      if a.Failure? {
        NonEmptyNeverDivides(inner[bucketTag], aggregations);
        return Failure(a.error);
      }
      AddEntry(b, configs, out, bucketName, bucketTag, Statistics(a.value));
      out := out[bucketName + bucketTag := Statistics(a.value)];
      tags := tags - {bucketTag};
    }
    return Success(out);
  }

  /** Writing "timestamp" last keeps every other entry as it was. */
  lemma StampKeepsFromBuckets(b: Buckets, configs: map<string, Config>, fields: map<string, Output>, timestamp: Int64)
    requires FromBuckets(b, configs, fields)
    ensures FromBuckets(b, configs, fields["timestamp" := Timestamp(timestamp)])
  {
    var out := fields["timestamp" := Timestamp(timestamp)];
    forall k | k in out && k != "timestamp"
      ensures exists bn, tag :: bn + tag == k && Yields(b, configs, bn, tag, out[k])
    {
      var bn, tag :| bn + tag == k && Yields(b, configs, bn, tag, fields[k]);
      assert out[k] == fields[k];
    }
  }

  /** Adding a justified entry keeps every entry justified. */
  lemma AddEntry(b: Buckets, configs: map<string, Config>, out: map<string, Output>,
                 bucketName: string, bucketTag: string, v: Output)
    requires FromBuckets(b, configs, out) && Yields(b, configs, bucketName, bucketTag, v)
    ensures FromBuckets(b, configs, out[bucketName + bucketTag := v])
  {
    var out' := out[bucketName + bucketTag := v];
    forall k | k in out' && k != "timestamp"
      ensures exists bn, tag :: bn + tag == k && Yields(b, configs, bn, tag, out'[k])
    {
      if k == bucketName + bucketTag {
        assert Yields(b, configs, bucketName, bucketTag, out'[k]);
      } else {
        var bn, tag :| bn + tag == k && Yields(b, configs, bn, tag, out[k]);
        assert out'[k] == out[k];
      }
    }
  }
}
