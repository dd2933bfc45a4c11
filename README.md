# logpeck aggregator, modelled in Dafny

This project models the time-windowed aggregation engine of logpeck
(`aggregator.go`) and proves properties of it.

The engine works in four steps:
- Each log record is a map from field names to values. Its discriminator field (the aggregator's `name`) picks a bucket.
- The bucket's recipe (`AggregatorConfig`) lists its tag fields, its aggregations, its target field and its time field.
- `Record` builds the tag key `",tag=value..."` from the tag fields. It appends one integer sample to `buckets[bucket][tagKey]`: `1` when the recipe only counts, otherwise the parsed target. It returns the parsed time.
- `Dump` turns every sample list into its statistics, adds a `"timestamp"` entry, records the window of the timestamp as the last one flushed and empties the buckets. The statistics are `cnt`, the truncated `avg` and the percentiles `p<N>`. `IsDeadline` says whether a timestamp lies outside that window.

Modules:
- `GoInt` covers Go's `int64`: its range, two's-complement wrap-around and truncating division, where `MIN / -1` wraps to `MIN`.
- `Strconv` covers `strconv.ParseInt(s, 10, 64)`, which `strconv.Atoi` equals on a 64-bit platform. Both its error cases are modelled: a syntax error gives 0, and a range error gives the clamped bound. Its partner `FormatInt` gives the round trip.
- `Sorting` covers `sort.Ints`, as an in-place insertion sort on an array. It is proved equal to the specification `SortSeq`. Go sorts with a different algorithm, but a sorted rearrangement is unique (`SortedUnique`), so the result is the same.
- `Faults` lists the runtime panics of the engine as values.
- `Stats` covers `getAggregation`: the specification `Aggregate` and the imperative `GetAggregation`.
- `Aggregator` covers the recipes, the records, the tag key, the `Ingest` specification of `Record`, time windows, and the class `Aggregator` with its constructor and `IsDeadline`, `Record` and `Dump`.

How the source is modelled:
- **Panics.** The Go code panics on four things: a type assertion on a missing or non-string field, `aggregations[i][0]` on an empty identifier, `panic` on a bad `p<N>`, and an out-of-range percentile index. It also panics on division by a zero count or interval. Each panic is a `Failure(fault)` result, and the object's state is left unchanged.
- **Missing bucket name.** A bucket name with no recipe reads Go's zero `AggregatorConfig`, as the code does at `aggregator.go:53`: no tags, no aggregations, and target and time both `""`. It does not raise an error.
- **Integer semantics.** Samples and timestamps are `int64`. The sum in `getAggregation` and the product `cnt*N` wrap as Go's 64-bit `int` does, and `/` truncates toward zero.
- **Where the documented design of the engine and the code differ, the model follows the code.** Three places:
  - `Record` creates the bucket's inner map before it parses the target. A record whose target does not parse therefore leaves an empty inner map behind, but no empty sample list.
  - The target field must be a string even when only `cnt` is requested.
  - The percentile index is in range exactly when `100 <= cnt*N < 100*(cnt+1)`. This allows `N > 100` for some counts: `cnt = 5`, `N = 101` gives index 4. `PercentileWithinRange` gives the `cnt*N >= 100` form for `1 <= N <= 100`.

## Model

| member | source | states |
|---|---|---|
| GoInt.Div | aggregator.go:36 | Go's int64 quotient: truncation toward zero, and MIN / -1 wraps to MIN |
| GoInt.TruncDivInRange | aggregator.go:36 | apart from MIN / -1, the truncated quotient of two int64 values is an int64 no larger in magnitude than the dividend |
| GoInt.WrapAdd | aggregator.go:98-100 | wrapping the running sum after every addition equals wrapping the total once |
| Strconv.ParseUint | aggregator.go:70 | the unsigned digit scan under ParseInt: a success means the text is all digits, and the result is their decimal value, at most 2^64 - 1 |
| Strconv.ParseInt | aggregator.go:70 | a failed conversion returns 0 or one of the int64 bounds |
| Strconv.ParseIntAccepts | aggregator.go:70 | the conversion succeeds exactly on an optional sign plus at least one digit whose value fits in int64, and then returns that value |
| Strconv.ParseFormatRoundTrip | aggregator.go:82 | parsing the decimal text of any int64 gives it back with no error |
| Sorting.SortSeq | aggregator.go:97 | the specification of sort.Ints keeps the number of samples; SortSeqSorted and SortedUnique make it the one increasing rearrangement of them |
| Sorting.SortSeqSorted | aggregator.go:97 | the specification of sort.Ints is sorted and a permutation of its input |
| Sorting.InsertSorted | aggregator.go:97 | inserting into a sorted list keeps it sorted and adds exactly that element |
| Sorting.SortedUnique | aggregator.go:97 | two sorted lists with the same elements are equal, so the sorted order is unique |
| Sorting.SortInts | aggregator.go:97 | the in-place sort leaves the array holding SortSeq of its old contents |
| Sorting.SumSortSeq | aggregator.go:97-100 | sorting does not change the sum |
| Stats.PercentileIndex | aggregator.go:114 | without wrap-around (0 <= cnt*N <= MAX) the index is cnt*N/100 - 1; in every case the index plus one is an int64 |
| Stats.Stat | aggregator.go:103-117 | one case of the switch: an identifier is skipped exactly when it is non-empty, does not start with p and is neither cnt nor avg; a p-identifier's value is one of the samples |
| Stats.Fill | aggregator.go:102-118 | the result map filled identifier by identifier: a successful fill has keys only among the requested identifiers |
| Stats.Aggregate | aggregator.go:92-120 | getAggregation on a non-empty list: its result has keys only among the requested identifiers |
| Stats.GetAggregation | aggregator.go:92-120 | on a non-empty list the sort, the sum loop and the fill loop give Aggregate of the samples; on an empty list the division by zero is a fault |
| Stats.FillResults | aggregator.go:102-118 | the identifier loop gives the map that Fill describes, stopping at the first panic |
| Stats.FillSucceeds | aggregator.go:102-118 | the fill succeeds exactly when no identifier panics |
| Stats.FillFailure | aggregator.go:102-118 | a failed fill reports the first identifier that panics |
| Stats.FillContents | aggregator.go:102-118 | a successful fill has an entry for exactly the identifiers that produce a value, each with that value |
| Stats.StatPanics | aggregator.go:103-117 | an identifier panics exactly when it is empty, or is a p-identifier whose rest does not parse or whose index is out of range; the fault names which; otherwise it has a value exactly when it is cnt, avg or starts with p |
| Stats.AggregateSucceeds | aggregator.go:102-118 | getAggregation returns a map exactly when no requested identifier panics |
| Stats.AggregateFailure | aggregator.go:109-114 | when it panics, the fault belongs to the first panicking identifier |
| Stats.AggregateKeys | aggregator.go:102-118 | the result has keys for exactly the requested cnt, avg and p-identifiers; other identifiers are skipped |
| Stats.AggregateCount | aggregator.go:104-105 | cnt is the number of samples |
| Stats.AggregateAverage | aggregator.go:98-107 | avg is the wrapped sum of the samples divided by their count, truncated toward zero |
| Stats.AggregatePercentile | aggregator.go:109-115 | p<N> is the element at index cnt*N/100 - 1 of the ascending samples, that index is in range, and the value is one of the samples |
| Stats.PercentileIndexBounds | aggregator.go:114 | without wrap-around the index is in range exactly when 100 <= cnt*N < 100*(cnt+1) |
| Stats.PercentileWithinRange | aggregator.go:114 | for 1 <= N <= 100 the index is in range exactly when cnt*N >= 100 |
| Stats.PercentileUnderflow | aggregator.go:114 | a percentile with cnt*N < 100 makes getAggregation panic |
| Stats.P100IsMax | aggregator.go:109-115 | p100 is the largest sample |
| Stats.AverageBounds | aggregator.go:98-101 | when the sum does not wrap, avg lies between the smallest and the largest sample |
| Stats.SortSeqEnds | aggregator.go:97 | the first and last sorted elements are the minimum and maximum samples |
| Stats.SortSeqOfSorted | aggregator.go:97 | sorting an already sorted list leaves it unchanged |
| Stats.AverageTruncates | aggregator.go:101 | samples 1, 2, 4 give cnt 3 and avg 2 (7 / 3 truncated) |
| Stats.MedianOfFive | aggregator.go:109-115 | samples 10..50 give p50 = 20, the element at index 5*50/100 - 1 |
| Stats.MedianOfOnePanics | aggregator.go:114 | a single sample with p50 gives index -1 and panics |
| Aggregator.ConfigFor | aggregator.go:53 | the recipe stored under the bucket name, or Go's zero AggregatorConfig (no tags, no aggregations, empty target and time) when the name has none |
| Aggregator.StringField | aggregator.go:51 | the type assertion fields[key].(string) succeeds exactly when key is present and holds a string, and then gives that string (also at lines 59, 67 and 70) |
| Aggregator.TagKey | aggregator.go:58-60 | the tag loop as a function: a failure names a configured tag whose field is missing or not a string |
| Aggregator.Append | aggregator.go:80-87 | append to buckets[bucketName][bucketTag] keeps the bucket names, adds bucketTag to that bucket's keys and extends that list by the sample at its end, a missing list reading as Go's nil slice |
| Aggregator.Ingest | aggregator.go:48-90 | Record as a function: a success had a string discriminator, keeps every existing bucket and adds at most the bucket it names |
| Aggregator.TagKeyJoin | aggregator.go:58-60 | the tag key exists exactly when every tag field is a string; it is then the in-order concatenation of "," + tag + "=" + value, and "" with no tags |
| Aggregator.JoinSnoc | aggregator.go:58-60 | the front-to-back concatenation agrees with adding the last tag's segment at the end |
| Aggregator.TagKeyFailure | aggregator.go:59 | a failed tag key names the first tag whose field is missing or not a string |
| Aggregator.TagKeyPrefixFailure | aggregator.go:58-60 | once a prefix of the tags fails, the whole tag list fails the same way |
| Aggregator.TagKeyInjective | aggregator.go:58-60 | with comma-free tag names and values, equal tag keys mean equal tag fields |
| Aggregator.TagKeyCollision | aggregator.go:58-60 | with commas in the values, two different records can share a tag key |
| Aggregator.LastCommaOf | aggregator.go:59 | the last comma of key + "," + w is at the end of key when w has no comma |
| Aggregator.SplitAtLastComma | aggregator.go:59 | a string splits at its last comma in one way only |
| Aggregator.SegmentInjective | aggregator.go:59 | with comma-free tag and values, appending different segments to two keys gives different strings unless both the key and the value match |
| Aggregator.BuildTagKey | aggregator.go:58-60 | the tag loop builds TagKey of the tags, or stops with the fault of the first missing tag |
| Aggregator.HasNonCount | aggregator.go:61-66 | int_bool is true exactly when some aggregation is not "cnt" |
| Aggregator.IngestKeepsValid | aggregator.go:76-88 | a record never leaves an empty sample list behind |
| Aggregator.IngestTimeUnparsed | aggregator.go:69-74 | an unparsable time leaves the buckets unchanged and returns the parser's failure value (0 or a bound) |
| Aggregator.IngestAppends | aggregator.go:76-89 | with a parsed time, Record returns it and makes sure the bucket exists. It appends 1 when only cnt is requested, the parsed target when a target is needed, and nothing when the target does not parse. No other (bucket, tag key) list changes |
| Aggregator.AppendSamples | aggregator.go:80-87 | appending changes exactly one sample list, by one element at its end |
| Aggregator.WindowUnique | aggregator.go:35-46 | each timestamp lies in exactly one window |
| Aggregator.SampleTime | aggregator.go:35-37 | getSampleTime panics exactly on a zero interval. For a positive interval it returns the index of the window holding ts. A negative interval negates that index, and MIN / -1 wraps |
| Aggregator.Aggregator.IsDeadline | aggregator.go:39-46 | IsDeadline panics exactly on a zero interval. For a positive interval it is true exactly when the timestamp lies outside the window postTime. For a negative interval the windows count with the opposite sign, and for MIN / -1 it compares postTime with MIN. It reads the state and changes nothing |
| Aggregator.NonEmptyNeverDivides | aggregator.go:101 | getAggregation on a non-empty list never divides by zero |
| Aggregator.DumpKeys | aggregator.go:125-131 | the keys of Dump's result are "timestamp" and every bucketName+bucketTag |
| Aggregator.DumpOfEmpty | aggregator.go:131-134 | with no buckets, Dump returns only the timestamp entry |
| Aggregator.DumpEntry | aggregator.go:125-129 | a list whose name no other list shares, and which is not "timestamp", appears with exactly its statistics |
| Aggregator.AddEntry | aggregator.go:128 | writing a list's statistics under its name keeps every entry traceable to a list |
| Aggregator.StampKeepsFromBuckets | aggregator.go:131 | the timestamp write keeps every other entry |
| Aggregator.DumpAll | aggregator.go:125-130 | the loops succeed exactly when every list aggregates; then every name is a key and every entry comes from a list; otherwise the fault comes from a failing list and is not a division by zero |
| Aggregator.DumpBucket | aggregator.go:126-129 | the inner loop adds every list of one bucket under its name, or reports the fault of one of them |
| Aggregator.Aggregator.constructor | aggregator.go:24-33 | NewAggregator keeps the interval, name and recipes, starts with no buckets and postTime 0, and the invariant holds |
| Aggregator.Aggregator.Record | aggregator.go:48-90 | Record returns and leaves behind what Ingest describes; a panic changes nothing; postTime is untouched and the invariant is kept |
| Aggregator.Aggregator.Dump | aggregator.go:122-135 | Dump succeeds exactly when every list aggregates and the interval is non-zero. It then returns a DumpOutput, empties the buckets and sets postTime to the window of the timestamp, so IsDeadline(timestamp) is false. A failure changes nothing and comes from a failing list or from the zero interval |

## Left out

- sender_kafka.go is not part of this model. It is a Kafka network client and JSON configuration glue.
- Logging (`logrus.Debug`) has no effect on the state. It is omitted.
- Concurrency: the engine has no locking of its own, and the sender's mutex belongs to sender_kafka.go. The model is sequential.
- Go map iteration order: `Dump` visits the lists in an unspecified order, modelled with `:|` choices. Dump's contract is a relation:
  - every bucketName+bucketTag is a key;
  - every entry comes from some list with that name;
  - when two lists share a name, or a name is `"timestamp"`, the contract does not say which value remains;
  - a panic reports the fault of some failing list, not necessarily the first in any order.
- Aggregator.Aggregator.Dump: in Go, `sort.Ints` sorts the stored slices in place, so a `Dump` that panics leaves the lists it already visited sorted. The model sorts a copy and keeps the state unchanged on a failure.
- Map aliasing, recipes: `NewAggregator` keeps a reference to the caller's recipe map (`aggregator.go:28`). The model treats `configs` as an immutable value, which assumes the caller never changes that map after construction.
- Map aliasing, buckets: the inner maps of `buckets` are references in Go, but nothing outside the aggregator holds them, so the model treats them as values.
- Field values are `Field = Str(s) | Other`. Only "is it a string" matters to the type assertions, so non-string values are not modelled further.
- Strings are sequences of characters, not of UTF-8 bytes. `aggregations[i][0]` and `[1:]` take the first character, which agrees with Go for ASCII identifiers.
- Strconv.ParseInt: `strconv.Atoi` has a fast path for short inputs. On a 64-bit platform it accepts the same strings and gives the same values as `ParseInt(s, 10, 64)`, so one function models both.
- The error values of `strconv` (`*NumError`) are reduced to the `ok` flag, because the engine only tests whether the error is nil.
