# prom-query-dotnet: request assembly and tuple codec, modelled in Dafny

prom-query-dotnet is a thin .NET client for the Prometheus HTTP query API. This model
covers its in-memory logic, in three parts:

- **ArrayTupleConverter** writes a tuple of one to seven typed fields as a JSON array with one
  element per field, in field order. It reads such an array back positionally.
  - A read fails when there are too few values, when there are too many, or when an element
    does not deserialise.
  - Query results use the converter for `(Decimal Timestamp, String Value)` sample pairs.
- **UriQueryStringParameterCollection** is a multi-valued parameter collection. It maps each key
  to the values added under it, in order. Its `ToString` writes every (key, value) pair as
  `UrlEncode(key)=UrlEncode(AsString(value))` and joins the pairs with `&`. `AsString` is the
  `System.Text.Json` serialisation of the value, unquoted when it is a JSON string literal.
- **PrometheusClient**:
  - `ToPrometheusDuration` writes a `TimeSpan` as a Prometheus duration such as `1d2h3m4s5ms`.
  - The query methods assemble their request parameters, URLs and form bodies from the
    collection. These are `QueryAsync`, `QueryRangeAsync`, the label queries and their POST
    variants.

Files:

- `wrappers.dfy` holds `Option` and `Result`.
- `strings.dfy` holds decimal and hex digits, `Join`, `Split` and `Concat`.
- `json.dfy` holds the JSON document model, plus the string-literal escaping of the default
  encoder and the reader that undoes it (section 7 of RFC 8259).
- `url_encoding.dfy` holds UTF-8 and `WebUtility.UrlEncode`, with the decoders that undo them.
- `array_tuple_converter.dfy` defines the module `ArrayTupleConverter`.
- `query_string.dfy` defines the module `QueryString` and its class `ParameterCollection`.
- `prometheus_client.dfy` defines the module `PrometheusClient`.

The model follows the code in these places:

- `Read` asserts that the reader is on a `StartArray` token (`Debug.Assert`, lines 17-19). A
  non-array input is therefore a precondition of `ArrayTupleConverter.Read`, not an error result.
- A field that does not deserialise ends the read with the serialiser's own error. That error
  carries no element index (`FieldFailed(cause)`).
- The read loop deserialises eagerly, so a field error wins over a count error. The count checks
  run in source order: too few values (lines 30-34), then leftover elements (lines 36-40).
- In `LabelsAsync` and `LabelValueAsync`, the URL gets its `?` only when the collection's `Count`
  is positive. In the POST variants, the form body is the collection's `ToString`, even when it
  is empty.

## Model

| member | source | states |
|---|---|---|
| ArrayTupleConverter.Read | prom-query-dotnet/Internal/ArrayTupleConverter.cs:12-47 | the result is Decode of the array's elements: the first field error, the count error (expected arity, actual count), the "more than expected" error, or the created tuple; the loop invariant keeps the argument count at most the arity |
| ArrayTupleConverter.Write | prom-query-dotnet/Internal/ArrayTupleConverter.cs:49-72 | the loop's array equals Encode: element i is field i serialised with its declared type |
| ArrayTupleConverter.CreateTuple | prom-query-dotnet/Internal/ArrayTupleConverter.cs:75-103 | the slot arity-1 of the seven-entry table builds a tuple whose fields are exactly the arguments, so it conforms to the shape |
| ArrayTupleConverter.CreateFromFields | prom-query-dotnet/Internal/ArrayTupleConverter.cs:75-82 | creating a tuple from a conforming tuple's fields gives back that tuple |
| ArrayTupleConverter.EncodeElements | prom-query-dotnet/Internal/ArrayTupleConverter.cs:54-68 | the written array has exactly one element per field, element i being field i serialised as field type i |
| ArrayTupleConverter.Fields | prom-query-dotnet/Internal/ArrayTupleConverter.cs:59-62 | the ITuple view of a tuple: tuple.Length is between 1 and 7, and tuple[i] is field i (pinned by CreateTuple, whose fields are its arguments) |
| ArrayTupleConverter.SerializeField | prom-query-dotnet/Internal/ArrayTupleConverter.cs:60-65 | a field is written as the JSON kind of its declared type: a number for Decimal and Int32, a string or null for String, true or false for Bool |
| ArrayTupleConverter.DeserializeField | prom-query-dotnet/Internal/ArrayTupleConverter.cs:27 | a field that reads has the declared field type |
| ArrayTupleConverter.FieldRoundTrip | prom-query-dotnet/Internal/ArrayTupleConverter.cs:27 | reading back a serialised field gives the field |
| ArrayTupleConverter.DecodePrefixOk | prom-query-dotnet/Internal/ArrayTupleConverter.cs:23-28 | the loop's first n reads succeed iff each of the first n elements reads, and the argument list is then those values in order |
| ArrayTupleConverter.DecodePrefixFirstError | prom-query-dotnet/Internal/ArrayTupleConverter.cs:23-28 | a failing read is reported with the error of the first element that fails |
| ArrayTupleConverter.DecodeSucceedsIff | prom-query-dotnet/Internal/ArrayTupleConverter.cs:23-46 | Read succeeds iff the array length equals the arity and every element reads as its field type |
| ArrayTupleConverter.DecodePositional | prom-query-dotnet/Internal/ArrayTupleConverter.cs:21-28 | on success, the tuple conforms to the shape and field i is element i read as field type i |
| ArrayTupleConverter.DecodeTooFew | prom-query-dotnet/Internal/ArrayTupleConverter.cs:30-34 | fewer elements than fields, all readable, give UnexpectedNumberOfValues(arity, elements seen) |
| ArrayTupleConverter.DecodeTooMany | prom-query-dotnet/Internal/ArrayTupleConverter.cs:36-40 | more elements than fields, the first arity readable, give MoreThanExpected(arity) |
| ArrayTupleConverter.DecodeFieldFailure | prom-query-dotnet/Internal/ArrayTupleConverter.cs:23-28 | an unreadable element after readable ones fails the read with that element's error, whatever the element count |
| ArrayTupleConverter.RoundTrip | prom-query-dotnet/Internal/ArrayTupleConverter.cs:12-72 | reading the array written for a conforming tuple gives back that tuple |
| ArrayTupleConverter.SamplePairWire | prom-query-dotnet/Models/ResultData.cs:9-10 | a (Decimal, String) sample pair is written as [number, string] and read back unchanged |
| Json.ParseHex4OfHex4 | prom-query-dotnet/Internal/UriQueryStringParameterCollection.cs:66-70 | the four upper-case hex digits of a \u escape read back as the code unit |
| Json.EscapeCharReads | prom-query-dotnet/Internal/UriQueryStringParameterCollection.cs:66-70 | any character the default encoder escapes (short escapes, \u escapes, surrogate pairs) reads back as that character |
| Json.EscapeSurrogatePair | prom-query-dotnet/Internal/UriQueryStringParameterCollection.cs:66-70 | a character outside the Basic Multilingual Plane is written as a surrogate pair that reads back as the character |
| Json.UnquoteQuote | prom-query-dotnet/Internal/UriQueryStringParameterCollection.cs:66-72 | Deserialize<String> of the serialised form of any string gives back that string |
| QueryString.AsString | prom-query-dotnet/Internal/UriQueryStringParameterCollection.cs:57-76 | the text is the value's bare text (a string or timestamp unquoted, whatever it contains); when the JSON text does not start with a quote it is returned unchanged |
| QueryString.Serialize | prom-query-dotnet/Internal/UriQueryStringParameterCollection.cs:66 | the JSON text starts with a quote exactly for strings and timestamps; for those, Deserialize<String> gives back the text |
| Json.Quote | prom-query-dotnet/Internal/UriQueryStringParameterCollection.cs:66 | a string is written as a JSON string literal, opened and closed by a quote (its read-back is Json.UnquoteQuote) |
| Json.Unquote | prom-query-dotnet/Internal/UriQueryStringParameterCollection.cs:70 | on the serialiser's output for a string or DateTime, Deserialize<String> accepts exactly one closed, well-escaped literal, so the result opens and closes with a quote |
| UrlEncoding.UrlEncode | prom-query-dotnet/Internal/UriQueryStringParameterCollection.cs:53 | WebUtility.UrlEncode of a string form-decodes to the string's UTF-8 bytes |
| QueryString.Render | prom-query-dotnet/Internal/UriQueryStringParameterCollection.cs:50-54 | the '&'-joined segments of a pair list are "" exactly when there are no pairs |
| UrlEncoding.Utf8RoundTrip | prom-query-dotnet/Internal/UriQueryStringParameterCollection.cs:53 | UTF-8 decoding the UTF-8 bytes of a string gives back the string |
| UrlEncoding.UrlDecodeEncodeBytes | prom-query-dotnet/Internal/UriQueryStringParameterCollection.cs:53 | form-decoding the form encoding of a byte string gives back the bytes |
| UrlEncoding.UrlRoundTrip | prom-query-dotnet/Internal/UriQueryStringParameterCollection.cs:53 | decoding WebUtility.UrlEncode(s) recovers s exactly |
| UrlEncoding.NoSeparators | prom-query-dotnet/Internal/UriQueryStringParameterCollection.cs:53 | an encoded component never holds '&', '=' or '?' |
| QueryString.SegmentShape | prom-query-dotnet/Internal/UriQueryStringParameterCollection.cs:53 | a segment is non-empty and free of '&' and '?', and splitting it at '=' and decoding both sides gives the key and the AsString text |
| QueryString.ParseSegmentsOfPairs | prom-query-dotnet/Internal/UriQueryStringParameterCollection.cs:50-54 | reading back the segments of a pair list gives every pair, in order, with its AsString text |
| QueryString.RenderRoundTrip | prom-query-dotnet/Internal/UriQueryStringParameterCollection.cs:46-55 | the rendering is "" iff there are no pairs; it splits on '&' into one segment per pair; a form reader recovers every pair in order |
| QueryString.RenderHasNoQuestionMark | prom-query-dotnet/Internal/UriQueryStringParameterCollection.cs:46-55 | the rendering never contains '?' |
| QueryString.ValuesOfAppend | prom-query-dotnet/Internal/UriQueryStringParameterCollection.cs:17-20 | a key's values in a concatenated pair list are its values in the first list, then in the second |
| QueryString.FlattenValuesOf | prom-query-dotnet/Internal/UriQueryStringParameterCollection.cs:17-20 | with distinct keys, picking one key's values out of the pair enumeration gives its stored list |
| QueryString.CountAfterAdd | prom-query-dotnet/Internal/UriQueryStringParameterCollection.cs:15 | adding a value, under a new key or an existing one, raises the total count by exactly one |
| QueryString.FlattenAfterAdd | prom-query-dotnet/Internal/UriQueryStringParameterCollection.cs:38-44 | adding under a new key, or under the most recently created key, puts the new pair last in the enumeration |
| QueryString.StoredAfterAdd | prom-query-dotnet/Internal/UriQueryStringParameterCollection.cs:38-44 | both add branches keep the keys distinct, equal to the map's keys, each with a non-empty list |
| QueryString.ParameterCollection.constructor | prom-query-dotnet/Internal/UriQueryStringParameterCollection.cs:22-24 | a new collection is valid and empty |
| QueryString.ParameterCollection.Pairs | prom-query-dotnet/Internal/UriQueryStringParameterCollection.cs:84-87 | the enumeration holds one pair per stored value |
| QueryString.ParameterCollection.Count | prom-query-dotnet/Internal/UriQueryStringParameterCollection.cs:15 | the sum of the list lengths is the number of enumerated pairs |
| QueryString.ParameterCollection.Get | prom-query-dotnet/Internal/UriQueryStringParameterCollection.cs:17-20 | the indexer gives key's values in enumeration order, and nothing for an absent key |
| QueryString.ParameterCollection.Contains | prom-query-dotnet/Internal/UriQueryStringParameterCollection.cs:34-36 | holds iff some enumerated pair has the key |
| QueryString.ParameterCollection.Add | prom-query-dotnet/Internal/UriQueryStringParameterCollection.cs:38-44 | value goes at the end of key's list, or the new list [value] is created with no de-duplication; other keys are unchanged; Count rises by one; keys keep first-added order; a new or latest key's pair goes last |
| QueryString.ParameterCollection.ToString | prom-query-dotnet/Internal/UriQueryStringParameterCollection.cs:46-55 | "" iff Count is 0; no '?'; one '&'-separated segment per pair; reading back gives every pair with its AsString text, in enumeration order |
| PrometheusClient.Quot | prom-query-dotnet/PrometheusClient.cs:343-356 | C# integer division truncates toward zero: the quotient rounds toward zero, with the bounds stated for each sign |
| PrometheusClient.Rem | prom-query-dotnet/PrometheusClient.cs:343-356 | C# remainder: quotient·b + remainder is the dividend, and the remainder has the dividend's sign and is smaller than b |
| PrometheusClient.Days | prom-query-dotnet/PrometheusClient.cs:343-344 | TimeSpan.Days is the whole days, truncated toward zero: never positive for a negative duration |
| PrometheusClient.Hours | prom-query-dotnet/PrometheusClient.cs:346-347 | TimeSpan.Hours lies in [0, 24) for a non-negative duration and in (-24, 0] for a negative one |
| PrometheusClient.Minutes | prom-query-dotnet/PrometheusClient.cs:349-350 | TimeSpan.Minutes lies in [0, 60) for a non-negative duration and in (-60, 0] for a negative one |
| PrometheusClient.Seconds | prom-query-dotnet/PrometheusClient.cs:352-353 | TimeSpan.Seconds lies in [0, 60) for a non-negative duration and in (-60, 0] for a negative one |
| PrometheusClient.Milliseconds | prom-query-dotnet/PrometheusClient.cs:355-356 | TimeSpan.Milliseconds lies in [0, 1000) for a non-negative duration and in (-1000, 0] for a negative one |
| PrometheusClient.DurationText | prom-query-dotnet/PrometheusClient.cs:342-359 | the duration text is "" exactly when none of the five components is positive |
| PrometheusClient.AddPart | prom-query-dotnet/PrometheusClient.cs:343-357 | one conditional parts.Add: the joined text grows by "{n}{unit}" exactly when n is positive |
| PrometheusClient.ToPrometheusDuration | prom-query-dotnet/PrometheusClient.cs:341-360 | the text is the positive components among Days, Hours, Minutes, Seconds and Milliseconds, in that order, each with its unit |
| PrometheusClient.ComponentsOfMillis | prom-query-dotnet/PrometheusClient.cs:343-356 | for a non-negative duration, each TimeSpan component is the matching digit of the whole milliseconds in the mixed radix 24/60/60/1000 |
| PrometheusClient.Components | prom-query-dotnet/PrometheusClient.cs:331-360 | for a non-negative duration, 0 <= h < 24, m < 60, s < 60, ms < 1000; days are unbounded; d·86400000 + h·3600000 + m·60000 + s·1000 + ms is the whole milliseconds |
| PrometheusClient.NegativeDurationIsEmpty | prom-query-dotnet/PrometheusClient.cs:343-359 | a negative duration has no positive component and is written as "" |
| PrometheusClient.SubMillisecondDurationIsEmpty | prom-query-dotnet/PrometheusClient.cs:343-359 | a duration below one millisecond, zero included, is written as "" |
| PrometheusClient.SubMillisecondsIgnored | prom-query-dotnet/PrometheusClient.cs:355-357 | two durations with the same whole milliseconds are written the same |
| PrometheusClient.ReadWritten | prom-query-dotnet/PrometheusClient.cs:341-360 | number-unit parts with descending units are read back by the Prometheus duration reader as the milliseconds they stand for |
| PrometheusClient.WrittenComponents | prom-query-dotnet/PrometheusClient.cs:341-360 | the five components, as d/h/m/s/ms parts, are descending and are written as the formatter writes them |
| PrometheusClient.DurationRoundTrip | prom-query-dotnet/PrometheusClient.cs:341-360 | for a duration of at least one millisecond, reading the text as a Prometheus duration gives its whole milliseconds |
| PrometheusClient.Initialize | prom-query-dotnet/PrometheusClient.cs:36-39 | a collection initializer of pairs with distinct keys (one Add per pair) enumerates exactly those pairs |
| PrometheusClient.QueryParameters | prom-query-dotnet/PrometheusClient.cs:36-43 | the parameters are query, time, then timeout (the duration text) only when one is given |
| PrometheusClient.QueryRangeParameters | prom-query-dotnet/PrometheusClient.cs:153-162 | the parameters are query, start, end, step, then timeout only when one is given |
| PrometheusClient.MatchParameters | prom-query-dotnet/PrometheusClient.cs:206-212 | one match[] pair per selector, in input order; none for a null or empty selector list |
| PrometheusClient.AddTimeout | prom-query-dotnet/PrometheusClient.cs:41-43 | the timeout pair, holding the duration text, is appended only when a timeout is given |
| PrometheusClient.AddNew | prom-query-dotnet/PrometheusClient.cs:42 | adding a key the collection does not hold appends its pair last |
| PrometheusClient.AddTimeRange | prom-query-dotnet/PrometheusClient.cs:214-217 | start and then end are appended, in that order |
| PrometheusClient.LabelParameters | prom-query-dotnet/PrometheusClient.cs:206-217 | the match[] pairs, then start and end only when both are given |
| PrometheusClient.PathsHaveNoQuestionMark | prom-query-dotnet/PrometheusClient.cs:11-14 | the query, query_range and labels paths are "/api/v1/query", "/api/v1/query_range" and "/api/v1/labels"; none contains '?' |
| PrometheusClient.QueryRequestUri | prom-query-dotnet/PrometheusClient.cs:46-49 | the GET URL is the query path, one '?', and a query string that reads back as query, time and the optional timeout |
| PrometheusClient.QueryPostBody | prom-query-dotnet/PrometheusClient.cs:58-72 | the form body is non-empty and reads back as query, time and the optional timeout |
| PrometheusClient.QueryRangeRequestUri | prom-query-dotnet/PrometheusClient.cs:153-168 | the GET URL is the query_range path, one '?', and query, start, end, step and the optional timeout |
| PrometheusClient.QueryRangePostBody | prom-query-dotnet/PrometheusClient.cs:177-194 | the form body reads back as query, start, end, step and the optional timeout |
| PrometheusClient.LabelQuery | prom-query-dotnet/PrometheusClient.cs:206-217 | the parameter count and query string of the label queries: "" iff the count is 0; reads back as the match[] texts, then start and end |
| PrometheusClient.LabelsRequestUri | prom-query-dotnet/PrometheusClient.cs:221-226 | the labels path, with '?' and the parameters appended iff there is at least one parameter |
| PrometheusClient.LabelsPostBody | prom-query-dotnet/PrometheusClient.cs:252-258 | the form body of LabelsPostAsync and LabelValuePostAsync is "" iff there are no parameters, and reads back as them |
| PrometheusClient.LabelValueRequestUri | prom-query-dotnet/PrometheusClient.cs:287-290 | "/api/v1/label/{labelKey}/values" with labelKey inserted as given, then '?' and the parameters iff there is at least one |

## Left out

- HTTP transport, `async`, `CancellationToken`, response handling (`HandleQueryResponse`,
  `HandleLabelsResponse`) and status-code exceptions are I/O. The model stops at the request
  URL or form body that would be sent.
- JSON serialisation is modelled only for the field types the model names. These are Decimal,
  an exact real; Int32; String, with null; and Bool. The serialiser's other types, its options and
  its number formatting are outside the model.
- A Decimal field accepts every real number. The .NET Decimal reader refuses magnitudes above about
  7.9·10^28 and rounds beyond 28-29 significant digits; neither limit is modelled. Prometheus
  timestamps lie far inside that range.
- `Json.Unquote` does not model two inputs .NET accepts. The literal `null` reads as a null string,
  which the source's `Debug.Assert` (UriQueryStringParameterCollection.cs:71) rules out. Whitespace
  around the literal is also accepted. `AsString` passes neither, since it only unquotes the
  serialiser's own output for a string or DateTime.
- The constructor `UriQueryStringParameterCollection(JsonSerializerOptions)`
  (UriQueryStringParameterCollection.cs:26-28) is not modelled. The model hard-wires the default
  serialiser options, which is what every call site in PrometheusClient.cs uses.
- A `DateTime` is kept opaque: its ISO 8601 text. A `Double` (`step.TotalSeconds`) is kept
  opaque: its JSON number literal. Floating point and date formatting are not modelled.
- Nested tuples (an eighth `TRest` field) and the reflection machinery are not modelled. The
  reflection covers `ArrayTupleConverterFactory`, `ArrayTupleConverter.ForType` and
  `MakeGenericMethod`. It is replaced by an explicit shape, the list of field types. Class tuples
  and value tuples behave the same and share one datatype.
- The cross-key order of the dictionary's enumeration is unspecified in .NET. The model
  enumerates keys in first-added order. The per-key lists are exact whatever the order
  (`ParameterCollection.Get`, `FlattenValuesOf`, `ValuesOfAppend`). Every contract that states the
  whole pair sequence, or a read-back of it, rests on the first-added order. Those contracts are:
  - `ParameterCollection.Add` (its last ensures) and `FlattenAfterAdd`;
  - `Initialize` (`p.Pairs() == pairs`), `QueryParameters`, `QueryRangeParameters`,
    `MatchParameters`, `AddNew`, `AddTimeout`, `AddTimeRange` and `LabelParameters`;
  - the read-backs of `ParameterCollection.ToString`, `LabelQuery`, `QueryRequestUri`,
    `QueryPostBody`, `QueryRangeRequestUri`, `QueryRangePostBody`, `LabelsRequestUri`,
    `LabelsPostBody` and `LabelValueRequestUri`. Each of these gives query/time/timeout,
    query/start/end/step/timeout, or match[]/start/end in that order.

  With another key order, the same pairs would appear with the keys reordered. Each key's own
  values would keep their order.
- The `IGrouping` enumeration (UriQueryStringParameterCollection.cs:78-82) is not a separate
  member. It is the keys paired with `Get(key)`.
- `QueryString.ParameterCollection.Get`: the indexer returns a copy of the key's values. The source
  (UriQueryStringParameterCollection.cs:17-20) returns its live `List<Object>`, which a later `Add`
  under that key would change. No caller in the source keeps that list, so the model does not
  capture this aliasing.
- The implicit conversion to `String` (UriQueryStringParameterCollection.cs:30-32) is
  `ToString`.
- A JSON number is modelled by its value. Its textual form is not modelled. `Int32Field` therefore
  accepts any integral number, including one written `1.0` or `1e2`, which the .NET Int32 reader
  refuses. The source's tuples have no Int32 field.
- Strings are sequences of Unicode scalar values. A lone UTF-16 surrogate, which .NET strings
  can hold, cannot be represented here.
- `PrometheusClient.DurationMillis`, the reader used by `DurationRoundTrip`, covers only the
  d/h/m/s/ms subset of the Prometheus duration syntax. It refuses the empty string, so the round
  trip is stated for durations of at least one millisecond.
- The POST variants (`QueryPostAsync`, `QueryRangePostAsync`, `LabelsPostAsync`,
  `LabelValuePostAsync`) build the same parameters as their GET forms. They share the same
  builder methods. The request records are plain data and are not modelled.
- `PrometheusClient.Initialize`: a collection initializer with two equal keys would put both
  values under one key. The source's initializers use distinct keys, so `Initialize` requires
  them.
