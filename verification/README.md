# mqtt-demo ingestion and read path, modelled in Dafny

The service listens on an MQTT topic for comma-separated feature vectors.
`OnFeatureVectorArrived.messageArrived` turns each message into numbers,
takes the first number as the score and the rest as the feature array,
asks an injected scoring engine whether the features look normal, and hands
the score to an injected store when they do not (an anomaly).
`InfluxDataStore` is that store: `save` writes one score into the InfluxDB
series `classification`, and `read` runs a fixed count query and groups the
rows of the first returned series by their interval timestamp.

The model has six modules:

- `Wrappers` (`wrappers.dfy`): `Option` for Java `null`, `Result` for a call that may throw.
- `JavaSplit` (`java_split.dfy`): `String.split(",")` with Java's rules. A text without a comma comes back whole, so `""` gives `[""]`. Otherwise trailing empty fields are dropped, so `","` gives `[]`.
- `JavaFormat` (`java_format.dfy`): `String.format` for `%s` and `%%`. A null argument prints as `null`.
- `Grouping` (`grouping.dfy`): `Collectors.groupingBy` on a sequential stream. A null key fails. The downstream collector is a parameter that receives each bucket in encounter order.
- `Ingestion` (`ingestion.dfy`): `messageArrived` and its helpers. Numbers are an opaque type. `Float.parseFloat` and the scoring engine are parameters. The two callbacks are recorded as a trace of `Score(features)` and `Store(score)` events.
- `InfluxDataStore` (`influx_store.dfy`): `save`, and both `read` methods. The query result is the output of a parameter `query(database, text)`.

The record type `SpaceShuttleRecord` and its collector are not part of this model. The timestamp a record derives from its `time` value is the parameter `stamp`. The per-interval collector is the parameter `collect`. No merge policy for duplicate (interval, class) rows is assumed. Both rows reach `collect` in row order (`Grouping.SameKeyKeepsBoth`).

## Model

| member | source | states |
|---|---|---|
| JavaSplit.Split | src/main/java/org/trustedanalytics/ingestion/OnFeatureVectorArrived.java:72 | a text without a comma splits into itself alone; otherwise the tokens are a prefix of the comma-separated fields, only empty fields are dropped, the last kept token is non-empty, and no token holds a comma |
| JavaSplit.JoinFields | src/main/java/org/trustedanalytics/ingestion/OnFeatureVectorArrived.java:72 | joining the fields of a text with commas gives back the text |
| JavaSplit.FieldsJoin | src/main/java/org/trustedanalytics/ingestion/OnFeatureVectorArrived.java:72 | comma-free fields, once joined, split back into exactly those fields |
| JavaSplit.SplitJoin | src/main/java/org/trustedanalytics/ingestion/OnFeatureVectorArrived.java:72 | a single comma-free field, or several whose last one is not empty, split back out of their comma-join unchanged |
| JavaSplit.SplitLosesOnlyTrailingEmpties | src/main/java/org/trustedanalytics/ingestion/OnFeatureVectorArrived.java:72 | the split tokens plus the dropped empty fields join back to the original text |
| JavaSplit.SplitEmpty | src/main/java/org/trustedanalytics/ingestion/OnFeatureVectorArrived.java:72 | the empty text splits into one empty token |
| JavaSplit.SplitLoneComma | src/main/java/org/trustedanalytics/ingestion/OnFeatureVectorArrived.java:72 | a lone comma splits into no tokens |
| JavaSplit.SplitKeepsInnerEmpties | src/main/java/org/trustedanalytics/ingestion/OnFeatureVectorArrived.java:72 | `1,,2,,` splits into `1`, empty, `2`: inner empty tokens are kept and trailing ones are dropped |
| Ingestion.ParseAll | src/main/java/org/trustedanalytics/ingestion/OnFeatureVectorArrived.java:71-74 | parsing succeeds exactly when every token parses; it then yields one number per token, in token order |
| Ingestion.DataVector | src/main/java/org/trustedanalytics/ingestion/OnFeatureVectorArrived.java:71-75 | the data vector exists exactly when every token of the comma split parses; it then holds one number per token, each the parse of its token, in token order |
| Ingestion.FeatureArray | src/main/java/org/trustedanalytics/ingestion/OnFeatureVectorArrived.java:77-87 | the feature array is newly allocated, has one element fewer than the data vector, and element i is data element i+1 |
| Ingestion.MessageArrived | src/main/java/org/trustedanalytics/ingestion/OnFeatureVectorArrived.java:47-69 | a bad token or a vector of fewer than two numbers makes no call; otherwise the engine is called exactly once, with everything after the first number; the store is called once, with the first number, exactly when the engine answers false; the store is never called more often than the engine; the handler ends abnormally exactly when the engine throws or gives no answer, and normally without storing exactly when the engine answers true |
| Ingestion.HandleMessage | src/main/java/org/trustedanalytics/ingestion/OnFeatureVectorArrived.java:47-87 | the handler that copies the feature array element by element makes the same calls, and ends the same way, as `MessageArrived` |
| Ingestion.BadTokenMakesNoCalls | src/main/java/org/trustedanalytics/ingestion/OnFeatureVectorArrived.java:71-74 | one token that fails to parse aborts the message with no scoring and no store call |
| Ingestion.EmptyPayloadFailsToParse | src/main/java/org/trustedanalytics/ingestion/OnFeatureVectorArrived.java:52-58 | an empty payload fails at parsing, not at the size check, since the empty token does not parse |
| Ingestion.LoneCommaIsTooShort | src/main/java/org/trustedanalytics/ingestion/OnFeatureVectorArrived.java:52-58 | a payload of a lone comma is dropped at the size check with size 0 and makes no call |
| Ingestion.FourFieldAnomaly | src/main/java/org/trustedanalytics/ingestion/OnFeatureVectorArrived.java:60-65 | `0.0,1.2,3.4,5.6` that the engine calls an anomaly gives the engine call with the last three numbers, then the store call with the first |
| JavaFormat.Substitute | src/main/java/org/trustedanalytics/storage/InfluxDataStore.java:99-101 | printing a well-formed template fails exactly when it has more `%s` than arguments, and then with a missing-argument error |
| JavaFormat.Format | src/main/java/org/trustedanalytics/storage/InfluxDataStore.java:99-101 | formatting fails exactly when the template has a conversion other than `%s`/`%%` or has too few arguments; the error is an unknown conversion exactly in the first case |
| JavaFormat.FormatTemplate | src/main/java/org/trustedanalytics/storage/InfluxDataStore.java:99-101 | a template of `%`-free pieces with `%s` between them prints the pieces with the arguments in between, and extra arguments are ignored |
| InfluxDataStore.QueryTemplateShape | src/main/java/org/trustedanalytics/storage/InfluxDataStore.java:100 | the query's format string is the six `%`-free pieces, the last one empty, with a `%s` between neighbours, so five `%s` in all |
| InfluxDataStore.QueryText | src/main/java/org/trustedanalytics/storage/InfluxDataStore.java:99-101 | the query text is `select count(class) from classification group by time(<interval>), class where time > now() - <limit>`, and a null interval or limit prints as `null` |
| InfluxDataStore.Save | src/main/java/org/trustedanalytics/storage/InfluxDataStore.java:70-88 | `save` writes to the configured database one point of series `classification`, with the single column `class` holding the value |
| InfluxDataStore.SavedColumnIsCounted | src/main/java/org/trustedanalytics/storage/InfluxDataStore.java:35-36 | the read query counts the very column, in the very series, that `save` writes |
| InfluxDataStore.Records | src/main/java/org/trustedanalytics/storage/InfluxDataStore.java:111-113 | the rows become records one for one, in row order |
| InfluxDataStore.RecordUsesThreeColumns | src/main/java/org/trustedanalytics/storage/InfluxDataStore.java:112-113 | a record depends only on the row's `time`, `class` and `count` columns |
| InfluxDataStore.ReadSeries | src/main/java/org/trustedanalytics/storage/InfluxDataStore.java:104-115 | no series gives `None` (null), never an empty map; otherwise only the first series is used; the read fails exactly when one of its rows has a null timestamp; otherwise every row's timestamp is a key, every key is some row's timestamp, and each key holds the collector's result for exactly the records with that timestamp, in row order |
| InfluxDataStore.OnlyFirstSeriesCounts | src/main/java/org/trustedanalytics/storage/InfluxDataStore.java:111 | series after the first never change the result |
| InfluxDataStore.Read | src/main/java/org/trustedanalytics/storage/InfluxDataStore.java:90-101 | the public read sends to the configured database the fixed count query over the given `groupBy` and `since`, each replaced by its configured default when null, and groups the answer as `ReadSeries` states |
| InfluxDataStore.ReadQueriesWithDefaults | src/main/java/org/trustedanalytics/storage/InfluxDataStore.java:90-101 | a given `groupBy` or `since` is used as it is and a null one becomes the configured default; the query text sent to the configured database is the fixed count query over them |
| InfluxDataStore.KeysAreStamps | src/main/java/org/trustedanalytics/storage/InfluxDataStore.java:111-115 | when every row of the first series has a timestamp, the read succeeds and its key set is exactly the set of those timestamps |
| InfluxDataStore.KeysAreTimeValues | src/main/java/org/trustedanalytics/storage/InfluxDataStore.java:111-115 | when every row has a `time` value and the timestamp of a time is that time itself, the result's key set is exactly the set of `time` values of the first series' rows |
| InfluxDataStore.MissingTimeFails | src/main/java/org/trustedanalytics/storage/InfluxDataStore.java:112-115 | a row without `time` makes the read fail when a null time gives a null timestamp |
| Grouping.AccumulateSpec | src/main/java/org/trustedanalytics/storage/InfluxDataStore.java:114-115 | the accumulation fails exactly on a null key; otherwise each key's bucket is its earlier contents followed by its elements, in encounter order |
| Grouping.GroupingBy | src/main/java/org/trustedanalytics/storage/InfluxDataStore.java:114-115 | grouping fails exactly when an element has a null key; otherwise the keys are exactly those that occur, and each holds the downstream result for exactly its elements, in encounter order |
| Grouping.TwoKeysExample | src/main/java/org/trustedanalytics/storage/InfluxDataStore.java:111-115 | rows `(t1,A,3)`, `(t1,B,5)`, `(t2,A,1)` give interval `t1` with the first two records and `t2` with the third |
| Grouping.SameKeyKeepsBoth | src/main/java/org/trustedanalytics/storage/InfluxDataStore.java:114-115 | two elements with the same key both reach that key's bucket in order; the grouping itself neither overwrites nor adds |

## Left out

- MQTT connection, authentication, subscription and disconnection (`Ingestion.java`), and `connectionLost`/`deliveryComplete`: transport plumbing and logging only.
- Decoding the MQTT payload bytes into a Java string (`mqttMessage.toString()`): the model starts from the text.
- `Float.parseFloat` and float precision: numbers are an opaque type, and parsing is a parameter that may reject a token.
- A throwing store callback: the store call is the last thing the handler does, so a failure there cannot change the recorded calls.
- A stateful or non-deterministic scoring engine: it is modelled as a function of the feature array.
- InfluxDB connection, database existence check and creation, and the raw `write`/`query` calls (`InfluxDataStore.java:43-68, 86-88, 104`): the network client is not part of this model. `save` yields the point it would write, and `read` takes the query's answer from the `query` parameter. A failing query is not modelled.
- The `MILLISECONDS` time unit passed to `write` and `query`: it has no effect on the values modelled.
- The `(Double)` casts on row values: values are one opaque type, so a `ClassCastException` is not modelled.
- `SpaceShuttleRecord` and `SpaceShuttleRecordCollector`: their source is not part of this model. The timestamp derivation and the per-interval collector are parameters. The model takes the timestamp to depend on the row's `time` value alone.
- JavaFormat.Format: only the `%s` and `%%` conversions are modelled. Any other conversion, valid in Java or not, counts as a failure. The query template uses only `%s`.
- InfluxDataStore.ReadSeries: assumes that building a record from a row and the per-interval collector never throw. Their source is not part of this model, and they are total parameters here. A record constructor that unboxes a null `class` or `count`, or a collector that rejects a row, would make Java fail where the model succeeds.
- Logging (`LOG.debug`, `LOG.warn`) throughout `messageArrived`, `getFeatureArray`, `save` and `read`: it has no effect on the values modelled. The warning for a short vector is represented by the `TooShort(size)` disposition.
- The AngularJS front end (`app.js`): UI polling and charting.
