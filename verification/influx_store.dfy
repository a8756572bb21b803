/** `InfluxDataStore`: `save` writes one anomaly score as a one-column point
    of the series `classification`; `read` fills in defaults for missing
    arguments, builds a fixed InfluxQL count query, and turns the first
    series of the query result into a map from interval timestamp to the
    collected records of that interval.

    The InfluxDB client is not part of the model: the rows a query returns
    are the output of the parameter `query(database, text)`. Neither is
    `SpaceShuttleRecord`: the timestamp it derives from a row's `time`
    value is the parameter `stamp` (answering `None` where it would be
    null), and its collector is the parameter `collect`, applied to the
    records of one interval in the order the rows came. */
module InfluxDataStore {
  import opened Wrappers
  import JavaFormat
  import Grouping

  const SeriesName: string := "classification"
  const ColumnName: string := "class"
  /** The format string of the count query, cut at its `%s` conversions. */
  const QueryTemplate: string :=
    "select count(" + "%s" + ") from " + "%s" + " group by time(" + "%s" + "), " + "%s"
    + " where time > now() - " + "%s"

  /** What the store is built with; a default left unset in the
      configuration is `None`, as Java would hold `null`. */
  datatype StoreConfig = StoreConfig(databaseName: string,
                                     defaultGroupingInterval: Option<string>,
                                     defaultTimeLimit: Option<string>)

  /** One row of a series: column name to value. */
  type Row<V> = map<string, V>

  /** A series as the InfluxDB client hands it over: name, columns, rows. */
  datatype Series<V> = Series(name: string, columns: seq<string>, rows: seq<Row<V>>)

  /** A series written to a database. */
  datatype Write<V> = Write(database: string, series: Series<V>)

  /** The fields `read` takes from one row: `time`, `class` and `count`,
      each `None` when the row lacks it (`row.get` gives null). */
  datatype Record<V> = Record(time: Option<V>, cls: Option<V>, count: Option<V>)

  /** The read failed: a row's timestamp came out null, and
      `groupingBy` refuses a null key. */
  datatype ReadError = NullTimestamp

  /** `save(value)`: one point with the single column `class` holding
      `value`, in the series `classification` of the configured database. */
  function Save<V>(cfg: StoreConfig, value: V): (w: Write<V>)
    ensures w.database == cfg.databaseName
    ensures w.series.name == SeriesName && w.series.columns == [ColumnName]
    ensures |w.series.rows| == 1
    ensures w.series.rows[0].Keys == {ColumnName} && w.series.rows[0][ColumnName] == value
  {
    Write(cfg.databaseName, Series(SeriesName, [ColumnName], [map[ColumnName := value]]))
  }

  /** The `%`-free pieces of `QueryTemplate`. */
  const QueryPieces: seq<string> :=
    ["select count(", ") from ", " group by time(", "), ", " where time > now() - ", ""]

  /** A template of six pieces, spelled out. */
  lemma {:induction false} TemplateOfSix(a: string, b: string, c: string, d: string, e: string, f: string)
    ensures JavaFormat.Template([a, b, c, d, e, f]) ==
      a + "%s" + (b + "%s" + (c + "%s" + (d + "%s" + (e + "%s" + f))))
  {
    assert [e, f][1..] == [f];
    assert JavaFormat.Template([e, f]) == e + "%s" + f;
    assert [d, e, f][1..] == [e, f];
    assert JavaFormat.Template([d, e, f]) == d + "%s" + JavaFormat.Template([e, f]);
    assert [c, d, e, f][1..] == [d, e, f];
    assert JavaFormat.Template([c, d, e, f]) == c + "%s" + JavaFormat.Template([d, e, f]);
    assert [b, c, d, e, f][1..] == [c, d, e, f];
    assert JavaFormat.Template([b, c, d, e, f]) == b + "%s" + JavaFormat.Template([c, d, e, f]);
    assert [a, b, c, d, e, f][1..] == [b, c, d, e, f];
  }

  /** Six pieces with five arguments between them, spelled out. */
  lemma {:induction false} FilledOfSix(a: string, b: string, c: string, d: string, e: string, f: string,
                                       x1: Option<string>, x2: Option<string>, x3: Option<string>,
                                       x4: Option<string>, x5: Option<string>)
    ensures JavaFormat.Filled([a, b, c, d, e, f], [x1, x2, x3, x4, x5]) ==
      a + JavaFormat.Show(x1) + (b + JavaFormat.Show(x2) + (c + JavaFormat.Show(x3)
      + (d + JavaFormat.Show(x4) + (e + JavaFormat.Show(x5) + f))))
  {
    assert [e, f][1..] == [f] && [x5][1..] == [];
    assert JavaFormat.Filled([f], []) == f;
    var f5 := JavaFormat.Filled([e, f], [x5]);
    assert f5 == e + JavaFormat.Show(x5) + f;
    assert [d, e, f][1..] == [e, f] && [x4, x5][1..] == [x5];
    var f4 := JavaFormat.Filled([d, e, f], [x4, x5]);
    assert f4 == d + JavaFormat.Show(x4) + f5;
    assert [c, d, e, f][1..] == [d, e, f] && [x3, x4, x5][1..] == [x4, x5];
    var f3 := JavaFormat.Filled([c, d, e, f], [x3, x4, x5]);
    assert f3 == c + JavaFormat.Show(x3) + f4;
    assert [b, c, d, e, f][1..] == [c, d, e, f] && [x2, x3, x4, x5][1..] == [x3, x4, x5];
    var f2 := JavaFormat.Filled([b, c, d, e, f], [x2, x3, x4, x5]);
    assert f2 == b + JavaFormat.Show(x2) + f3;
    assert [a, b, c, d, e, f][1..] == [b, c, d, e, f] && [x1, x2, x3, x4, x5][1..] == [x2, x3, x4, x5];
  }

  /** Regrouping a right-nested concatenation of eleven strings. */
  lemma Regroup(a: string, y1: string, b: string, y2: string, c: string, y3: string,
                d: string, y4: string, e: string, y5: string, f: string)
    ensures a + y1 + (b + y2 + (c + y3 + (d + y4 + (e + y5 + f))))
         == a + y1 + b + y2 + c + y3 + d + y4 + e + y5 + f
  {
    var t4 := e + y5 + f;
    var t3 := d + y4 + t4;
    var t2 := c + y3 + t3;
    var t1 := b + y2 + t2;
    assert a + y1 + t1 == a + y1 + b + y2 + t2;
    assert a + y1 + b + y2 + t2 == a + y1 + b + y2 + c + y3 + t3;
    assert a + y1 + b + y2 + c + y3 + t3 == a + y1 + b + y2 + c + y3 + d + y4 + t4;
  }

  /** `QueryTemplate` is the query pieces with a `%s` between neighbours. */
  lemma QueryTemplateShape()
    ensures JavaFormat.Template(QueryPieces) == QueryTemplate
    ensures forall k :: 0 <= k < |QueryPieces| ==> '%' !in QueryPieces[k]
  {
    var a, b, c, d, e := "select count(", ") from ", " group by time(", "), ", " where time > now() - ";
    TemplateOfSix(a, b, c, d, e, "");
    Regroup(a, "%s", b, "%s", c, "%s", d, "%s", e, "%s", "");
    var flat := a + "%s" + b + "%s" + c + "%s" + d + "%s" + e + "%s";
    assert flat + "" == flat;
    PiecesWithoutPercent();
  }

  /** No query piece holds a `%`. */
  lemma PiecesWithoutPercent()
    ensures forall k :: 0 <= k < |QueryPieces| ==> '%' !in QueryPieces[k]
  {
    forall k | 0 <= k < |QueryPieces|
      ensures '%' !in QueryPieces[k]
    {
    }
  }

  /** The text of the count query for a grouping interval and a time limit:
      `String.format` of `QueryTemplate` with the column, the series, the
      interval, the column again and the limit, which reads
      `select count(class) from classification group by time(<interval>),
      class where time > now() - <limit>`. A null interval or limit prints
      as `null`. */
  function QueryText(interval: Option<string>, limit: Option<string>): (q: string)
    ensures q == "select count(" + ColumnName + ") from " + SeriesName + " group by time("
                 + JavaFormat.Show(interval) + "), " + ColumnName + " where time > now() - "
                 + JavaFormat.Show(limit)
  {
    var args := [Some(ColumnName), Some(SeriesName), interval, Some(ColumnName), limit];
    QueryTemplateShape();
    JavaFormat.FormatTemplate(QueryPieces, args, []);
    assert args + [] == args;
    QueryFilled(interval, limit);
    JavaFormat.Format(QueryTemplate, args).value
  }

  /** The query pieces with the query arguments printed between them. */
  lemma QueryFilled(interval: Option<string>, limit: Option<string>)
    ensures JavaFormat.Filled(QueryPieces, [Some(ColumnName), Some(SeriesName), interval, Some(ColumnName), limit])
      == "select count(" + ColumnName + ") from " + SeriesName + " group by time("
         + JavaFormat.Show(interval) + "), " + ColumnName + " where time > now() - "
         + JavaFormat.Show(limit)
  {
    FilledOfSix("select count(", ") from ", " group by time(", "), ", " where time > now() - ", "",
                Some(ColumnName), Some(SeriesName), interval, Some(ColumnName), limit);
    Regroup("select count(", ColumnName, ") from ", SeriesName, " group by time(", JavaFormat.Show(interval),
            "), ", ColumnName, " where time > now() - ", JavaFormat.Show(limit), "");
    var q := "select count(" + ColumnName + ") from " + SeriesName + " group by time("
             + JavaFormat.Show(interval) + "), " + ColumnName + " where time > now() - "
             + JavaFormat.Show(limit);
    assert q + "" == q;
  }

  /** `row.get(column)`. */
  function Get<V>(row: Row<V>, column: string): Option<V>
  {
    if column in row then Some(row[column]) else None
  }

  /** The record built from one row. */
  function ToRecord<V>(row: Row<V>): Record<V>
  {
    Record(Get(row, "time"), Get(row, "class"), Get(row, "count"))
  }

  /** The records of a series' rows, in row order. */
  function Records<V>(rows: seq<Row<V>>): (r: seq<Record<V>>)
    ensures |r| == |rows|
    ensures forall i :: 0 <= i < |rows| ==> r[i] == ToRecord(rows[i])
  {
    if |rows| == 0 then [] else [ToRecord(rows[0])] + Records(rows[1..])
  }

  /** The grouping key of a record: the timestamp derived from its time. */
  function KeyOf<V, K>(stamp: Option<V> -> Option<K>): Record<V> -> Option<K>
  {
    (rec: Record<V>) => stamp(rec.time)
  }

  /** The private `read` once the query has run: no series gives `None`
      (Java `null`), not an empty map. Otherwise only the first series
      counts: the read fails if one of its rows has a null timestamp, and
      else yields one entry per timestamp of its rows, holding the collector's
      result for exactly the records with that timestamp, in row order. */
  function ReadSeries<V, K(==), M>(series: seq<Series<V>>, stamp: Option<V> -> Option<K>,
                                   collect: seq<Record<V>> -> M)
    : (r: Result<Option<map<K, M>>, ReadError>)
    ensures r == Success(None) <==> |series| == 0
    ensures |series| > 0 ==>
      var rows := series[0].rows;
      && (r.Failure? <==> exists i :: 0 <= i < |rows| && stamp(Get(rows[i], "time")).None?)
      && (r.Success? ==>
            && r.value.Some?
            && (forall i :: 0 <= i < |rows| ==> stamp(Get(rows[i], "time")).value in r.value.value)
            && (forall k :: k in r.value.value ==>
                  && (exists i :: 0 <= i < |rows| && stamp(Get(rows[i], "time")) == Some(k))
                  && r.value.value[k] == collect(Grouping.Members(Records(rows), KeyOf(stamp), k))))
  {
    if |series| == 0 then Success(None)
    else
      var recs := Records(series[0].rows);
      match Grouping.GroupingBy(recs, KeyOf(stamp), collect)
      case Failure(_) => Failure(NullTimestamp)
      case Success(groups) => Success(Some(groups))
  }

  /** The public `read(since, groupBy)`: a null argument is replaced by the
      configured default, the count query is sent to the configured
      database, and its result is grouped as `ReadSeries` describes. */
  function Read<V, K(==), M>(cfg: StoreConfig, since: Option<string>, groupBy: Option<string>,
                             query: (string, string) -> seq<Series<V>>,
                             stamp: Option<V> -> Option<K>, collect: seq<Record<V>> -> M)
    : (r: Result<Option<map<K, M>>, ReadError>)
    ensures r == ReadSeries(query(cfg.databaseName,
                                  "select count(" + ColumnName + ") from " + SeriesName + " group by time("
                                  + JavaFormat.Show(if groupBy.Some? then groupBy else cfg.defaultGroupingInterval)
                                  + "), " + ColumnName + " where time > now() - "
                                  + JavaFormat.Show(if since.Some? then since else cfg.defaultTimeLimit)),
                            stamp, collect)
  {
    var interval := groupBy.OrElse(cfg.defaultGroupingInterval);
    var limit := since.OrElse(cfg.defaultTimeLimit);
    ReadSeries(query(cfg.databaseName, QueryText(interval, limit)), stamp, collect)
  }

  /** What `read` sends to the store: given arguments are used as they are,
      missing ones are replaced by the configured defaults, and the query
      text is the fixed count query over the `class` column of
      `classification`. */
  lemma ReadQueriesWithDefaults<V, K, M>(cfg: StoreConfig, since: Option<string>, groupBy: Option<string>,
                                          query: (string, string) -> seq<Series<V>>,
                                          stamp: Option<V> -> Option<K>, collect: seq<Record<V>> -> M)
    ensures Read(cfg, since, groupBy, query, stamp, collect) ==
      ReadSeries(query(cfg.databaseName,
                       "select count(" + ColumnName + ") from " + SeriesName + " group by time("
                       + JavaFormat.Show(if groupBy.Some? then groupBy else cfg.defaultGroupingInterval)
                       + "), " + ColumnName + " where time > now() - "
                       + JavaFormat.Show(if since.Some? then since else cfg.defaultTimeLimit)),
                 stamp, collect)
    ensures Read(cfg, None, groupBy, query, stamp, collect) ==
      Read(cfg, cfg.defaultTimeLimit, groupBy, query, stamp, collect)
    ensures Read(cfg, since, None, query, stamp, collect) ==
      Read(cfg, since, cfg.defaultGroupingInterval, query, stamp, collect)
  {
  }

  /** Series after the first never affect a read. */
  lemma OnlyFirstSeriesCounts<V, K, M>(first: Series<V>, later: seq<Series<V>>, later': seq<Series<V>>,
                                       stamp: Option<V> -> Option<K>, collect: seq<Record<V>> -> M)
    ensures ReadSeries([first] + later, stamp, collect) == ReadSeries([first] + later', stamp, collect)
  {
  }

  /** A record depends on the `time`, `class` and `count` columns of its row
      and on nothing else. */
  lemma RecordUsesThreeColumns<V>(row: Row<V>, row': Row<V>)
    requires forall c :: c in ["time", "class", "count"] ==> Get(row, c) == Get(row', c)
    ensures ToRecord(row) == ToRecord(row')
  {
    assert "time" in ["time", "class", "count"];
    assert "class" in ["time", "class", "count"];
    assert "count" in ["time", "class", "count"];
  }

  /** The column `save` writes is the one the read query counts, in the
      series the read query selects from. */
  lemma SavedColumnIsCounted<V>(cfg: StoreConfig, value: V, interval: Option<string>, limit: Option<string>)
    ensures var w := Save(cfg, value);
      var prefix := "select count(" + w.series.columns[0] + ") from " + w.series.name;
      QueryText(interval, limit)[..|prefix|] == prefix
  {
  }

  /** When every row of the first series has a timestamp, the read succeeds
      and its keys are exactly those timestamps. */
  lemma {:induction false} KeysAreStamps<V, K, M>(series: seq<Series<V>>, stamp: Option<V> -> Option<K>,
                                                  collect: seq<Record<V>> -> M)
    requires |series| > 0
    requires forall i :: 0 <= i < |series[0].rows| ==> stamp(Get(series[0].rows[i], "time")).Some?
    ensures var r := ReadSeries(series, stamp, collect);
      && r.Success? && r.value.Some?
      && r.value.value.Keys == set i | 0 <= i < |series[0].rows| :: stamp(Get(series[0].rows[i], "time")).value
  {
    var rows := series[0].rows;
    var r := ReadSeries(series, stamp, collect);
    var stamps := set i | 0 <= i < |rows| :: stamp(Get(rows[i], "time")).value;
    assert r.Success?;
    forall k | k in r.value.value
      ensures k in stamps
    {
      var i :| 0 <= i < |rows| && stamp(Get(rows[i], "time")) == Some(k);
    }
  }

  /** When a timestamp is the time value itself and every row has one, the
      read's keys are exactly the time values of the first series' rows. */
  lemma {:induction false} KeysAreTimeValues<V, M>(series: seq<Series<V>>, stamp: Option<V> -> Option<V>,
                                                  collect: seq<Record<V>> -> M)
    requires |series| > 0
    requires forall i :: 0 <= i < |series[0].rows| ==> "time" in series[0].rows[i]
    requires forall x :: stamp(Some(x)) == Some(x)
    ensures var r := ReadSeries(series, stamp, collect);
      && r.Success? && r.value.Some?
      && r.value.value.Keys == set i | 0 <= i < |series[0].rows| :: series[0].rows[i]["time"]
  {
    var rows := series[0].rows;
    forall i | 0 <= i < |rows|
      ensures stamp(Get(rows[i], "time")) == Some(rows[i]["time"])
    {
    }
    KeysAreStamps(series, stamp, collect);
  }

  /** A row without a `time` column makes the read fail whenever a missing
      time gives no timestamp. */
  lemma MissingTimeFails<V, K, M>(series: seq<Series<V>>, i: nat,
                                  stamp: Option<V> -> Option<K>, collect: seq<Record<V>> -> M)
    requires |series| > 0 && i < |series[0].rows|
    requires "time" !in series[0].rows[i]
    requires stamp(None) == None
    ensures ReadSeries(series, stamp, collect) == Failure(NullTimestamp)
  {
    assert stamp(Get(series[0].rows[i], "time")).None?;
  }

}
