/** The MQTT callback `OnFeatureVectorArrived.messageArrived`: one text
    message is split on commas, every token parsed as a number, the first
    number taken as the score and the rest as the feature array; the feature
    array goes to the injected scoring engine and, when the engine answers
    `false` (an anomaly), the score goes to the injected store.

    Numbers are an opaque type `N`; `Float.parseFloat` is the parameter
    `parse`, which answers `None` where Java throws `NumberFormatException`.
    The scoring engine is the parameter `engine`, which answers `None` where
    the Java engine throws or returns a null `Boolean` (unboxing a null
    throws too). The two callbacks are recorded as events of a trace. */
module Ingestion {
  import opened Wrappers
  import JavaSplit

  /** One call the handler makes into an injected collaborator. */
  datatype Event<N> =
    | Score(features: seq<N>)  // scoringEngine.apply(featureArray)
    | Store(score: N)          // scoringStore.accept(score)

  /** How the handling of one message ends. */
  datatype Disposition =
    | BadNumber            // a token did not parse: the exception leaves the handler
    | TooShort(size: nat)  // fewer than two numbers: a warning, the message is dropped
    | EngineFailed         // the engine threw or gave no answer: the exception leaves the handler
    | Normal               // the engine answered true: nothing is stored
    | Anomaly              // the engine answered false: the score is stored

  /** The calls made while handling one message, and how it ended. */
  datatype Handled<N> = Handled(trace: seq<Event<N>>, disposition: Disposition)

  /** The feature arrays handed to the scoring engine, in call order. */
  function ScoreCalls<N>(t: seq<Event<N>>): seq<seq<N>>
  {
    if |t| == 0 then []
    else (if t[0].Score? then [t[0].features] else []) + ScoreCalls(t[1..])
  }

  /** The scores handed to the store, in call order. */
  function StoreCalls<N>(t: seq<Event<N>>): seq<N>
  {
    if |t| == 0 then []
    else (if t[0].Store? then [t[0].score] else []) + StoreCalls(t[1..])
  }

  /** The calls seen in a trace that scores and then stores. */
  lemma CallsOfScoreThenStore<N>(features: seq<N>, score: N)
    ensures ScoreCalls([Score(features), Store(score)]) == [features]
    ensures StoreCalls([Score(features), Store(score)]) == [score]
  {
    var t := [Score(features), Store(score)];
    assert t[1..] == [Store(score)];
    assert t[1..][1..] == [];
    assert StoreCalls(t[1..][1..]) == [];
    assert StoreCalls(t[1..]) == [score];
    assert ScoreCalls(t[1..][1..]) == [];
    assert ScoreCalls(t[1..]) == [];
  }

  /** Every token parsed in order, or `None` as soon as one fails: the stream
      `map(Float::parseFloat).collect(toList())`. */
  function ParseAll<N>(tokens: seq<string>, parse: string -> Option<N>): (r: Option<seq<N>>)
    ensures r.Some? <==> forall k :: 0 <= k < |tokens| ==> parse(tokens[k]).Some?
    ensures r.Some? ==>
      && |r.value| == |tokens|
      && forall k :: 0 <= k < |tokens| ==> parse(tokens[k]) == Some(r.value[k])
  {
    if |tokens| == 0 then Some([])
    else match parse(tokens[0])
      case None => None
      case Some(x) =>
        match ParseAll(tokens[1..], parse)
        case None => None
        case Some(xs) => Some([x] + xs)
  }

  /** `getDataVector`: the payload's comma-separated tokens as numbers. */
  function DataVector<N>(payload: string, parse: string -> Option<N>): (r: Option<seq<N>>)
    ensures r.Some? <==> forall t :: t in JavaSplit.Split(payload) ==> parse(t).Some?
    ensures r.Some? ==>
      && |r.value| == |JavaSplit.Split(payload)|
      && forall k :: 0 <= k < |r.value| ==> parse(JavaSplit.Split(payload)[k]) == Some(r.value[k])
  {
    ParseAll(JavaSplit.Split(payload), parse)
  }

  /** `getFeatureArray`: a fresh array exactly one shorter than the data
      vector, holding its elements from index 1 on, in order. Java's
      `subList(1, size)` throws on an empty list, hence the precondition. */
  method FeatureArray<N(0)>(data: seq<N>) returns (a: array<N>)
    requires |data| >= 1
    ensures fresh(a)
    ensures a.Length == |data| - 1
    ensures forall k :: 0 <= k < a.Length ==> a[k] == data[k + 1]
  {
    var features := data[1..];
    a := new N[|features|];
    var i := 0;
    while i < a.Length
      invariant 0 <= i <= a.Length
      invariant forall k :: 0 <= k < i ==> a[k] == data[k + 1]
    {
      a[i] := features[i];
      i := i + 1;
    }
  }

  /** `messageArrived` as a function of the payload and the two injected
      behaviours. A bad token or a short vector makes no call at all; a
      well-formed message makes exactly one scoring call with everything but
      the first number, and one store call with the first number exactly
      when the engine reports an anomaly. */
  function MessageArrived<N>(payload: string, parse: string -> Option<N>,
                             engine: seq<N> -> Option<bool>): (r: Handled<N>)
    ensures DataVector(payload, parse).None? ==> r == Handled([], BadNumber)
    ensures DataVector(payload, parse).Some? && |DataVector(payload, parse).value| < 2 ==>
      r == Handled([], TooShort(|DataVector(payload, parse).value|))
    ensures DataVector(payload, parse).Some? && |DataVector(payload, parse).value| >= 2 ==>
      var v := DataVector(payload, parse).value;
      && ScoreCalls(r.trace) == [v[1..]]
      && (StoreCalls(r.trace) == [v[0]] <==> engine(v[1..]) == Some(false))
      && (StoreCalls(r.trace) == [] <==> engine(v[1..]) != Some(false))
      && r.trace[0] == Score(v[1..])
      && (r.disposition == EngineFailed <==> engine(v[1..]).None?)
      && (r.disposition == Normal <==> engine(v[1..]) == Some(true))
    ensures |StoreCalls(r.trace)| <= |ScoreCalls(r.trace)| <= 1
    ensures r.disposition == Anomaly <==> |StoreCalls(r.trace)| == 1
  {
    match DataVector(payload, parse)
    case None => Handled([], BadNumber)
    case Some(v) =>
      if |v| < 2 then Handled([], TooShort(|v|))
      else
        var score, features := v[0], v[1..];
        match engine(features)
        case None => Handled([Score(features)], EngineFailed)
        case Some(normal) =>
          if !normal then
            CallsOfScoreThenStore(features, score);
            Handled([Score(features), Store(score)], Anomaly)
          else Handled([Score(features)], Normal)
  }

  /** The handler written the way the Java code runs it, copying the feature
      array element by element; it makes the same calls and ends the same way
      as `MessageArrived`. */
  method HandleMessage<N(0)>(payload: string, parse: string -> Option<N>,
                             engine: seq<N> -> Option<bool>)
    returns (trace: seq<Event<N>>, disposition: Disposition)
    ensures Handled(trace, disposition) == MessageArrived(payload, parse, engine)
  {
    var data := DataVector(payload, parse);
    if data.None? {
      return [], BadNumber;
    }
    var v := data.value;
    if |v| < 2 {
      return [], TooShort(|v|);
    }
    var score := v[0];
    var featureArray := FeatureArray(v);
    var features := featureArray[..];
    assert features == v[1..];
    trace := [Score(features)];
    var verdict := engine(features);
    if verdict.None? {
      disposition := EngineFailed;
    } else if !verdict.value {
      trace := trace + [Store(score)];
      disposition := Anomaly;
    } else {
      disposition := Normal;
    }
  }

  /** A single token that fails to parse aborts the message before any call. */
  lemma BadTokenMakesNoCalls<N>(payload: string, parse: string -> Option<N>,
                                engine: seq<N> -> Option<bool>, k: nat)
    requires k < |JavaSplit.Split(payload)|
    requires parse(JavaSplit.Split(payload)[k]).None?
    ensures MessageArrived(payload, parse, engine) == Handled([], BadNumber)
  {
  }

  /** An empty payload is one empty token, which `Float.parseFloat` rejects:
      the message fails at parsing, not at the size check. */
  lemma EmptyPayloadFailsToParse<N>(parse: string -> Option<N>, engine: seq<N> -> Option<bool>)
    requires parse("") == None
    ensures MessageArrived("", parse, engine) == Handled([], BadNumber)
  {
    JavaSplit.SplitEmpty();
  }

  /** A lone comma splits into no tokens and is dropped at the size check,
      whatever the parser does. */
  lemma LoneCommaIsTooShort<N>(parse: string -> Option<N>, engine: seq<N> -> Option<bool>)
    ensures MessageArrived(",", parse, engine) == Handled([], TooShort(0))
  {
    JavaSplit.SplitLoneComma();
  }

  /** The four tokens of `0.0,1.2,3.4,5.6`. */
  lemma {:induction false} SplitFourFields()
    ensures JavaSplit.Split("0.0,1.2,3.4,5.6") == ["0.0", "1.2", "3.4", "5.6"]
  {
    var tokens := ["0.0", "1.2", "3.4", "5.6"];
    JoinFourFields();
    forall k | 0 <= k < |tokens|
      ensures JavaSplit.Comma !in tokens[k]
    {
    }
    JavaSplit.SplitJoin(tokens);
  }

  /** The four tokens joined with commas. */
  lemma {:induction false} JoinFourFields()
    ensures JavaSplit.Join(["0.0", "1.2", "3.4", "5.6"]) == "0.0,1.2,3.4,5.6"
  {
    var tokens := ["0.0", "1.2", "3.4", "5.6"];
    JavaSplit.JoinCons("3.4", ["5.6"]);
    assert ["3.4"] + ["5.6"] == tokens[2..];
    JavaSplit.JoinCons("1.2", tokens[2..]);
    assert ["1.2"] + tokens[2..] == tokens[1..];
    JavaSplit.JoinCons("0.0", tokens[1..]);
    assert ["0.0"] + tokens[1..] == tokens;
    assert "3.4" + [JavaSplit.Comma] + "5.6" == "3.4,5.6";
    assert "1.2" + [JavaSplit.Comma] + "3.4,5.6" == "1.2,3.4,5.6";
    assert "0.0" + [JavaSplit.Comma] + "1.2,3.4,5.6" == "0.0,1.2,3.4,5.6";
  }

  /** The payload `0.0,1.2,3.4,5.6` scored as an anomaly: the engine sees the
      last three numbers and the store receives the first. */
  lemma {:induction false} FourFieldAnomaly<N>(parse: string -> Option<N>,
                                               engine: seq<N> -> Option<bool>)
    requires parse("0.0").Some? && parse("1.2").Some? && parse("3.4").Some? && parse("5.6").Some?
    requires engine([parse("1.2").value, parse("3.4").value, parse("5.6").value]) == Some(false)
    ensures MessageArrived("0.0,1.2,3.4,5.6", parse, engine).trace ==
      [Score([parse("1.2").value, parse("3.4").value, parse("5.6").value]), Store(parse("0.0").value)]
  {
    var tokens := ["0.0", "1.2", "3.4", "5.6"];
    var v := [parse("0.0").value, parse("1.2").value, parse("3.4").value, parse("5.6").value];
    assert ParseAll(tokens, parse) == Some(v) by {
      assert tokens[0] == "0.0" && tokens[1] == "1.2" && tokens[2] == "3.4" && tokens[3] == "5.6";
      var r := ParseAll(tokens, parse);
      assert forall k :: 0 <= k < |tokens| ==> parse(tokens[k]).Some?;
      assert |r.value| == 4;
      assert forall k :: 0 <= k < 4 ==> r.value[k] == v[k];
      assert r.value == v;
    }
    assert DataVector("0.0,1.2,3.4,5.6", parse) == Some(v) by {
      SplitFourFields();
    }
    assert v[1..] == [parse("1.2").value, parse("3.4").value, parse("5.6").value];
    CallsOfScoreThenStore(v[1..], v[0]);
  }
}
