/** Java's `String.format` restricted to the two conversions the query
    builder uses: `%s`, which prints the next argument (a null argument
    prints as `null`), and `%%`, which prints a percent sign. Any other use of
    `%` is rejected before anything is printed, as Java's formatter parses
    the whole template first; a `%s` with no argument left fails; arguments
    beyond the last `%s` are ignored. */
module JavaFormat {
  import opened Wrappers

  /** Java's `UnknownFormatConversionException` and
      `MissingFormatArgumentException`. */
  datatype FormatError = UnknownConversion | MissingArgument

  /** How `%s` prints one argument. */
  function Show(arg: Option<string>): string
  {
    match arg
    case None => "null"
    case Some(s) => s
  }

  /** Every `%` in `t` begins `%s` or `%%`. */
  predicate WellFormed(t: string)
    decreases |t|
  {
    if |t| == 0 then true
    else if t[0] != '%' then WellFormed(t[1..])
    else |t| >= 2 && (t[1] == 's' || t[1] == '%') && WellFormed(t[2..])
  }

  /** The number of `%s` conversions in a well-formed template. */
  function Conversions(t: string): nat
    requires WellFormed(t)
    decreases |t|
  {
    if |t| == 0 then 0
    else if t[0] != '%' then Conversions(t[1..])
    else (if t[1] == 's' then 1 else 0) + Conversions(t[2..])
  }

  /** `r` with `prefix` put in front of its text, failures passed along. */
  function Prepend(prefix: string, r: Result<string, FormatError>): Result<string, FormatError>
  {
    match r
    case Success(s) => Success(prefix + s)
    case Failure(e) => Failure(e)
  }

  /** Printing a well-formed template left to right. */
  function Substitute(t: string, args: seq<Option<string>>): (r: Result<string, FormatError>)
    requires WellFormed(t)
    ensures r.Failure? <==> |args| < Conversions(t)
    ensures r.Failure? ==> r.error == MissingArgument
    decreases |t|
  {
    if |t| == 0 then Success("")
    else if t[0] != '%' then Prepend([t[0]], Substitute(t[1..], args))
    else if t[1] == '%' then Prepend("%", Substitute(t[2..], args))
    else if |args| == 0 then Failure(MissingArgument)
    else Prepend(Show(args[0]), Substitute(t[2..], args[1..]))
  }

  /** `String.format(t, args)`: fails exactly when the template uses a
      conversion other than `%s`/`%%`, or has more `%s` than arguments. */
  function Format(t: string, args: seq<Option<string>>): (r: Result<string, FormatError>)
    ensures r.Failure? <==> !WellFormed(t) || |args| < Conversions(t)
    ensures r.Failure? ==> (r.error == UnknownConversion <==> !WellFormed(t))
  {
    if !WellFormed(t) then Failure(UnknownConversion) else Substitute(t, args)
  }

  /** The template whose literal pieces are `pieces`, with a `%s` between
      neighbours. */
  function Template(pieces: seq<string>): string
  {
    if |pieces| == 0 then ""
    else if |pieces| == 1 then pieces[0]
    else pieces[0] + "%s" + Template(pieces[1..])
  }

  /** The pieces with the printed arguments between them. */
  function Filled(pieces: seq<string>, args: seq<Option<string>>): string
    requires |args| == |pieces| - 1
  {
    if |pieces| <= 1 then (if |pieces| == 0 then "" else pieces[0])
    else pieces[0] + Show(args[0]) + Filled(pieces[1..], args[1..])
  }

  /** Text without `%` is printed as it stands, in front of whatever the rest
      of the template prints. */
  lemma {:induction false} LiteralPrefix(a: string, t: string, args: seq<Option<string>>)
    requires '%' !in a
    ensures WellFormed(a + t) == WellFormed(t)
    ensures WellFormed(t) ==> Substitute(a + t, args) == Prepend(a, Substitute(t, args))
    decreases |a|
  {
    if |a| == 0 {
      assert a + t == t;
      if WellFormed(t) {
        match Substitute(t, args)
        case Success(s) =>
          assert a + s == s;
        case Failure(_) =>
      }
    } else {
      assert a[0] in a;
      assert (a + t)[0] == a[0];
      assert (a + t)[1..] == a[1..] + t;
      assert forall c :: c in a[1..] ==> c in a;
      LiteralPrefix(a[1..], t, args);
      if WellFormed(t) {
        match Substitute(t, args)
        case Success(s) =>
          assert [a[0]] + (a[1..] + s) == a + s;
        case Failure(_) =>
      }
    }
  }

  /** A `%s` prints the next argument in front of what the rest prints. */
  lemma ConversionStep(t: string, args: seq<Option<string>>)
    requires WellFormed(t) && |args| > 0
    ensures WellFormed("%s" + t)
    ensures Substitute("%s" + t, args) == Prepend(Show(args[0]), Substitute(t, args[1..]))
  {
    var st := "%s" + t;
    assert st[0] == '%' && st[1] == 's' && st[2..] == t;
  }

  /** A `%`-free piece and a `%s` in front of a template that prints `tail`
      from the remaining arguments. */
  lemma PieceStep(a: string, t: string, args: seq<Option<string>>, tail: string)
    requires '%' !in a && WellFormed(t) && |args| > 0
    requires Substitute(t, args[1..]) == Success(tail)
    ensures WellFormed(a + ("%s" + t))
    ensures Substitute(a + ("%s" + t), args) == Success(a + (Show(args[0]) + tail))
  {
    ConversionStep(t, args);
    LiteralPrefix(a, "%s" + t, args);
  }

  /** A template built from `%`-free pieces prints the pieces with the
      arguments between them, whatever extra arguments follow. */
  lemma {:induction false} FormatTemplate(pieces: seq<string>, args: seq<Option<string>>,
                                          extra: seq<Option<string>>)
    requires |pieces| >= 1
    requires forall k :: 0 <= k < |pieces| ==> '%' !in pieces[k]
    requires |args| == |pieces| - 1
    ensures Format(Template(pieces), args + extra) == Success(Filled(pieces, args))
    decreases |pieces|
  {
    var a := pieces[0];
    assert '%' !in a;
    var all := args + extra;
    if |pieces| == 1 {
      LiteralPrefix(a, "", all);
      assert a + "" == a;
    } else {
      var rest := pieces[1..];
      FormatTemplate(rest, args[1..], extra);
      assert all[1..] == args[1..] + extra;
      assert all[0] == args[0];
      var tail := Filled(rest, args[1..]);
      assert WellFormed(Template(rest)) && Substitute(Template(rest), all[1..]) == Success(tail);
      PieceStep(a, Template(rest), all, tail);
      assert Template(pieces) == a + ("%s" + Template(rest));
      assert Filled(pieces, args) == a + (Show(args[0]) + tail);
    }
  }
}
