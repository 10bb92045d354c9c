/** Values of declared constants and the value-literal parser
    (`parse_value` and `parse_array`, config_parser.py:56-80). */
module Values {
  import opened Results
  import opened Text

  /** A constant is an integer or a list of values (lists may nest). */
  datatype Value = Int(n: int) | List(items: seq<Value>)

  /** The symbol table: declared name to its current value. */
  type Env = map<string, Value>

  /** The values a declaration can produce: digit strings give non-negative
      integers and an array literal always has at least one element. */
  predicate WellFormed(v: Value) {
    match v
    case Int(n) => n >= 0
    case List(items) => |items| > 0 && forall i :: 0 <= i < |items| ==> WellFormed(items[i])
  }

  /** The symbol table only ever binds identifiers, to well-formed values. */
  predicate EnvWellFormed(env: Env) {
    forall x :: x in env ==> IsIdentifier(x) && WellFormed(env[x])
  }

  /** The array test: `text.startswith("array(") and text.endswith(")")`. */
  predicate IsArrayLiteral(text: string) {
    StartsWith(text, "array(") && EndsWith(text, ")")
  }

  /** An array literal is at least `array()` long, starts with `a` and ends with `)`. */
  lemma ArrayLiteralShape(text: string)
    ensures IsArrayLiteral(text) ==> |text| >= 7 && text[0] == 'a' && text[|text| - 1] == ')'
  {
    if IsArrayLiteral(text) {
      assert text[0] == text[..6][0];
      assert text[5] == text[..6][5] == '(';
      assert text[|text| - 1] == text[|text| - 1..][0] == ')';
    }
  }

  /** The text between `array(` and the final `)`: `text[len("array("):-1]`. */
  function Interior(text: string): (r: string)
    requires IsArrayLiteral(text)
    ensures |r| == |text| - 7
  {
    ArrayLiteralShape(text);
    text[6..|text| - 1]
  }

  /** The comma-separated pieces of an array literal's interior, unstripped. */
  function Pieces(text: string): (r: seq<string>)
    requires IsArrayLiteral(text)
    ensures forall i :: 0 <= i < |r| ==> |r[i]| < |text|
  {
    Split(Interior(text), ',')
  }

  /** `parse_value`: an array literal first, then a digit string, then a declared name. */
  function ParseValue(text: string, env: Env): (r: Result<Value>)
    ensures r.Err? ==> r.error.InvalidValue?
    decreases |text|, 2, 0
  {
    if IsArrayLiteral(text) then ParseArray(text, env)
    else if IsDigits(text) then Ok(Int(DigitsValue(text)))
    else if text in env then Ok(env[text])
    else Err(InvalidValue(text))
  }

  /** `parse_array`: every comma of the interior separates two elements. */
  function ParseArray(text: string, env: Env): (r: Result<Value>)
    requires IsArrayLiteral(text)
    ensures r.Err? ==> r.error.InvalidValue?
    decreases |text|, 1, 0
  {
    match ParseItems(Pieces(text), env, |text|)
    case Ok(items) => Ok(List(items))
    case Err(e) => Err(e)
  }

  /** The list comprehension of `parse_array`: each piece is stripped and parsed,
      left to right, and the first failure is the result. */
  function ParseItems(pieces: seq<string>, env: Env, ghost bound: nat): (r: Result<seq<Value>>)
    requires forall i :: 0 <= i < |pieces| ==> |pieces[i]| < bound
    ensures r.Err? ==> r.error.InvalidValue?
    decreases bound, 0, |pieces| + 1
  {
    if pieces == [] then Ok([])
    else
      match ParsePiece(pieces[0], env, bound)
      case Err(e) => Err(e)
      case Ok(v) =>
        match ParseItems(pieces[1..], env, bound)
        case Err(e) => Err(e)
        case Ok(vs) => Ok([v] + vs)
  }

  /** One element of the comprehension: `parse_value(piece.strip())`. */
  function ParsePiece(piece: string, env: Env, ghost bound: nat): (r: Result<Value>)
    requires |piece| < bound
    ensures r.Err? ==> r.error.InvalidValue?
    decreases bound, 0, 0
  {
    ParseValue(Strip(piece), env)
  }

  /** `str(v)`: the decimal form of an integer, `[a, b]` for a list. */
  function Repr(v: Value): string {
    match v
    case Int(n) => DecimalString(n)
    case List(items) => "[" + ReprItems(items) + "]"
  }

  /** `", ".join(str(x) for x in items)`. */
  function ReprItems(items: seq<Value>): string {
    if items == [] then ""
    else if |items| == 1 then Repr(items[0])
    else Repr(items[0]) + ", " + ReprItems(items[1..])
  }

  // ---------------------------------------------------------------------------
  // Properties of the literal parser.

  /** A successful comprehension is the first piece's value followed by the rest's. */
  lemma ParseItemsCons(pieces: seq<string>, env: Env, bound: nat)
    requires forall i :: 0 <= i < |pieces| ==> |pieces[i]| < bound
    requires pieces != [] && ParseItems(pieces, env, bound).Ok?
    ensures ParseValue(Strip(pieces[0]), env).Ok? && ParseItems(pieces[1..], env, bound).Ok?
    ensures ParseItems(pieces, env, bound).value ==
            [ParseValue(Strip(pieces[0]), env).value] + ParseItems(pieces[1..], env, bound).value
  {
  }

  /** A successful comprehension has one value per piece. */
  lemma {:induction false} ParseItemsLength(pieces: seq<string>, env: Env, bound: nat)
    requires forall i :: 0 <= i < |pieces| ==> |pieces[i]| < bound
    requires ParseItems(pieces, env, bound).Ok?
    ensures |ParseItems(pieces, env, bound).value| == |pieces|
  {
    if pieces != [] {
      var tail := pieces[1..];
      assert forall i :: 0 <= i < |tail| ==> tail[i] == pieces[i + 1];
      ParseItemsCons(pieces, env, bound);
      ParseItemsLength(tail, env, bound);
    }
  }

  /** Value `i` of a successful comprehension is the value of stripped piece `i`. */
  lemma {:induction false} ParseItemsAt(pieces: seq<string>, env: Env, bound: nat, i: nat)
    requires forall i :: 0 <= i < |pieces| ==> |pieces[i]| < bound
    requires ParseItems(pieces, env, bound).Ok? && i < |pieces|
    ensures i < |ParseItems(pieces, env, bound).value|
    ensures ParseValue(Strip(pieces[i]), env) == Ok(ParseItems(pieces, env, bound).value[i])
    decreases i
  {
    ParseItemsCons(pieces, env, bound);
    ParseItemsLength(pieces, env, bound);
    if i > 0 {
      var tail := pieces[1..];
      assert forall i :: 0 <= i < |tail| ==> tail[i] == pieces[i + 1];
      ParseItemsAt(tail, env, bound, i - 1);
      assert tail[i - 1] == pieces[i];
    }
  }

  lemma {:induction false} ParseItemsAllOk(pieces: seq<string>, env: Env, bound: nat)
    requires forall i :: 0 <= i < |pieces| ==> |pieces[i]| < bound
    requires forall i :: 0 <= i < |pieces| ==> ParseValue(Strip(pieces[i]), env).Ok?
    ensures ParseItems(pieces, env, bound).Ok?
  {
    if pieces != [] {
      assert ParsePiece(pieces[0], env, bound).Ok?;
      ParseItemsAllOk(pieces[1..], env, bound);
    }
  }

  lemma {:induction false} ParseItemsFirstError(pieces: seq<string>, env: Env, bound: nat)
    requires forall i :: 0 <= i < |pieces| ==> |pieces[i]| < bound
    requires ParseItems(pieces, env, bound).Err?
    ensures exists k :: 0 <= k < |pieces| && ParseValue(Strip(pieces[k]), env) == Err(ParseItems(pieces, env, bound).error) &&
                        forall i :: 0 <= i < k ==> ParseValue(Strip(pieces[i]), env).Ok?
  {
    var e := ParseItems(pieces, env, bound).error;
    if ParsePiece(pieces[0], env, bound).Ok? {
      ParseItemsFirstError(pieces[1..], env, bound);
      var k :| 0 <= k < |pieces| - 1 && ParseValue(Strip(pieces[1..][k]), env) == Err(e) &&
               forall i :: 0 <= i < k ==> ParseValue(Strip(pieces[1..][i]), env).Ok?;
      assert pieces[k + 1] == pieces[1..][k];
      forall i | 0 < i < k + 1 ensures ParseValue(Strip(pieces[i]), env).Ok? {
        assert pieces[i] == pieces[1..][i - 1];
      }
    } else {
      assert ParseValue(Strip(pieces[0]), env) == Err(e);
    }
  }

  /** An array literal whose interior holds `k` commas parses to a list of exactly `k + 1`
      values, element `i` being the value of the `i`-th comma-separated piece, stripped. */
  lemma ParseArrayElements(text: string, env: Env)
    requires IsArrayLiteral(text)
    requires ParseValue(text, env).Ok?
    ensures ParseValue(text, env).value.List?
    ensures |ParseValue(text, env).value.items| == |Pieces(text)| == Count(Interior(text), ',') + 1
    ensures forall i :: 0 <= i < |Pieces(text)| ==>
      ParseValue(Strip(Pieces(text)[i]), env) == Ok(ParseValue(text, env).value.items[i])
  {
    ParseItemsLength(Pieces(text), env, |text|);
    forall i | 0 <= i < |Pieces(text)|
      ensures ParseValue(Strip(Pieces(text)[i]), env) == Ok(ParseValue(text, env).value.items[i])
    {
      ParseItemsAt(Pieces(text), env, |text|, i);
    }
  }

  /** An array literal parses as soon as every stripped comma-separated piece of its
      interior does. */
  lemma ParseArrayComplete(text: string, env: Env)
    requires IsArrayLiteral(text)
    requires forall i :: 0 <= i < |Pieces(text)| ==> ParseValue(Strip(Pieces(text)[i]), env).Ok?
    ensures ParseValue(text, env).Ok?
  {
    ParseItemsAllOk(Pieces(text), env, |text|);
  }

  /** A failing array literal fails with the error of its first piece that does not parse. */
  lemma ParseArrayFirstError(text: string, env: Env)
    requires IsArrayLiteral(text)
    requires ParseValue(text, env).Err?
    ensures exists k :: 0 <= k < |Pieces(text)| && ParseValue(Strip(Pieces(text)[k]), env) == ParseValue(text, env) &&
                        forall i :: 0 <= i < k ==> ParseValue(Strip(Pieces(text)[i]), env).Ok?
  {
    ParseItemsFirstError(Pieces(text), env, |text|);
  }

  /** `array()` is rejected: its single, empty piece is neither a number nor a name. */
  lemma EmptyArrayRejected(env: Env)
    requires EnvWellFormed(env)
    ensures ParseValue("array()", env) == Err(InvalidValue(""))
  {
    var text := "array()";
    assert IsArrayLiteral(text);
    assert Interior(text) == "";
    assert Pieces(text) == [""];
    assert Strip("") == "";
    assert !IsArrayLiteral("");
    assert "" !in env;
    assert ParsePiece("", env, 7) == Err(InvalidValue(""));
    assert ParseItems([""], env, 7) == Err(InvalidValue(""));
  }

  /** A digit string, which is no array literal, is read as its decimal value,
      whatever names are declared. */
  lemma DigitsParse(text: string, env: Env)
    requires IsDigits(text)
    ensures ParseValue(text, env) == Ok(Int(DigitsValue(text)))
  {
    ArrayLiteralShape(text);
    assert IsDigit(text[0]);
  }

  /** An identifier is neither an array literal nor a digit string, so it resolves
      to its current binding when declared and is rejected otherwise. */
  lemma NameParse(name: string, env: Env)
    requires IsIdentifier(name)
    ensures name in env ==> ParseValue(name, env) == Ok(env[name])
    ensures name !in env ==> ParseValue(name, env) == Err(InvalidValue(name))
  {
    ArrayLiteralShape(name);
    assert IsIdentStart(name[0]);
    assert |name| > 1 ==> IsIdentChar(name[|name| - 1]);
  }

  /** What a declaration can bind is well formed when the table is: every integer
      is non-negative and every list has at least one element. */
  lemma {:induction false} ParseValueWellFormed(text: string, env: Env)
    requires EnvWellFormed(env)
    requires ParseValue(text, env).Ok?
    ensures WellFormed(ParseValue(text, env).value)
    decreases |text|
  {
    if IsArrayLiteral(text) {
      ParseArrayElements(text, env);
      var pieces := Split(Interior(text), ',');
      var items := ParseValue(text, env).value.items;
      forall i | 0 <= i < |items| ensures WellFormed(items[i]) {
        ParseValueWellFormed(Strip(pieces[i]), env);
      }
    }
  }

  /** The decimal forms of `xs`. */
  function NatStrings(xs: seq<nat>): (r: seq<string>)
    ensures |r| == |xs| && forall i :: 0 <= i < |xs| ==> r[i] == NatString(xs[i])
  {
    if xs == [] then [] else [NatString(xs[0])] + NatStrings(xs[1..])
  }

  /** The integer values of `xs`. */
  function Ints(xs: seq<nat>): (r: seq<Value>)
    ensures |r| == |xs| && forall i :: 0 <= i < |xs| ==> r[i] == Int(xs[i])
  {
    if xs == [] then [] else [Int(xs[0])] + Ints(xs[1..])
  }

  lemma ArrayTextPieces(xs: seq<nat>)
    requires |xs| > 0
    ensures IsArrayLiteral("array(" + Join(NatStrings(xs), ",") + ")")
    ensures Pieces("array(" + Join(NatStrings(xs), ",") + ")") == NatStrings(xs)
  {
    var pieces := NatStrings(xs);
    var inner := Join(pieces, ",");
    var text := "array(" + inner + ")";
    assert text[..6] == "array(";
    assert text[|text| - 1..] == ")";
    assert Interior(text) == inner;
    forall i | 0 <= i < |pieces| ensures ',' !in pieces[i] {
      assert IsDigits(pieces[i]);
    }
    SplitJoin(pieces, ',');
  }

  /** An array literal written from natural numbers reads back as the list of those numbers. */
  lemma ArrayRoundTrip(xs: seq<nat>, env: Env)
    requires |xs| > 0
    ensures ParseValue("array(" + Join(NatStrings(xs), ",") + ")", env) == Ok(List(Ints(xs)))
  {
    var pieces := NatStrings(xs);
    var text := "array(" + Join(pieces, ",") + ")";
    ArrayTextPieces(xs);
    forall i | 0 <= i < |xs|
      ensures ParseValue(Strip(pieces[i]), env) == Ok(Int(xs[i]))
    {
      assert NoSpaces(pieces[i]);
      StripSpec(pieces[i]);
      NatStringRoundTrip(xs[i]);
      DigitsParse(pieces[i], env);
    }
    ParseArrayComplete(text, env);
    ParseArrayElements(text, env);
    var items := ParseValue(text, env).value.items;
    assert items == Ints(xs);
  }
}
