/** The object itself (config_parser.py:5-138): a symbol table of declared
    constants and the children of the `config` root element, updated in place
    by declarations, and the line dispatcher in front of them. */
module Parser {
  import opened Results
  import opened Text
  import opened Values
  import opened Declaration
  import opened Expression
  import opened Document

  /** What a declaration line binds: the name matched at line 44 and its value read
      against the current table.  A line the pattern rejects, and a value text
      `parse_value` rejects, are the two ways it fails. */
  function Declare(env: Env, line: string): (r: Result<(string, Value)>)
    ensures MatchDeclaration(line).None? <==> r == Err(InvalidDeclaration(line))
    ensures r.Err? ==> r.error == InvalidDeclaration(line) || r.error.InvalidValue?
    ensures r.Ok? ==> IsIdentifier(r.value.0)
  {
    match MatchDeclaration(line)
    case None => Err(InvalidDeclaration(line))
    case Some(groups) =>
      MatchDeclarationGroups(line);
      (match ParseValue(groups.1, env)
       case Err(e) => Err(e)
       case Ok(v) => Ok((groups.0, v)))
  }

  /** A declaration against a well-formed table binds a well-formed value, so the
      table stays well formed. */
  lemma DeclareWellFormed(env: Env, line: string)
    requires EnvWellFormed(env) && Declare(env, line).Ok?
    ensures WellFormed(Declare(env, line).value.1)
    ensures EnvWellFormed(env[Declare(env, line).value.0 := Declare(env, line).value.1])
  {
    ParseValueWellFormed(MatchDeclaration(line).value.1, env);
  }

  /** `global <name> = <digits>;` binds the name to that number. */
  lemma DeclareNumber(env: Env, name: string, n: nat)
    requires IsIdentifier(name)
    ensures Declare(env, DeclarationLine(name, NatString(n))) == Ok((name, Int(n)))
  {
    var text := NatString(n);
    NatStringRoundTrip(n);
    assert IsDigit(text[0]);
    assert forall i :: 0 <= i < |text| ==> IsDigit(text[i]);
    DeclarationLineMatches(name, text);
    DigitsParse(text, env);
  }

  /** `global <name> = array(<n1>,...,<nk>);` binds the name to the list of those numbers. */
  lemma DeclareArray(env: Env, name: string, xs: seq<nat>)
    requires IsIdentifier(name) && |xs| > 0
    ensures Declare(env, DeclarationLine(name, "array(" + Join(NatStrings(xs), ",") + ")")) ==
            Ok((name, List(Ints(xs))))
  {
    var text := "array(" + Join(NatStrings(xs), ",") + ")";
    ArrayTextFits(xs);
    DeclarationLineMatches(name, text);
    ArrayRoundTrip(xs, env);
  }

  /** An array literal of numbers can stand as the value of a declaration line. */
  lemma ArrayTextFits(xs: seq<nat>)
    ensures var text := "array(" + Join(NatStrings(xs), ",") + ")";
      text != [] && !IsSpace(text[0]) && '\n' !in text && ';' !in text
  {
    var inner := Join(NatStrings(xs), ",");
    var text := "array(" + inner + ")";
    NatStringsJoin(xs);
    forall i | 0 <= i < |text| ensures text[i] != '\n' && text[i] != ';' {
      if 6 <= i < 6 + |inner| {
        assert text[i] == inner[i - 6];
      }
    }
  }

  /** The comma-joined decimal forms hold only digits and commas. */
  lemma {:induction false} NatStringsJoin(xs: seq<nat>)
    ensures forall i :: 0 <= i < |Join(NatStrings(xs), ",")| ==>
      IsDigit(Join(NatStrings(xs), ",")[i]) || Join(NatStrings(xs), ",")[i] == ','
  {
    if |xs| > 1 {
      NatStringsJoin(xs[1..]);
      assert NatStrings(xs)[1..] == NatStrings(xs[1..]);
    }
  }

  /** The effect of a declaration on the two stores, from `env0`/`nodes0` to
      `env1`/`nodes1`, with `r` its outcome. */
  ghost predicate Declared(env0: Env, nodes0: seq<Element>, env1: Env, nodes1: seq<Element>, line: string,
                           r: Result<()>) {
    match Declare(env0, line)
    case Err(e) => r == Err(e) && env1 == env0 && nodes1 == nodes0
    case Ok(binding) =>
      r == Ok(()) && env1 == env0[binding.0 := binding.1] &&
      nodes1 == nodes0 + [ConstantElement(binding.0, binding.1)]
  }

  /** The table and the document agree: the names the table binds are the names of
      the document's constants, and the last node of each name describes the value
      the table holds for it. */
  predicate Agree(env: Env, nodes: seq<Element>) {
    Latest(nodes).Keys == env.Keys &&
    forall x :: x in env ==> Latest(nodes)[x] == ConstantElement(x, env[x])
  }

  /** A binding recorded in both stores keeps them in agreement, overwriting an earlier
      binding of the same name in the table while the earlier node stays in place. */
  lemma AgreeAfterDeclare(env: Env, nodes: seq<Element>, name: string, v: Value)
    requires Agree(env, nodes)
    ensures Agree(env[name := v], nodes + [ConstantElement(name, v)])
  {
    LatestAppend(nodes, ConstantElement(name, v));
    ConstantElementContent(name, v);
  }

  class ConfigParser {
    /** `self.constants`. */
    var constants: Env
    /** The children of `self.xml_root`, in document order. */
    var nodes: seq<Element>

    ghost predicate Valid()
      reads this
    {
      EnvWellFormed(constants) && Agree(constants, nodes) &&
      forall i :: 0 <= i < |nodes| ==> nodes[i].tag == "constant"
    }

    /** An empty table and an empty `config` root. */
    constructor ()
      ensures Valid()
      ensures constants == map[] && nodes == []
    {
      constants := map[];
      nodes := [];
    }

    /** The tree `to_xml` serialises: the `config` root over the appended nodes,
        whose latest node per name describes the table's current value. */
    function Root(): (r: Element)
      reads this
      ensures r.tag == "config" && r.attributes == map[] && r.text.None?
      ensures Valid() ==> Agree(constants, r.children)
    {
      Element("config", map[], None, nodes)
    }

    /** `add_to_xml`: one `constant` node appended at the end, its `value` children
        built one entry at a time. */
    method AddToXml(name: string, value: Value)
      modifies this`nodes
      ensures nodes == old(nodes) + [ConstantElement(name, value)]
    {
      var element: Element;
      if value.List? {
        var children: seq<Element> := [];
        for i := 0 to |value.items|
          invariant |children| == i
          invariant forall j :: 0 <= j < i ==> children[j] == ValueElement(value.items[j])
        {
          children := children + [ValueElement(value.items[i])];
        }
        assert children == ValueChildren(value.items);
        element := Element("constant", map["name" := name], None, children);
      } else {
        element := Element("constant", map["name" := name], Some(Repr(value)), []);
      }
      nodes := nodes + [element];
    }

    /** `parse_global`: all or nothing.  On a failure neither store changes; on
        success the name is bound (replacing any earlier binding, no other name
        touched) and exactly one node is appended. */
    method ParseGlobal(line: string) returns (r: Result<()>)
      requires Valid()
      modifies this
      ensures Valid()
      ensures Declared(old(constants), old(nodes), constants, nodes, line, r)
    {
      var groups := MatchDeclaration(line);
      if groups.None? {
        return Err(InvalidDeclaration(line));
      }
      var name, text := groups.value.0, groups.value.1;
      var parsed := ParseValue(text, constants);
      if parsed.Err? {
        return Err(parsed.error);
      }
      DeclareWellFormed(constants, line);
      AgreeAfterDeclare(constants, nodes, name, parsed.value);
      constants := constants[name := parsed.value];
      AddToXml(name, parsed.value);
      return Ok(());
    }

    /** `evaluate_expression`: the loop over the whitespace-separated tokens with a
        local stack.  It has no `modifies` clause, so neither store changes. */
    method EvaluateExpression(expression: string) returns (r: Result<Value>)
      ensures r == Evaluate(expression, constants)
    {
      var tokens := Words(expression);
      var stack: seq<Value> := [];
      for i := 0 to |tokens|
        invariant Run(tokens, constants, []) == Run(tokens[i..], constants, stack)
      {
        var token := tokens[i];
        assert tokens[i..][0] == token && tokens[i..][1..] == tokens[i + 1..];
        if IsDigits(token) {
          stack := stack + [Int(DigitsValue(token))];
        } else if token in constants {
          stack := stack + [constants[token]];
        } else if OperatorOf(token).Some? {
          ClassifyOperator(token, constants);
          if |stack| < 2 {
            return Err(StackUnderflow);
          }
          var b, a := stack[|stack| - 1], stack[|stack| - 2];
          var v := ApplyOp(OperatorOf(token).value, a, b);
          if v.Err? {
            return Err(v.error);
          }
          stack := stack[..|stack| - 2] + [v.value];
        } else {
          return Err(UnknownToken(token));
        }
      }
      if |stack| != 1 {
        return Err(InvalidExpression(expression));
      }
      r := Ok(stack[0]);
    }

    /** `parse_line`: blank and comment lines are skipped; `global ` lines are
        declarations; `^` lines are evaluated and their result returned; any other
        line is an error, and then nothing changes. */
    method ParseLine(line: string) returns (r: Result<Option<Value>>)
      requires Valid()
      modifies this
      ensures Valid()
      ensures (line == [] || line[0] == '#') ==> r == Ok(None) && unchanged(this)
      ensures StartsWith(line, "global ") ==>
        (r.Ok? ==> r.value.None?) &&
        Declared(old(constants), old(nodes), constants, nodes, line, if r.Ok? then Ok(()) else Err(r.error))
      ensures line != [] && line[0] == '^' ==>
        unchanged(this) &&
        match Evaluate(line[1..], constants)
        case Err(e) => r == Err(e)
        case Ok(v) => r == Ok(Some(v))
      ensures line != [] && line[0] != '#' && line[0] != '^' && !StartsWith(line, "global ") ==>
        r == Err(UnknownSyntax(line)) && unchanged(this)
    {
      if line == [] || line[0] == '#' {
        return Ok(None);
      }
      if StartsWith(line, "global ") {
        var declared := ParseGlobal(line);
        if declared.Err? {
          return Err(declared.error);
        }
        return Ok(None);
      } else if line[0] == '^' {
        var value := EvaluateExpression(line[1..]);
        if value.Err? {
          return Err(value.error);
        }
        return Ok(Some(value.value));
      } else {
        return Err(UnknownSyntax(line));
      }
    }
  }
}
