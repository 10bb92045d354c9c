/** The XML tree `add_to_xml` builds under the `config` root
    (config_parser.py:122-132), as values: an element is a tag, its attributes,
    an optional text and its children, in order. */
module Document {
  import opened Results
  import opened Text
  import opened Values

  datatype Element = Element(tag: string, attributes: map<string, string>, text: Option<string>,
                             children: seq<Element>)

  /** `<value>str(v)</value>`, one entry of a list constant. */
  function ValueElement(v: Value): Element {
    Element("value", map[], Some(Repr(v)), [])
  }

  /** The element `add_to_xml(name, v)` appends: `<constant name="...">` holding the
      integer as its text, or one `<value>` child per list entry and no text. */
  function ConstantElement(name: string, v: Value): Element {
    match v
    case Int(_) => Element("constant", map["name" := name], Some(Repr(v)), [])
    case List(items) => Element("constant", map["name" := name], None, ValueChildren(items))
  }

  function ValueChildren(items: seq<Value>): (r: seq<Element>)
    ensures |r| == |items|
    ensures forall i :: 0 <= i < |items| ==> r[i] == ValueElement(items[i])
  {
    if items == [] then [] else [ValueElement(items[0])] + ValueChildren(items[1..])
  }

  /** The `name` attribute of an element, `""` when it has none. */
  function NameOf(e: Element): string {
    if "name" in e.attributes then e.attributes["name"] else ""
  }

  /** For every name, the last element carrying it: what a reader of the document
      takes as that name's final value. */
  function Latest(nodes: seq<Element>): (r: map<string, Element>)
    ensures forall x :: x in r ==> NameOf(r[x]) == x
  {
    if nodes == [] then map[]
    else Latest(nodes[..|nodes| - 1])[NameOf(nodes[|nodes| - 1]) := nodes[|nodes| - 1]]
  }

  /** Appending an element makes it the latest of its name and leaves every
      other name as it was. */
  lemma LatestAppend(nodes: seq<Element>, e: Element)
    ensures Latest(nodes + [e]) == Latest(nodes)[NameOf(e) := e]
  {
    assert (nodes + [e])[..|nodes|] == nodes;
  }

  /** The shape of a constant element: it is named after the constant, an integer is
      its text and has no children, and a list has no text and one `value` child per
      entry, holding that entry's `str()`. */
  lemma ConstantElementContent(name: string, v: Value)
    ensures ConstantElement(name, v).tag == "constant"
    ensures ConstantElement(name, v).attributes == map["name" := name]
    ensures NameOf(ConstantElement(name, v)) == name
    ensures v.Int? ==> ConstantElement(name, v).text == Some(DecimalString(v.n)) &&
                       ConstantElement(name, v).children == []
    ensures v.List? ==> ConstantElement(name, v).text.None? &&
                        |ConstantElement(name, v).children| == |v.items| &&
                        forall i :: 0 <= i < |v.items| ==>
                          ConstantElement(name, v).children[i] == ValueElement(v.items[i])
  {
  }

  /** The document keeps the value of an integer constant: its text reads back, as a
      declared value, to the same integer. */
  lemma IntTextReadsBack(name: string, n: nat, env: Env)
    ensures ConstantElement(name, Int(n)).text.Some?
    ensures ParseValue(ConstantElement(name, Int(n)).text.value, env) == Ok(Int(n))
  {
    DecimalStringRoundTrip(n);
    DigitsParse(DecimalString(n), env);
  }

  /** The same for each entry of a list of integers. */
  lemma ListTextsReadBack(name: string, xs: seq<nat>, env: Env, i: nat)
    requires i < |xs|
    ensures ConstantElement(name, List(Ints(xs))).children[i].text.Some?
    ensures ParseValue(ConstantElement(name, List(Ints(xs))).children[i].text.value, env) ==
            Ok(Int(xs[i]))
  {
    DecimalStringRoundTrip(xs[i]);
    DigitsParse(DecimalString(xs[i]), env);
  }
}
