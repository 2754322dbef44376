/** The extended resolver of wsdl.js: it turns one XSD `schema` node into a
    sample tree per top-level element. Each `Seek...` method walks the schema
    with loops and updates the result dictionary as the source does; the
    function of the same concept (without the prefix) says what it computes,
    and the lemmas at the end state what the source promises about it.

    `fuel` bounds the nesting of `seekComplex` calls. The source has no cycle
    guard, so a type that contains itself recurses until the engine's stack
    overflows; this model reports that as `Err(Exhausted)`. */
module Wsdl {
  import opened Js
  import opened Xsd

  // ---------------------------------------------------------------------------
  // What each operation computes
  // ---------------------------------------------------------------------------

  /** One key of the `simpleType` node `simple` (wsdl.js:26-40):
      `restriction` and `list` write their notes, any other key is an error
      naming it. */
  function SimpleTypeEntry(simple: Node, key: string, v: Node, acc: Dict): Result<Dict> {
    if NoteKey(key) then Note(simple, key, v, acc) else Err(NotImplemented(key))
  }

  function SimpleTypeEntries(simple: Node, es: seq<(string, Node)>, acc: Dict): Result<Dict> {
    if es == [] then Ok(acc)
    else
      var acc' :- SimpleTypeEntry(simple, es[0].0, es[0].1, acc);
      SimpleTypeEntries(simple, es[1..], acc')
  }

  /** seekSimpleType (wsdl.js:23-43). */
  function SimpleType(simple: Node, acc: Dict): Result<Dict> {
    var es :- Entries(simple);
    SimpleTypeEntries(simple, es, acc)
  }

  /** The value seekAttribute stores for one attribute declaration
      (wsdl.js:49-53): its `@type` when truthy, otherwise its inline
      simpleType resolved from an empty dictionary. */
  function AttributeValue(attr: Node): Result<Value> {
    var t := Get(attr, "@type");
    if !Truthy(t) then
      var d :- SimpleType(Get(attr, "simpleType"), map[]);
      Ok(Tree(d))
    else
      Ok(Leaf(t))
  }

  /** One attribute declaration: `result['@' + attr['@name']] = ...`. */
  function Attribute(attr: Node, acc: Dict): (r: Result<Dict>)
    ensures r.Ok? ==> AttributeKey(attr) in r.value && r.value == acc[AttributeKey(attr) := r.value[AttributeKey(attr)]]
  {
    if attr.Undef? then Err(TypeError)
    else
      var v :- AttributeValue(attr);
      Ok(acc[AttributeKey(attr) := v])
  }

  function AttributeList(attrs: seq<Node>, acc: Dict): Result<Dict> {
    if attrs == [] then Ok(acc)
    else
      var acc' :- Attribute(attrs[0], acc);
      AttributeList(attrs[1..], acc')
  }

  /** seekAttribute (wsdl.js:45-56). */
  function Attributes(data: Node, acc: Dict): Result<Dict> {
    AttributeList(CastArray(data), acc)
  }

  /** The value seekSingleElement stores for one element (wsdl.js:64-75): the
      qualified `@type` string when its local name is not registered, the
      expansion of the registered type or of the inline complexType from an
      empty dictionary, or `@type` itself (falsy) when there is neither. */
  function ElementValue(fuel: nat, element: Node, reg: Registry): Result<Value>
    decreases fuel, 1, 0
  {
    var t := Get(element, "@type");
    if Truthy(t) then
      if !t.Str? then Err(TypeError)
      else if !Registered(reg, LocalName(t.s)) then Ok(Leaf(t))
      else
        var d :- Complex(fuel, reg[LocalName(t.s)], map[], reg);
        Ok(Tree(d))
    else if Truthy(Get(element, "complexType")) then
      var d :- Complex(fuel, Get(element, "complexType"), map[], reg);
      Ok(Tree(d))
    else
      Ok(Leaf(t))
  }

  /** seekSingleElement (wsdl.js:58-77): `result[element['@name']] = ...`. */
  function SingleElement(fuel: nat, element: Node, acc: Dict, reg: Registry): (r: Result<Dict>)
    ensures r.Ok? ==> ElementKey(element) in r.value && r.value == acc[ElementKey(element) := r.value[ElementKey(element)]]
    decreases fuel, 2, 0
  {
    if element.Undef? then Err(TypeError)
    else
      var v :- ElementValue(fuel, element, reg);
      Ok(acc[ElementKey(element) := v])
  }

  function Elements(fuel: nat, elements: seq<Node>, acc: Dict, reg: Registry): Result<Dict>
    decreases fuel, 3, |elements|
  {
    if elements == [] then Ok(acc)
    else
      var acc' :- SingleElement(fuel, elements[0], acc, reg);
      Elements(fuel, elements[1..], acc', reg)
  }

  /** seekChoice (wsdl.js:94-104). */
  function Choice(fuel: nat, choice: Node, acc: Dict, reg: Registry): Result<Dict>
    decreases fuel, 4, 0
  {
    var alternatives :- Member(choice, "element");
    if !alternatives.Arr? then Err(TypeError)
    else
      var note := ChoiceNote(MapProperty(alternatives.items, "@name"));
      Elements(fuel, alternatives.items, acc["#comment" := Leaf(Str(note))], reg)
  }

  /** seekExtension (wsdl.js:111-123). */
  function Extension(fuel: nat, extension: Node, acc: Dict, reg: Registry): Result<Dict>
    decreases fuel, 1, 0
  {
    var base :- Member(extension, "@base");
    if !base.Str? then Err(TypeError)
    else
      var start :- if !Registered(reg, LocalName(base.s)) then Ok(acc["#text" := Leaf(base)])
                   else Complex(fuel, reg[LocalName(base.s)], map[], reg);
      Attributes(Get(extension, "attribute"), start)
  }

  function ContentEntries(fuel: nat, es: seq<(string, Node)>, acc: Dict, reg: Registry): Result<Dict>
    decreases fuel, 4, |es|
  {
    if es == [] then Ok(acc)
    else
      var acc' :- if es[0].0 == "extension" then Extension(fuel, es[0].1, acc, reg) else Ok(acc);
      ContentEntries(fuel, es[1..], acc', reg)
  }

  /** seekComplexContent (wsdl.js:125-142), also used for simpleContent. */
  function ComplexContent(fuel: nat, content: Node, acc: Dict, reg: Registry): Result<Dict>
    decreases fuel, 5, 0
  {
    var es :- Entries(content);
    ContentEntries(fuel, es, acc, reg)
  }

  /** One key of a `sequence` node (wsdl.js:153-162). */
  function SequenceEntry(fuel: nat, key: string, v: Node, acc: Dict, reg: Registry): Result<Dict>
    decreases fuel, 5, 0
  {
    if key == "element" then Elements(fuel, CastArray(v), acc, reg)
    else if key == "choice" then Choice(fuel, v, acc, reg)
    else Ok(acc)
  }

  function SequenceEntries(fuel: nat, es: seq<(string, Node)>, acc: Dict, reg: Registry): Result<Dict>
    decreases fuel, 6, |es|
  {
    if es == [] then Ok(acc)
    else
      var acc' :- SequenceEntry(fuel, es[0].0, es[0].1, acc, reg);
      SequenceEntries(fuel, es[1..], acc', reg)
  }

  /** One key of a `complexType` node (wsdl.js:147-171). */
  function ComplexEntry(fuel: nat, key: string, v: Node, acc: Dict, reg: Registry): Result<Dict>
    decreases fuel, 7, 0
  {
    if key == "attribute" then Attributes(v, acc)
    else if key == "sequence" then
      var es :- Entries(v);
      SequenceEntries(fuel, es, acc, reg)
    else if key == "simpleContent" || key == "complexContent" then ComplexContent(fuel, v, acc, reg)
    else Ok(acc)
  }

  function ComplexEntries(fuel: nat, es: seq<(string, Node)>, acc: Dict, reg: Registry): Result<Dict>
    decreases fuel, 8, |es|
  {
    if es == [] then Ok(acc)
    else
      var acc' :- ComplexEntry(fuel, es[0].0, es[0].1, acc, reg);
      ComplexEntries(fuel, es[1..], acc', reg)
  }

  /** seekComplex (wsdl.js:144-180), one level of the recursion budget. */
  function Complex(fuel: nat, complex: Node, acc: Dict, reg: Registry): Result<Dict>
    decreases fuel, 0, 0
  {
    if fuel == 0 then Err(Exhausted)
    else
      var es :- Entries(complex);
      var acc' :- ComplexEntries(fuel - 1, es, acc, reg);
      var hasChild := Get(complex, "@sequence");
      if Truthy(hasChild) then Elements(fuel - 1, CastArray(hasChild), acc', reg) else Ok(acc')
  }

  function Raws(fuel: nat, elements: seq<Node>, reg: Registry, raws: map<string, Dict>): Result<map<string, Dict>> {
    if elements == [] then Ok(raws)
    else
      var s := elements[0];
      if s.Undef? then Err(TypeError)
      else
        var d :- Complex(fuel, Get(s, "complexType"), map[], reg);
        Raws(fuel, elements[1..], reg, raws[ElementKey(s) := d])
  }

  /** buildRaw (wsdl.js:182-201), returning the resolved tree of each
      top-level element instead of its XML text. */
  function Build(fuel: nat, schema: Node): Result<map<string, Dict>> {
    var types :- Member(schema, "complexType");
    var reg := RegistryOf(CastArray(types));
    var elements := Get(schema, "element");
    if !elements.Arr? then Err(TypeError)
    else Raws(fuel, elements.items, reg, map[])
  }

  // ---------------------------------------------------------------------------
  // The operations, as the source performs them
  // ---------------------------------------------------------------------------

  method SeekSimpleType(simple: Node, result: Dict) returns (r: Result<Dict>)
    ensures r == SimpleType(simple, result)
  {
    var es :- Entries(simple);
    var acc := result;
    for i := 0 to |es|
      invariant SimpleTypeEntries(simple, es, result) == SimpleTypeEntries(simple, es[i..], acc)
    {
      assert es[i..][1..] == es[i + 1..];
      var (key, v) := es[i];
      if key == "restriction" {
        var enumeration :- Member(v, "enumeration");
        if !enumeration.Arr? {
          return Err(TypeError);
        }
        var values :- MapMember(enumeration.items, "@value");
        acc := acc["#comment" := Leaf(Str(RestrictionNote(values)))];
        acc := acc["#text" := Leaf(Get(simple, "@base"))];
      } else if key == "list" {
        var item :- Member(v, "@itemType");
        acc := acc["#comment" := Leaf(Str("list"))];
        acc := acc["#text" := Leaf(item)];
      } else {
        return Err(NotImplemented(key));
      }
    }
    return Ok(acc);
  }

  method SeekAttribute(data: Node, result: Dict) returns (r: Result<Dict>)
    ensures r == Attributes(data, result)
  {
    var attrs := CastArray(data);
    var acc := result;
    for i := 0 to |attrs|
      invariant AttributeList(attrs, result) == AttributeList(attrs[i..], acc)
    {
      assert attrs[i..][1..] == attrs[i + 1..];
      var attr := attrs[i];
      if !Truthy(Get(attr, "@type")) {
        var d :- SeekSimpleType(Get(attr, "simpleType"), map[]);
        acc := acc[AttributeKey(attr) := Tree(d)];
      } else {
        acc := acc[AttributeKey(attr) := Leaf(Get(attr, "@type"))];
      }
    }
    return Ok(acc);
  }

  method SeekSingleElement(fuel: nat, element: Node, result: Dict, reg: Registry) returns (r: Result<Dict>)
    ensures r == SingleElement(fuel, element, result, reg)
    decreases fuel, 1
  {
    if element.Undef? {
      return Err(TypeError);
    }
    var key := ElementKey(element);
    var t := Get(element, "@type");
    if Truthy(t) {
      if !t.Str? {
        return Err(TypeError);
      }
      var typeName := LocalName(t.s);
      if !Registered(reg, typeName) {
        r := Ok(result[key := Leaf(t)]);
      } else {
        var d :- SeekComplex(fuel, reg[typeName], map[], reg);
        r := Ok(result[key := Tree(d)]);
      }
    } else if Truthy(Get(element, "complexType")) {
      var d :- SeekComplex(fuel, Get(element, "complexType"), map[], reg);
      r := Ok(result[key := Tree(d)]);
    } else {
      r := Ok(result[key := Leaf(t)]);
    }
  }

  method SeekElement(fuel: nat, data: Node, result: Dict, reg: Registry) returns (r: Result<Dict>)
    ensures r == Elements(fuel, CastArray(data), result, reg)
    decreases fuel, 2
  {
    var elements := CastArray(data);
    var acc := result;
    for i := 0 to |elements|
      invariant Elements(fuel, elements, result, reg) == Elements(fuel, elements[i..], acc, reg)
    {
      assert elements[i..][1..] == elements[i + 1..];
      acc :- SeekSingleElement(fuel, elements[i], acc, reg);
    }
    return Ok(acc);
  }

  method SeekChoice(fuel: nat, choice: Node, result: Dict, reg: Registry) returns (r: Result<Dict>)
    ensures r == Choice(fuel, choice, result, reg)
    decreases fuel, 3
  {
    var alternatives :- Member(choice, "element");
    if !alternatives.Arr? {
      return Err(TypeError);
    }
    var optionals := MapProperty(alternatives.items, "@name");
    var acc := result["#comment" := Leaf(Str(ChoiceNote(optionals)))];
    ghost var start := acc;
    var elements := alternatives.items;
    for i := 0 to |elements|
      invariant Elements(fuel, elements, start, reg) == Elements(fuel, elements[i..], acc, reg)
    {
      assert elements[i..][1..] == elements[i + 1..];
      acc :- SeekSingleElement(fuel, elements[i], acc, reg);
    }
    return Ok(acc);
  }

  method SeekExtension(fuel: nat, extension: Node, result: Dict, reg: Registry) returns (r: Result<Dict>)
    ensures r == Extension(fuel, extension, result, reg)
    decreases fuel, 1
  {
    var base :- Member(extension, "@base");
    if !base.Str? {
      return Err(TypeError);
    }
    var baseName := LocalName(base.s);
    var acc := result;
    if !Registered(reg, baseName) {
      acc := acc["#text" := Leaf(base)];
    } else {
      acc :- SeekComplex(fuel, reg[baseName], map[], reg);
    }
    r := SeekAttribute(Get(extension, "attribute"), acc);
  }

  method SeekComplexContent(fuel: nat, content: Node, result: Dict, reg: Registry) returns (r: Result<Dict>)
    ensures r == ComplexContent(fuel, content, result, reg)
    decreases fuel, 2
  {
    var es :- Entries(content);
    var acc := result;
    for i := 0 to |es|
      invariant ContentEntries(fuel, es, result, reg) == ContentEntries(fuel, es[i..], acc, reg)
    {
      assert es[i..][1..] == es[i + 1..];
      var (key, v) := es[i];
      if key == "extension" {
        acc :- SeekExtension(fuel, v, acc, reg);
      }
    }
    return Ok(acc);
  }

  /** The keys of a `sequence` node, visited in order. */
  method SeekSequence(fuel: nat, sequence: Node, result: Dict, reg: Registry) returns (r: Result<Dict>)
    ensures r == ComplexEntry(fuel, "sequence", sequence, result, reg)
    decreases fuel, 4
  {
    var es :- Entries(sequence);
    var acc := result;
    for i := 0 to |es|
      invariant SequenceEntries(fuel, es, result, reg) == SequenceEntries(fuel, es[i..], acc, reg)
    {
      assert es[i..][1..] == es[i + 1..];
      var (key, v) := es[i];
      if key == "element" {
        acc :- SeekElement(fuel, v, acc, reg);
      } else if key == "choice" {
        acc :- SeekChoice(fuel, v, acc, reg);
      }
    }
    return Ok(acc);
  }

  /** The `forEach` over the keys of a complexType (wsdl.js:146-173). */
  method SeekComplexKeys(fuel: nat, es: seq<(string, Node)>, result: Dict, reg: Registry) returns (r: Result<Dict>)
    ensures r == ComplexEntries(fuel, es, result, reg)
    decreases fuel, 5
  {
    var acc := result;
    for i := 0 to |es|
      invariant ComplexEntries(fuel, es, result, reg) == ComplexEntries(fuel, es[i..], acc, reg)
    {
      assert es[i..][1..] == es[i + 1..];
      var (key, v) := es[i];
      if key == "attribute" {
        acc :- SeekAttribute(v, acc);
      } else if key == "sequence" {
        acc :- SeekSequence(fuel, v, acc, reg);
      } else if key == "simpleContent" || key == "complexContent" {
        acc :- SeekComplexContent(fuel, v, acc, reg);
      }
    }
    return Ok(acc);
  }

  method SeekComplex(fuel: nat, complex: Node, result: Dict, reg: Registry) returns (r: Result<Dict>)
    ensures r == Complex(fuel, complex, result, reg)
    decreases fuel, 0
  {
    if fuel == 0 {
      return Err(Exhausted);
    }
    var es :- Entries(complex);
    var acc :- SeekComplexKeys(fuel - 1, es, result, reg);
    var hasChild := Get(complex, "@sequence");
    if Truthy(hasChild) {
      r := SeekElement(fuel - 1, hasChild, acc, reg);
    } else {
      r := Ok(acc);
    }
  }

  method BuildRaw(fuel: nat, schema: Node) returns (r: Result<map<string, Dict>>)
    ensures r == Build(fuel, schema)
  {
    var types :- Member(schema, "complexType");
    var decls := CastArray(types);
    var complexTypes: Registry := map[];
    for i := 0 to |decls|
      invariant complexTypes == RegistryOf(decls[..i])
    {
      assert decls[..i + 1][..i] == decls[..i];
      complexTypes := complexTypes[NameOf(decls[i]) := decls[i]];
    }
    assert decls[..|decls|] == decls;
    var elements := Get(schema, "element");
    if !elements.Arr? {
      return Err(TypeError);
    }
    var raws: map<string, Dict> := map[];
    var items := elements.items;
    for i := 0 to |items|
      invariant Raws(fuel, items, complexTypes, map[]) == Raws(fuel, items[i..], complexTypes, raws)
    {
      assert items[i..][1..] == items[i + 1..];
      var s := items[i];
      if s.Undef? {
        return Err(TypeError);
      }
      var d :- SeekComplex(fuel, Get(s, "complexType"), map[], complexTypes);
      raws := raws[ElementKey(s) := d];
    }
    return Ok(raws);
  }

  // ---------------------------------------------------------------------------
  // Properties
  // ---------------------------------------------------------------------------

  /** seekAttribute adds one `@` key per attribute and leaves every other
      key of the dictionary as it was. */
  lemma {:induction false} AttributeListFrame(attrs: seq<Node>, acc: Dict)
    requires AttributeList(attrs, acc).Ok?
    ensures AttributeList(attrs, acc).value.Keys == acc.Keys + AttributeKeys(attrs)
    ensures forall k :: k in acc && k !in AttributeKeys(attrs) ==> AttributeList(attrs, acc).value[k] == acc[k]
  {
    if attrs != [] {
      var acc' := Attribute(attrs[0], acc).value;
      AttributeListFrame(attrs[1..], acc');
      AttributeKeysCons(attrs);
    }
  }

  /** Of several attributes with the same key, the last one's value stays. */
  lemma {:induction false} AttributeLastWins(attrs: seq<Node>, i: nat, acc: Dict)
    requires i < |attrs|
    requires forall j :: i < j < |attrs| ==> AttributeKey(attrs[j]) != AttributeKey(attrs[i])
    requires AttributeList(attrs, acc).Ok?
    ensures AttributeValue(attrs[i]).Ok?
    ensures AttributeKey(attrs[i]) in AttributeList(attrs, acc).value
    ensures AttributeList(attrs, acc).value[AttributeKey(attrs[i])] == AttributeValue(attrs[i]).value
  {
    var acc' := Attribute(attrs[0], acc).value;
    if i == 0 {
      AttributeListFrame(attrs[1..], acc');
      forall a | a in attrs[1..]
        ensures AttributeKey(a) != AttributeKey(attrs[0])
      {
        var j :| 0 <= j < |attrs[1..]| && attrs[1..][j] == a;
        assert attrs[j + 1] == a;
      }
    } else {
      AttributeLastWins(attrs[1..], i - 1, acc');
    }
  }

  /** seekElement adds one key per element and leaves every other key of the
      dictionary as it was. */
  lemma {:induction false} ElementsFrame(fuel: nat, elements: seq<Node>, acc: Dict, reg: Registry)
    requires Elements(fuel, elements, acc, reg).Ok?
    ensures Elements(fuel, elements, acc, reg).value.Keys == acc.Keys + ElementKeys(elements)
    ensures forall k :: k in acc && k !in ElementKeys(elements) ==> Elements(fuel, elements, acc, reg).value[k] == acc[k]
  {
    if elements != [] {
      var acc' := SingleElement(fuel, elements[0], acc, reg).value;
      ElementsFrame(fuel, elements[1..], acc', reg);
      ElementKeysCons(elements);
    }
  }

  /** Of several elements with the same name, the last one's value stays; that
      value does not depend on the dictionary it was written into. */
  lemma {:induction false} ElementsLastWins(fuel: nat, elements: seq<Node>, i: nat, acc: Dict, reg: Registry)
    requires i < |elements|
    requires forall j :: i < j < |elements| ==> ElementKey(elements[j]) != ElementKey(elements[i])
    requires Elements(fuel, elements, acc, reg).Ok?
    ensures ElementValue(fuel, elements[i], reg).Ok?
    ensures ElementKey(elements[i]) in Elements(fuel, elements, acc, reg).value
    ensures Elements(fuel, elements, acc, reg).value[ElementKey(elements[i])] == ElementValue(fuel, elements[i], reg).value
  {
    var acc' := SingleElement(fuel, elements[0], acc, reg).value;
    if i == 0 {
      ElementsFrame(fuel, elements[1..], acc', reg);
      forall e | e in elements[1..]
        ensures ElementKey(e) != ElementKey(elements[0])
      {
        var j :| 0 <= j < |elements[1..]| && elements[1..][j] == e;
        assert elements[j + 1] == e;
      }
    } else {
      ElementsLastWins(fuel, elements[1..], i - 1, acc', reg);
    }
  }

  /** An element whose `@type` names no registered type keeps the whole
      qualified name, prefix included, as its leaf. */
  lemma QualifiedNameFallback(fuel: nat, element: Node, acc: Dict, reg: Registry, qname: string)
    requires !element.Undef? && Get(element, "@type") == Str(qname) && qname != ""
    requires !Registered(reg, LocalName(qname))
    ensures SingleElement(fuel, element, acc, reg) == Ok(acc[ElementKey(element) := Leaf(Str(qname))])
  {
  }

  /** seekChoice writes the note listing the alternatives, then expands every
      alternative (not just one) into the same dictionary. */
  lemma ChoiceExpandsEveryAlternative(fuel: nat, choice: Node, acc: Dict, reg: Registry)
    requires Choice(fuel, choice, acc, reg).Ok?
    ensures Get(choice, "element").Arr?
    ensures var alternatives := Get(choice, "element").items;
            var r := Choice(fuel, choice, acc, reg).value;
            && r.Keys == acc.Keys + {"#comment"} + ElementKeys(alternatives)
            && ("#comment" !in ElementKeys(alternatives) ==>
                  r["#comment"] == Leaf(Str(ChoiceNote(MapProperty(alternatives, "@name")))))
            && forall k :: k in acc && k != "#comment" && k !in ElementKeys(alternatives) ==> r[k] == acc[k]
  {
    var alternatives := Get(choice, "element").items;
    var note := ChoiceNote(MapProperty(alternatives, "@name"));
    ElementsFrame(fuel, alternatives, acc["#comment" := Leaf(Str(note))], reg);
  }

  /** Inside simpleContent/complexContent only `extension` contributes:
      `restriction` and every other key leave the dictionary as it was. */
  lemma {:induction false} ContentUsesOnlyExtension(fuel: nat, es: seq<(string, Node)>, acc: Dict, reg: Registry)
    ensures ContentEntries(fuel, es, acc, reg) == ContentEntries(fuel, OnlyKeys(es, {"extension"}), acc, reg)
  {
    if es != [] {
      if es[0].0 == "extension" {
        var rest := OnlyKeys(es[1..], {"extension"});
        assert OnlyKeys(es, {"extension"}) == [es[0]] + rest;
        assert ([es[0]] + rest)[0] == es[0] && ([es[0]] + rest)[1..] == rest;
        match Extension(fuel, es[0].1, acc, reg)
        case Err(_) =>
        case Ok(a) => ContentUsesOnlyExtension(fuel, es[1..], a, reg);
      } else {
        ContentUsesOnlyExtension(fuel, es[1..], acc, reg);
      }
    }
  }

  /** Inside a sequence only `element` and `choice` contribute; `any`,
      `group` and every other key are ignored without error. */
  lemma {:induction false} SequenceUsesOnlyElementAndChoice(fuel: nat, es: seq<(string, Node)>, acc: Dict, reg: Registry)
    ensures SequenceEntries(fuel, es, acc, reg) == SequenceEntries(fuel, OnlyKeys(es, {"element", "choice"}), acc, reg)
  {
    if es != [] {
      if es[0].0 in {"element", "choice"} {
        var rest := OnlyKeys(es[1..], {"element", "choice"});
        assert OnlyKeys(es, {"element", "choice"}) == [es[0]] + rest;
        assert ([es[0]] + rest)[0] == es[0] && ([es[0]] + rest)[1..] == rest;
        match SequenceEntry(fuel, es[0].0, es[0].1, acc, reg)
        case Err(_) =>
        case Ok(a) => SequenceUsesOnlyElementAndChoice(fuel, es[1..], a, reg);
      } else {
        SequenceUsesOnlyElementAndChoice(fuel, es[1..], acc, reg);
      }
    }
  }

  /** A complexType contributes only through `attribute`, `sequence`,
      `simpleContent` and `complexContent`; other keys (its own attributes such
      as `@name`, annotations, `all`, `choice`, ...) are ignored. */
  lemma {:induction false} ComplexUsesOnlyKnownKeys(fuel: nat, es: seq<(string, Node)>, acc: Dict, reg: Registry)
    ensures ComplexEntries(fuel, es, acc, reg)
         == ComplexEntries(fuel, OnlyKeys(es, {"attribute", "sequence", "simpleContent", "complexContent"}), acc, reg)
  {
    var known := {"attribute", "sequence", "simpleContent", "complexContent"};
    if es != [] {
      if es[0].0 in known {
        var rest := OnlyKeys(es[1..], known);
        assert OnlyKeys(es, known) == [es[0]] + rest;
        assert ([es[0]] + rest)[0] == es[0] && ([es[0]] + rest)[1..] == rest;
        match ComplexEntry(fuel, es[0].0, es[0].1, acc, reg)
        case Err(_) =>
        case Ok(a) => ComplexUsesOnlyKnownKeys(fuel, es[1..], a, reg);
      } else {
        ComplexUsesOnlyKnownKeys(fuel, es[1..], acc, reg);
      }
    }
  }

  /** An extension of a registered base discards the dictionary built so far
      and starts from the base's own expansion; the extension's attributes are
      then laid over it. */
  lemma ExtensionOfRegisteredBase(fuel: nat, extension: Node, acc: Dict, other: Dict, reg: Registry)
    requires Get(extension, "@base").Str? && Registered(reg, LocalName(Get(extension, "@base").s))
    ensures Extension(fuel, extension, acc, reg) == Extension(fuel, extension, other, reg)
    ensures Extension(fuel, extension, acc, reg).Ok? ==>
              var base := Complex(fuel, reg[LocalName(Get(extension, "@base").s)], map[], reg).value;
              var attrs := CastArray(Get(extension, "attribute"));
              var r := Extension(fuel, extension, acc, reg).value;
              && r.Keys == base.Keys + AttributeKeys(attrs)
              && forall k :: k in base && k !in AttributeKeys(attrs) ==> r[k] == base[k]
  {
    if Extension(fuel, extension, acc, reg).Ok? {
      var base := Complex(fuel, reg[LocalName(Get(extension, "@base").s)], map[], reg).value;
      AttributeListFrame(CastArray(Get(extension, "attribute")), base);
    }
  }

  /** An extension of an unregistered base keeps the dictionary built so far,
      records the qualified base name as `#text`, and lays the extension's
      attributes over it. */
  lemma ExtensionOfUnregisteredBase(fuel: nat, extension: Node, acc: Dict, reg: Registry, r: Dict)
    requires Get(extension, "@base").Str? && !Registered(reg, LocalName(Get(extension, "@base").s))
    requires Extension(fuel, extension, acc, reg) == Ok(r)
    ensures var attrs := CastArray(Get(extension, "attribute"));
            && r.Keys == acc.Keys + {"#text"} + AttributeKeys(attrs)
            && r["#text"] == Leaf(Get(extension, "@base"))
            && forall k :: k in acc && k != "#text" && k !in AttributeKeys(attrs) ==> r[k] == acc[k]
  {
    var attrs := CastArray(Get(extension, "attribute"));
    UnregisteredBaseStart(fuel, extension, acc, reg);
    AttributeListFrame(attrs, acc["#text" := Leaf(Get(extension, "@base"))]);
    AttributeKeysAreMarked(attrs);
  }

  lemma UnregisteredBaseStart(fuel: nat, extension: Node, acc: Dict, reg: Registry)
    requires Get(extension, "@base").Str? && !Registered(reg, LocalName(Get(extension, "@base").s))
    ensures Extension(fuel, extension, acc, reg)
         == AttributeList(CastArray(Get(extension, "attribute")), acc["#text" := Leaf(Get(extension, "@base"))])
  {
  }

  /** Whatever the base, an extension attribute replaces an entry of the same
      key: the last attribute of each key decides its value. */
  lemma ExtensionAttributesOverlay(fuel: nat, extension: Node, acc: Dict, reg: Registry, i: nat)
    requires Extension(fuel, extension, acc, reg).Ok?
    requires var attrs := CastArray(Get(extension, "attribute"));
             i < |attrs| && forall j :: i < j < |attrs| ==> AttributeKey(attrs[j]) != AttributeKey(attrs[i])
    ensures var attrs := CastArray(Get(extension, "attribute"));
            var r := Extension(fuel, extension, acc, reg).value;
            && AttributeValue(attrs[i]).Ok?
            && AttributeKey(attrs[i]) in r
            && r[AttributeKey(attrs[i])] == AttributeValue(attrs[i]).value
  {
    var base := Get(extension, "@base");
    var start := if !Registered(reg, LocalName(base.s)) then acc["#text" := Leaf(base)]
                 else Complex(fuel, reg[LocalName(base.s)], map[], reg).value;
    AttributeLastWins(CastArray(Get(extension, "attribute")), i, start);
  }

  /** A simpleType resolves only when every key is `restriction` or `list`,
      and then it writes exactly their notes. */
  lemma {:induction false} SimpleTypeEntriesAreNotes(simple: Node, es: seq<(string, Node)>, acc: Dict)
    requires SimpleTypeEntries(simple, es, acc).Ok?
    ensures forall i :: 0 <= i < |es| ==> NoteKey(es[i].0)
    ensures SimpleTypeEntries(simple, es, acc) == Notes(simple, es, acc)
  {
    if es != [] {
      var acc' := SimpleTypeEntry(simple, es[0].0, es[0].1, acc).value;
      SimpleTypeEntriesAreNotes(simple, es[1..], acc');
      assert forall i :: 1 <= i < |es| ==> es[i] == es[1..][i - 1];
    }
  }

  /** The keys of a simpleType are handled one after another: once a prefix
      has resolved, the rest continues from its dictionary. */
  lemma {:induction false} SimpleTypeEntriesSplit(simple: Node, es: seq<(string, Node)>, i: nat, acc: Dict)
    requires i <= |es|
    requires SimpleTypeEntries(simple, es[..i], acc).Ok?
    ensures SimpleTypeEntries(simple, es, acc) == SimpleTypeEntries(simple, es[i..], SimpleTypeEntries(simple, es[..i], acc).value)
  {
    if i > 0 {
      assert es[..i][1..] == es[1..][..i - 1];
      assert es[i..] == es[1..][i - 1..];
      var acc' := SimpleTypeEntry(simple, es[0].0, es[0].1, acc).value;
      SimpleTypeEntriesSplit(simple, es[1..], i - 1, acc');
    }
  }

  /** A resolved simpleType touches only `#comment` and `#text`, and its last
      child decides both (see `NoteWrites` for what each child writes). */
  lemma SimpleTypeLastChildDecides(simple: Node, acc: Dict)
    requires simple.Obj? && simple.fields != []
    requires SimpleType(simple, acc).Ok?
    ensures var last := simple.fields[|simple.fields| - 1];
            && NoteKey(last.0)
            && Note(simple, last.0, last.1, acc).Ok?
            && SimpleType(simple, acc).value == Note(simple, last.0, last.1, acc).value
  {
    SimpleTypeEntriesAreNotes(simple, simple.fields, acc);
    NotesLastDecide(simple, simple.fields, acc);
  }

  /** An unknown key aborts seekSimpleType, and the error names the first
      such key: the one reached after the keys before it have resolved. A
      named top-level simpleType therefore fails on `@name`. */
  lemma SimpleTypeRejectsUnknownKey(simple: Node, acc: Dict, i: nat)
    requires simple.Obj? && i < |simple.fields|
    requires !NoteKey(simple.fields[i].0)
    ensures SimpleType(simple, acc).Err?
    ensures SimpleTypeEntries(simple, simple.fields[..i], acc).Ok? ==>
              SimpleType(simple, acc) == Err(NotImplemented(simple.fields[i].0))
  {
    if SimpleType(simple, acc).Ok? {
      SimpleTypeEntriesAreNotes(simple, simple.fields, acc);
    }
    if SimpleTypeEntries(simple, simple.fields[..i], acc).Ok? {
      SimpleTypeEntriesSplit(simple, simple.fields, i, acc);
    }
  }

  /** Since every key of a resolvable simpleType is `restriction` or `list`,
      the node has no `@base` of its own: as written, a simpleType whose last
      child is a restriction records `undefined` as `#text`. */
  lemma RestrictionRecordsNoBase(simple: Node, acc: Dict)
    requires simple.Obj? && simple.fields != []
    requires simple.fields[|simple.fields| - 1].0 == "restriction"
    requires SimpleType(simple, acc).Ok?
    ensures "#text" in SimpleType(simple, acc).value
    ensures SimpleType(simple, acc).value["#text"] == Leaf(Undef)
  {
    var last := simple.fields[|simple.fields| - 1];
    SimpleTypeLastChildDecides(simple, acc);
    NoteWrites(simple, last.0, last.1, acc);
    SimpleTypeEntriesAreNotes(simple, simple.fields, acc);
    LookupFirst(simple.fields, "@base");
  }

  /** With the intended note, the same simpleType would resolve to the same
      dictionary except that `#text` holds the last restriction's base type. */
  lemma RestrictionRecordsItsBase(simple: Node, acc: Dict)
    requires simple.Obj? && simple.fields != []
    requires simple.fields[|simple.fields| - 1].0 == "restriction"
    requires SimpleType(simple, acc).Ok?
    ensures var last := simple.fields[|simple.fields| - 1];
            && IntendedNote(last.0, last.1, acc).Ok?
            && IntendedNote(last.0, last.1, acc).value
               == SimpleType(simple, acc).value["#text" := Leaf(Get(last.1, "@base"))]
  {
    var last := simple.fields[|simple.fields| - 1];
    SimpleTypeLastChildDecides(simple, acc);
    IntendedNoteRecordsItsBase(simple, last.0, last.1, acc);
  }

  /** buildRaw's output has exactly one entry per top-level element name; a
      later element of the same name replaces an earlier one. Every element
      must carry an inline complexType, or the whole build fails. */
  lemma {:induction false} RawsFrame(fuel: nat, elements: seq<Node>, reg: Registry, raws: map<string, Dict>)
    requires Raws(fuel, elements, reg, raws).Ok?
    ensures Raws(fuel, elements, reg, raws).value.Keys == raws.Keys + ElementKeys(elements)
    ensures forall k :: k in raws && k !in ElementKeys(elements) ==> Raws(fuel, elements, reg, raws).value[k] == raws[k]
    ensures forall i :: 0 <= i < |elements| ==> Complex(fuel, Get(elements[i], "complexType"), map[], reg).Ok?
  {
    if elements != [] {
      var s := elements[0];
      var d := Complex(fuel, Get(s, "complexType"), map[], reg).value;
      RawsFrame(fuel, elements[1..], reg, raws[ElementKey(s) := d]);
      ElementKeysCons(elements);
      forall i | 0 <= i < |elements|
        ensures Complex(fuel, Get(elements[i], "complexType"), map[], reg).Ok?
      {
        if i > 0 {
          assert elements[i] == elements[1..][i - 1];
        }
      }
    }
  }

  lemma {:induction false} RawsLastWins(fuel: nat, elements: seq<Node>, i: nat, reg: Registry, raws: map<string, Dict>)
    requires i < |elements|
    requires forall j :: i < j < |elements| ==> ElementKey(elements[j]) != ElementKey(elements[i])
    requires Raws(fuel, elements, reg, raws).Ok?
    ensures Complex(fuel, Get(elements[i], "complexType"), map[], reg).Ok?
    ensures ElementKey(elements[i]) in Raws(fuel, elements, reg, raws).value
    ensures Raws(fuel, elements, reg, raws).value[ElementKey(elements[i])]
         == Complex(fuel, Get(elements[i], "complexType"), map[], reg).value
  {
    var s := elements[0];
    var raws' := raws[ElementKey(s) := Complex(fuel, Get(s, "complexType"), map[], reg).value];
    if i == 0 {
      RawsFrame(fuel, elements[1..], reg, raws');
      forall e | e in elements[1..]
        ensures ElementKey(e) != ElementKey(elements[0])
      {
        var j :| 0 <= j < |elements[1..]| && elements[1..][j] == e;
        assert elements[j + 1] == e;
      }
    } else {
      RawsLastWins(fuel, elements[1..], i - 1, reg, raws');
    }
  }

  lemma BuildOnePerElement(fuel: nat, schema: Node)
    requires Build(fuel, schema).Ok?
    ensures Get(schema, "element").Arr?
    ensures var elements := Get(schema, "element").items;
            var reg := RegistryOf(CastArray(Get(schema, "complexType")));
            var raws := Build(fuel, schema).value;
            && raws.Keys == ElementKeys(elements)
            && (forall i :: 0 <= i < |elements| ==> Complex(fuel, Get(elements[i], "complexType"), map[], reg).Ok?)
            && forall i :: 0 <= i < |elements| && (forall j :: i < j < |elements| ==> ElementKey(elements[j]) != ElementKey(elements[i])) ==>
                 raws[ElementKey(elements[i])] == Complex(fuel, Get(elements[i], "complexType"), map[], reg).value
  {
    var elements := Get(schema, "element").items;
    var reg := RegistryOf(CastArray(Get(schema, "complexType")));
    RawsFrame(fuel, elements, reg, map[]);
    forall i | 0 <= i < |elements| && (forall j :: i < j < |elements| ==> ElementKey(elements[j]) != ElementKey(elements[i]))
      ensures Build(fuel, schema).value[ElementKey(elements[i])] == Complex(fuel, Get(elements[i], "complexType"), map[], reg).value
    {
      RawsLastWins(fuel, elements, i, reg, map[]);
    }
  }

  /** A top-level element declared with `@type` and no inline complexType
      makes buildRaw fail (`Object.keys(undefined)`). */
  lemma TopLevelElementNeedsInlineType(fuel: nat, schema: Node, i: nat)
    requires fuel > 0
    requires Get(schema, "element").Arr? && i < |Get(schema, "element").items|
    requires Get(Get(schema, "element").items[i], "complexType") == Undef
    ensures Build(fuel, schema).Err?
  {
    if Build(fuel, schema).Ok? {
      BuildOnePerElement(fuel, schema);
    }
  }

  /** A registered `@type`, or an inline complexType when `@type` is falsy,
      is expanded from an empty dictionary: the stored value, or the failure,
      does not depend on the dictionary the element is written into. */
  lemma ElementExpandsFromEmpty(fuel: nat, element: Node, acc: Dict, reg: Registry)
    requires !element.Undef?
    ensures var t := Get(element, "@type");
            var c := if Truthy(t) && t.Str? && LocalName(t.s) in reg then reg[LocalName(t.s)] else Get(element, "complexType");
            var expanded := (Truthy(t) && t.Str? && Registered(reg, LocalName(t.s)))
                            || (!Truthy(t) && Truthy(Get(element, "complexType")));
            expanded ==>
              && (Complex(fuel, c, map[], reg).Err? ==> SingleElement(fuel, element, acc, reg) == Err(Complex(fuel, c, map[], reg).error))
              && (Complex(fuel, c, map[], reg).Ok? ==>
                    SingleElement(fuel, element, acc, reg) == Ok(acc[ElementKey(element) := Tree(Complex(fuel, c, map[], reg).value)]))
  {
  }

  /** An element with neither a truthy `@type` nor a truthy inline
      complexType still gets its key, holding that falsy `@type`. */
  lemma ElementWithoutType(fuel: nat, element: Node, acc: Dict, reg: Registry)
    requires !element.Undef? && !Truthy(Get(element, "@type")) && !Truthy(Get(element, "complexType"))
    ensures SingleElement(fuel, element, acc, reg) == Ok(acc[ElementKey(element) := Leaf(Get(element, "@type"))])
  {
  }
}
