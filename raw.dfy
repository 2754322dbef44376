/** The resolver of raw.js, the variant the driver uses: it turns one XSD
    `schema` node into a sample tree per top-level element. It differs from
    wsdl.js in four ways: a simpleType ignores keys it does not know instead of
    failing, a complexType ignores simpleContent/complexContent, seekElement
    takes an array as it is (no castArray), and there is no extension
    handling.

    As in `Wsdl`, each `Seek...` method performs the operation with loops and
    is proved equal to the function of the same concept, and `fuel` bounds
    the nesting of `seekComplex` calls, standing for the engine's stack on a
    cyclic type graph. */
module Raw {
  import opened Js
  import opened Xsd

  // ---------------------------------------------------------------------------
  // What each operation computes
  // ---------------------------------------------------------------------------

  /** One key of the `simpleType` node `simple` (raw.js:17-31):
      `restriction` and `list` write the notes, every other key (including
      `union`) does nothing. */
  function SimpleEntry(simple: Node, key: string, v: Node, acc: Dict): Result<Dict> {
    if NoteKey(key) then Note(simple, key, v, acc) else Ok(acc)
  }

  function SimpleEntries(simple: Node, es: seq<(string, Node)>, acc: Dict): Result<Dict> {
    if es == [] then Ok(acc)
    else
      var acc' :- SimpleEntry(simple, es[0].0, es[0].1, acc);
      SimpleEntries(simple, es[1..], acc')
  }

  /** seekSimple (raw.js:15-34). */
  function Simple(simple: Node, acc: Dict): Result<Dict> {
    var es :- Entries(simple);
    SimpleEntries(simple, es, acc)
  }

  /** The value seekAttribute stores for one attribute declaration
      (raw.js:39-43): its `@type` when truthy, otherwise its inline
      simpleType resolved from an empty dictionary. */
  function AttributeValue(attr: Node): Result<Value> {
    var t := Get(attr, "@type");
    if !Truthy(t) then
      var d :- Simple(Get(attr, "simpleType"), map[]);
      Ok(Tree(d))
    else
      Ok(Leaf(t))
  }

  /** One attribute declaration: `result['@' + attr['@name']] = ...`. */
  function Attribute(attr: Node, acc: Dict): (r: Result<Dict>)
    ensures r.Ok? ==> AttributeKey(attr) in r.value && r.value == acc[AttributeKey(attr) := r.value[AttributeKey(attr)]]
  {
    if attr.Undef? then Err(TypeError)
    else
      var v :- AttributeValue(attr);
      Ok(acc[AttributeKey(attr) := v])
  }

  /** seekAttribute (raw.js:36-46) over an already normalised array. */
  function AttributeList(attrs: seq<Node>, acc: Dict): Result<Dict> {
    if attrs == [] then Ok(acc)
    else
      var acc' :- Attribute(attrs[0], acc);
      AttributeList(attrs[1..], acc')
  }

  /** The value seekSingleElement stores for one element (raw.js:54-66). */
  function ElementValue(fuel: nat, element: Node, reg: Registry): Result<Value>
    decreases fuel, 1, 0
  {
    var t := Get(element, "@type");
    if Truthy(t) then
      if !t.Str? then Err(TypeError)
      else if !Registered(reg, LocalName(t.s)) then Ok(Leaf(t))
      else
        var d :- Complex(fuel, reg[LocalName(t.s)], map[], reg);
        Ok(Tree(d))
    else if Truthy(Get(element, "complexType")) then
      var d :- Complex(fuel, Get(element, "complexType"), map[], reg);
      Ok(Tree(d))
    else
      Ok(Leaf(t))
  }

  /** seekSingleElement (raw.js:48-68): `result[element['@name']] = ...`. */
  function SingleElement(fuel: nat, element: Node, acc: Dict, reg: Registry): (r: Result<Dict>)
    ensures r.Ok? ==> ElementKey(element) in r.value && r.value == acc[ElementKey(element) := r.value[ElementKey(element)]]
    decreases fuel, 2, 0
  {
    if element.Undef? then Err(TypeError)
    else
      var v :- ElementValue(fuel, element, reg);
      Ok(acc[ElementKey(element) := v])
  }

  /** seekElement (raw.js:75-83) over the items of an array. */
  function Elements(fuel: nat, elements: seq<Node>, acc: Dict, reg: Registry): Result<Dict>
    decreases fuel, 3, |elements|
  {
    if elements == [] then Ok(acc)
    else
      var acc' :- SingleElement(fuel, elements[0], acc, reg);
      Elements(fuel, elements[1..], acc', reg)
  }

  /** seekChoice (raw.js:85-95). */
  function Choice(fuel: nat, choice: Node, acc: Dict, reg: Registry): Result<Dict>
    decreases fuel, 4, 0
  {
    var alternatives :- Member(choice, "element");
    if !alternatives.Arr? then Err(TypeError)
    else
      var note := ChoiceNote(MapProperty(alternatives.items, "@name"));
      Elements(fuel, alternatives.items, acc["#comment" := Leaf(Str(note))], reg)
  }

  /** One key of a `sequence` node (raw.js:107-117). */
  function SequenceEntry(fuel: nat, key: string, v: Node, acc: Dict, reg: Registry): Result<Dict>
    decreases fuel, 5, 0
  {
    if key == "element" then Elements(fuel, CastArray(v), acc, reg)
    else if key == "choice" then Choice(fuel, v, acc, reg)
    else Ok(acc)
  }

  function SequenceEntries(fuel: nat, es: seq<(string, Node)>, acc: Dict, reg: Registry): Result<Dict>
    decreases fuel, 6, |es|
  {
    if es == [] then Ok(acc)
    else
      var acc' :- SequenceEntry(fuel, es[0].0, es[0].1, acc, reg);
      SequenceEntries(fuel, es[1..], acc', reg)
  }

  /** One key of a `complexType` node (raw.js:100-121). */
  function ComplexEntry(fuel: nat, key: string, v: Node, acc: Dict, reg: Registry): Result<Dict>
    decreases fuel, 7, 0
  {
    if key == "attribute" then AttributeList(CastArray(v), acc)
    else if key == "sequence" then
      var es :- Entries(v);
      SequenceEntries(fuel, es, acc, reg)
    else Ok(acc)
  }

  function ComplexEntries(fuel: nat, es: seq<(string, Node)>, acc: Dict, reg: Registry): Result<Dict>
    decreases fuel, 8, |es|
  {
    if es == [] then Ok(acc)
    else
      var acc' :- ComplexEntry(fuel, es[0].0, es[0].1, acc, reg);
      ComplexEntries(fuel, es[1..], acc', reg)
  }

  /** seekComplex (raw.js:97-130), one level of the recursion budget. The
      `@sequence` attribute is handed to seekElement as it is, which needs an
      array (`forEach`). */
  function Complex(fuel: nat, complex: Node, acc: Dict, reg: Registry): Result<Dict>
    decreases fuel, 0, 0
  {
    if fuel == 0 then Err(Exhausted)
    else
      var es :- Entries(complex);
      var acc' :- ComplexEntries(fuel - 1, es, acc, reg);
      var hasChild := Get(complex, "@sequence");
      if !Truthy(hasChild) then Ok(acc')
      else if !hasChild.Arr? then Err(TypeError)
      else Elements(fuel - 1, hasChild.items, acc', reg)
  }

  function Raws(fuel: nat, elements: seq<Node>, reg: Registry, raws: map<string, Dict>): Result<map<string, Dict>> {
    if elements == [] then Ok(raws)
    else
      var s := elements[0];
      if s.Undef? then Err(TypeError)
      else
        var d :- Complex(fuel, Get(s, "complexType"), map[], reg);
        Raws(fuel, elements[1..], reg, raws[ElementKey(s) := d])
  }

  /** buildRaw (raw.js:132-151), returning the resolved tree of each
      top-level element instead of its XML text. */
  function Build(fuel: nat, schema: Node): Result<map<string, Dict>> {
    var types :- Member(schema, "complexType");
    var reg := RegistryOf(CastArray(types));
    var elements := Get(schema, "element");
    if !elements.Arr? then Err(TypeError)
    else Raws(fuel, elements.items, reg, map[])
  }

  // ---------------------------------------------------------------------------
  // The operations, as the source performs them
  // ---------------------------------------------------------------------------

  method SeekSimple(simple: Node, result: Dict) returns (r: Result<Dict>)
    ensures r == Simple(simple, result)
  {
    var es :- Entries(simple);
    var acc := result;
    for i := 0 to |es|
      invariant SimpleEntries(simple, es, result) == SimpleEntries(simple, es[i..], acc)
    {
      assert es[i..][1..] == es[i + 1..];
      var (key, v) := es[i];
      if key == "restriction" {
        var enumeration :- Member(v, "enumeration");
        if !enumeration.Arr? {
          return Err(TypeError);
        }
        var values :- MapMember(enumeration.items, "@value");
        acc := acc["#comment" := Leaf(Str(RestrictionNote(values)))];
        acc := acc["#text" := Leaf(Get(simple, "@base"))];
      } else if key == "list" {
        var item :- Member(v, "@itemType");
        acc := acc["#comment" := Leaf(Str("list"))];
        acc := acc["#text" := Leaf(item)];
      }
    }
    return Ok(acc);
  }

  method SeekAttribute(attrs: seq<Node>, result: Dict) returns (r: Result<Dict>)
    ensures r == AttributeList(attrs, result)
  {
    var acc := result;
    for i := 0 to |attrs|
      invariant AttributeList(attrs, result) == AttributeList(attrs[i..], acc)
    {
      assert attrs[i..][1..] == attrs[i + 1..];
      var attr := attrs[i];
      if attr.Undef? {
        return Err(TypeError);
      }
      if !Truthy(Get(attr, "@type")) {
        var d :- SeekSimple(Get(attr, "simpleType"), map[]);
        acc := acc[AttributeKey(attr) := Tree(d)];
      } else {
        acc := acc[AttributeKey(attr) := Leaf(Get(attr, "@type"))];
      }
    }
    return Ok(acc);
  }

  method SeekSingleElement(fuel: nat, element: Node, result: Dict, reg: Registry) returns (r: Result<Dict>)
    ensures r == SingleElement(fuel, element, result, reg)
    decreases fuel, 1
  {
    if element.Undef? {
      return Err(TypeError);
    }
    var key := ElementKey(element);
    var t := Get(element, "@type");
    if Truthy(t) {
      if !t.Str? {
        return Err(TypeError);
      }
      var typeName := LocalName(t.s);
      if !Registered(reg, typeName) {
        r := Ok(result[key := Leaf(t)]);
      } else {
        var d :- SeekComplex(fuel, reg[typeName], map[], reg);
        r := Ok(result[key := Tree(d)]);
      }
    } else if Truthy(Get(element, "complexType")) {
      var d :- SeekComplex(fuel, Get(element, "complexType"), map[], reg);
      r := Ok(result[key := Tree(d)]);
    } else {
      r := Ok(result[key := Leaf(t)]);
    }
  }

  method SeekElement(fuel: nat, elements: seq<Node>, result: Dict, reg: Registry) returns (r: Result<Dict>)
    ensures r == Elements(fuel, elements, result, reg)
    decreases fuel, 2
  {
    var acc := result;
    for i := 0 to |elements|
      invariant Elements(fuel, elements, result, reg) == Elements(fuel, elements[i..], acc, reg)
    {
      assert elements[i..][1..] == elements[i + 1..];
      acc :- SeekSingleElement(fuel, elements[i], acc, reg);
    }
    return Ok(acc);
  }

  method SeekChoice(fuel: nat, choice: Node, result: Dict, reg: Registry) returns (r: Result<Dict>)
    ensures r == Choice(fuel, choice, result, reg)
    decreases fuel, 3
  {
    var alternatives :- Member(choice, "element");
    if !alternatives.Arr? {
      return Err(TypeError);
    }
    var optionals := MapProperty(alternatives.items, "@name");
    var acc := result["#comment" := Leaf(Str(ChoiceNote(optionals)))];
    r := SeekElement(fuel, alternatives.items, acc, reg);
  }

  /** The keys of a `sequence` node, visited in order. */
  method SeekSequence(fuel: nat, sequence: Node, result: Dict, reg: Registry) returns (r: Result<Dict>)
    ensures r == ComplexEntry(fuel, "sequence", sequence, result, reg)
    decreases fuel, 4
  {
    var es :- Entries(sequence);
    var acc := result;
    for i := 0 to |es|
      invariant SequenceEntries(fuel, es, result, reg) == SequenceEntries(fuel, es[i..], acc, reg)
    {
      assert es[i..][1..] == es[i + 1..];
      var (key, v) := es[i];
      if key == "element" {
        acc :- SeekElement(fuel, CastArray(v), acc, reg);
      } else if key == "choice" {
        acc :- SeekChoice(fuel, v, acc, reg);
      }
    }
    return Ok(acc);
  }

  /** The `forEach` over the keys of a complexType (raw.js:99-123). */
  method SeekComplexKeys(fuel: nat, es: seq<(string, Node)>, result: Dict, reg: Registry) returns (r: Result<Dict>)
    ensures r == ComplexEntries(fuel, es, result, reg)
    decreases fuel, 5
  {
    var acc := result;
    for i := 0 to |es|
      invariant ComplexEntries(fuel, es, result, reg) == ComplexEntries(fuel, es[i..], acc, reg)
    {
      assert es[i..][1..] == es[i + 1..];
      var (key, v) := es[i];
      if key == "attribute" {
        acc :- SeekAttribute(CastArray(v), acc);
      } else if key == "sequence" {
        acc :- SeekSequence(fuel, v, acc, reg);
      }
    }
    return Ok(acc);
  }

  method SeekComplex(fuel: nat, complex: Node, result: Dict, reg: Registry) returns (r: Result<Dict>)
    ensures r == Complex(fuel, complex, result, reg)
    decreases fuel, 0
  {
    if fuel == 0 {
      return Err(Exhausted);
    }
    var es :- Entries(complex);
    var acc :- SeekComplexKeys(fuel - 1, es, result, reg);
    var hasChild := Get(complex, "@sequence");
    if !Truthy(hasChild) {
      return Ok(acc);
    }
    if !hasChild.Arr? {
      return Err(TypeError);
    }
    r := SeekElement(fuel - 1, hasChild.items, acc, reg);
  }

  method BuildRaw(fuel: nat, schema: Node) returns (r: Result<map<string, Dict>>)
    ensures r == Build(fuel, schema)
  {
    var types :- Member(schema, "complexType");
    var decls := CastArray(types);
    var complexTypes: Registry := map[];
    for i := 0 to |decls|
      invariant complexTypes == RegistryOf(decls[..i])
    {
      assert decls[..i + 1][..i] == decls[..i];
      complexTypes := complexTypes[NameOf(decls[i]) := decls[i]];
    }
    assert decls[..|decls|] == decls;
    var elements := Get(schema, "element");
    if !elements.Arr? {
      return Err(TypeError);
    }
    var raws: map<string, Dict> := map[];
    var items := elements.items;
    for i := 0 to |items|
      invariant Raws(fuel, items, complexTypes, map[]) == Raws(fuel, items[i..], complexTypes, raws)
    {
      assert items[i..][1..] == items[i + 1..];
      var s := items[i];
      if s.Undef? {
        return Err(TypeError);
      }
      var d :- SeekComplex(fuel, Get(s, "complexType"), map[], complexTypes);
      raws := raws[ElementKey(s) := d];
    }
    return Ok(raws);
  }

  // ---------------------------------------------------------------------------
  // Properties
  // ---------------------------------------------------------------------------

  /** Notes of a simpleType: only `restriction` and `list` children write
      anything, `union` and every other key are skipped. */
  lemma {:induction false} SimpleEntriesAreNotes(simple: Node, es: seq<(string, Node)>, acc: Dict)
    ensures SimpleEntries(simple, es, acc) == Notes(simple, OnlyKeys(es, {"restriction", "list"}), acc)
  {
    var keys := {"restriction", "list"};
    if es != [] {
      if es[0].0 in keys {
        var rest := OnlyKeys(es[1..], keys);
        assert OnlyKeys(es, keys) == [es[0]] + rest;
        assert ([es[0]] + rest)[0] == es[0] && ([es[0]] + rest)[1..] == rest;
        match Note(simple, es[0].0, es[0].1, acc)
        case Err(_) =>
        case Ok(a) => SimpleEntriesAreNotes(simple, es[1..], a);
      } else {
        SimpleEntriesAreNotes(simple, es[1..], acc);
      }
    }
  }

  /** seekSimple never reports an unsupported construct: its only failure is a
      runtime type error (a missing node, a missing or singular enumeration). */
  lemma SimpleNeverNotImplemented(simple: Node, acc: Dict)
    ensures Simple(simple, acc).Err? ==> Simple(simple, acc).error == TypeError
  {
    if !simple.Undef? {
      var es := Entries(simple).value;
      SimpleEntriesAreNotes(simple, es, acc);
      NotesLastDecide(simple, OnlyKeys(es, {"restriction", "list"}), acc);
    }
  }

  /** A simpleType without `restriction` and `list` children (only `union`,
      annotations, its own attributes) leaves the dictionary unchanged; so
      does a string or an array in its place. */
  lemma SimpleWithoutNotesUnchanged(simple: Node, acc: Dict)
    requires !simple.Undef?
    requires simple.Obj? ==> forall i :: 0 <= i < |simple.fields| ==> !NoteKey(simple.fields[i].0)
    ensures Simple(simple, acc) == Ok(acc)
  {
    var es := Entries(simple).value;
    SimpleEntriesAreNotes(simple, es, acc);
    if !simple.Obj? {
      EntriesOfIndexed(simple);
    }
    OnlyKeysMembers(es, {"restriction", "list"});
  }

  /** Otherwise the last `restriction` or `list` child decides both notes
      (see `NoteWrites` for what each child writes). */
  lemma SimpleLastNoteDecides(simple: Node, acc: Dict)
    requires simple.Obj? && Simple(simple, acc).Ok?
    requires OnlyKeys(simple.fields, {"restriction", "list"}) != []
    ensures var notes := OnlyKeys(simple.fields, {"restriction", "list"});
            var last := notes[|notes| - 1];
            && Note(simple, last.0, last.1, acc).Ok?
            && Simple(simple, acc).value == Note(simple, last.0, last.1, acc).value
  {
    SimpleEntriesAreNotes(simple, simple.fields, acc);
    NotesLastDecide(simple, OnlyKeys(simple.fields, {"restriction", "list"}), acc);
  }

  /** When that last child is a restriction, `#text` is the `@base` of the
      simpleType node itself, not the base type the restriction names. */
  lemma SimpleRestrictionRecordsTypeBase(simple: Node, acc: Dict)
    requires simple.Obj? && Simple(simple, acc).Ok?
    requires var notes := OnlyKeys(simple.fields, {"restriction", "list"});
             notes != [] && notes[|notes| - 1].0 == "restriction"
    ensures "#text" in Simple(simple, acc).value
    ensures Simple(simple, acc).value["#text"] == Leaf(Get(simple, "@base"))
  {
    var notes := OnlyKeys(simple.fields, {"restriction", "list"});
    var last := notes[|notes| - 1];
    SimpleLastNoteDecides(simple, acc);
    NoteWrites(simple, last.0, last.1, acc);
  }

  /** seekAttribute adds one `@` key per attribute and leaves every other
      key of the dictionary as it was. */
  lemma {:induction false} AttributeListFrame(attrs: seq<Node>, acc: Dict)
    requires AttributeList(attrs, acc).Ok?
    ensures AttributeList(attrs, acc).value.Keys == acc.Keys + AttributeKeys(attrs)
    ensures forall k :: k in acc && k !in AttributeKeys(attrs) ==> AttributeList(attrs, acc).value[k] == acc[k]
  {
    if attrs != [] {
      var acc' := Attribute(attrs[0], acc).value;
      AttributeListFrame(attrs[1..], acc');
      AttributeKeysCons(attrs);
    }
  }

  /** Of several attributes with the same key, the last one's value stays:
      its `@type`, or its simpleType resolved from an empty dictionary. */
  lemma {:induction false} AttributeLastWins(attrs: seq<Node>, i: nat, acc: Dict)
    requires i < |attrs|
    requires forall j :: i < j < |attrs| ==> AttributeKey(attrs[j]) != AttributeKey(attrs[i])
    requires AttributeList(attrs, acc).Ok?
    ensures AttributeValue(attrs[i]).Ok?
    ensures AttributeKey(attrs[i]) in AttributeList(attrs, acc).value
    ensures AttributeList(attrs, acc).value[AttributeKey(attrs[i])] == AttributeValue(attrs[i]).value
  {
    var acc' := Attribute(attrs[0], acc).value;
    if i == 0 {
      AttributeListFrame(attrs[1..], acc');
      forall a | a in attrs[1..]
        ensures AttributeKey(a) != AttributeKey(attrs[0])
      {
        var j :| 0 <= j < |attrs[1..]| && attrs[1..][j] == a;
        assert attrs[j + 1] == a;
      }
    } else {
      AttributeLastWins(attrs[1..], i - 1, acc');
    }
  }

  /** seekElement adds one key per element and leaves every other key of the
      dictionary as it was. */
  lemma {:induction false} ElementsFrame(fuel: nat, elements: seq<Node>, acc: Dict, reg: Registry)
    requires Elements(fuel, elements, acc, reg).Ok?
    ensures Elements(fuel, elements, acc, reg).value.Keys == acc.Keys + ElementKeys(elements)
    ensures forall k :: k in acc && k !in ElementKeys(elements) ==> Elements(fuel, elements, acc, reg).value[k] == acc[k]
  {
    if elements != [] {
      var acc' := SingleElement(fuel, elements[0], acc, reg).value;
      ElementsFrame(fuel, elements[1..], acc', reg);
      ElementKeysCons(elements);
    }
  }

  /** Of several elements with the same name, the last one's value stays; that
      value does not depend on the dictionary it was written into. */
  lemma {:induction false} ElementsLastWins(fuel: nat, elements: seq<Node>, i: nat, acc: Dict, reg: Registry)
    requires i < |elements|
    requires forall j :: i < j < |elements| ==> ElementKey(elements[j]) != ElementKey(elements[i])
    requires Elements(fuel, elements, acc, reg).Ok?
    ensures ElementValue(fuel, elements[i], reg).Ok?
    ensures ElementKey(elements[i]) in Elements(fuel, elements, acc, reg).value
    ensures Elements(fuel, elements, acc, reg).value[ElementKey(elements[i])] == ElementValue(fuel, elements[i], reg).value
  {
    var acc' := SingleElement(fuel, elements[0], acc, reg).value;
    if i == 0 {
      ElementsFrame(fuel, elements[1..], acc', reg);
      forall e | e in elements[1..]
        ensures ElementKey(e) != ElementKey(elements[0])
      {
        var j :| 0 <= j < |elements[1..]| && elements[1..][j] == e;
        assert elements[j + 1] == e;
      }
    } else {
      ElementsLastWins(fuel, elements[1..], i - 1, acc', reg);
    }
  }

  /** An element whose `@type` names no registered type keeps the whole
      qualified name, prefix included, as its leaf. */
  lemma QualifiedNameFallback(fuel: nat, element: Node, acc: Dict, reg: Registry, qname: string)
    requires !element.Undef? && Get(element, "@type") == Str(qname) && qname != ""
    requires !Registered(reg, LocalName(qname))
    ensures SingleElement(fuel, element, acc, reg) == Ok(acc[ElementKey(element) := Leaf(Str(qname))])
  {
  }

  /** A registered `@type`, or an inline complexType when `@type` is falsy,
      is expanded from an empty dictionary: the stored value, or the failure,
      does not depend on the dictionary the element is written into. */
  lemma ElementExpandsFromEmpty(fuel: nat, element: Node, acc: Dict, reg: Registry)
    requires !element.Undef?
    ensures var t := Get(element, "@type");
            var c := if Truthy(t) && t.Str? && LocalName(t.s) in reg then reg[LocalName(t.s)] else Get(element, "complexType");
            var expanded := (Truthy(t) && t.Str? && Registered(reg, LocalName(t.s)))
                            || (!Truthy(t) && Truthy(Get(element, "complexType")));
            expanded ==>
              && (Complex(fuel, c, map[], reg).Err? ==> SingleElement(fuel, element, acc, reg) == Err(Complex(fuel, c, map[], reg).error))
              && (Complex(fuel, c, map[], reg).Ok? ==>
                    SingleElement(fuel, element, acc, reg) == Ok(acc[ElementKey(element) := Tree(Complex(fuel, c, map[], reg).value)]))
  {
  }

  /** An element with neither a truthy `@type` nor a truthy inline
      complexType still gets its key, holding that falsy `@type`. */
  lemma ElementWithoutType(fuel: nat, element: Node, acc: Dict, reg: Registry)
    requires !element.Undef? && !Truthy(Get(element, "@type")) && !Truthy(Get(element, "complexType"))
    ensures SingleElement(fuel, element, acc, reg) == Ok(acc[ElementKey(element) := Leaf(Get(element, "@type"))])
  {
  }

  /** seekChoice writes the note listing the alternatives, then expands every
      alternative (not just one) into the same dictionary. */
  lemma ChoiceExpandsEveryAlternative(fuel: nat, choice: Node, acc: Dict, reg: Registry)
    requires Choice(fuel, choice, acc, reg).Ok?
    ensures Get(choice, "element").Arr?
    ensures var alternatives := Get(choice, "element").items;
            var r := Choice(fuel, choice, acc, reg).value;
            && r.Keys == acc.Keys + {"#comment"} + ElementKeys(alternatives)
            && ("#comment" !in ElementKeys(alternatives) ==>
                  r["#comment"] == Leaf(Str(ChoiceNote(MapProperty(alternatives, "@name")))))
            && forall k :: k in acc && k != "#comment" && k !in ElementKeys(alternatives) ==> r[k] == acc[k]
  {
    var alternatives := Get(choice, "element").items;
    var note := ChoiceNote(MapProperty(alternatives, "@name"));
    ElementsFrame(fuel, alternatives, acc["#comment" := Leaf(Str(note))], reg);
  }

  /** Inside a sequence only `element` and `choice` contribute; `any`,
      `group` and every other key are ignored without error. */
  lemma {:induction false} SequenceUsesOnlyElementAndChoice(fuel: nat, es: seq<(string, Node)>, acc: Dict, reg: Registry)
    ensures SequenceEntries(fuel, es, acc, reg) == SequenceEntries(fuel, OnlyKeys(es, {"element", "choice"}), acc, reg)
  {
    if es != [] {
      if es[0].0 in {"element", "choice"} {
        var rest := OnlyKeys(es[1..], {"element", "choice"});
        assert OnlyKeys(es, {"element", "choice"}) == [es[0]] + rest;
        assert ([es[0]] + rest)[0] == es[0] && ([es[0]] + rest)[1..] == rest;
        match SequenceEntry(fuel, es[0].0, es[0].1, acc, reg)
        case Err(_) =>
        case Ok(a) => SequenceUsesOnlyElementAndChoice(fuel, es[1..], a, reg);
      } else {
        SequenceUsesOnlyElementAndChoice(fuel, es[1..], acc, reg);
      }
    }
  }

  /** A complexType contributes only through `attribute` and `sequence`;
      `simpleContent`, `complexContent` and every other key are ignored. */
  lemma {:induction false} ComplexUsesOnlyAttributeAndSequence(fuel: nat, es: seq<(string, Node)>, acc: Dict, reg: Registry)
    ensures ComplexEntries(fuel, es, acc, reg) == ComplexEntries(fuel, OnlyKeys(es, {"attribute", "sequence"}), acc, reg)
  {
    if es != [] {
      if es[0].0 in {"attribute", "sequence"} {
        var rest := OnlyKeys(es[1..], {"attribute", "sequence"});
        assert OnlyKeys(es, {"attribute", "sequence"}) == [es[0]] + rest;
        assert ([es[0]] + rest)[0] == es[0] && ([es[0]] + rest)[1..] == rest;
        match ComplexEntry(fuel, es[0].0, es[0].1, acc, reg)
        case Err(_) =>
        case Ok(a) => ComplexUsesOnlyAttributeAndSequence(fuel, es[1..], a, reg);
      } else {
        ComplexUsesOnlyAttributeAndSequence(fuel, es[1..], acc, reg);
      }
    }
  }

  /** buildRaw's output has exactly one entry per top-level element name; a
      later element of the same name replaces an earlier one. Every element
      must carry an inline complexType, or the whole build fails. */
  lemma {:induction false} RawsFrame(fuel: nat, elements: seq<Node>, reg: Registry, raws: map<string, Dict>)
    requires Raws(fuel, elements, reg, raws).Ok?
    ensures Raws(fuel, elements, reg, raws).value.Keys == raws.Keys + ElementKeys(elements)
    ensures forall k :: k in raws && k !in ElementKeys(elements) ==> Raws(fuel, elements, reg, raws).value[k] == raws[k]
    ensures forall i :: 0 <= i < |elements| ==> Complex(fuel, Get(elements[i], "complexType"), map[], reg).Ok?
  {
    if elements != [] {
      var s := elements[0];
      var d := Complex(fuel, Get(s, "complexType"), map[], reg).value;
      RawsFrame(fuel, elements[1..], reg, raws[ElementKey(s) := d]);
      ElementKeysCons(elements);
      forall i | 0 <= i < |elements|
        ensures Complex(fuel, Get(elements[i], "complexType"), map[], reg).Ok?
      {
        if i > 0 {
          assert elements[i] == elements[1..][i - 1];
        }
      }
    }
  }

  lemma {:induction false} RawsLastWins(fuel: nat, elements: seq<Node>, i: nat, reg: Registry, raws: map<string, Dict>)
    requires i < |elements|
    requires forall j :: i < j < |elements| ==> ElementKey(elements[j]) != ElementKey(elements[i])
    requires Raws(fuel, elements, reg, raws).Ok?
    ensures Complex(fuel, Get(elements[i], "complexType"), map[], reg).Ok?
    ensures ElementKey(elements[i]) in Raws(fuel, elements, reg, raws).value
    ensures Raws(fuel, elements, reg, raws).value[ElementKey(elements[i])]
         == Complex(fuel, Get(elements[i], "complexType"), map[], reg).value
  {
    var s := elements[0];
    var raws' := raws[ElementKey(s) := Complex(fuel, Get(s, "complexType"), map[], reg).value];
    if i == 0 {
      RawsFrame(fuel, elements[1..], reg, raws');
      forall e | e in elements[1..]
        ensures ElementKey(e) != ElementKey(elements[0])
      {
        var j :| 0 <= j < |elements[1..]| && elements[1..][j] == e;
        assert elements[j + 1] == e;
      }
    } else {
      RawsLastWins(fuel, elements[1..], i - 1, reg, raws');
    }
  }

  lemma BuildOnePerElement(fuel: nat, schema: Node)
    requires Build(fuel, schema).Ok?
    ensures Get(schema, "element").Arr?
    ensures var elements := Get(schema, "element").items;
            var reg := RegistryOf(CastArray(Get(schema, "complexType")));
            var raws := Build(fuel, schema).value;
            && raws.Keys == ElementKeys(elements)
            && (forall i :: 0 <= i < |elements| ==> Complex(fuel, Get(elements[i], "complexType"), map[], reg).Ok?)
            && forall i :: 0 <= i < |elements| && (forall j :: i < j < |elements| ==> ElementKey(elements[j]) != ElementKey(elements[i])) ==>
                 raws[ElementKey(elements[i])] == Complex(fuel, Get(elements[i], "complexType"), map[], reg).value
  {
    var elements := Get(schema, "element").items;
    var reg := RegistryOf(CastArray(Get(schema, "complexType")));
    RawsFrame(fuel, elements, reg, map[]);
    forall i | 0 <= i < |elements| && (forall j :: i < j < |elements| ==> ElementKey(elements[j]) != ElementKey(elements[i]))
      ensures Build(fuel, schema).value[ElementKey(elements[i])] == Complex(fuel, Get(elements[i], "complexType"), map[], reg).value
    {
      RawsLastWins(fuel, elements, i, reg, map[]);
    }
  }

  /** A top-level element declared with `@type` and no inline complexType
      makes buildRaw fail (`Object.keys(undefined)`). */
  lemma TopLevelElementNeedsInlineType(fuel: nat, schema: Node, i: nat)
    requires fuel > 0
    requires Get(schema, "element").Arr? && i < |Get(schema, "element").items|
    requires Get(Get(schema, "element").items[i], "complexType") == Undef
    ensures Build(fuel, schema).Err?
  {
    if Build(fuel, schema).Ok? {
      BuildOnePerElement(fuel, schema);
    }
  }
}
