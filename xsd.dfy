/** What both resolvers share: the registry of named complex types, the
    qualified-name rule, and the wording of the notes they write. */
module Xsd {
  import opened Js

  /** Named `complexType` declarations keyed by their `@name`. */
  type Registry = map<string, Node>

  /** `s.split(':').pop()`: the text after the last `:`, or all of `s`. */
  function LocalName(s: string): string {
    if s == [] then []
    else if s[|s| - 1] == ':' then []
    else LocalName(s[..|s| - 1]) + [s[|s| - 1]]
  }

  /** The local name is the longest suffix without a `:`: all of `s`, or what
      follows its last `:`. */
  lemma LocalNameSuffix(s: string)
    ensures ':' !in LocalName(s)
    ensures |LocalName(s)| <= |s| && LocalName(s) == s[|s| - |LocalName(s)|..]
    ensures LocalName(s) == s || s[|s| - |LocalName(s)| - 1] == ':'
  {
    LocalNameHasNoColon(s);
    LocalNameIsSuffix(s);
  }

  lemma {:induction false} LocalNameHasNoColon(s: string)
    ensures ':' !in LocalName(s)
  {
    if s != [] && s[|s| - 1] != ':' {
      LocalNameHasNoColon(s[..|s| - 1]);
    }
  }

  lemma {:induction false} LocalNameIsSuffix(s: string)
    ensures |LocalName(s)| <= |s| && LocalName(s) == s[|s| - |LocalName(s)|..]
    ensures LocalName(s) == s || s[|s| - |LocalName(s)| - 1] == ':'
  {
    if s != [] && s[|s| - 1] != ':' {
      var init := s[..|s| - 1];
      var ri := LocalName(init);
      LocalNameIsSuffix(init);
      var n := |ri|;
      assert LocalName(s) == ri + [s[|s| - 1]];
      assert s[|s| - 1 - n..] == s[|s| - 1 - n..|s| - 1] + [s[|s| - 1]];
      assert s[|s| - 1 - n..|s| - 1] == init[|init| - n..];
      if ri != init {
        assert s[|s| - n - 2] == init[|init| - n - 1];
      } else {
        assert s == init + [s[|s| - 1]];
      }
    }
  }

  /** The registry key of a declaration: its `@name`, as a property key. */
  function NameOf(decl: Node): string {
    JsString(Get(decl, "@name"))
  }

  /** `complexTypes[complex['@name']] = complex` for each declaration in turn. */
  function RegistryOf(decls: seq<Node>): Registry {
    if decls == [] then map[]
    else
      var last := decls[|decls| - 1];
      RegistryOf(decls[..|decls| - 1])[NameOf(last) := last]
  }

  /** The registry names exactly the declarations, each under its own name. */
  lemma {:induction false} RegistryOfNames(decls: seq<Node>)
    ensures RegistryOf(decls).Keys == set d | d in decls :: NameOf(d)
    ensures forall k :: k in RegistryOf(decls) ==> RegistryOf(decls)[k] in decls && NameOf(RegistryOf(decls)[k]) == k
  {
    if decls != [] {
      var init := decls[..|decls| - 1];
      RegistryOfNames(init);
      assert decls == init + [decls[|decls| - 1]];
    }
  }

  /** A later declaration with the same name replaces an earlier one: the
      registry holds the last declaration of each name. */
  lemma {:induction false} RegistryLastWins(decls: seq<Node>, i: nat)
    requires i < |decls|
    requires forall j :: i < j < |decls| ==> NameOf(decls[j]) != NameOf(decls[i])
    ensures NameOf(decls[i]) in RegistryOf(decls)
    ensures RegistryOf(decls)[NameOf(decls[i])] == decls[i]
  {
    if i < |decls| - 1 {
      RegistryLastWins(decls[..|decls| - 1], i);
    }
  }

  /** `!!complexTypes[name]`. */
  predicate Registered(reg: Registry, name: string) {
    name in reg && Truthy(reg[name])
  }

  /** The note for a restricted simple type, listing its enumeration values. */
  function RestrictionNote(values: seq<Node>): string {
    "restricted enum value: " + JoinNodes(values, ", ")
  }

  /** The note for a choice, listing the names of its alternatives. */
  function ChoiceNote(names: seq<Node>): string {
    "Optional nodes: " + JoinNodes(names, ", ")
  }

  /** The result key of an attribute declaration. */
  function AttributeKey(attr: Node): string {
    "@" + JsString(Get(attr, "@name"))
  }

  /** The result key of an element declaration. */
  function ElementKey(element: Node): string {
    JsString(Get(element, "@name"))
  }

  function AttributeKeys(attrs: seq<Node>): set<string> {
    set a | a in attrs :: AttributeKey(a)
  }

  function ElementKeys(elements: seq<Node>): set<string> {
    set e | e in elements :: ElementKey(e)
  }

  /** Attribute keys carry the `@` mark, so they never collide with the
      `#text` or `#comment` entries. */
  lemma AttributeKeysAreMarked(attrs: seq<Node>)
    ensures forall k :: k in AttributeKeys(attrs) ==> k != [] && k[0] == '@'
    ensures "#text" !in AttributeKeys(attrs) && "#comment" !in AttributeKeys(attrs)
  {
    forall a | a in attrs
      ensures AttributeKey(a) != [] && AttributeKey(a)[0] == '@'
    {
    }
  }

  /** Splitting off the first declaration splits its key off the key set. */
  lemma AttributeKeysCons(attrs: seq<Node>)
    requires attrs != []
    ensures AttributeKeys(attrs) == {AttributeKey(attrs[0])} + AttributeKeys(attrs[1..])
  {
    assert attrs == [attrs[0]] + attrs[1..];
  }

  lemma ElementKeysCons(elements: seq<Node>)
    requires elements != []
    ensures ElementKeys(elements) == {ElementKey(elements[0])} + ElementKeys(elements[1..])
  {
    assert elements == [elements[0]] + elements[1..];
  }

  // ---------------------------------------------------------------------------
  // The notes of a simpleType
  // ---------------------------------------------------------------------------

  /** The children of a simpleType that both resolvers turn into notes. */
  predicate NoteKey(key: string) {
    key == "restriction" || key == "list"
  }

  /** What a `restriction` or a `list` child `v` of the simpleType `simple`
      writes (wsdl.js:27-34, raw.js:18-25): a restriction lists the `@value`s
      of its enumeration (which must be an array) and takes `#text` from the
      `@base` of the simpleType node, not from its own; a list notes "list"
      and takes `#text` from its `@itemType`. */
  function Note(simple: Node, key: string, v: Node, acc: Dict): Result<Dict>
    requires NoteKey(key)
  {
    if key == "restriction" then
      var enumeration :- Member(v, "enumeration");
      if !enumeration.Arr? then Err(TypeError)
      else
        var values :- MapMember(enumeration.items, "@value");
        Ok(acc["#comment" := Leaf(Str(RestrictionNote(values)))]["#text" := Leaf(Get(simple, "@base"))])
    else
      var item :- Member(v, "@itemType");
      Ok(acc["#comment" := Leaf(Str("list"))]["#text" := Leaf(item)])
  }

  /** A note writes `#comment` and `#text` and nothing else, and fails only
      with a type error; a restriction's `#text` is the simpleType's `@base`. */
  lemma NoteWrites(simple: Node, key: string, v: Node, acc: Dict)
    requires NoteKey(key)
    ensures var r := Note(simple, key, v, acc);
            && (r.Ok? ==> r.value.Keys == acc.Keys + {"#comment", "#text"})
            && (r.Ok? ==> forall k :: k in acc && k != "#comment" && k != "#text" ==> r.value[k] == acc[k])
            && (r.Ok? && key == "restriction" ==>
                  && Get(v, "enumeration").Arr?
                  && r.value["#comment"] == Leaf(Str(RestrictionNote(MapProperty(Get(v, "enumeration").items, "@value"))))
                  && r.value["#text"] == Leaf(Get(simple, "@base")))
            && (r.Ok? && key == "list" ==>
                  r.value["#comment"] == Leaf(Str("list")) && r.value["#text"] == Leaf(Get(v, "@itemType")))
            && (r.Err? ==> r.error == TypeError)
  {
    if key == "restriction" && Note(simple, key, v, acc).Ok? {
      MapMemberAgrees(Get(v, "enumeration").items, "@value");
    }
  }

  /** The note as evidently intended: a restriction's `#text` is the `@base`
      of the restriction `v` itself, which is where XML Schema puts it. */
  function IntendedNote(key: string, v: Node, acc: Dict): Result<Dict>
    requires NoteKey(key)
  {
    Note(v, key, v, acc)
  }

  /** The intended note differs from the written one in `#text` alone, and
      only for a restriction, where it holds the restriction's own base. */
  lemma IntendedNoteRecordsItsBase(simple: Node, key: string, v: Node, acc: Dict)
    requires NoteKey(key)
    ensures IntendedNote(key, v, acc).Ok? == Note(simple, key, v, acc).Ok?
    ensures key == "list" ==> IntendedNote(key, v, acc) == Note(simple, key, v, acc)
    ensures key == "restriction" && IntendedNote(key, v, acc).Ok? ==>
              IntendedNote(key, v, acc).value == Note(simple, key, v, acc).value["#text" := Leaf(Get(v, "@base"))]
  {
  }

  /** A restriction of `xs:string` with two enumeration values (the parser
      makes an array only of a repeated child), inside a simpleType that, as
      XML Schema prescribes, has no `base` attribute. */
  const BaseExampleRestriction: Node :=
    Obj([("@base", Str("xs:string")),
         ("enumeration", Arr([Obj([("@value", Str("A"))]), Obj([("@value", Str("B"))])]))])
  const BaseExampleSimpleType: Node := Obj([("@name", Str("Code")), ("restriction", BaseExampleRestriction)])

  /** As written, the restriction's base type is lost: `#text` is undefined
      where the restriction names `xs:string`. */
  lemma AsWrittenRestrictionDropsBase()
    ensures Note(BaseExampleSimpleType, "restriction", BaseExampleRestriction, map[]).Ok?
    ensures Note(BaseExampleSimpleType, "restriction", BaseExampleRestriction, map[]).value["#text"] == Leaf(Undef)
    ensures IntendedNote("restriction", BaseExampleRestriction, map[]).Ok?
    ensures IntendedNote("restriction", BaseExampleRestriction, map[]).value["#text"] == Leaf(Str("xs:string"))
  {
    var fields := BaseExampleSimpleType.fields;
    assert Lookup(fields[1..], "@base") == Lookup(fields[2..], "@base") == Undef;
  }

  /** The notes of several such children of `simple`, in order. */
  function Notes(simple: Node, es: seq<(string, Node)>, acc: Dict): Result<Dict>
    requires forall i :: 0 <= i < |es| ==> NoteKey(es[i].0)
  {
    if es == [] then Ok(acc)
    else
      var acc' :- Note(simple, es[0].0, es[0].1, acc);
      Notes(simple, es[1..], acc')
  }

  /** Notes touch only `#comment` and `#text`, the last child decides both,
      and the only failure is a type error. */
  lemma {:induction false} NotesLastDecide(simple: Node, es: seq<(string, Node)>, acc: Dict)
    requires forall i :: 0 <= i < |es| ==> NoteKey(es[i].0)
    ensures Notes(simple, es, acc).Err? ==> Notes(simple, es, acc).error == TypeError
    ensures es == [] ==> Notes(simple, es, acc) == Ok(acc)
    ensures es != [] && Notes(simple, es, acc).Ok? ==>
              var last := es[|es| - 1];
              && Note(simple, last.0, last.1, acc).Ok?
              && Notes(simple, es, acc).value == Note(simple, last.0, last.1, acc).value
  {
    if es != [] {
      NoteWrites(simple, es[0].0, es[0].1, acc);
      match Note(simple, es[0].0, es[0].1, acc)
      case Err(_) =>
      case Ok(acc') =>
        NotesLastDecide(simple, es[1..], acc');
        if es[1..] != [] {
          NoteAnyBase(simple, es[|es| - 1].0, es[|es| - 1].1, acc', acc);
        }
    }
  }

  /** Whether a note succeeds, and what it writes over the dictionary, does
      not depend on the dictionary. */
  lemma NoteAnyBase(simple: Node, key: string, v: Node, acc: Dict, other: Dict)
    requires NoteKey(key)
    requires forall k :: k != "#comment" && k != "#text" ==> (k in acc <==> k in other)
    requires forall k :: k in acc && k != "#comment" && k != "#text" ==> acc[k] == other[k]
    ensures Note(simple, key, v, acc).Ok? == Note(simple, key, v, other).Ok?
    ensures Note(simple, key, v, acc).Ok? ==> Note(simple, key, v, acc).value == Note(simple, key, v, other).value
  {
  }
}
