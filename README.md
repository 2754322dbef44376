# wsdl2postman schema resolvers in Dafny

wsdl2postman turns a WSDL description into a Postman collection. To give each
SOAP request a sample body, it walks the XML Schema (XSD) inside the WSDL. Each
top-level `element` becomes a sample tree. Attributes sit under `@name` keys,
child elements under their names, a primitive or unknown type shows up as its
qualified type name, and notes go in the `#comment` and `#text` slots. This
project models the two resolvers that build those trees, plus the namespace
helpers of `soap.js`.

- `raw.js` is the resolver the driver uses. `wsdl.js` is a stricter variant
  that also handles `simpleContent`/`complexContent` extensions.
- Both walk a tree that the XML-to-object parser produced. They fill one
  result dictionary in place, inside `forEach` loops over `Object.keys`.

## How the model is built

- `js.dfy` (module `Js`) holds the JavaScript values the parser produces
  (`Node`) and the values stored in a result dictionary (`Value`, `Dict`). It
  also has the runtime failures (`Error`: a `TypeError`, a "not implemented"
  throw, or an exhausted recursion budget) and the JavaScript and lodash
  operations the resolvers use:
  - property access;
  - `Object.keys`;
  - `.map`;
  - lodash `_.map`;
  - `castArray`;
  - `String(...)` and `join`.
- `xsd.dfy` (module `Xsd`) holds what both resolvers share:
  - the registry of named complex types;
  - the `split(':').pop()` local-name rule;
  - the result keys of attributes and elements;
  - the notes a simpleType's `restriction` or `list` child writes.
- `wsdl.dfy` (module `Wsdl`) and `raw.dfy` (module `Raw`) model each resolver
  in two forms:
  - a function per operation says what it computes;
  - a `Seek...` method per source function does the same work with loops that
    update the dictionary, as the source does. Each method is proved equal to
    its function.

  The lemmas at the end of each module state the properties of those
  functions.
- `soap.dfy` (module `Soap`) models `getNamespaces` as a loop over the
  definitions node's entries, proved equal to a specification function. It
  models `getPrefix` as a function over lodash `invert`.

A JavaScript exception is an `Err` result. The source has no cycle guard for a
type that contains itself: it recurses until the engine's stack overflows. The
model instead counts `seekComplex` nesting with a `fuel` parameter and reports
`Err(Exhausted)` when the fuel runs out.

## Model

| member | source | states |
|---|---|---|
| Js.LookupFirst | wsdl.js:30 | A property no entry has reads as `undefined`; a defined read is the value of the first entry with that key. |
| Js.MapMemberAgrees | wsdl.js:28 | `.map(e => e['@value'])` succeeds exactly when no item is `undefined`, and then gives each item's `@value` in order. |
| Js.EntriesOfIndexed | raw.js:16 | `Object.keys` of a string or an array succeeds and gives only index keys, each starting with a digit, so none is a schema construct. |
| Js.CastArrayTruthy | wsdl.js:5-7 | castArray yields only truthy items. `undefined` or any other falsy value (such as the empty string of an empty element) gives none, a single truthy value gives itself, and an array keeps exactly its truthy items, in order. |
| Xsd.LocalNameSuffix | wsdl.js:65 | The local name of a qualified name has no `:`. It is a suffix of the name: either the whole name or the text after its last `:`. |
| Xsd.RegistryOfNames | wsdl.js:186-189 | The registry's keys are exactly the `@name`s of the declarations, and each one maps to a declaration of that name. |
| Xsd.RegistryLastWins | wsdl.js:186-189 | Among declarations sharing a name, the registry holds the last. |
| Xsd.AttributeKeysAreMarked | wsdl.js:50-52 | Every attribute key starts with `@`, so none is `#text` or `#comment`. |
| Xsd.NoteWrites | wsdl.js:27-34 | A note adds exactly `#comment` and `#text` and keeps every other entry. A restriction needs an array enumeration and writes the note listing its `@value`s, with `#text` the `@base` of the simpleType node. A list writes `list` and its `@itemType`. Any failure is a TypeError. |
| Xsd.NotesLastDecide | wsdl.js:25-41 | Several notes fail only with a TypeError. None leaves the dictionary unchanged; otherwise the last child alone decides the result. |
| Xsd.NoteAnyBase | wsdl.js:27-34 | Whether a note succeeds, and what it writes, does not depend on the dictionary's `#comment` and `#text`. |
| Xsd.IntendedNoteRecordsItsBase | wsdl.js:27-34 | Corrected reference: reading the restriction's own `@base` changes only `#text`, and only for a restriction; it fails exactly when the written note fails. |
| Xsd.AsWrittenRestrictionDropsBase | wsdl.js:30 | For a restriction of `xs:string`, the source's note records `#text` as undefined, while the intended note records `xs:string`. |
| Wsdl.SeekSimpleType | wsdl.js:23-43 | The loop over the simpleType's keys computes `SimpleType`, taking a restriction's `#text` from the simpleType's `@base`. |
| Wsdl.SeekAttribute | wsdl.js:45-56 | The loop over the castArray'd attributes computes `Attributes`. |
| Wsdl.Attribute | wsdl.js:48-53 | One attribute adds its `@name` key and changes no other entry. |
| Wsdl.SeekSingleElement | wsdl.js:58-77 | Computes `SingleElement`, recursing into `SeekComplex` for a registered or inline complex type. |
| Wsdl.SingleElement | wsdl.js:58-77 | One element adds its name key and changes no other entry. |
| Wsdl.SeekElement | wsdl.js:84-92 | The loop over the castArray'd elements computes `Elements`. |
| Wsdl.SeekChoice | wsdl.js:94-104 | Computes `Choice`: the note, then every alternative. |
| Wsdl.SeekExtension | wsdl.js:111-123 | Computes `Extension`. |
| Wsdl.SeekComplexContent | wsdl.js:125-142 | The loop over the content's keys computes `ComplexContent`. |
| Wsdl.SeekSequence | wsdl.js:151-163 | The loop over a sequence's keys computes the `sequence` case of a complexType. |
| Wsdl.SeekComplexKeys | wsdl.js:146-173 | The loop over a complexType's keys computes `ComplexEntries`. |
| Wsdl.SeekComplex | wsdl.js:144-180 | The key loop, then the `@sequence` branch, computes `Complex`. |
| Wsdl.BuildRaw | wsdl.js:182-201 | The two loops (registry, then top-level elements) compute `Build`. |
| Wsdl.AttributeListFrame | wsdl.js:45-56 | seekAttribute adds exactly one `@` key per attribute and keeps every other entry. |
| Wsdl.AttributeLastWins | wsdl.js:48-53 | Among attributes sharing a key, the last one's value stays: its `@type`, or its simpleType resolved from `{}`. |
| Wsdl.ElementsFrame | wsdl.js:84-92 | seekElement adds exactly one key per element name and keeps every other entry. |
| Wsdl.ElementsLastWins | wsdl.js:87-89 | Among elements sharing a name, the last one's value stays, and that value does not depend on the dictionary. |
| Wsdl.QualifiedNameFallback | wsdl.js:64-67 | A `@type` whose local name is not registered stores the whole qualified name, prefix included. |
| Wsdl.ElementExpandsFromEmpty | wsdl.js:68-72 | A registered `@type`, or an inline complexType when `@type` is falsy, is expanded from `{}`. What is stored, or which error occurs, does not depend on the dictionary. |
| Wsdl.ElementWithoutType | wsdl.js:73-75 | An element with neither a type nor an inline complexType still gets its key, holding its falsy `@type`. |
| Wsdl.ChoiceExpandsEveryAlternative | wsdl.js:94-104 | A choice needs an array of alternatives. It writes the `Optional nodes: ` note listing their names, adds every alternative's key (not just one), and keeps every other entry. |
| Wsdl.ContentUsesOnlyExtension | wsdl.js:128-139 | In simpleContent/complexContent, only `extension` contributes; `restriction` and any other key add nothing. |
| Wsdl.SequenceUsesOnlyElementAndChoice | wsdl.js:152-163 | In a sequence, only `element` and `choice` contribute; `any`, `group` and any other key add nothing. |
| Wsdl.ComplexUsesOnlyKnownKeys | wsdl.js:146-173 | A complexType contributes only through `attribute`, `sequence`, `simpleContent` and `complexContent`. |
| Wsdl.ExtensionOfRegisteredBase | wsdl.js:115-121 | With a registered base, the dictionary built so far is discarded. The result is the base's expansion with the extension's attributes laid over it. |
| Wsdl.ExtensionOfUnregisteredBase | wsdl.js:115-121 | With an unregistered base, the dictionary built so far is kept, `#text` becomes the qualified base name, and the extension's attributes are laid over it. |
| Wsdl.ExtensionAttributesOverlay | wsdl.js:121 | Whatever the base, an extension attribute replaces any entry with the same key. |
| Wsdl.SimpleTypeEntriesAreNotes | wsdl.js:25-41 | A simpleType resolves only when every key is `restriction` or `list`, and then it writes exactly their notes. |
| Wsdl.SimpleTypeLastChildDecides | wsdl.js:25-41 | A resolved simpleType's last child alone decides its `#comment` and `#text`. |
| Wsdl.SimpleTypeEntriesSplit | wsdl.js:25-41 | The keys are handled in order: once a prefix of them resolves, the rest continues from its dictionary. |
| Wsdl.SimpleTypeRejectsUnknownKey | wsdl.js:36-39 | Any other key (an annotation, `union`, even `@name`) aborts the simpleType; when the keys before it resolve, the error names that key. |
| Wsdl.RestrictionRecordsNoBase | wsdl.js:30 | A resolvable simpleType has no `@base` of its own, so when its last child is a restriction it records `#text` as undefined. |
| Wsdl.RestrictionRecordsItsBase | wsdl.js:27-31 | Corrected reference: with the intended note, the same simpleType would give the same dictionary with `#text` the last restriction's own base. |
| Wsdl.RawsFrame | wsdl.js:192-198 | The build has one entry per top-level element name and keeps earlier ones under other names. Every element's inline complexType resolves. |
| Wsdl.RawsLastWins | wsdl.js:192-198 | Among top-level elements sharing a name, the last one's expansion stays. |
| Wsdl.BuildOnePerElement | wsdl.js:182-201 | A successful build needs an array of top-level elements. It has exactly one entry per element name, holding the last such element's expansion. |
| Wsdl.TopLevelElementNeedsInlineType | wsdl.js:194 | A top-level element without an inline complexType makes the whole build fail. |
| Raw.SeekSimple | raw.js:15-34 | The loop over the simpleType's keys computes `Simple`, taking a restriction's `#text` from the simpleType's `@base`. |
| Raw.SeekAttribute | raw.js:36-46 | The loop over the attributes computes `AttributeList`. |
| Raw.Attribute | raw.js:38-43 | One attribute adds its `@name` key and changes no other entry. |
| Raw.SeekSingleElement | raw.js:48-68 | Computes `SingleElement`, recursing into `SeekComplex` for a registered or inline complex type. |
| Raw.SingleElement | raw.js:48-68 | One element adds its name key and changes no other entry. |
| Raw.SeekElement | raw.js:75-83 | The loop over the elements computes `Elements`. |
| Raw.SeekChoice | raw.js:85-95 | Computes `Choice`: the note, then every alternative. |
| Raw.SeekSequence | raw.js:105-119 | The loop over a sequence's keys computes the `sequence` case of a complexType. |
| Raw.SeekComplexKeys | raw.js:99-123 | The loop over a complexType's keys computes `ComplexEntries`. |
| Raw.SeekComplex | raw.js:97-130 | The key loop, then the `@sequence` branch, computes `Complex`. |
| Raw.BuildRaw | raw.js:132-151 | The two loops (registry, then top-level elements) compute `Build`. |
| Raw.SimpleEntriesAreNotes | raw.js:16-33 | seekSimple writes exactly the notes of its `restriction` and `list` children; `union` and every other key are skipped. |
| Raw.SimpleNeverNotImplemented | raw.js:15-34 | seekSimple never throws "not implemented"; it can fail only with a TypeError. |
| Raw.SimpleWithoutNotesUnchanged | raw.js:27-31 | A simpleType without `restriction` or `list` children leaves the dictionary unchanged, and so does a string or an array in its place. |
| Raw.SimpleLastNoteDecides | raw.js:16-33 | Otherwise, the last `restriction` or `list` child alone decides `#comment` and `#text`. |
| Raw.SimpleRestrictionRecordsTypeBase | raw.js:19-21 | When that last child is a restriction, `#text` is the simpleType node's own `@base`, not the base the restriction names. |
| Raw.AttributeListFrame | raw.js:36-46 | seekAttribute adds exactly one `@` key per attribute and keeps every other entry. |
| Raw.AttributeLastWins | raw.js:38-43 | Among attributes sharing a key, the last one's value stays: its `@type`, or its simpleType resolved from `{}`. |
| Raw.ElementsFrame | raw.js:75-83 | seekElement adds exactly one key per element name and keeps every other entry. |
| Raw.ElementsLastWins | raw.js:78-80 | Among elements sharing a name, the last one's value stays, and that value does not depend on the dictionary. |
| Raw.QualifiedNameFallback | raw.js:54-58 | A `@type` whose local name is not registered stores the whole qualified name. |
| Raw.ElementExpandsFromEmpty | raw.js:59-63 | A registered `@type`, or an inline complexType when `@type` is falsy, is expanded from `{}`, independently of the dictionary. |
| Raw.ElementWithoutType | raw.js:64-66 | An element with neither a type nor an inline complexType still gets its key, holding its falsy `@type`. |
| Raw.ChoiceExpandsEveryAlternative | raw.js:85-95 | A choice needs an array of alternatives. It writes the `Optional nodes: ` note, adds every alternative's key, and keeps every other entry. |
| Raw.SequenceUsesOnlyElementAndChoice | raw.js:106-118 | In a sequence, only `element` and `choice` contribute; every other key adds nothing and raises no error. |
| Raw.ComplexUsesOnlyAttributeAndSequence | raw.js:99-123 | A complexType contributes only through `attribute` and `sequence`; `simpleContent`, `complexContent` and every other key add nothing. |
| Raw.RawsFrame | raw.js:142-148 | The build has one entry per top-level element name, and every element's inline complexType resolves. |
| Raw.RawsLastWins | raw.js:142-148 | Among top-level elements sharing a name, the last one's expansion stays. |
| Raw.BuildOnePerElement | raw.js:132-151 | A successful build needs an array of top-level elements. It has exactly one entry per element name, holding the last such element's expansion. |
| Raw.TopLevelElementNeedsInlineType | raw.js:144 | A top-level element without an inline complexType makes the whole build fail. |
| Soap.IndexFromFirst | soap.js:56 | `indexOf` answers -1 exactly when the substring does not occur; otherwise it gives the first occurrence. |
| Soap.ContainsOccurrence | soap.js:56-61 | `~uri.indexOf(host)` is truthy exactly when `host` occurs somewhere in `uri`. |
| Soap.ListedUrisAreHosted | soap.js:47-61 | Each of the six listed URIs lies on one of the three excluded hosts, so the host tests would skip it anyway. |
| Soap.GetNamespaces | soap.js:39-68 | The loop over the definitions' own entries computes `Namespaces`. |
| Soap.NamespacesKeys | soap.js:42-64 | The result keys are exactly the kept `@` keys with the leading `@` removed. |
| Soap.NamespacesValues | soap.js:46-64 | Nothing is invented: each result entry `k: uri` comes from an input entry `@k: uri`, and no result URI is listed or lies on an excluded host. |
| Soap.NamespacesKeepEntry | soap.js:42-64 | An `@` entry whose URI is not standard appears in the result with its own URI, provided its key does not occur again later (as in any object). |
| Soap.InvertLastWins | soap.js:72 | `invert` maps a URI exactly when some entry has it, and then to the key of its last such entry. |
| Soap.GetPrefixAnswers | soap.js:70-82 | The XML namespace gives `xml` and the xmlns namespace gives `xmlns`, whatever the map holds. Any other URI gives the prefix of its last declaration, or `undefined` when none declares it. |

## Left out

- XML serialisation, the `xmlbuilder.create(...).end()` of both buildRaw functions (wsdl.js:197, raw.js:147): the model's `Build` returns the resolved tree of each top-level element instead of its XML text.
- index.js (file I/O, the parse, the Postman collection) and parser.js (a wrapper over xml2js): these are driver code and a foreign library.
- createSOAPEnvelope (soap.js:9-22): it is a wrapper over xmlbuilder.
- `debug(...)` logging: soap.js calls `debug` at lines 40 and 71 without defining it, so as written both functions would throw. The model takes the bodies after those calls, as if `debug` were defined.
- Stack overflow: the resolvers have no cycle guard, and `fuel` stands for the engine's stack. `Complex` and `SeekComplex` return `Err(Exhausted)` when the fuel is spent; no lemma relates runs with different fuel, or says where a cyclic type graph fails.
- Order of the result trees: a `Dict` is an unordered `map`, so the model does not capture the order of the entries of a sample tree, and so not the order of the child elements in the sample XML. The source relies on it: xmlbuilder writes keys in insertion order, a reassigned key keeps its first position, and a choice writes its `#comment` first so that the note comes out on top (wsdl.js:95, raw.js:86).
- JavaScript key order beyond insertion order: integer-like keys enumerating first, and inherited `Object.prototype` properties (`constructor`, `__proto__`) read through a missing key. `null` values are left out too, because the parser does not produce them.
- Soap.GetNamespaces: its result is modelled as an unordered `map`. `getPrefix` takes the namespaces as entries in enumeration order, because `invert`'s last-wins rule depends on that order.
- Soap.GetNamespaces: it requires every `@` key to hold a string (`AttributeStrings`), as the parser's attributes do. A non-string there would make `indexOf` misbehave or throw, and the model does not cover that.
- Raw.SimpleNeverNotImplemented: seekSimple is not a total function. A missing or single `enumeration`, or a missing `simpleType` on an attribute without `@type`, throws a TypeError. The lemma states the weaker truth that it never throws "not implemented".
- The `@sequence` attribute branch (wsdl.js:175-178, raw.js:125-128) is modelled literally: wsdl.js castArrays the attribute's value, and raw.js needs an array for `forEach`. No property about it is proved.
- The top-level `if (prefix === '')` test in getNamespaces (soap.js:44) is kept, but it can never fire, because the key already starts with `@`. A key that is just `@` gives the empty prefix.
- The model follows the source in these points, not a description of what the resolvers are meant to produce:
  - the notes read `restricted enum value: a, b` and `list`, not typed leaf descriptors;
  - a restriction's `#text` is the simpleType's `@base` (see Findings);
  - seekExtension (wsdl.js:111-123) reads only the extension's `@base` and `attribute`, so a `sequence` or `choice` inside an extension adds nothing to the sample, where merging it after the base's content would be expected;
  - a restriction without an `enumeration` array, such as one with only a pattern facet, throws a TypeError (wsdl.js:28, raw.js:19);
  - the registry is keyed by the declaration's full `@name` and holds complex types only;
  - a top-level element without an inline complexType makes the build fail instead of becoming a leaf;
  - unknown keys inside a sequence are ignored, not rejected.

## Findings

| source | as written | input that shows it | evidently intended | confidence | as-written member | corrected member |
|---|---|---|---|---|---|---|
| wsdl.js:30, raw.js:21 | A restriction's `#text` is taken from the `@base` of the enclosing simpleType node, which XML Schema never gives such an attribute. In wsdl.js, such an attribute would abort the simpleType anyway. | `<simpleType name="Code"><restriction base="xs:string"><enumeration value="A"/><enumeration value="B"/></restriction></simpleType>` records `#text` as undefined in raw.js; in wsdl.js the same simpleType without its name does. | `#text` is the restriction's own `@base`, here `xs:string`. | high (not executed) | Xsd.Note, used by both resolvers, with Xsd.AsWrittenRestrictionDropsBase, Wsdl.RestrictionRecordsNoBase and Raw.SimpleRestrictionRecordsTypeBase | Xsd.IntendedNote, with Xsd.IntendedNoteRecordsItsBase and Wsdl.RestrictionRecordsItsBase |
