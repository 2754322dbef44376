/** The namespace helpers of soap.js: getNamespaces collects the namespace
    declarations of a WSDL `definitions` node that are not standard SOAP, WSDL,
    W3C or Apache namespaces, and getPrefix finds the prefix bound to a
    namespace URI. */
module Soap {
  import opened Js

  // ---------------------------------------------------------------------------
  // Namespace URIs
  // ---------------------------------------------------------------------------

  const ApacheSoapUri := "http://xml.apache.org/xml-soap"
  const WsdlUri := "http://schemas.xmlsoap.org/wsdl/"
  const WsdlSoapUri := "http://schemas.xmlsoap.org/wsdl/soap/"
  const WsdlSoap12Uri := "http://schemas.xmlsoap.org/wsdl/soap12/"
  const SoapEncodingUri := "http://schemas.xmlsoap.org/soap/encoding/"
  const XmlSchemaUri := "http://www.w3.org/2001/XMLSchema"

  /** The hosts whose namespaces are all standard. */
  const XmlSoapHost := "http://schemas.xmlsoap.org/"
  const W3Host := "http://www.w3.org/"
  const ApacheHost := "http://xml.apache.org/"

  /** The two namespaces bound by the XML specification itself. */
  const XmlNamespaceUri := "http://www.w3.org/XML/1998/namespace"
  const XmlnsUri := "http://www.w3.org/2000/xmlns/"

  // ---------------------------------------------------------------------------
  // String search
  // ---------------------------------------------------------------------------

  /** `sub` occurs in `s` starting at position `i`. */
  predicate OccursAt(s: string, sub: string, i: int) {
    0 <= i && i + |sub| <= |s| && s[i..i + |sub|] == sub
  }

  /** `s.indexOf(sub, from)`: the first position at or after `from` where
      `sub` occurs, or -1. */
  function IndexFrom(s: string, sub: string, from: nat): int
    decreases |s| - from
  {
    if from + |sub| > |s| then -1
    else if s[from..from + |sub|] == sub then from
    else IndexFrom(s, sub, from + 1)
  }

  function IndexOf(s: string, sub: string): int {
    IndexFrom(s, sub, 0)
  }

  /** The search answers -1 exactly when there is no occurrence at or after
      `from`, and otherwise the first such occurrence. */
  lemma {:induction false} IndexFromFirst(s: string, sub: string, from: nat)
    ensures IndexFrom(s, sub, from) == -1 <==> forall i :: from <= i ==> !OccursAt(s, sub, i)
    ensures IndexFrom(s, sub, from) != -1 ==>
              && from <= IndexFrom(s, sub, from)
              && OccursAt(s, sub, IndexFrom(s, sub, from))
              && forall i :: from <= i < IndexFrom(s, sub, from) ==> !OccursAt(s, sub, i)
    decreases |s| - from
  {
    if from + |sub| > |s| {
      forall i | from <= i
        ensures !OccursAt(s, sub, i)
      {
      }
    } else if s[from..from + |sub|] != sub {
      IndexFromFirst(s, sub, from + 1);
      forall i | from <= i && OccursAt(s, sub, i)
        ensures from + 1 <= i
      {
      }
    } else {
      assert OccursAt(s, sub, from);
    }
  }

  /** `~s.indexOf(sub)`: truthy exactly when the index is not -1. */
  predicate Contains(s: string, sub: string) {
    IndexOf(s, sub) != -1
  }

  lemma ContainsOccurrence(s: string, sub: string)
    ensures Contains(s, sub) <==> exists i :: OccursAt(s, sub, i)
  {
    IndexFromFirst(s, sub, 0);
  }

  /** A string contains each of its prefixes. */
  lemma ContainsPrefix(s: string, sub: string)
    requires |sub| <= |s| && s[..|sub|] == sub
    ensures Contains(s, sub)
  {
    assert OccursAt(s, sub, 0);
    ContainsOccurrence(s, sub);
  }

  // ---------------------------------------------------------------------------
  // getNamespaces
  // ---------------------------------------------------------------------------

  /** The six URIs of the `switch` (soap.js:47-55). */
  predicate Listed(uri: string) {
    || uri == ApacheSoapUri || uri == WsdlUri || uri == WsdlSoapUri
    || uri == WsdlSoap12Uri || uri == SoapEncodingUri || uri == XmlSchemaUri
  }

  /** A namespace getNamespaces skips (soap.js:47-61). */
  predicate Standard(uri: string) {
    || Listed(uri)
    || Contains(uri, XmlSoapHost)
    || Contains(uri, W3Host)
    || Contains(uri, ApacheHost)
  }

  /** Every listed URI lies on one of the three hosts, so the host tests
      alone would skip it as well. */
  lemma ListedUrisAreHosted(uri: string)
    requires Listed(uri)
    ensures Contains(uri, XmlSoapHost) || Contains(uri, W3Host) || Contains(uri, ApacheHost)
  {
    if uri == ApacheSoapUri {
      ContainsPrefix(uri, ApacheHost);
    } else if uri == XmlSchemaUri {
      ContainsPrefix(uri, W3Host);
    } else {
      ContainsPrefix(uri, XmlSoapHost);
    }
  }

  /** `prefix.startsWith('@')`. */
  predicate StartsWithAt(key: string) {
    key != [] && key[0] == '@'
  }

  /** `s.replace(c, '')` with a one-character pattern: the first `c` is
      removed. */
  function RemoveFirst(s: string, c: char): string {
    if s == [] then []
    else if s[0] == c then s[1..]
    else [s[0]] + RemoveFirst(s[1..], c)
  }

  /** The parser stores every attribute, and so every `@` key, as a string. */
  predicate AttributeStrings(fields: seq<(string, Node)>) {
    forall i :: 0 <= i < |fields| && StartsWithAt(fields[i].0) ==> fields[i].1.Str?
  }

  /** An entry getNamespaces copies to its result. */
  predicate Kept(key: string, v: Node) {
    StartsWithAt(key) && key != "" && v.Str? && !Standard(v.s)
  }

  /** The result after visiting `fields` in order. */
  function Namespaces(fields: seq<(string, Node)>): map<string, string> {
    if fields == [] then map[]
    else
      var (key, v) := fields[|fields| - 1];
      var namespaces := Namespaces(fields[..|fields| - 1]);
      if Kept(key, v) then namespaces[RemoveFirst(key, '@') := v.s] else namespaces
  }

  /** The entries a `for...in` loop visits with `hasOwnProperty` true: an
      object's own keys; a string or an array has only index keys, which do
      not start with `@`, and `undefined` has none. */
  function OwnEntries(definitions: Node): seq<(string, Node)> {
    if definitions.Obj? then definitions.fields else []
  }

  /** getNamespaces (soap.js:39-68). */
  method GetNamespaces(definitions: Node) returns (namespaces: map<string, string>)
    requires AttributeStrings(OwnEntries(definitions))
    ensures namespaces == Namespaces(OwnEntries(definitions))
  {
    var fields := OwnEntries(definitions);
    namespaces := map[];
    for i := 0 to |fields|
      invariant namespaces == Namespaces(fields[..i])
    {
      assert fields[..i + 1][..i] == fields[..i];
      var (prefix, v) := fields[i];
      if StartsWithAt(prefix) {
        if prefix == "" {
          continue;
        }
        var nsUri := v.s;
        if Listed(nsUri) {
          continue;
        }
        if IndexOf(nsUri, XmlSoapHost) != -1 {
          continue;
        }
        if IndexOf(nsUri, W3Host) != -1 {
          continue;
        }
        if IndexOf(nsUri, ApacheHost) != -1 {
          continue;
        }
        prefix := RemoveFirst(prefix, '@');
        namespaces := namespaces[prefix := nsUri];
      }
    }
    assert fields[..|fields|] == fields;
  }

  /** The result keys are exactly the kept `@` keys with the `@` stripped. */
  lemma {:induction false} NamespacesKeys(fields: seq<(string, Node)>)
    ensures forall k :: k in Namespaces(fields) <==>
              exists i :: 0 <= i < |fields| && Kept(fields[i].0, fields[i].1) && fields[i].0[1..] == k
  {
    if fields != [] {
      var init := fields[..|fields| - 1];
      NamespacesKeys(init);
      assert forall i :: 0 <= i < |init| ==> init[i] == fields[i];
    }
  }

  /** Nothing is invented: every result entry `k: uri` comes from an input
      entry `'@' + k: uri`, and no standard namespace is among the values. */
  lemma {:induction false} NamespacesValues(fields: seq<(string, Node)>)
    ensures forall k :: k in Namespaces(fields) ==>
              ("@" + k, Str(Namespaces(fields)[k])) in fields && !Standard(Namespaces(fields)[k])
  {
    if fields != [] {
      var init := fields[..|fields| - 1];
      NamespacesValues(init);
      assert fields == init + [fields[|fields| - 1]];
      var (key, v) := fields[|fields| - 1];
      if Kept(key, v) {
        assert "@" + key[1..] == key;
      }
    }
  }

  /** A kept entry whose key does not occur again later is in the result
      with its own value; in an object, whose keys are distinct, this holds
      for every kept entry. */
  lemma {:induction false} NamespacesKeepEntry(fields: seq<(string, Node)>, i: nat)
    requires i < |fields| && Kept(fields[i].0, fields[i].1)
    requires forall j :: i < j < |fields| ==> fields[j].0 != fields[i].0
    ensures fields[i].0[1..] in Namespaces(fields)
    ensures Namespaces(fields)[fields[i].0[1..]] == fields[i].1.s
  {
    var init := fields[..|fields| - 1];
    if i < |fields| - 1 {
      NamespacesKeepEntry(init, i);
      var (key, v) := fields[|fields| - 1];
      if Kept(key, v) {
        assert key == "@" + key[1..] && fields[i].0 == "@" + fields[i].0[1..];
      }
    }
  }

  // ---------------------------------------------------------------------------
  // getPrefix
  // ---------------------------------------------------------------------------

  /** lodash `_.invert` of an object given by its entries in enumeration
      order: each value becomes a key holding its entry's key, a later entry
      overwriting an earlier one. */
  function Invert(entries: seq<(string, string)>): map<string, string> {
    if entries == [] then map[]
    else
      var last := entries[|entries| - 1];
      Invert(entries[..|entries| - 1])[last.1 := last.0]
  }

  /** The inverse maps a URI exactly when some entry has it, and then to the
      key of the last such entry. */
  lemma {:induction false} InvertLastWins(entries: seq<(string, string)>)
    ensures forall u :: u in Invert(entries) <==> exists i :: 0 <= i < |entries| && entries[i].1 == u
    ensures forall u :: u in Invert(entries) ==>
              exists i :: 0 <= i < |entries| && entries[i] == (Invert(entries)[u], u)
                          && forall j :: i < j < |entries| ==> entries[j].1 != u
  {
    if entries != [] {
      var init := entries[..|entries| - 1];
      InvertLastWins(init);
      assert forall i :: 0 <= i < |init| ==> init[i] == entries[i];
    }
  }

  /** getPrefix (soap.js:70-82): `Undef` stands for `undefined`. */
  function GetPrefix(namespaces: seq<(string, string)>, nsUri: string): Node {
    var prefix := Invert(namespaces);
    if nsUri == XmlNamespaceUri then Str("xml")
    else if nsUri == XmlnsUri then Str("xmlns")
    else if nsUri in prefix then Str(prefix[nsUri])
    else Undef
  }

  /** The two XML namespaces have fixed prefixes whatever the declarations
      say; any other URI gets the prefix of its last declaration, or
      `undefined` when none declares it. */
  lemma GetPrefixAnswers(namespaces: seq<(string, string)>, nsUri: string)
    ensures nsUri == XmlNamespaceUri ==> GetPrefix(namespaces, nsUri) == Str("xml")
    ensures nsUri == XmlnsUri ==> GetPrefix(namespaces, nsUri) == Str("xmlns")
    ensures nsUri != XmlNamespaceUri && nsUri != XmlnsUri ==>
              && (GetPrefix(namespaces, nsUri) == Undef <==>
                    forall i :: 0 <= i < |namespaces| ==> namespaces[i].1 != nsUri)
              && (GetPrefix(namespaces, nsUri).Str? ==>
                    exists i :: 0 <= i < |namespaces| && namespaces[i] == (GetPrefix(namespaces, nsUri).s, nsUri)
                                && forall j :: i < j < |namespaces| ==> namespaces[j].1 != nsUri)
  {
    InvertLastWins(namespaces);
  }
}
