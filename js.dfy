/** JavaScript values as the XML-to-object parser hands them to the resolvers
    (attributes merged under `@`-prefixed keys, repeated children as arrays),
    and the few JavaScript and lodash operations the resolvers apply to them. */
module Js {

  /** A parsed XML value: `undefined`, a string, an object with its keys in
      enumeration order, or an array. The parser never produces `null`. */
  datatype Node = Undef | Str(s: string) | Obj(fields: seq<(string, Node)>) | Arr(items: seq<Node>)

  /** A value stored in a resolver's result dictionary: a JavaScript value
      copied from the schema (a type name, a note, possibly `undefined`), or a
      nested result dictionary. */
  datatype Value = Leaf(node: Node) | Tree(children: map<string, Value>)

  type Dict = map<string, Value>

  /** Why a resolution aborts: a JavaScript runtime type error (reading a
      property of `undefined`, calling `.map`/`.forEach`/`.split` on a value
      that has no such method), an explicit "not implemented" throw naming the
      construct, or an exhausted recursion budget (the engine's stack overflow
      on a cyclic type graph). */
  datatype Error = TypeError | NotImplemented(construct: string) | Exhausted

  datatype Result<+T> = Ok(value: T) | Err(error: Error) {
    predicate IsFailure() { Err? }
    function PropagateFailure<U>(): Result<U>
      requires Err?
    {
      Err(error)
    }
    function Extract(): T
      requires Ok?
    {
      value
    }
  }

  /** JavaScript truthiness (`!!v`). */
  predicate Truthy(n: Node) {
    match n
    case Undef => false
    case Str(s) => s != ""
    case _ => true
  }

  /** `fields[key]` for an object whose keys are `fields`. */
  function Lookup(fields: seq<(string, Node)>, key: string): Node {
    if fields == [] then Undef
    else if fields[0].0 == key then fields[0].1
    else Lookup(fields[1..], key)
  }

  /** A missing key reads as `undefined`; a defined value is the first entry
      under its key. */
  lemma {:induction false} LookupFirst(fields: seq<(string, Node)>, key: string)
    ensures (forall i :: 0 <= i < |fields| ==> fields[i].0 != key) ==> Lookup(fields, key) == Undef
    ensures Lookup(fields, key) != Undef ==>
              exists i :: 0 <= i < |fields| && fields[i] == (key, Lookup(fields, key))
                          && forall j :: 0 <= j < i ==> fields[j].0 != key
  {
    if fields != [] && fields[0].0 != key {
      LookupFirst(fields[1..], key);
      if Lookup(fields, key) != Undef {
        var i :| 0 <= i < |fields[1..]| && fields[1..][i] == (key, Lookup(fields, key))
                 && forall j :: 0 <= j < i ==> fields[1..][j].0 != key;
        assert fields[i + 1] == (key, Lookup(fields, key));
        assert forall j :: 0 <= j < i + 1 ==> fields[j].0 != key by {
          forall j | 0 <= j < i + 1
            ensures fields[j].0 != key
          {
            if j > 0 {
              assert fields[j] == fields[1..][j - 1];
            }
          }
        }
      }
    }
  }

  /** `n[key]` for a value that is not `undefined`: a string or an array has
      none of the (non-index) properties the resolvers ask for. */
  function Get(n: Node, key: string): Node {
    if n.Obj? then Lookup(n.fields, key) else Undef
  }

  /** `n[key]`, which throws when `n` is `undefined`. */
  function Member(n: Node, key: string): (r: Result<Node>)
    ensures r.Ok? <==> !n.Undef?
    ensures r.Ok? ==> r.value == Get(n, key)
    ensures r.Err? ==> r.error == TypeError
  {
    if n.Undef? then Err(TypeError) else Ok(Get(n, key))
  }

  /** `xs.map(e => e[key])`: throws on an `undefined` item. */
  function MapMember(xs: seq<Node>, key: string): (r: Result<seq<Node>>)
    ensures r.Err? ==> r.error == TypeError
  {
    if xs == [] then Ok([])
    else if xs[0].Undef? then Err(TypeError)
    else
      var rest :- MapMember(xs[1..], key);
      Ok([Get(xs[0], key)] + rest)
  }

  /** `.map` succeeds exactly when no item is `undefined`, and then agrees
      with lodash's property shorthand. */
  lemma {:induction false} MapMemberAgrees(xs: seq<Node>, key: string)
    ensures MapMember(xs, key).Ok? <==> forall i :: 0 <= i < |xs| ==> !xs[i].Undef?
    ensures MapMember(xs, key).Ok? ==> MapMember(xs, key).value == MapProperty(xs, key)
  {
    if xs != [] {
      MapMemberAgrees(xs[1..], key);
      assert forall i :: 1 <= i < |xs| ==> xs[i] == xs[1..][i - 1];
      if MapMember(xs, key).Ok? {
        assert MapProperty(xs, key) == [Get(xs[0], key)] + MapProperty(xs[1..], key);
      }
    }
  }

  /** lodash `_.map(xs, key)`: the property shorthand yields `undefined` for an
      item that lacks the property, and never throws. */
  function MapProperty(xs: seq<Node>, key: string): seq<Node> {
    seq(|xs|, i requires 0 <= i < |xs| => Get(xs[i], key))
  }

  /** The decimal digits of `n`, the form in which `Object.keys` reports an
      index of a string or an array. */
  function NatString(n: nat): (r: string)
    ensures r != [] && '0' <= r[0] <= '9'
  {
    if n < 10 then ["0123456789"[n]] else NatString(n / 10) + ["0123456789"[n % 10]]
  }

  /** `Object.keys(n)` paired with the value under each key: an object's own
      entries, the indices of a string or an array, and a TypeError for
      `undefined`. */
  function Entries(n: Node): (r: Result<seq<(string, Node)>>)
    ensures r.Ok? <==> !n.Undef?
    ensures r.Err? ==> r.error == TypeError
    ensures n.Obj? ==> r == Ok(n.fields)
  {
    match n
    case Undef => Err(TypeError)
    case Obj(fs) => Ok(fs)
    case Str(s) => Ok(seq(|s|, i requires 0 <= i < |s| => (NatString(i), Str([s[i]]))))
    case Arr(xs) => Ok(seq(|xs|, i requires 0 <= i < |xs| => (NatString(i), xs[i])))
  }

  /** The keys of a string or an array are indices: they start with a digit,
      so no construct name of the schema language is among them. */
  lemma EntriesOfIndexed(n: Node)
    requires n.Str? || n.Arr?
    ensures Entries(n).Ok?
    ensures forall i :: 0 <= i < |Entries(n).value| ==>
              Entries(n).value[i].0 != "" && '0' <= Entries(n).value[i].0[0] <= '9'
  {
  }

  /** `String(n)`, also the property key JavaScript makes of `n`. */
  function JsString(n: Node): string
    decreases n, 0
  {
    match n
    case Undef => "undefined"
    case Str(s) => s
    case Obj(_) => "[object Object]"
    case Arr(xs) => JoinStrings(seq(|xs|, i requires 0 <= i < |xs| => ItemString(xs[i])), ",")
  }

  /** How `Array.prototype.join` writes one item: `undefined` becomes empty. */
  function ItemString(n: Node): string
    decreases n, 1
  {
    if n.Undef? then "" else JsString(n)
  }

  function JoinStrings(ss: seq<string>, sep: string): string {
    if ss == [] then ""
    else if |ss| == 1 then ss[0]
    else ss[0] + sep + JoinStrings(ss[1..], sep)
  }

  /** `xs.join(sep)`. */
  function JoinNodes(xs: seq<Node>, sep: string): string {
    JoinStrings(seq(|xs|, i requires 0 <= i < |xs| => ItemString(xs[i])), sep)
  }

  /** `xs.filter(i => !!i)`. */
  function TruthyItems(xs: seq<Node>): seq<Node> {
    if xs == [] then []
    else if Truthy(xs[0]) then [xs[0]] + TruthyItems(xs[1..])
    else TruthyItems(xs[1..])
  }

  /** The filter keeps exactly the truthy items. */
  lemma {:induction false} TruthyItemsMembers(xs: seq<Node>)
    ensures |TruthyItems(xs)| <= |xs|
    ensures forall x :: x in TruthyItems(xs) <==> x in xs && Truthy(x)
  {
    if xs != [] {
      TruthyItemsMembers(xs[1..]);
      assert xs == [xs[0]] + xs[1..];
    }
  }

  /** Filtering distributes over concatenation, so it keeps the truthy items
      in their original order. */
  lemma {:induction false} TruthyItemsConcat(xs: seq<Node>, ys: seq<Node>)
    ensures TruthyItems(xs + ys) == TruthyItems(xs) + TruthyItems(ys)
  {
    if xs == [] {
      assert xs + ys == ys;
    } else {
      assert (xs + ys)[0] == xs[0] && (xs + ys)[1..] == xs[1..] + ys;
      TruthyItemsConcat(xs[1..], ys);
    }
  }

  /** `_.castArray(data).filter(i => !!i)`. */
  function CastArray(data: Node): seq<Node> {
    if data.Arr? then TruthyItems(data.items)
    else if Truthy(data) then [data]
    else []
  }

  /** castArray never yields a falsy item: an absent or falsy value (such as
      the empty string of an empty element) gives no item, a single truthy
      value gives one, an array keeps its truthy items in order. */
  lemma CastArrayTruthy(data: Node)
    ensures forall x :: x in CastArray(data) ==> Truthy(x)
    ensures data.Undef? ==> CastArray(data) == []
    ensures !data.Arr? && !Truthy(data) ==> CastArray(data) == []
    ensures !data.Arr? && Truthy(data) ==> CastArray(data) == [data]
    ensures data.Arr? ==> forall x :: x in CastArray(data) <==> x in data.items && Truthy(x)
    ensures data.Arr? ==> forall xs, ys :: data.items == xs + ys ==> CastArray(data) == TruthyItems(xs) + TruthyItems(ys)
  {
    if data.Arr? {
      TruthyItemsMembers(data.items);
      forall xs, ys | data.items == xs + ys
        ensures CastArray(data) == TruthyItems(xs) + TruthyItems(ys)
      {
        TruthyItemsConcat(xs, ys);
      }
    }
  }

  /** The entries whose key is one of `keys`, in their original order. */
  function OnlyKeys(es: seq<(string, Node)>, keys: set<string>): (r: seq<(string, Node)>)
    ensures forall i :: 0 <= i < |r| ==> r[i].0 in keys
  {
    if es == [] then []
    else if es[0].0 in keys then [es[0]] + OnlyKeys(es[1..], keys)
    else OnlyKeys(es[1..], keys)
  }

  /** The filter keeps exactly the entries under one of `keys`. */
  lemma {:induction false} OnlyKeysMembers(es: seq<(string, Node)>, keys: set<string>)
    ensures forall e :: e in OnlyKeys(es, keys) <==> e in es && e.0 in keys
  {
    if es != [] {
      OnlyKeysMembers(es[1..], keys);
      assert es == [es[0]] + es[1..];
    }
  }
}
