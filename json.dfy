/**
 * A small schema-free document: the part of a JSON tree (and of a decoded YAML
 * document) that the scanner core reads and rewrites.
 */
module Json {
  import opened Text

  datatype Node =
    | Missing
    | Null
    | Str(text: string)
    | Num(number: int)
    | Bool(truth: bool)
    | Array(elements: seq<Node>)
    | Object(fields: map<string, Node>)

  /** `n.Path(key)`: the member `key` of an object node; the missing node otherwise. */
  function Path(n: Node, key: string): (r: Node)
    ensures r != Missing ==> n.Object? && key in n.fields && r == n.fields[key]
    ensures n.Object? && key in n.fields ==> r == n.fields[key]
  {
    if n.Object? && key in n.fields then n.fields[key] else Missing
  }

  /** `n.AsText()`: a string node's text, a number's decimal text, "" for missing or null. */
  function AsText(n: Node): string {
    match n
    case Str(s) => s
    case Num(i) => Itoa(i)
    case Bool(b) => if b then "true" else "false"
    case _ => ""
  }

  /** `n.AsInt()`: a number node's value, 0 for anything else. */
  function AsInt(n: Node): int {
    if n.Num? then n.number else 0
  }

  /** `n.Size()`: the number of elements of an array or members of an object. */
  function Size(n: Node): nat {
    match n
    case Array(es) => |es|
    case Object(fs) => |fs|
    case _ => 0
  }

  /** `n.Elements()`: the elements of an array node; none for anything else. */
  function Elements(n: Node): seq<Node> {
    if n.Array? then n.elements else []
  }

  /** `n.Put(key, v)` on an object node. */
  function Put(n: Node, key: string, v: Node): (r: Node)
    requires n.Object?
    ensures r.Object? && r.fields.Keys == n.fields.Keys + {key}
    ensures Path(r, key) == v
    ensures forall k | k in n.fields && k != key :: r.fields[k] == n.fields[k]
  {
    Object(n.fields[key := v])
  }

  /** The elements of `es` that `drop` does not select, in their original order. */
  function Keep(es: seq<Node>, drop: Node -> bool): (r: seq<Node>)
    ensures |r| <= |es|
    ensures forall x | x in r :: x in es && !drop(x)
    ensures forall x | x in es && !drop(x) :: x in r
    decreases |es|
  {
    if es == [] then []
    else
      var last := es[|es| - 1];
      assert es == es[..|es| - 1] + [last];
      Keep(es[..|es| - 1], drop) + (if drop(last) then [] else [last])
  }

  /** Keeping from a non-empty sequence: its last element is kept, after the others, unless it is dropped. */
  lemma KeepLast(es: seq<Node>, drop: Node -> bool)
    requires es != []
    ensures Keep(es, drop) == Keep(es[..|es| - 1], drop) + (if drop(es[|es| - 1]) then [] else [es[|es| - 1]])
  {
  }

  /**
   * Keeping distributes over concatenation, so the kept elements keep their
   * relative order: those of `a` come first, then those of `b`.
   */
  lemma {:induction false} KeepConcat(a: seq<Node>, b: seq<Node>, drop: Node -> bool)
    ensures Keep(a + b, drop) == Keep(a, drop) + Keep(b, drop)
    decreases |b|
  {
    if b == [] {
      assert a + b == a;
    } else {
      var b' := b[..|b| - 1];
      assert (a + b)[..|a + b| - 1] == a + b';
      assert (a + b)[|a + b| - 1] == b[|b| - 1];
      KeepLast(a + b, drop);
      KeepLast(b, drop);
      KeepConcat(a, b', drop);
    }
  }

  /** Keeping from one more element: that element is kept, after the others, unless it is dropped. */
  lemma KeepNext(es: seq<Node>, i: nat, drop: Node -> bool)
    requires i < |es|
    ensures Keep(es[..i + 1], drop) == Keep(es[..i], drop) + (if drop(es[i]) then [] else [es[i]])
  {
    assert es[..i + 1][..i] == es[..i];
  }

  /**
   * `util.RemoveJNodeElementsIf`: an array node without the elements `drop`
   * selects. Any other node is returned as it is.
   */
  function RemoveElementsIf(n: Node, drop: Node -> bool): (r: Node)
    ensures n.Array? ==> r == Array(Keep(n.elements, drop))
    ensures !n.Array? ==> r == n
  {
    if n.Array? then Array(Keep(n.elements, drop)) else n
  }
}
