/**
 * The XML normalisation `RestClient.Transform` applies before handing a
 * response to the data-contract serializer, over a tree of elements, text
 * and other nodes. For an element it
 *  - copies each attribute into a child element of the same name and value
 *    (unless attributes are ignored),
 *  - reformats the text of elements whose local name mentions "date" or
 *    "time" when a date format is set,
 *  - drops the element when it then has no child nodes,
 *  - otherwise rebuilds it with its local name only, no attributes, and its
 *    children stably sorted by key and transformed in turn.
 * Text and other nodes pass through unchanged.
 */
module XmlTransform {
  import opened Wrappers
  import opened Exceptions
  import opened Text
  import opened StableSort

  /** An expanded XML name; `namespace` is "" for no namespace. */
  datatype Name = Name(namespace: string, localName: string)

  datatype Attribute = Attribute(name: Name, value: string)

  /** `Other` stands for comments and processing instructions, by their markup. */
  datatype Node =
    | Element(name: Name, attributes: seq<Attribute>, nodes: seq<Node>)
    | Text(value: string)
    | Other(markup: string)

  /**
   * What `Transform` reads from the request. `reformatDate(value, format)`
   * stands for `DateTime.ParseExact` followed by `XmlConvert.ToString`;
   * `None` is the `FormatException` of an unparsable value.
   */
  datatype Settings = Settings(
    ignoreXmlAttributes: bool,
    dateFormat: Option<string>,
    reformatDate: (string, string) -> Option<string>)

  function Size(n: Node): (r: nat)
    decreases n
    ensures r >= 1
  {
    match n
    case Element(_, attrs, nodes) => 2 + 3 * |attrs| + SizeAll(nodes)
    case _ => 1
  }

  function SizeAll(ns: seq<Node>): nat
    decreases ns
  {
    if ns == [] then 0 else Size(ns[0]) + SizeAll(ns[1..])
  }

  /** The nodes an element holds after its value is set to `v`. */
  function ValueNodes(v: string): (r: seq<Node>)
    ensures |r| <= 1
  {
    if v == "" then [] else [Text(v)]
  }

  /** The element an attribute is copied into. */
  function AttributeElement(a: Attribute): Node {
    Element(a.name, [], ValueNodes(a.value))
  }

  function AttributeElements(attrs: seq<Attribute>): (r: seq<Node>)
    ensures |r| == |attrs|
    ensures forall i :: 0 <= i < |attrs| ==> r[i] == AttributeElement(attrs[i])
    ensures SizeAll(r) <= 3 * |attrs|
  {
    if attrs == [] then []
    else
      var r := [AttributeElement(attrs[0])] + AttributeElements(attrs[1..]);
      assert r[1..] == AttributeElements(attrs[1..]);
      AttributeElementSize(attrs[0]);
      r
  }

  lemma AttributeElementSize(a: Attribute)
    ensures Size(AttributeElement(a)) <= 3
  {
    var v := ValueNodes(a.value);
    if v != [] {
      assert SizeAll(v) == Size(v[0]) + SizeAll(v[1..]);
      assert v[1..] == [];
    }
  }

  /** `XElement.Value`: the text of all descendant text nodes, in document order. */
  function TextOf(n: Node): string
    decreases n
  {
    match n
    case Element(_, _, nodes) => TextOfAll(nodes)
    case Text(v) => v
    case Other(_) => ""
  }

  function TextOfAll(ns: seq<Node>): string
    decreases ns
  {
    if ns == [] then "" else TextOf(ns[0]) + TextOfAll(ns[1..])
  }

  /** The local name, lower-cased, mentions a date or a time. */
  predicate IsDateOrTime(name: Name) {
    Contains(AsciiLower(name.localName), "date") || Contains(AsciiLower(name.localName), "time")
  }

  predicate DateStep(n: Node, s: Settings)
    requires n.Element?
  {
    !IsNullOrWhiteSpace(s.dateFormat) && IsDateOrTime(n.name)
  }

  /** The children after the attribute copy. */
  function WithAttributes(n: Node, s: Settings): seq<Node>
    requires n.Element?
  {
    if s.ignoreXmlAttributes then n.nodes else n.nodes + AttributeElements(n.attributes)
  }

  lemma SizeAllAppend(a: seq<Node>, b: seq<Node>)
    ensures SizeAll(a + b) == SizeAll(a) + SizeAll(b)
  {
    if a != [] {
      assert (a + b)[1..] == a[1..] + b;
      SizeAllAppend(a[1..], b);
    } else {
      assert a + b == b;
    }
  }

  /** The child nodes of `n` once the attribute copy and the date step are done. */
  function Prepare(n: Node, s: Settings): (r: Result<seq<Node>, Exception>)
    requires n.Element?
    ensures r.Ok? ==> SizeAll(r.value) < Size(n)
  {
    var children := WithAttributes(n, s);
    if DateStep(n, s) then
      match s.reformatDate(TextOfAll(children), s.dateFormat.value)
      case None => Err(FormatException("String was not recognized as a valid DateTime."))
      case Some(v) => Ok(ValueNodes(v))
    else
      SizeAllAppend(n.nodes, AttributeElements(n.attributes));
      Ok(children)
  }

  /** The string form of a text node: `&`, `<` and `>` as entity references. */
  function EscapeText(v: string): string {
    if v == "" then ""
    else
      (if v[0] == '&' then "&amp;" else if v[0] == '<' then "&lt;" else if v[0] == '>' then "&gt;" else [v[0]])
      + EscapeText(v[1..])
  }

  /** The sort key: an element's local name, otherwise the node's string form. */
  function SortKey(n: Node): string {
    match n
    case Element(name, _, _) => name.localName
    case Text(v) => EscapeText(v)
    case Other(markup) => markup
  }

  lemma {:induction false} SizeAllInsert(x: Node, ns: seq<Node>)
    ensures SizeAll(Insert(x, ns, SortKey)) == Size(x) + SizeAll(ns)
  {
    if ns != [] && !LessEq(SortKey(x), SortKey(ns[0])) {
      SizeAllInsert(x, ns[1..]);
      assert ([ns[0]] + Insert(x, ns[1..], SortKey))[1..] == Insert(x, ns[1..], SortKey);
    } else if ns != [] {
      assert ([x] + ns)[1..] == ns;
    }
  }

  lemma {:induction false} SizeAllSort(ns: seq<Node>)
    ensures SizeAll(Sort(ns, SortKey)) == SizeAll(ns)
  {
    if ns != [] {
      SizeAllSort(ns[1..]);
      SizeAllInsert(ns[0], Sort(ns[1..], SortKey));
    }
  }

  /**
   * `Transform`: `Ok(None)` is the null an emptied element yields, `Err`
   * the exception the date step raises.
   */
  function Transform(n: Node, s: Settings): Result<Option<Node>, Exception>
    decreases Size(n), 1
  {
    match n
    case Element(name, _, _) =>
      (match Prepare(n, s)
       case Err(e) => Err(e)
       case Ok(children) =>
         if children == [] then Ok(None)
         else
           SizeAllSort(children);
           match TransformAll(Sort(children, SortKey), s)
           case Err(e) => Err(e)
           case Ok(out) => Ok(Some(Element(Name("", name.localName), [], out))))
    case _ => Ok(Some(n))
  }

  /** Transforms the nodes in order, dropping those that yield null; the first error wins. */
  function TransformAll(ns: seq<Node>, s: Settings): Result<seq<Node>, Exception>
    decreases SizeAll(ns), 2
  {
    if ns == [] then Ok([])
    else
      match Transform(ns[0], s)
      case Err(e) => Err(e)
      case Ok(head) =>
        match TransformAll(ns[1..], s)
        case Err(e) => Err(e)
        case Ok(tail) => Ok((if head.Some? then [head.value] else []) + tail)
  }

  /** The shape `Transform` gives an element: no namespace, no attributes, sorted children, recursively. */
  predicate Normalized(n: Node)
    decreases n
  {
    match n
    case Element(name, attrs, nodes) =>
      name.namespace == "" && attrs == [] && SortedBy(nodes, SortKey) &&
      forall i :: 0 <= i < |nodes| ==> Normalized(nodes[i])
    case _ => true
  }

  /** The nodes that are not elements, in order. */
  function NonElements(ns: seq<Node>): (r: seq<Node>)
    ensures forall i :: 0 <= i < |r| ==> !r[i].Element?
  {
    if ns == [] then []
    else if ns[0].Element? then NonElements(ns[1..])
    else [ns[0]] + NonElements(ns[1..])
  }

  /** Non-element nodes pass through unchanged. */
  lemma TransformPassesNonElements(n: Node, s: Settings)
    requires !n.Element?
    ensures Transform(n, s) == Ok(Some(n))
  {
  }

  /**
   * An element yields an element named by its bare local name, with no
   * attributes, or null when it has no child nodes after the attribute copy
   * and date step, or the date step's error.
   */
  lemma TransformElement(n: Node, s: Settings)
    requires n.Element?
    ensures Prepare(n, s).Err? ==> Transform(n, s) == Err(Prepare(n, s).error)
    ensures Transform(n, s) == Ok(None) <==> Prepare(n, s) == Ok([])
    ensures Transform(n, s).Ok? && Transform(n, s).value.Some? ==>
      Transform(n, s).value.value.Element? &&
      Transform(n, s).value.value.name == Name("", n.name.localName) &&
      Transform(n, s).value.value.attributes == []
  {
  }

  lemma TransformKeepsKey(n: Node, s: Settings)
    ensures Transform(n, s).Ok? && Transform(n, s).value.Some? ==> SortKey(Transform(n, s).value.value) == SortKey(n)
  {
  }

  function KeysOf(ns: seq<Node>): (r: seq<string>)
    ensures |r| == |ns| && forall i :: 0 <= i < |ns| ==> r[i] == SortKey(ns[i])
  {
    seq(|ns|, i requires 0 <= i < |ns| => SortKey(ns[i]))
  }

  /** Every node `TransformAll` outputs has the key of some input node. */
  lemma {:induction false} TransformAllKeys(ns: seq<Node>, s: Settings)
    ensures TransformAll(ns, s).Ok? ==>
      forall i :: 0 <= i < |TransformAll(ns, s).value| ==> SortKey(TransformAll(ns, s).value[i]) in KeysOf(ns)
    decreases |ns|
  {
    if ns != [] && TransformAll(ns, s).Ok? {
      var out := TransformAll(ns, s).value;
      var head := Transform(ns[0], s).value;
      TransformAllKeys(ns[1..], s);
      TransformKeepsKey(ns[0], s);
      var tail := TransformAll(ns[1..], s).value;
      forall i | 0 <= i < |tail|
        ensures SortKey(tail[i]) in KeysOf(ns)
      {
        KeyOfTail(ns, SortKey(tail[i]));
      }
      if head.Some? {
        assert out == [head.value] + tail;
        assert KeysOf(ns)[0] == SortKey(head.value);
        forall i | 0 <= i < |out|
          ensures SortKey(out[i]) in KeysOf(ns)
        {
          if i > 0 {
            assert out[i] == tail[i - 1];
          }
        }
      } else {
        assert out == tail;
      }
    }
  }

  /** A key of the tail is a key of the whole sequence. */
  lemma KeyOfTail(ns: seq<Node>, k: string)
    requires ns != [] && k in KeysOf(ns[1..])
    ensures k in KeysOf(ns)
  {
    var j :| 0 <= j < |ns| - 1 && KeysOf(ns[1..])[j] == k;
    assert KeysOf(ns)[j + 1] == k;
  }

  /** Sorted input gives sorted output: `TransformAll` keeps keys and order. */
  lemma {:induction false} TransformAllSorted(ns: seq<Node>, s: Settings)
    requires SortedBy(ns, SortKey)
    ensures TransformAll(ns, s).Ok? ==> SortedBy(TransformAll(ns, s).value, SortKey)
    decreases |ns|
  {
    if ns != [] && TransformAll(ns, s).Ok? {
      var out := TransformAll(ns, s).value;
      var head := Transform(ns[0], s).value;
      assert SortedBy(ns[1..], SortKey);
      TransformAllSorted(ns[1..], s);
      TransformAllKeys(ns[1..], s);
      TransformKeepsKey(ns[0], s);
      var tail := TransformAll(ns[1..], s).value;
      if head.Some? {
        assert out == [head.value] + tail;
        forall i | 0 <= i < |tail|
          ensures LessEq(SortKey(head.value), SortKey(tail[i]))
        {
          assert SortKey(tail[i]) in KeysOf(ns[1..]);
          var j :| 0 <= j < |ns| - 1 && KeysOf(ns[1..])[j] == SortKey(tail[i]);
          assert ns[1..][j] == ns[j + 1];
        }
        forall i, j | 0 <= i < j < |out|
          ensures LessEq(SortKey(out[i]), SortKey(out[j]))
        {
          assert out[j] == tail[j - 1];
          if i > 0 {
            assert out[i] == tail[i - 1];
          }
        }
      } else {
        assert out == tail;
      }
    }
  }

  /** Every node `TransformAll` outputs is normalised. */
  lemma {:induction false} TransformAllNormalized(ns: seq<Node>, s: Settings)
    ensures TransformAll(ns, s).Ok? ==>
      forall i :: 0 <= i < |TransformAll(ns, s).value| ==> Normalized(TransformAll(ns, s).value[i])
    decreases SizeAll(ns), 2
  {
    if ns != [] && TransformAll(ns, s).Ok? {
      var out := TransformAll(ns, s).value;
      var head := Transform(ns[0], s).value;
      assert SizeAll(ns) == Size(ns[0]) + SizeAll(ns[1..]);
      TransformAllNormalized(ns[1..], s);
      TransformNormalized(ns[0], s);
      var tail := TransformAll(ns[1..], s).value;
      if head.Some? {
        assert out == [head.value] + tail;
        ConsNormalized(head.value, tail);
      } else {
        assert out == tail;
      }
    }
  }

  lemma ConsNormalized(n: Node, ns: seq<Node>)
    requires Normalized(n) && forall i :: 0 <= i < |ns| ==> Normalized(ns[i])
    ensures forall i :: 0 <= i < |[n] + ns| ==> Normalized(([n] + ns)[i])
  {
    forall i | 0 <= i < |[n] + ns|
      ensures Normalized(([n] + ns)[i])
    {
      if i > 0 {
        assert ([n] + ns)[i] == ns[i - 1];
      }
    }
  }

  /** Every element `Transform` returns is normalised, all the way down. */
  lemma {:induction false} TransformNormalized(n: Node, s: Settings)
    ensures Transform(n, s).Ok? && Transform(n, s).value.Some? ==> Normalized(Transform(n, s).value.value)
    decreases Size(n), 1
  {
    if n.Element? && Prepare(n, s).Ok? && Prepare(n, s).value != [] {
      var children := Prepare(n, s).value;
      SizeAllSort(children);
      SortSorted(children, SortKey);
      TransformAllSorted(Sort(children, SortKey), s);
      TransformAllNormalized(Sort(children, SortKey), s);
    }
  }

  /** Non-element children keep their order through `TransformAll`. */
  lemma {:induction false} TransformAllKeepsNonElements(ns: seq<Node>, s: Settings)
    ensures TransformAll(ns, s).Ok? ==> NonElements(TransformAll(ns, s).value) == NonElements(ns)
    decreases |ns|
  {
    if ns != [] && TransformAll(ns, s).Ok? {
      TransformAllKeepsNonElements(ns[1..], s);
      var head := Transform(ns[0], s).value;
      var tail := TransformAll(ns[1..], s).value;
      if head.Some? {
        assert ([head.value] + tail)[1..] == tail;
        if ns[0].Element? {
          TransformElement(ns[0], s);
        }
      } else {
        assert [] + tail == tail;
      }
    }
  }

  /**
   * Transforming a sequence and then keeping the nodes with key `k` is
   * transforming just the nodes with key `k`: `Transform` keeps each
   * node's key and drops only emptied elements.
   */
  lemma {:induction false} TransformAllWithKey(ns: seq<Node>, s: Settings, k: string)
    requires TransformAll(ns, s).Ok?
    ensures TransformAll(WithKey(ns, SortKey, k), s).Ok?
    ensures WithKey(TransformAll(ns, s).value, SortKey, k) == TransformAll(WithKey(ns, SortKey, k), s).value
    decreases |ns|
  {
    if ns != [] {
      var head := Transform(ns[0], s).value;
      var tail := TransformAll(ns[1..], s).value;
      TransformAllWithKey(ns[1..], s, k);
      TransformKeepsKey(ns[0], s);
      var w := WithKey(ns[1..], SortKey, k);
      if head.Some? {
        assert TransformAll(ns, s).value == [head.value] + tail;
        assert ([head.value] + tail)[0] == head.value && ([head.value] + tail)[1..] == tail;
      } else {
        assert TransformAll(ns, s).value == tail;
      }
      if SortKey(ns[0]) == k {
        assert WithKey(ns, SortKey, k) == [ns[0]] + w;
        assert ([ns[0]] + w)[0] == ns[0] && ([ns[0]] + w)[1..] == w;
      }
    }
  }

  /**
   * The children of a transformed element are its prepared children,
   * stably sorted and each transformed: for every key, the children with
   * that key are the transforms of the prepared children with that key,
   * in their original order. Text and other nodes come out unchanged, in
   * sorted order.
   */
  lemma TransformSortsChildren(n: Node, s: Settings, k: string)
    requires n.Element? && Transform(n, s).Ok? && Transform(n, s).value.Some?
    ensures Prepare(n, s).Ok?
    ensures Transform(n, s).value.value.nodes == TransformAll(Sort(Prepare(n, s).value, SortKey), s).value
    ensures TransformAll(WithKey(Prepare(n, s).value, SortKey, k), s).Ok?
    ensures WithKey(Transform(n, s).value.value.nodes, SortKey, k) ==
      TransformAll(WithKey(Prepare(n, s).value, SortKey, k), s).value
    ensures NonElements(Transform(n, s).value.value.nodes) == NonElements(Sort(Prepare(n, s).value, SortKey))
  {
    var children := Prepare(n, s).value;
    var sorted := Sort(children, SortKey);
    TransformAllKeepsNonElements(sorted, s);
    TransformAllWithKey(sorted, s, k);
    SortStable(children, SortKey, k);
  }

  /** An attribute's element holds exactly the attribute's value as its text. */
  lemma AttributeElementValue(a: Attribute)
    ensures AttributeElement(a).name == a.name && TextOf(AttributeElement(a)) == a.value
  {
    var v := ValueNodes(a.value);
    if v != [] {
      assert TextOfAll(v) == TextOf(v[0]) + TextOfAll(v[1..]);
      assert v[1..] == [];
    }
  }

  /**
   * Without the date step, the prepared children are the original children
   * followed by one element per attribute, in attribute order, or just the
   * original children when attributes are ignored.
   */
  lemma PrepareCopiesAttributes(n: Node, s: Settings)
    requires n.Element? && !DateStep(n, s)
    ensures Prepare(n, s).Ok?
    ensures s.ignoreXmlAttributes ==> Prepare(n, s).value == n.nodes
    ensures !s.ignoreXmlAttributes ==>
      var p := Prepare(n, s).value;
      |p| == |n.nodes| + |n.attributes| && p[..|n.nodes|] == n.nodes &&
      forall i :: 0 <= i < |n.attributes| ==>
        p[|n.nodes| + i].Element? && p[|n.nodes| + i].name == n.attributes[i].name &&
        TextOf(p[|n.nodes| + i]) == n.attributes[i].value
  {
    if !s.ignoreXmlAttributes {
      var p := Prepare(n, s).value;
      forall i | 0 <= i < |n.attributes|
        ensures p[|n.nodes| + i] == AttributeElement(n.attributes[i])
        ensures TextOf(p[|n.nodes| + i]) == n.attributes[i].value
      {
        AttributeElementValue(n.attributes[i]);
      }
    }
  }

  /**
   * With the date step, all children (attribute copies included) are
   * replaced by the reformatted text of the element, itself taken after the
   * attribute copy.
   */
  lemma PrepareReformatsDates(n: Node, s: Settings)
    requires n.Element? && DateStep(n, s)
    ensures Prepare(n, s).Ok? <==> s.reformatDate(TextOfAll(WithAttributes(n, s)), s.dateFormat.value).Some?
    ensures Prepare(n, s).Ok? ==>
      TextOfAll(Prepare(n, s).value) == s.reformatDate(TextOfAll(WithAttributes(n, s)), s.dateFormat.value).value &&
      forall i :: 0 <= i < |Prepare(n, s).value| ==> !Prepare(n, s).value[i].Element?
  {
    var p := Prepare(n, s);
    if p.Ok? && p.value != [] {
      assert TextOfAll(p.value) == TextOf(p.value[0]) + TextOfAll(p.value[1..]);
    }
  }

  /** Emptiness is judged after the attribute copy: an element with only a non-empty attribute is kept. */
  lemma AttributeKeepsElement(n: Node, s: Settings)
    requires n.Element? && !s.ignoreXmlAttributes && !DateStep(n, s) && |n.attributes| > 0
    ensures Transform(n, s) != Ok(None)
  {
    TransformElement(n, s);
    PrepareCopiesAttributes(n, s);
  }

  /** An element whose only child is an empty element is kept, as an empty element. */
  lemma EmptiedElementIsKept(local: string, child: Name, s: Settings)
    requires s.ignoreXmlAttributes && IsNullOrWhiteSpace(s.dateFormat)
    ensures Transform(Element(Name("", local), [], [Element(child, [], [])]), s) ==
      Ok(Some(Element(Name("", local), [], [])))
  {
    var c := Element(child, [], []);
    var n := Element(Name("", local), [], [c]);
    assert Prepare(n, s) == Ok([c]);
    assert Sort([c], SortKey) == [c];
    assert Transform(c, s) == Ok(None);
    assert [c][0] == c && [c][1..] == [];
    assert TransformAll([c][1..], s) == Ok([]);
    var none: seq<Node> := [];
    assert none + [] == [];
    assert TransformAll([c], s) == Ok([]);
  }
}
