/**
 * A uiautomator dump as the bot reads it with ElementTree: a tree of `node`
 * elements under a `<hierarchy>` root. `root.iter("node")` is the preorder
 * sequence of the nodes, without the root; a node is identified by its
 * position in that sequence and remembers the position of its parent, which
 * is what `node in list(parent)` asks about.
 */
module UiDump {
  import opened PyStr
  import opened Bounds

  /** An element of the dump: its attribute dictionary and its child elements. */
  datatype Element = Element(attrs: map<string, string>, children: seq<Element>)

  /** A node of `root.iter("node")`: its attributes and the preorder index of its parent node (None under the root). */
  datatype UiNode = UiNode(attrs: map<string, string>, parent: Option<nat>)

  /** What `ET.parse` finds in the dump file: no file, text it cannot parse, or the root's children. */
  datatype DumpFile = Missing | Malformed | Xml(roots: seq<Element>)

  /** `ET.parse(path).getroot().iter("node")`: FileNotFoundError without a file, ParseError on text that is not XML. */
  function ReadDump(file: DumpFile): (r: Py<seq<UiNode>>)
    ensures r.Ok? <==> file.Xml?
    ensures file.Missing? ==> r == Raise(FileNotFoundError)
    ensures file.Malformed? ==> r == Raise(ParseError)
  {
    match file
    case Missing => Raise(FileNotFoundError)
    case Malformed => Raise(ParseError)
    case Xml(roots) => Ok(Nodes(roots))
  }

  /** The number of elements in a forest. */
  function Size(es: seq<Element>): nat
    decreases es
  {
    if es == [] then 0 else 1 + Size(es[0].children) + Size(es[1..])
  }

  /** The preorder sequence of a forest whose first element gets index `base`, under the given parent. */
  function Flatten(es: seq<Element>, parent: Option<nat>, base: nat): (r: seq<UiNode>)
    ensures |r| == Size(es)
    decreases es
  {
    if es == [] then []
    else
      [UiNode(es[0].attrs, parent)]
      + Flatten(es[0].children, Some(base), base + 1)
      + Flatten(es[1..], parent, base + 1 + Size(es[0].children))
  }

  /** `list(root.iter("node"))` for a dump whose root has the given children. */
  function Nodes(roots: seq<Element>): (r: seq<UiNode>)
    ensures |r| == Size(roots)
  {
    Flatten(roots, None, 0)
  }

  /** Every node's parent comes before it in preorder. */
  predicate ParentsBefore(nodes: seq<UiNode>) {
    forall k :: 0 <= k < |nodes| && nodes[k].parent.Some? ==> nodes[k].parent.value < k
  }

  lemma {:induction false} FlattenParentsBefore(es: seq<Element>, parent: Option<nat>, base: nat)
    requires parent.Some? ==> parent.value < base
    ensures forall k :: 0 <= k < |Flatten(es, parent, base)| && Flatten(es, parent, base)[k].parent.Some?
              ==> Flatten(es, parent, base)[k].parent.value < base + k
    decreases es
  {
    if es != [] {
      var head := [UiNode(es[0].attrs, parent)];
      var kids := Flatten(es[0].children, Some(base), base + 1);
      var rest := Flatten(es[1..], parent, base + 1 + Size(es[0].children));
      FlattenParentsBefore(es[0].children, Some(base), base + 1);
      FlattenParentsBefore(es[1..], parent, base + 1 + Size(es[0].children));
      var r := head + kids + rest;
      assert r == Flatten(es, parent, base);
      forall k | 0 <= k < |r| && r[k].parent.Some? ensures r[k].parent.value < base + k {
        if k == 0 {
        } else if k < 1 + |kids| {
          assert r[k] == kids[k - 1];
        } else {
          assert r[k] == rest[k - 1 - |kids|];
        }
      }
    }
  }

  /** The nodes of a parsed dump are listed parents first. */
  lemma NodesParentsBefore(roots: seq<Element>)
    ensures ParentsBefore(Nodes(roots))
  {
    FlattenParentsBefore(roots, None, 0);
  }

  /** `node.attrib.get(key, default)` */
  function Get(n: UiNode, key: string, default: string): (v: string)
    ensures key in n.attrs ==> v == n.attrs[key]
    ensures key !in n.attrs ==> v == default
  {
    if key in n.attrs then n.attrs[key] else default
  }

  /** `node.attrib.get(key) == value`: a missing attribute is None and equals no string. */
  predicate AttrIs(n: UiNode, key: string, value: string) {
    key in n.attrs && n.attrs[key] == value
  }

  predicate Clickable(n: UiNode) {
    AttrIs(n, "clickable", "true")
  }

  /** Which `parse_bounds` a source file uses. */
  datatype Parser =
    | RegexParser   // utils/actions.py, utils/find_and_tap_button.py: `(None, None)` when the pattern fails
    | SplitParser   // utils/message_sender.py, message_sender.py: raises ValueError when the shape is wrong

  /**
   * `parse_bounds(node.attrib["bounds"])`: KeyError without a `bounds`
   * attribute, otherwise the parser's centre; `None` stands for `(None, None)`.
   */
  function CentreOf(n: UiNode, parser: Parser): (r: Py<Option<Point>>)
    ensures "bounds" !in n.attrs ==> r == Raise(KeyError)
    ensures parser == RegexParser && "bounds" in n.attrs ==> r == Ok(ParseBoundsRegex(n.attrs["bounds"]))
    ensures parser == SplitParser && "bounds" in n.attrs ==> r != Ok(None)
    ensures r.Raise? ==> r.exc == KeyError || r.exc == ValueError
  {
    if "bounds" !in n.attrs then Raise(KeyError)
    else match parser
      case RegexParser => Ok(ParseBoundsRegex(n.attrs["bounds"]))
      case SplitParser =>
        match ParseBoundsSplit(n.attrs["bounds"])
        case Ok(p) => Ok(Some(p))
        case Raise(e) => Raise(e)
  }

  /** A button's centre together with the rectangle it was computed from. */
  datatype Hit = Hit(centre: Point, box: Rect)

  /** The inline split parse of the button scanners, keeping the rectangle: KeyError or ValueError on a bad node. */
  function HitOf(n: UiNode): (r: Py<Hit>)
    ensures r.Ok? ==> r.value.centre == Centre(r.value.box)
    ensures r.Ok? ==> "bounds" in n.attrs && SplitBounds(n.attrs["bounds"]) == Ok(r.value.box)
  {
    if "bounds" !in n.attrs then Raise(KeyError)
    else match SplitBounds(n.attrs["bounds"])
      case Ok(rect) => Ok(Hit(Centre(rect), rect))
      case Raise(e) => Raise(e)
  }
}
