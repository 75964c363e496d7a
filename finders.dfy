/**
 * The element finders that run over a parsed dump: the filtered button scan
 * (utils/actions.py, utils/find_button_corrdinates.py,
 * utils/find_button_coordinate_v1.py), and the first-match searches for the
 * message input field, the Send button, the Cancel button and the Skip
 * button. Each finder walks `root.iter("node")` in preorder, as a loop over
 * the node sequence.
 */
module Finders {
  import opened PyStr
  import opened Bounds
  import opened UiDump

  // ---------------------------------------------------------------------------
  // get_button_coordinates_from_ui_dump

  /**
   * The scanner's filter: clickable, of class `cls` unless `cls` is empty,
   * with `desc` inside its content-desc unless `desc` is empty (an empty
   * string and None are both falsy, and both switch a filter off).
   */
  predicate Qualifies(n: UiNode, cls: string, desc: string) {
    && Clickable(n)
    && (cls == "" || AttrIs(n, "class", cls))
    && (desc == "" || Contains(Get(n, "content-desc", ""), desc))
  }

  /** The filter as a function value, so that the scan lemmas below can treat it as opaque. */
  function Keep(cls: string, desc: string): (keep: UiNode -> bool)
    ensures forall n :: keep(n) == Qualifies(n, cls, desc)
  {
    n => Qualifies(n, cls, desc)
  }

  /**
   * What a filter-and-append loop has produced after the given nodes: the
   * results of `hit` on the kept nodes, in order, or the exception of the
   * first kept node on which `hit` raises.
   */
  function Scan(nodes: seq<UiNode>, keep: UiNode -> bool, hit: UiNode -> Py<Hit>): Py<seq<Hit>> {
    if nodes == [] then Ok([])
    else match Scan(nodes[..|nodes| - 1], keep, hit)
      case Raise(e) => Raise(e)
      case Ok(hits) =>
        var n := nodes[|nodes| - 1];
        if !keep(n) then Ok(hits)
        else match hit(n)
          case Ok(h) => Ok(hits + [h])
          case Raise(e) => Raise(e)
  }

  /** Once the scan has raised, later nodes do not change the outcome. */
  lemma {:induction false} ScanRaiseSticky(nodes: seq<UiNode>, i: nat, keep: UiNode -> bool, hit: UiNode -> Py<Hit>)
    requires i <= |nodes| && Scan(nodes[..i], keep, hit).Raise?
    ensures Scan(nodes, keep, hit) == Scan(nodes[..i], keep, hit)
    decreases |nodes|
  {
    if i < |nodes| {
      assert nodes[..|nodes| - 1][..i] == nodes[..i];
      ScanRaiseSticky(nodes[..|nodes| - 1], i, keep, hit);
    } else {
      assert nodes[..i] == nodes;
    }
  }

  /**
   * get_button_coordinates_from_ui_dump: `coords.append(...)` for every
   * qualifying node; a qualifying node without `bounds` or with malformed
   * bounds raises out of the function.
   */
  method ButtonCoordinates(nodes: seq<UiNode>, cls: string, desc: string) returns (r: Py<seq<Hit>>)
    ensures r == Scan(nodes, Keep(cls, desc), HitOf)
  {
    var coords: seq<Hit> := [];
    for i := 0 to |nodes|
      invariant Scan(nodes[..i], Keep(cls, desc), HitOf) == Ok(coords)
    {
      assert nodes[..i + 1][..i] == nodes[..i];
      var n := nodes[i];
      if Qualifies(n, cls, desc) {
        var h := HitOf(n);
        if h.Raise? {
          ScanRaiseSticky(nodes, i + 1, Keep(cls, desc), HitOf);
          return Raise(h.exc);
        }
        coords := coords + [h.value];
      }
    }
    assert nodes[..|nodes|] == nodes;
    return Ok(coords);
  }

  /** Result `k` is the hit of node `idx[k]`, a kept node. */
  predicate HitsFrom(nodes: seq<UiNode>, keep: UiNode -> bool, hit: UiNode -> Py<Hit>, hits: seq<Hit>, idx: seq<nat>) {
    && |idx| == |hits|
    && forall k :: 0 <= k < |idx| ==> (idx[k] < |nodes| && keep(nodes[idx[k]]) && hit(nodes[idx[k]]) == Ok(hits[k]))
  }

  predicate Increasing(idx: seq<nat>) {
    forall k1, k2 :: 0 <= k1 < k2 < |idx| ==> idx[k1] < idx[k2]
  }

  /** Every kept node is the origin of some result. */
  predicate CoversKept(nodes: seq<UiNode>, keep: UiNode -> bool, idx: seq<nat>) {
    forall i :: 0 <= i < |nodes| && keep(nodes[i]) ==> i in idx
  }

  /**
   * A successful scan returns one hit per kept node, in preorder, and nothing
   * else: `idx` gives the node each hit came from.
   */
  lemma {:induction false} ScanExact(nodes: seq<UiNode>, keep: UiNode -> bool, hit: UiNode -> Py<Hit>) returns (idx: seq<nat>)
    requires Scan(nodes, keep, hit).Ok?
    ensures HitsFrom(nodes, keep, hit, Scan(nodes, keep, hit).value, idx)
    ensures Increasing(idx)
    ensures CoversKept(nodes, keep, idx)
    decreases |nodes|
  {
    if nodes == [] {
      idx := [];
    } else {
      var init := nodes[..|nodes| - 1];
      var last := |nodes| - 1;
      var pre := Scan(init, keep, hit).value;
      var head := ScanExact(init, keep, hit);
      forall k | 0 <= k < |head| ensures head[k] < last && nodes[head[k]] == init[head[k]] { }
      forall i | 0 <= i < last && keep(nodes[i]) ensures i in head {
        assert nodes[i] == init[i];
      }
      if keep(nodes[last]) {
        idx := head + [last];
        assert Scan(nodes, keep, hit).value == pre + [hit(nodes[last]).value];
        forall k | 0 <= k < |idx|
          ensures idx[k] < |nodes| && keep(nodes[idx[k]]) && hit(nodes[idx[k]]) == Ok(Scan(nodes, keep, hit).value[k])
        {
          if k < |head| { assert idx[k] == head[k]; }
        }
        forall i | 0 <= i < |nodes| && keep(nodes[i]) ensures i in idx {
          if i < last { assert i in head; }
        }
      } else {
        idx := head;
        forall i | 0 <= i < |nodes| && keep(nodes[i]) ensures i in idx {
          if i < last { assert i in head; }
        }
      }
    }
  }

  /** A failed scan raises the exception of the first kept node on which `hit` raises. */
  lemma {:induction false} ScanRaise(nodes: seq<UiNode>, keep: UiNode -> bool, hit: UiNode -> Py<Hit>) returns (i: nat)
    requires Scan(nodes, keep, hit).Raise?
    ensures i < |nodes| && keep(nodes[i])
    ensures hit(nodes[i]) == Raise(Scan(nodes, keep, hit).exc)
    ensures forall j :: 0 <= j < i && keep(nodes[j]) ==> hit(nodes[j]).Ok?
    decreases |nodes|
  {
    var init := nodes[..|nodes| - 1];
    if Scan(init, keep, hit).Raise? {
      i := ScanRaise(init, keep, hit);
      assert init[i] == nodes[i];
      forall j | 0 <= j < i && keep(nodes[j]) ensures hit(nodes[j]).Ok? {
        assert init[j] == nodes[j];
      }
    } else {
      i := |nodes| - 1;
      var idx := ScanExact(init, keep, hit);
      forall j | 0 <= j < i && keep(nodes[j]) ensures hit(nodes[j]).Ok? {
        assert init[j] == nodes[j];
        assert j in idx;
        var k :| 0 <= k < |idx| && idx[k] == j;
      }
    }
  }

  // ---------------------------------------------------------------------------
  // First match in preorder

  /** The first index in `from..n` that satisfies `p`: the loops below that return at the first match. */
  function FirstFrom(n: nat, p: nat -> bool, from: nat): (t: Option<nat>)
    ensures t.Some? ==> from <= t.value < n && p(t.value)
    decreases n - from
  {
    if from >= n then None
    else if p(from) then Some(from)
    else FirstFrom(n, p, from + 1)
  }

  /** No index between `from` and the first match from there (or `n`) satisfies `p`. */
  lemma {:induction false} FirstFromSkips(n: nat, p: nat -> bool, from: nat, j: nat)
    requires from <= j < n
    requires FirstFrom(n, p, from).None? || j < FirstFrom(n, p, from).value
    ensures !p(j)
    decreases n - from
  {
    if j > from {
      FirstFromSkips(n, p, from + 1, j);
    }
  }

  /** Looking one index further changes the answer only when nothing matched before and the new index does. */
  lemma {:induction false} FirstFromGrow(n: nat, p: nat -> bool, from: nat)
    ensures FirstFrom(n + 1, p, from)
            == if FirstFrom(n, p, from).Some? then FirstFrom(n, p, from)
               else if from <= n && p(n) then Some(n) else None
    decreases n - from
  {
    if from < n && !p(from) {
      FirstFromGrow(n, p, from + 1);
    }
  }

  /** `FirstFrom(n, p, 0)` is exactly the first match: `i` when `p(i)` and no earlier index matches, none when no index does. */
  lemma FirstFromIsFirst(n: nat, p: nat -> bool)
    ensures forall i :: 0 <= i < n ==> (FirstFrom(n, p, 0) == Some(i) <==> p(i) && forall j :: 0 <= j < i ==> !p(j))
    ensures FirstFrom(n, p, 0).None? <==> forall i :: 0 <= i < n ==> !p(i)
  {
    var t := FirstFrom(n, p, 0);
    forall i | 0 <= i < n
      ensures t == Some(i) <==> p(i) && forall j :: 0 <= j < i ==> !p(j)
    {
      if t == Some(i) {
        forall j | 0 <= j < i ensures !p(j) {
          FirstFromSkips(n, p, 0, j);
        }
      } else if p(i) {
        if t.None? || i < t.value {
          FirstFromSkips(n, p, 0, i);
        }
      }
    }
    if t.None? {
      forall i | 0 <= i < n ensures !p(i) {
        FirstFromSkips(n, p, 0, i);
      }
    }
  }

  // ---------------------------------------------------------------------------
  // get_input_field_coordinates

  /** A clickable `android.widget.EditText`. */
  predicate IsInputField(n: UiNode) {
    AttrIs(n, "class", "android.widget.EditText") && Clickable(n)
  }

  function InputFields(nodes: seq<UiNode>): nat -> bool {
    (i: nat) => i < |nodes| && IsInputField(nodes[i])
  }

  /** What `get_input_field_coordinates` answers: the centre of the first input field, `None` when there is none. */
  function InputCentre(nodes: seq<UiNode>, parser: Parser): Py<Option<Point>> {
    match FirstFrom(|nodes|, InputFields(nodes), 0)
    case None => Ok(None)
    case Some(i) => CentreOf(nodes[i], parser)
  }

  /** The first input field in preorder decides; with none, the answer is `(None, None)`. */
  lemma InputCentreFirst(nodes: seq<UiNode>, parser: Parser)
    ensures (forall i :: 0 <= i < |nodes| ==> !IsInputField(nodes[i])) ==> InputCentre(nodes, parser) == Ok(None)
    ensures forall i :: 0 <= i < |nodes| && IsInputField(nodes[i]) && (forall j :: 0 <= j < i ==> !IsInputField(nodes[j]))
              ==> InputCentre(nodes, parser) == CentreOf(nodes[i], parser)
  {
    var p := InputFields(nodes);
    FirstFromIsFirst(|nodes|, p);
    forall i | 0 <= i < |nodes| && IsInputField(nodes[i]) && (forall j :: 0 <= j < i ==> !IsInputField(nodes[j]))
      ensures InputCentre(nodes, parser) == CentreOf(nodes[i], parser)
    {
      assert p(i) && forall j :: 0 <= j < i ==> !p(j);
    }
  }

  method InputFieldCoordinates(nodes: seq<UiNode>, parser: Parser) returns (r: Py<Option<Point>>)
    ensures r.Raise? ==> r.exc == KeyError || r.exc == ValueError
    ensures r == InputCentre(nodes, parser)
  {
    for i := 0 to |nodes|
      invariant FirstFrom(|nodes|, InputFields(nodes), i) == FirstFrom(|nodes|, InputFields(nodes), 0)
    {
      if IsInputField(nodes[i]) {
        return CentreOf(nodes[i], parser);
      }
    }
    return Ok(None);
  }

  // ---------------------------------------------------------------------------
  // get_send_button_coordinates

  /** A node whose lowercased content-desc contains "send priority like". */
  predicate IsSendLabel(n: UiNode) {
    Contains(Lower(Get(n, "content-desc", "")), "send priority like")
  }

  /** Node `i` is a Send label whose direct parent node is clickable. */
  predicate IsSendTarget(nodes: seq<UiNode>, i: nat)
    requires i < |nodes|
  {
    && IsSendLabel(nodes[i])
    && nodes[i].parent.Some?
    && nodes[i].parent.value < |nodes|
    && Clickable(nodes[nodes[i].parent.value])
  }

  /** The inner loop `for parent in root.iter("node"): if node in list(parent)`, kept to clickable parents. */
  method ClickableParent(nodes: seq<UiNode>, c: nat) returns (p: Option<nat>)
    requires c < |nodes|
    ensures p.Some? ==> p.value < |nodes| && nodes[c].parent == p && Clickable(nodes[p.value])
    ensures p.None? ==> !(nodes[c].parent.Some? && nodes[c].parent.value < |nodes| && Clickable(nodes[nodes[c].parent.value]))
  {
    for q := 0 to |nodes|
      invariant forall q' :: 0 <= q' < q ==> !(nodes[c].parent == Some(q') && Clickable(nodes[q']))
    {
      if nodes[c].parent == Some(q) && Clickable(nodes[q]) {
        return Some(q);
      }
    }
    return None;
  }

  /** Node `i` of the dump is a Send target, as a predicate on indices. */
  function SendTargets(nodes: seq<UiNode>): nat -> bool {
    (i: nat) => i < |nodes| && IsSendTarget(nodes, i)
  }

  /** The first Send target in preorder. */
  function FirstSend(nodes: seq<UiNode>): (t: Option<nat>)
    ensures t.Some? ==> t.value < |nodes| && IsSendTarget(nodes, t.value)
  {
    FirstFrom(|nodes|, SendTargets(nodes), 0)
  }

  /** What get_send_button_coordinates answers: the centre of the first Send target's parent, or `(None, None)`. */
  function SendCentre(nodes: seq<UiNode>, parser: Parser): Py<Option<Point>> {
    match FirstSend(nodes)
    case None => Ok(None)
    case Some(i) => CentreOf(nodes[nodes[i].parent.value], parser)
  }

  /**
   * The outer loop looks for a Send label, the inner loop for the node that
   * has it as a child; the first label with a clickable parent decides, and
   * the answer is the parent's centre. A label whose parent is not clickable
   * (or that hangs directly under the root) is passed over.
   */
  method SendButtonCoordinates(nodes: seq<UiNode>, parser: Parser) returns (r: Py<Option<Point>>)
    ensures r.Raise? ==> r.exc == KeyError || r.exc == ValueError
    ensures r == SendCentre(nodes, parser)
  {
    for i := 0 to |nodes|
      invariant FirstFrom(|nodes|, SendTargets(nodes), i) == FirstSend(nodes)
    {
      if IsSendLabel(nodes[i]) {
        var p := ClickableParent(nodes, i);
        if p.Some? {
          assert IsSendTarget(nodes, i);
          return CentreOf(nodes[p.value], parser);
        }
      }
      assert !IsSendTarget(nodes, i);
    }
    return Ok(None);
  }

  // ---------------------------------------------------------------------------
  // get_cancel_button_coordinates

  /** A node whose lowercased content-desc or lowercased text is exactly "cancel". */
  predicate IsCancelLabel(n: UiNode) {
    Lower(Get(n, "content-desc", "")) == "cancel" || Lower(Get(n, "text", "")) == "cancel"
  }

  /** The node that answers for Cancel label `i`: its Button parent when `i` is a TextView that has one, else itself. */
  function CancelTarget(nodes: seq<UiNode>, i: nat): (t: nat)
    requires i < |nodes|
    ensures t < |nodes|
    ensures t != i ==> nodes[i].parent == Some(t) && AttrIs(nodes[i], "class", "android.widget.TextView")
                       && AttrIs(nodes[t], "class", "android.widget.Button")
  {
    match nodes[i].parent
    case Some(p) =>
      if AttrIs(nodes[i], "class", "android.widget.TextView") && p < |nodes| && AttrIs(nodes[p], "class", "android.widget.Button")
      then p else i
    case None => i
  }

  /** The inner loop `for parent in root.iter("node")`, kept to Button parents of node `c`. */
  method ButtonParent(nodes: seq<UiNode>, c: nat) returns (p: Option<nat>)
    requires c < |nodes|
    ensures p.Some? ==> p.value < |nodes| && nodes[c].parent == p && AttrIs(nodes[p.value], "class", "android.widget.Button")
    ensures p.None? ==> !(nodes[c].parent.Some? && nodes[c].parent.value < |nodes| && AttrIs(nodes[nodes[c].parent.value], "class", "android.widget.Button"))
  {
    for q := 0 to |nodes|
      invariant forall q' :: 0 <= q' < q ==> !(nodes[c].parent == Some(q') && AttrIs(nodes[q'], "class", "android.widget.Button"))
    {
      if nodes[c].parent == Some(q) && AttrIs(nodes[q], "class", "android.widget.Button") {
        return Some(q);
      }
    }
    return None;
  }

  /** Node `i` of the dump is a Cancel label, as a predicate on indices. */
  function CancelLabels(nodes: seq<UiNode>): nat -> bool {
    (i: nat) => i < |nodes| && IsCancelLabel(nodes[i])
  }

  /** What get_cancel_button_coordinates answers: the centre of the node that answers for the first Cancel label, or `(None, None)`. */
  function CancelCentre(nodes: seq<UiNode>, parser: Parser): Py<Option<Point>> {
    match FirstFrom(|nodes|, CancelLabels(nodes), 0)
    case None => Ok(None)
    case Some(i) => CentreOf(nodes[CancelTarget(nodes, i)], parser)
  }

  /** The first Cancel label decides; the search never looks past it. */
  method CancelButtonCoordinates(nodes: seq<UiNode>, parser: Parser) returns (r: Py<Option<Point>>)
    ensures r.Raise? ==> r.exc == KeyError || r.exc == ValueError
    ensures r == CancelCentre(nodes, parser)
  {
    for i := 0 to |nodes|
      invariant FirstFrom(|nodes|, CancelLabels(nodes), i) == FirstFrom(|nodes|, CancelLabels(nodes), 0)
    {
      if IsCancelLabel(nodes[i]) {
        var t := i;
        if AttrIs(nodes[i], "class", "android.widget.TextView") {
          var p := ButtonParent(nodes, i);
          if p.Some? {
            t := p.value;
          }
        }
        assert t == CancelTarget(nodes, i);
        assert CancelLabels(nodes)(i);
        return CentreOf(nodes[t], parser);
      }
      assert !CancelLabels(nodes)(i);
    }
    return Ok(None);
  }

  // ---------------------------------------------------------------------------
  // find_and_tap_skip_button

  /** An `android.widget.Button` whose content-desc starts with "Skip" (case matters). */
  predicate IsSkipButton(n: UiNode) {
    AttrIs(n, "class", "android.widget.Button") && StartsWith(Get(n, "content-desc", ""), "Skip")
  }

  /**
   * One call of `find_and_tap_skip_button` on the dump file that
   * `take_ui_dump` left: no file gives False, an unparsable file gives False
   * (the ParseError is caught), otherwise the first Skip button decides. Its
   * bounds go through the regex parser; a missing `bounds` attribute reaches
   * `re.match` as None and the TypeError escapes. `tap` is the point tapped.
   */
  method TapSkipButton(file: DumpFile) returns (r: Py<bool>, tap: Option<Point>)
    ensures r == Ok(true) <==> tap.Some?
    ensures !file.Xml? ==> r == Ok(false)
    ensures file.Xml? && (forall n :: n in Nodes(file.roots) ==> !IsSkipButton(n)) ==> r == Ok(false)
    ensures file.Xml? ==>
              var nodes := Nodes(file.roots);
              forall i :: (0 <= i < |nodes| && IsSkipButton(nodes[i]) && (forall j :: 0 <= j < i ==> !IsSkipButton(nodes[j])))
                ==> (if "bounds" in nodes[i].attrs
                     then tap == ParseBoundsRegex(nodes[i].attrs["bounds"]) && r.Ok?
                     else r == Raise(TypeError))
  {
    if !file.Xml? {
      return Ok(false), None;
    }
    var nodes := Nodes(file.roots);
    for i := 0 to |nodes|
      invariant forall j :: 0 <= j < i ==> !IsSkipButton(nodes[j])
    {
      if IsSkipButton(nodes[i]) {
        forall k | 0 <= k < |nodes| && IsSkipButton(nodes[k]) && (forall j :: 0 <= j < k ==> !IsSkipButton(nodes[j]))
          ensures k == i
        {
        }
        if "bounds" !in nodes[i].attrs {
          return Raise(TypeError), None;
        }
        tap := ParseBoundsRegex(nodes[i].attrs["bounds"]);
        return Ok(tap.Some?), tap;
      }
    }
    return Ok(false), None;
  }
}
