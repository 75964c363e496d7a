/**
 * utils/find_button_corrdinates.py: up to six views of the profile, each a
 * dump, the Like buttons in it, and for each button the closest prompt text
 * above it; a button is tapped only when that prompt passes the image check
 * and the message is judged suitable for it. An exception ends the view,
 * not the search.
 *
 * The device is a parameter (`Device`): what the dump of view `t` holds,
 * whether its screenshot opens, the outcome of the image check, the
 * suitability judgement and the taps, each indexed by the view, the button
 * and, for taps, the attempt.
 */
module LikeSearch {
  import opened PyStr
  import opened Bounds
  import opened UiDump
  import opened Finders

  const ButtonClass := "android.widget.Button"
  const LikeLabel := "Like"

  /** `max_scrolls = 6` */
  const MaxScrolls: nat := 6

  /** A prompt is considered only when its bottom edge is less than this far above the button's centre. */
  const MaxPromptDistance := 300

  // ---------------------------------------------------------------------------
  // find_prompt_above_button

  /** `node.attrib.get("text", "") or node.attrib.get("content-desc", "")` */
  function Label(n: UiNode): string {
    if Get(n, "text", "") != "" then Get(n, "text", "") else Get(n, "content-desc", "")
  }

  /** `text.strip() and len(text.strip()) > 3`: more than three characters once the blanks around it go. */
  predicate LongText(text: string) {
    |Strip(text)| > 3
  }

  /** The test on a node's label, as a function value. */
  function LongLabel(): (long: UiNode -> bool)
    ensures forall n :: long(n) == LongText(Label(n))
  {
    n => LongText(Label(n))
  }

  /** A prompt found above a button: its rectangle, its (unstripped) label and its distance. */
  datatype Near = Near(box: Rect, text: string, dist: int)

  /** What node `i` offers a button whose centre is at height `y`: a prompt, or None when it does not qualify. */
  function Above(nodes: seq<UiNode>, long: UiNode -> bool, hit: UiNode -> Py<Hit>, y: int, i: nat): (a: Option<Near>)
    requires i < |nodes|
    ensures a.Some? ==> long(nodes[i]) && 0 < a.value.dist < MaxPromptDistance
  {
    if long(nodes[i]) && hit(nodes[i]).Ok? && hit(nodes[i]).value.box.bottom < y
       && y - hit(nodes[i]).value.box.bottom < MaxPromptDistance
    then Some(Near(hit(nodes[i]).value.box, Label(nodes[i]), y - hit(nodes[i]).value.box.bottom))
    else None
  }

  /**
   * `find_prompt_above_button` over the first `n` nodes: the bounds of a
   * node with a long label are parsed (KeyError or ValueError escape), and a
   * prompt replaces the best so far only when strictly closer.
   */
  function NearestIn(nodes: seq<UiNode>, long: UiNode -> bool, hit: UiNode -> Py<Hit>, y: int, n: nat): Py<Option<Near>>
    requires n <= |nodes|
  {
    if n == 0 then Ok(None)
    else match NearestIn(nodes, long, hit, y, n - 1)
      case Raise(e) => Raise(e)
      case Ok(best) =>
        if !long(nodes[n - 1]) then Ok(best)
        else match hit(nodes[n - 1])
          case Raise(e) => Raise(e)
          case Ok(h) =>
            if h.box.bottom < y && y - h.box.bottom < MaxPromptDistance && (best.None? || y - h.box.bottom < best.value.dist)
            then Ok(Some(Near(h.box, Label(nodes[n - 1]), y - h.box.bottom)))
            else Ok(best)
  }

  /** Once the scan has raised, the rest of the nodes do not matter. */
  lemma {:induction false} NearestRaiseSticks(nodes: seq<UiNode>, long: UiNode -> bool, hit: UiNode -> Py<Hit>, y: int, k: nat, n: nat)
    requires k <= n <= |nodes|
    requires NearestIn(nodes, long, hit, y, k).Raise?
    ensures NearestIn(nodes, long, hit, y, n) == NearestIn(nodes, long, hit, y, k)
    decreases n
  {
    if k < n {
      NearestRaiseSticks(nodes, long, hit, y, k, n - 1);
    }
  }

  /** The scan raises exactly when some node with a long label has bad bounds. */
  lemma {:induction false} NearestRaises(nodes: seq<UiNode>, long: UiNode -> bool, hit: UiNode -> Py<Hit>, y: int, n: nat)
    requires n <= |nodes|
    ensures NearestIn(nodes, long, hit, y, n).Raise? <==> exists j :: 0 <= j < n && long(nodes[j]) && hit(nodes[j]).Raise?
    decreases n
  {
    if n > 0 {
      NearestRaises(nodes, long, hit, y, n - 1);
    }
  }

  /** A scan that does not raise finds nothing exactly when no node qualifies. */
  lemma {:induction false} NearestNone(nodes: seq<UiNode>, long: UiNode -> bool, hit: UiNode -> Py<Hit>, y: int, n: nat)
    requires n <= |nodes|
    requires NearestIn(nodes, long, hit, y, n).Ok?
    ensures NearestIn(nodes, long, hit, y, n).value.None? <==> forall j :: 0 <= j < n ==> Above(nodes, long, hit, y, j).None?
    decreases n
  {
    if n > 0 {
      var prev := NearestIn(nodes, long, hit, y, n - 1);
      assert prev.Ok?;
      NearestNone(nodes, long, hit, y, n - 1);
      if long(nodes[n - 1]) {
        assert hit(nodes[n - 1]).Ok?;
        if Above(nodes, long, hit, y, n - 1).Some? && prev.value.None? {
          assert NearestIn(nodes, long, hit, y, n).value.Some?;
        } else {
          assert NearestIn(nodes, long, hit, y, n).value.None? ==> prev.value.None?;
        }
      }
    }
  }

  /**
   * What the scan finds is the closest qualifying prompt, the earliest in
   * preorder among equally close ones.
   */
  lemma {:induction false} NearestIsClosest(nodes: seq<UiNode>, long: UiNode -> bool, hit: UiNode -> Py<Hit>, y: int, n: nat)
    requires n <= |nodes|
    ensures var r := NearestIn(nodes, long, hit, y, n);
            r.Ok? && r.value.Some? ==>
              exists i :: 0 <= i < n && Above(nodes, long, hit, y, i) == r.value
                && (forall j :: 0 <= j < n && Above(nodes, long, hit, y, j).Some? ==> r.value.value.dist <= Above(nodes, long, hit, y, j).value.dist)
                && (forall j :: 0 <= j < i && Above(nodes, long, hit, y, j).Some? ==> r.value.value.dist < Above(nodes, long, hit, y, j).value.dist)
    decreases n
  {
    if n > 0 {
      NearestIsClosest(nodes, long, hit, y, n - 1);
      var prev := NearestIn(nodes, long, hit, y, n - 1);
      if prev.Ok? && long(nodes[n - 1]) && hit(nodes[n - 1]).Ok? {
        var best := prev.value;
        var a := Above(nodes, long, hit, y, n - 1);
        if a.Some? && (best.None? || a.value.dist < best.value.dist) {
          assert NearestIn(nodes, long, hit, y, n) == Ok(a);
          if best.None? {
            NearestNone(nodes, long, hit, y, n - 1);
          }
        } else {
          assert NearestIn(nodes, long, hit, y, n) == prev;
        }
      }
    }
  }

  /** One node of `find_prompt_above_button`'s loop: its exception, or the best prompt after it. */
  method PromptStep(nodes: seq<UiNode>, long: UiNode -> bool, hit: UiNode -> Py<Hit>, y: int, k: nat, best: Option<Near>)
    returns (r: Py<Option<Near>>)
    requires k < |nodes| && NearestIn(nodes, long, hit, y, k) == Ok(best)
    ensures r == NearestIn(nodes, long, hit, y, k + 1)
  {
    var text := Label(nodes[k]);
    if !long(nodes[k]) {
      return Ok(best);
    }
    var h := hit(nodes[k]);
    if h.Raise? {
      return Raise(h.exc);
    }
    var bottom := h.value.box.bottom;
    if bottom < y {
      var dist := y - bottom;
      if (best.None? || dist < best.value.dist) && dist < MaxPromptDistance {
        return Ok(Some(Near(h.value.box, text, dist)));
      }
    }
    return Ok(best);
  }

  /** `find_prompt_above_button(xml_path, button_x, button_y)` on the nodes of the dump. */
  method FindPromptAbove(nodes: seq<UiNode>, y: int) returns (r: Py<Option<Near>>)
    ensures r == NearestIn(nodes, LongLabel(), HitOf, y, |nodes|)
  {
    r := ClosestPrompt(nodes, LongLabel(), HitOf, y);
  }

  /** The loop of `find_prompt_above_button`, for any label test and bounds parse. */
  method ClosestPrompt(nodes: seq<UiNode>, long: UiNode -> bool, hit: UiNode -> Py<Hit>, y: int) returns (r: Py<Option<Near>>)
    ensures r == NearestIn(nodes, long, hit, y, |nodes|)
  {
    r := Ok(None);
    var k := 0;
    while k < |nodes| && r.Ok?
      invariant k <= |nodes| && r == NearestIn(nodes, long, hit, y, k)
    {
      r := PromptStep(nodes, long, hit, y, k, r.value);
      k := k + 1;
    }
    if r.Raise? {
      NearestRaiseSticks(nodes, long, hit, y, k, |nodes|);
    }
  }

  // ---------------------------------------------------------------------------
  // find_and_interact_with_buttons

  /** The device and the judgements around it, view by view. */
  datatype Device = Device(
    screen: nat -> DumpFile,            // the dump pulled in view t
    imageFails: nat -> bool,            // `Image.open(current_screenshot)` raises in view t
    confident: (nat, nat) -> Py<bool>,  // the template check of button m's prompt region: above 0.45, or cv2's error
    suitable: (nat, nat) -> bool,       // `is_message_suitable(prompt_text, message)` for button m
    tap: (nat, nat, nat) -> bool)       // `click_button(x, y)` on attempt a for button m

  /**
   * The buttons of view `t` from button `m` on, `long` being the label test
   * of the prompt search (`LongLabel()` in the program): a button is tapped (once,
   * or again after a failed tap) when it has a prompt above it that passes
   * the image check, the message and the prompt are non-empty and the
   * message is suitable; otherwise the next button is tried.
   */
  function ButtonsFrom(d: Device, long: UiNode -> bool, t: nat, nodes: seq<UiNode>, buttons: seq<Hit>, message: string, m: nat): Py<Option<Point>>
    requires m <= |buttons|
    decreases |buttons| - m
  {
    if m == |buttons| then Ok(None)
    else match NearestIn(nodes, long, HitOf, buttons[m].centre.y, |nodes|)
      case Raise(e) => Raise(e)
      case Ok(None) => ButtonsFrom(d, long, t, nodes, buttons, message, m + 1)
      case Ok(Some(prompt)) =>
        match d.confident(t, m)
        case Raise(e) => Raise(e)
        case Ok(passed) =>
          if passed && message != "" && prompt.text != "" && d.suitable(t, m) && (d.tap(t, m, 0) || d.tap(t, m, 1))
          then Ok(Some(buttons[m].centre))
          else ButtonsFrom(d, long, t, nodes, buttons, message, m + 1)
  }

  /** Button `m` of view `t` was tapped: a prompt above it passed every check and a tap succeeded. */
  predicate Tapped(d: Device, long: UiNode -> bool, t: nat, nodes: seq<UiNode>, buttons: seq<Hit>, message: string, m: nat)
    requires m < |buttons|
  {
    var prompt := NearestIn(nodes, long, HitOf, buttons[m].centre.y, |nodes|);
    && prompt.Ok? && prompt.value.Some? && prompt.value.value.text != ""
    && d.confident(t, m) == Ok(true) && message != "" && d.suitable(t, m)
    && (d.tap(t, m, 0) || d.tap(t, m, 1))
  }

  /** A tap is reported only for a button whose prompt passed every check, and it is the button's centre. */
  lemma {:induction false} TapOnlyWhenSuitable(d: Device, long: UiNode -> bool, t: nat, nodes: seq<UiNode>, buttons: seq<Hit>, message: string, m: nat)
    requires m <= |buttons|
    ensures var r := ButtonsFrom(d, long, t, nodes, buttons, message, m);
            r.Ok? && r.value.Some? ==>
              exists k :: m <= k < |buttons| && Tapped(d, long, t, nodes, buttons, message, k) && r.value.value == buttons[k].centre
    decreases |buttons| - m
  {
    if m < |buttons| {
      TapOnlyWhenSuitable(d, long, t, nodes, buttons, message, m + 1);
      var r := ButtonsFrom(d, long, t, nodes, buttons, message, m);
      if r.Ok? && r.value.Some? && r.value.value == buttons[m].centre && Tapped(d, long, t, nodes, buttons, message, m) {
        assert m <= m < |buttons|;
      }
    }
  }

  /**
   * One view (`long` as in `ButtonsFrom`): the dump is parsed and scanned for Like buttons, the
   * screenshot is opened, then the buttons are tried in order. Any
   * exception is the view's outcome.
   */
  function View(d: Device, long: UiNode -> bool, message: string, t: nat): Py<Option<Point>> {
    match ReadDump(d.screen(t))
    case Raise(e) => Raise(e)
    case Ok(nodes) =>
      match Scan(nodes, Keep(ButtonClass, LikeLabel), HitOf)
      case Raise(e) => Raise(e)
      case Ok(buttons) =>
        if d.imageFails(t) then Raise(FileNotFoundError)
        else ButtonsFrom(d, long, t, nodes, buttons, message, 0)
  }

  /** The view ended in a tap. */
  function Found(d: Device, long: UiNode -> bool, message: string): nat -> bool {
    (t: nat) => View(d, long, message, t).Ok? && View(d, long, message, t).value.Some?
  }

  /** How the search ends: the tapped centre (None for `(False, None)`), the views taken and the swipes sent. */
  datatype Outcome = Outcome(hit: Option<Point>, views: nat, swipes: nat)

  /** The search: nothing without the template image, else the first view that taps, else all six. */
  function Search(d: Device, long: UiNode -> bool, message: string, template: bool): Outcome {
    if !template then Outcome(None, 0, 0)
    else match FirstFrom(MaxScrolls, Found(d, long, message), 0)
      case Some(t) => Outcome(View(d, long, message, t).value, t + 1, t)
      case None => Outcome(None, MaxScrolls, MaxScrolls - 1)
  }

  /** One view of `find_and_interact_with_buttons`, up to its exception or its tap. */
  method ScanView(d: Device, long: UiNode -> bool, message: string, t: nat) returns (r: Py<Option<Point>>)
    ensures r == View(d, long, message, t)
  {
    var dump := ReadDump(d.screen(t));
    if dump.Raise? {
      return Raise(dump.exc);
    }
    var nodes := dump.value;
    var coords := ButtonCoordinates(nodes, ButtonClass, LikeLabel);
    if coords.Raise? {
      return Raise(coords.exc);
    }
    if d.imageFails(t) {
      return Raise(FileNotFoundError);
    }
    var buttons := coords.value;
    for m := 0 to |buttons|
      invariant ButtonsFrom(d, long, t, nodes, buttons, message, m) == View(d, long, message, t)
    {
      var prompt := ClosestPrompt(nodes, long, HitOf, buttons[m].centre.y);
      if prompt.Raise? {
        return Raise(prompt.exc);
      }
      if prompt.value.Some? {
        var check := d.confident(t, m);
        if check.Raise? {
          return Raise(check.exc);
        }
        if check.value && message != "" && prompt.value.value.text != "" && d.suitable(t, m) {
          if d.tap(t, m, 0) || d.tap(t, m, 1) {
            return Ok(Some(buttons[m].centre));
          }
        }
      }
    }
    return Ok(None);
  }

  /** `find_and_interact_with_buttons(message)`: the views, with the label test of `find_prompt_above_button`. */
  method FindAndInteract(d: Device, message: string, template: bool) returns (r: Option<Point>, views: nat, swipes: nat)
    ensures Outcome(r, views, swipes) == Search(d, LongLabel(), message, template)
  {
    r, views, swipes := SearchViews(d, LongLabel(), message, template);
  }

  /** The loop of `find_and_interact_with_buttons`: a swipe before every view but the first, until a view taps. */
  method SearchViews(d: Device, long: UiNode -> bool, message: string, template: bool) returns (r: Option<Point>, views: nat, swipes: nat)
    ensures Outcome(r, views, swipes) == Search(d, long, message, template)
  {
    if !template {
      return None, 0, 0;
    }
    swipes := 0;
    for t := 0 to MaxScrolls
      invariant FirstFrom(MaxScrolls, Found(d, long, message), t) == FirstFrom(MaxScrolls, Found(d, long, message), 0)
      invariant swipes == if t == 0 then 0 else t - 1
    {
      if t > 0 {
        swipes := swipes + 1;
      }
      var v := ScanView(d, long, message, t);
      if v.Ok? && v.value.Some? {
        return v.value, t + 1, swipes;
      }
    }
    return None, MaxScrolls, swipes;
  }

  /**
   * With the template, the search takes between one and six views and
   * swipes between them; a tap comes from the first view that taps, every
   * earlier view having raised or found nothing to tap; without a tap all
   * six views were taken. With an empty message nothing is ever tapped.
   */
  lemma SearchOutcome(d: Device, long: UiNode -> bool, message: string, template: bool)
    ensures !template ==> Search(d, long, message, template) == Outcome(None, 0, 0)
    ensures var o := Search(d, long, message, template);
            template ==> 1 <= o.views <= MaxScrolls && o.swipes == o.views - 1
    ensures var o := Search(d, long, message, template);
            o.hit.Some? ==> (template && View(d, long, message, o.views - 1) == Ok(o.hit)
              && forall t :: 0 <= t < o.views - 1 ==> !Found(d, long, message)(t))
    ensures var o := Search(d, long, message, template);
            template && o.hit.None? ==> o.views == MaxScrolls && forall t :: 0 <= t < MaxScrolls ==> !Found(d, long, message)(t)
    ensures message == "" ==> Search(d, long, message, template).hit.None?
  {
    FirstFromIsFirst(MaxScrolls, Found(d, long, message));
    var o := Search(d, long, message, template);
    if message == "" && template && o.hit.Some? {
      var t := o.views - 1;
      var nodes := ReadDump(d.screen(t)).value;
      var buttons := Scan(nodes, Keep(ButtonClass, LikeLabel), HitOf).value;
      TapOnlyWhenSuitable(d, long, t, nodes, buttons, message, 0);
      assert false;
    }
  }
}
