/**
 * find_button_corrdinates.py: up to fifteen views of the profile, each a
 * screenshot compared with the last one that differed, a template match for
 * the reply button, the text read around it, and a tap when the message is
 * judged suitable for that text. Three repeats in a row end the search; an
 * exception ends the view, not the search.
 *
 * The device is a parameter (`Screen`), indexed by the view: whether the
 * probe of "screen.png" fails, the screenshot's fingerprint (None when it
 * cannot be read), whether the screenshot opens, its size, where the
 * template matches above the 0.45 threshold (or cv2's error), the text read
 * in a region, the suitability judgement and the taps.
 */
module TemplateSearch {
  import opened PyStr
  import opened Bounds

  /** `max_scrolls = 15` */
  const MaxScrolls: nat := 15

  /** `max_same_screenshots = 3` */
  const MaxSame: nat := 3

  /** `crop_margin = 100` */
  const CropMargin: nat := 100

  datatype Screen = Screen(
    probeFails: nat -> bool,            // `Image.open("screen.png")` raises
    hash: nat -> Option<string>,        // `get_screenshot_hash(current_screenshot)`
    imageFails: nat -> bool,            // `Image.open(current_screenshot)` raises
    width: nat -> nat,                  // `screenshot_np.shape[1]`
    height: nat -> nat,                 // `screenshot_np.shape[0]`
    locate: nat -> Py<Option<Point>>,   // `find_best_match`: the location when the confidence is above 0.45
    ocr: (nat, Rect) -> string,         // `pytesseract.image_to_string` of a region
    suitable: nat -> bool,              // `is_message_suitable(prompt_text, message)`
    tap: (nat, nat) -> bool)            // `click_button(x, y)` on attempt a

  /** The convergence state: `last_screenshot_hash` and `same_screenshot_count`. */
  datatype Seen = Seen(last: Option<string>, same: nat)

  /** The comparison with the new fingerprint `h`: a repeat counts, a change resets the count and is remembered. */
  function Compare(seen: Seen, h: Option<string>): (s: Seen)
    ensures s.last == h
    ensures s.same == if h == seen.last then seen.same + 1 else 0
  {
    if h == seen.last then Seen(seen.last, seen.same + 1) else Seen(h, 0)
  }

  /** The centre of the matched template: `location + template_size // 2`. */
  function MatchCentre(loc: Point, tw: nat, th: nat): (p: Point)
    ensures loc.x <= p.x <= loc.x + tw && loc.y <= p.y <= loc.y + th
    ensures 2 * (p.x - loc.x) <= tw < 2 * (p.x - loc.x) + 2
    ensures 2 * (p.y - loc.y) <= th < 2 * (p.y - loc.y) + 2
  {
    Point(loc.x + tw / 2, loc.y + th / 2)
  }

  /** The region read for the prompt: the matched template's rectangle widened by the margin and clamped to the screenshot. */
  function TextRegion(d: Screen, t: nat, loc: Point, tw: nat, th: nat): Rect {
    Crop(Rect(loc.x, loc.y, loc.x + tw, loc.y + th), CropMargin, d.width(t), d.height(t))
  }

  /** How one view ends. */
  datatype Step =
    | Tapped(centre: Point)   // `return True, (x, y)`
    | Ended                   // `break`: the content stopped changing
    | Next(seen: Seen)        // the view failed or found nothing to tap

  /**
   * View `t` of `find_and_interact_with_buttons`: the probe (whose
   * exception skips the comparison), the comparison, then the screenshot,
   * the match, the text around it and the tap.
   */
  function StepAt(d: Screen, message: string, tw: nat, th: nat, t: nat, seen: Seen): Step {
    if d.probeFails(t) then Next(seen)
    else
      var s := Compare(seen, d.hash(t));
      if s.same >= MaxSame then Ended
      else if d.imageFails(t) then Next(s)
      else match d.locate(t)
        case Raise(_) => Next(s)
        case Ok(None) => Next(s)
        case Ok(Some(loc)) =>
          if message != "" && d.ocr(t, TextRegion(d, t, loc, tw, th)) != "" && d.suitable(t) && (d.tap(t, 0) || d.tap(t, 1))
          then Tapped(MatchCentre(loc, tw, th))
          else Next(s)
  }

  /**
   * A view taps only the centre of a confident match, with a non-empty
   * message and a non-empty text around it judged suitable, and only when
   * one of two taps succeeds; it ends the search only on a third repeat in a
   * row; otherwise the fingerprint it compared is the one remembered.
   */
  lemma StepOutcome(d: Screen, message: string, tw: nat, th: nat, t: nat, seen: Seen)
    ensures var st := StepAt(d, message, tw, th, t, seen);
            st.Tapped? ==>
              && !d.probeFails(t) && !d.imageFails(t) && message != "" && d.suitable(t) && (d.tap(t, 0) || d.tap(t, 1))
              && exists loc :: d.locate(t) == Ok(Some(loc)) && st.centre == MatchCentre(loc, tw, th)
                               && d.ocr(t, TextRegion(d, t, loc, tw, th)) != ""
    ensures StepAt(d, message, tw, th, t, seen).Ended? <==>
              !d.probeFails(t) && d.hash(t) == seen.last && seen.same + 1 >= MaxSame
    ensures var st := StepAt(d, message, tw, th, t, seen);
            st.Next? && !d.probeFails(t) ==> st.seen.last == d.hash(t) && st.seen.same < MaxSame
    ensures d.probeFails(t) ==> StepAt(d, message, tw, th, t, seen) == Next(seen)
  {
    if !d.probeFails(t) && !d.imageFails(t) && d.locate(t).Ok? && d.locate(t).value.Some? {
      var loc := d.locate(t).value.value;
      assert d.locate(t) == Ok(Some(loc));
    }
  }

  /** How the search ends: the tapped centre (None for `(False, None)`), the views taken and the swipes sent. */
  datatype Outcome = Outcome(hit: Option<Point>, views: nat, swipes: nat)

  /** The search from view `t` on, with the convergence state `seen`. */
  function SearchFrom(d: Screen, message: string, tw: nat, th: nat, t: nat, seen: Seen): Outcome
    requires t <= MaxScrolls
    decreases MaxScrolls - t
  {
    if t == MaxScrolls then Outcome(None, MaxScrolls, MaxScrolls - 1)
    else match StepAt(d, message, tw, th, t, seen)
      case Tapped(p) => Outcome(Some(p), t + 1, t)
      case Ended => Outcome(None, t + 1, t)
      case Next(s) => SearchFrom(d, message, tw, th, t + 1, s)
  }

  /** `find_and_interact_with_buttons(message)`: nothing without the template image, else the views from the first. */
  function Search(d: Screen, message: string, template: bool, tw: nat, th: nat): Outcome {
    if !template then Outcome(None, 0, 0)
    else SearchFrom(d, message, tw, th, 0, Seen(None, 0))
  }

  /**
   * The convergence state view `t` starts from, when every view before it
   * went on to the next: the initial `(None, 0)`, then what each view left.
   * (After a view that tapped or ended no view follows; the state is then
   * carried over unchanged only to keep the function total.)
   */
  function SeenBefore(d: Screen, message: string, tw: nat, th: nat, t: nat): Seen
    decreases t
  {
    if t == 0 then Seen(None, 0)
    else
      var prev := SeenBefore(d, message, tw, th, t - 1);
      match StepAt(d, message, tw, th, t - 1, prev)
      case Next(s) => s
      case _ => prev
  }

  /** How view `t` of the run from the first view ends. */
  function RunStep(d: Screen, message: string, tw: nat, th: nat, t: nat): Step {
    StepAt(d, message, tw, th, t, SeenBefore(d, message, tw, th, t))
  }

  /**
   * From view `t` on, with the state the earlier views left, the search
   * takes between one more view and the fifteenth, with a swipe before
   * every view but the first. Every view before the last one taken went on
   * to the next; the last one is the tap reported, or the third repeat, or
   * the fifteenth view, which went on as well.
   */
  lemma {:induction false} SearchFromOutcome(d: Screen, message: string, tw: nat, th: nat, t: nat)
    requires t < MaxScrolls
    ensures var o := SearchFrom(d, message, tw, th, t, SeenBefore(d, message, tw, th, t));
            && t < o.views <= MaxScrolls && o.swipes == o.views - 1
            && (forall k :: t <= k < o.views - 1 ==> RunStep(d, message, tw, th, k).Next?)
            && (o.hit.Some? ==> RunStep(d, message, tw, th, o.views - 1) == Tapped(o.hit.value))
            && (o.hit.None? ==> RunStep(d, message, tw, th, o.views - 1) == Ended
                                || (o.views == MaxScrolls && RunStep(d, message, tw, th, MaxScrolls - 1).Next?))
    decreases MaxScrolls - t
  {
    var st := RunStep(d, message, tw, th, t);
    if st.Next? && t + 1 < MaxScrolls {
      assert SeenBefore(d, message, tw, th, t + 1) == st.seen;
      SearchFromOutcome(d, message, tw, th, t + 1);
    }
  }

  /**
   * The whole search: nothing without the template; otherwise between one
   * and fifteen views, one swipe fewer, and it ends at the first view that
   * taps or sees the third repeat, every earlier view having gone on.
   */
  lemma SearchOutcome(d: Screen, message: string, template: bool, tw: nat, th: nat)
    ensures !template ==> Search(d, message, template, tw, th) == Outcome(None, 0, 0)
    ensures var o := Search(d, message, template, tw, th);
            template ==>
              && 1 <= o.views <= MaxScrolls && o.swipes == o.views - 1
              && (forall k :: 0 <= k < o.views - 1 ==> RunStep(d, message, tw, th, k).Next?)
              && (o.hit.Some? ==> RunStep(d, message, tw, th, o.views - 1) == Tapped(o.hit.value))
              && (o.hit.None? ==> RunStep(d, message, tw, th, o.views - 1) == Ended
                                  || (o.views == MaxScrolls && RunStep(d, message, tw, th, MaxScrolls - 1).Next?))
  {
    if template {
      SearchFromOutcome(d, message, tw, th, 0);
    }
  }

  /** With an empty message no view taps, so the search never does. */
  lemma {:induction false} NoMessageNoTap(d: Screen, tw: nat, th: nat, t: nat, seen: Seen)
    requires t <= MaxScrolls
    ensures SearchFrom(d, "", tw, th, t, seen).hit.None?
    decreases MaxScrolls - t
  {
    if t < MaxScrolls {
      var st := StepAt(d, "", tw, th, t, seen);
      if st.Next? {
        NoMessageNoTap(d, tw, th, t + 1, st.seen);
      }
    }
  }

  /**
   * A screen whose fingerprint can never be read ends the search after
   * three views: the first None already equals the initial None, so it
   * counts as a repeat.
   */
  lemma UnreadableScreenEndsAtThird(d: Screen, tw: nat, th: nat)
    requires forall t :: 0 <= t < 3 ==> !d.probeFails(t) && d.hash(t) == None
    ensures Search(d, "", true, tw, th) == Outcome(None, 3, 2)
  {
    assert StepAt(d, "", tw, th, 0, Seen(None, 0)) == Next(Seen(None, 1));
    assert StepAt(d, "", tw, th, 1, Seen(None, 1)) == Next(Seen(None, 2));
    assert StepAt(d, "", tw, th, 2, Seen(None, 2)) == Ended;
  }

  /** A screen that never changes ends the search after four views: the first fingerprint is a change from None. */
  lemma StillScreenEndsAtFourth(d: Screen, tw: nat, th: nat, h: string)
    requires forall t :: 0 <= t < 4 ==> !d.probeFails(t) && d.hash(t) == Some(h)
    ensures Search(d, "", true, tw, th) == Outcome(None, 4, 3)
  {
    assert StepAt(d, "", tw, th, 0, Seen(None, 0)) == Next(Seen(Some(h), 0));
    assert StepAt(d, "", tw, th, 1, Seen(Some(h), 0)) == Next(Seen(Some(h), 1));
    assert StepAt(d, "", tw, th, 2, Seen(Some(h), 1)) == Next(Seen(Some(h), 2));
    assert StepAt(d, "", tw, th, 3, Seen(Some(h), 2)) == Ended;
  }

  /** One view, from the swipe to the outcome of its tap. */
  method Attempt(d: Screen, message: string, tw: nat, th: nat, t: nat, last: Option<string>, same: nat) returns (st: Step)
    ensures st == StepAt(d, message, tw, th, t, Seen(last, same))
  {
    if d.probeFails(t) {
      return Next(Seen(last, same));
    }
    var current := d.hash(t);
    var last', same' := last, same;
    if current == last {
      same' := same + 1;
      if same' >= MaxSame {
        return Ended;
      }
    } else {
      same' := 0;
      last' := current;
    }
    if d.imageFails(t) {
      return Next(Seen(last', same'));
    }
    var found := d.locate(t);
    if found.Raise? || found.value.None? {
      return Next(Seen(last', same'));
    }
    var loc := found.value.value;
    var x, y := loc.x + tw / 2, loc.y + th / 2;
    var region := Crop(Rect(loc.x, loc.y, loc.x + tw, loc.y + th), CropMargin, d.width(t), d.height(t));
    var text := d.ocr(t, region);
    if message != "" && text != "" && d.suitable(t) {
      if d.tap(t, 0) || d.tap(t, 1) {
        return Tapped(Point(x, y));
      }
    }
    return Next(Seen(last', same'));
  }

  /** `find_and_interact_with_buttons(message)`: the views, each after a swipe but the first, until a tap or a third repeat. */
  method FindAndInteract(d: Screen, message: string, template: bool, tw: nat, th: nat) returns (r: Option<Point>, views: nat, swipes: nat)
    ensures Outcome(r, views, swipes) == Search(d, message, template, tw, th)
  {
    if !template {
      return None, 0, 0;
    }
    var last: Option<string> := None;
    var same: nat := 0;
    swipes := 0;
    var t := 0;
    while t < MaxScrolls
      invariant t <= MaxScrolls
      invariant SearchFrom(d, message, tw, th, t, Seen(last, same)) == Search(d, message, template, tw, th)
      invariant swipes == if t == 0 then 0 else t - 1
    {
      if t > 0 {
        swipes := swipes + 1;
      }
      var st := Attempt(d, message, tw, th, t, last, same);
      match st
      case Tapped(p) =>
        return Some(p), t + 1, swipes;
      case Ended =>
        return None, t + 1, swipes;
      case Next(s) =>
        last, same := s.last, s.same;
      t := t + 1;
    }
    return None, MaxScrolls, swipes;
  }
}
