/**
 * `find_and_interact_with_buttons` of utils/find_button_coordinate_v1.py and
 * its copy `find_and_interact_with_like_buttons` of utils/actions.py (which
 * only skips the screenshot): two rounds of dump, tap the first Like button
 * if there is one, and swipe on when the round did not end in a successful
 * tap. Any exception ends the search with `(False, None)`.
 *
 * The device is a parameter: round `k` finds `screen(k)` in the pulled dump,
 * and its tap (if it taps) succeeds when `tap(k)` holds.
 */
module LikeTap {
  import opened PyStr
  import opened Bounds
  import opened UiDump
  import opened Finders

  /** The filter's defaults: clickable `android.widget.Button` nodes whose content-desc contains "Like". */
  const ButtonClass := "android.widget.Button"
  const LikeLabel := "Like"

  /** `for _ in range(2)` */
  const MaxRounds: nat := 2

  /**
   * What a round reads from its dump: the exception of the parse or of the
   * button scan, or the centre of the first button, if any.
   */
  function FirstLike(file: DumpFile): Py<Option<Point>> {
    match ReadDump(file)
    case Raise(e) => Raise(e)
    case Ok(nodes) =>
      match Scan(nodes, Keep(ButtonClass, LikeLabel), HitOf)
      case Raise(e) => Raise(e)
      case Ok(hits) => Ok(if hits == [] then None else Some(hits[0].centre))
  }

  /**
   * The button a round tries is the first qualifying node in preorder; with
   * no qualifying node there is none.
   */
  lemma FirstLikeIsFirst(roots: seq<Element>)
    requires FirstLike(Xml(roots)).Ok?
    ensures FirstLike(Xml(roots)).value.None? <==>
              forall i :: 0 <= i < |Nodes(roots)| ==> !Qualifies(Nodes(roots)[i], ButtonClass, LikeLabel)
    ensures FirstLike(Xml(roots)).value.Some? ==>
              exists i :: 0 <= i < |Nodes(roots)| && Qualifies(Nodes(roots)[i], ButtonClass, LikeLabel)
                && HitOf(Nodes(roots)[i]).Ok? && HitOf(Nodes(roots)[i]).value.centre == FirstLike(Xml(roots)).value.value
                && forall j :: 0 <= j < i ==> !Qualifies(Nodes(roots)[j], ButtonClass, LikeLabel)
  {
    var nodes := Nodes(roots);
    var keep := Keep(ButtonClass, LikeLabel);
    var hits := Scan(nodes, keep, HitOf).value;
    var idx := ScanExact(nodes, keep, HitOf);
    if hits == [] {
      forall i | 0 <= i < |nodes| ensures !Qualifies(nodes[i], ButtonClass, LikeLabel) {
        assert keep(nodes[i]) ==> i in idx;
      }
    } else {
      var i := idx[0];
      assert keep(nodes[i]);
      assert forall k :: 0 <= k < |idx| ==> i <= idx[k];
      forall j | 0 <= j < i ensures !Qualifies(nodes[j], ButtonClass, LikeLabel) {
        assert keep(nodes[j]) ==> j in idx;
      }
    }
  }

  /** How the search ends: the tapped centre (None for `(False, None)`), and the rounds run and swipes sent. */
  datatype Tapping = Tapping(hit: Option<Point>, rounds: nat, swipes: nat)

  /** What each round reads from its dump. */
  function Rounds(screen: nat -> DumpFile): (look: nat -> Py<Option<Point>>)
    ensures forall k :: look(k) == FirstLike(screen(k))
  {
    (k: nat) => FirstLike(screen(k))
  }

  /** The search from round `k` on, when round `j` reads `look(j)`. */
  function TapFrom(look: nat -> Py<Option<Point>>, tap: nat -> bool, k: nat): Tapping
    requires k <= MaxRounds
    decreases MaxRounds - k
  {
    if k == MaxRounds then Tapping(None, MaxRounds, MaxRounds)
    else match look(k)
      case Raise(_) => Tapping(None, k + 1, k)
      case Ok(Some(p)) => if tap(k) then Tapping(Some(p), k + 1, k) else TapFrom(look, tap, k + 1)
      case Ok(None) => TapFrom(look, tap, k + 1)
  }

  /** The round ran to its end without a tap that succeeded: no button, or a failed tap. */
  predicate Missed(look: nat -> Py<Option<Point>>, tap: nat -> bool, k: nat) {
    look(k).Ok? && (look(k).value.None? || !tap(k))
  }

  /**
   * At most two rounds run. Every round before the last missed and swiped;
   * a tap is reported only for the first button of the last round's dump,
   * and only when the tap succeeded; otherwise the last round raised (and
   * did not swipe) or both rounds missed and swiped.
   */
  lemma {:induction false} TapFromOutcome(look: nat -> Py<Option<Point>>, tap: nat -> bool, k: nat)
    requires k <= MaxRounds
    ensures var t := TapFrom(look, tap, k);
            && k <= t.rounds <= MaxRounds
            && (k < MaxRounds ==> k < t.rounds)
            && (forall j :: k <= j < t.rounds - 1 ==> Missed(look, tap, j))
            && (t.hit.Some? ==> look(t.rounds - 1) == Ok(t.hit) && tap(t.rounds - 1) && t.swipes == t.rounds - 1)
            && (t.hit.None? ==>
                  (t.rounds > k && look(t.rounds - 1).Raise? && t.swipes == t.rounds - 1)
                  || (t.rounds == MaxRounds && t.swipes == MaxRounds && (k < MaxRounds ==> Missed(look, tap, MaxRounds - 1))))
    decreases MaxRounds - k
  {
    if k < MaxRounds {
      TapFromOutcome(look, tap, k + 1);
    }
  }

  /** `find_and_interact_with_buttons()`: the rounds, each a dump, the button scan, perhaps a tap, and a swipe when it missed. */
  method FindAndTapFirst(screen: nat -> DumpFile, tap: nat -> bool) returns (r: Option<Point>, rounds: nat, swipes: nat)
    ensures Tapping(r, rounds, swipes) == TapFrom(Rounds(screen), tap, 0)
  {
    for k := 0 to MaxRounds
      invariant TapFrom(Rounds(screen), tap, k) == TapFrom(Rounds(screen), tap, 0)
    {
      var dump := ReadDump(screen(k));
      if dump.Raise? {
        return None, k + 1, k;
      }
      var coords := ButtonCoordinates(dump.value, ButtonClass, LikeLabel);
      if coords.Raise? {
        return None, k + 1, k;
      }
      if coords.value != [] {
        var centre := coords.value[0].centre;
        if tap(k) {
          return Some(centre), k + 1, k;
        }
      }
    }
    return None, MaxRounds, MaxRounds;
  }
}
