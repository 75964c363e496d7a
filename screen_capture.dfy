/**
 * utils/screen_capture.py: `capture_full_page_screenshots` screenshots the
 * page and swipes on until the screen stops changing or the budget runs
 * out; `stitch_screenshots` lays the screenshots out one below the other.
 *
 * The device is a parameter: `hash(i)` is what `get_image_hash` returns for
 * the screenshot of iteration `i` (None when the file cannot be read). The
 * number of swipes sent is returned. Of the stitching only the geometry is
 * modelled: `present` says which files exist, `h` is the height of the
 * first image.
 */
module ScreenCapture {
  import opened PyStr
  import opened Bounds
  import opened Finders

  // ---------------------------------------------------------------------------
  // File names

  /** `f"{i:03d}"`: the decimal digits of `i`, padded with zeros to three places. */
  function ZeroPad3(i: nat): (s: string)
    ensures AllDigits(s)
    ensures i < 1000 ==> |s| == 3
  {
    if i < 1000 then [DigitChar(i / 10 / 10), DigitChar(i / 10 % 10), DigitChar(i % 10)] else NatToString(i)
  }

  /** Below 1000 the padded digits spell `i` itself. */
  lemma ZeroPad3Value(i: nat)
    requires i < 1000
    ensures DigitsValue(ZeroPad3(i)) == i
  {
    var s := ZeroPad3(i);
    assert s[..2][..1] == [s[0]];
    assert DigitsValue(s[..2][..1]) == i / 10 / 10;
    assert DigitsValue(s[..2]) == i / 10;
  }

  /** `f"{output_prefix}_{i:03d}.png"` */
  function FileName(prefix: string, i: nat): string {
    prefix + "_" + ZeroPad3(i) + ".png"
  }

  /** The names of the first `n` screenshots, in order. */
  function Names(prefix: string, n: nat): (r: seq<string>)
    ensures |r| == n && forall i :: 0 <= i < n ==> r[i] == FileName(prefix, i)
  {
    if n == 0 then [] else Names(prefix, n - 1) + [FileName(prefix, n - 1)]
  }

  /** The first thousand screenshots get distinct names. */
  lemma FileNamesDistinct(prefix: string, i: nat, j: nat)
    requires i < 1000 && j < 1000 && i != j
    ensures FileName(prefix, i) != FileName(prefix, j)
  {
    ZeroPad3Value(i);
    ZeroPad3Value(j);
    var k := |prefix| + 1;
    assert FileName(prefix, i)[k..k + 3] == ZeroPad3(i);
    assert FileName(prefix, j)[k..k + 3] == ZeroPad3(j);
  }

  // ---------------------------------------------------------------------------
  // capture_full_page_screenshots

  /** `previous_screenshot_hash` when iteration `i` compares: None at first, then the hash of the iteration before. */
  function Before(hash: nat -> Option<string>, i: nat): Option<string> {
    if i == 0 then None else hash(i - 1)
  }

  /** `unchanged_count` after the comparison of iteration `i`: the run of hashes equal to the one before, reset by any change. */
  function Unchanged(hash: nat -> Option<string>, i: nat): (c: nat)
    ensures c <= i + 1
  {
    if hash(i) != Before(hash, i) then 0
    else if i == 0 then 1
    else Unchanged(hash, i - 1) + 1
  }

  function StopsAt(hash: nat -> Option<string>): nat -> bool {
    (i: nat) => Unchanged(hash, i) >= 3
  }

  /**
   * Iteration `i` stops the capture exactly when the last four hashes seen,
   * counting the None the comparison starts from, are equal.
   */
  lemma {:induction false} StopMeansFourEqual(hash: nat -> Option<string>, i: nat)
    ensures Unchanged(hash, i) >= 3 <==>
              i >= 2 && Before(hash, i + 1) == Before(hash, i) == Before(hash, i - 1) == Before(hash, i - 2)
  {
    if i >= 2 && hash(i) == Before(hash, i) {
      if hash(i - 1) == Before(hash, i - 1) && i - 1 > 0 {
        assert Unchanged(hash, i - 1) == Unchanged(hash, i - 2) + 1;
      }
    }
  }

  /** How many iterations the capture runs: up to the first that stops it, else all of them. */
  function Iterations(hash: nat -> Option<string>, maxScrolls: nat): (n: nat)
    ensures n <= maxScrolls
  {
    match FirstFrom(maxScrolls, StopsAt(hash), 0)
    case Some(i) => i + 1
    case None => maxScrolls
  }

  /** The comparison of iteration `i`: the new `unchanged_count`, and whether it ends the capture. */
  method Compare(hash: nat -> Option<string>, i: nat, previous: Option<string>, same: nat) returns (same': nat, stop: bool)
    requires previous == Before(hash, i)
    requires same == if i == 0 then 0 else Unchanged(hash, i - 1)
    ensures same' == Unchanged(hash, i)
    ensures stop == StopsAt(hash)(i)
  {
    if hash(i) == previous {
      same' := same + 1;
    } else {
      same' := 0;
    }
    stop := same' >= 3;
  }

  /** The iteration `i`, reached with no stop before it, ends the capture when it stops, and otherwise the search for the stop goes on past it. */
  lemma StopAt(hash: nat -> Option<string>, maxScrolls: nat, i: nat)
    requires i < maxScrolls && FirstFrom(maxScrolls, StopsAt(hash), i) == FirstFrom(maxScrolls, StopsAt(hash), 0)
    ensures StopsAt(hash)(i) ==> Iterations(hash, maxScrolls) == i + 1
    ensures !StopsAt(hash)(i) ==> FirstFrom(maxScrolls, StopsAt(hash), i + 1) == FirstFrom(maxScrolls, StopsAt(hash), 0)
  {
  }

  /**
   * `capture_full_page_screenshots(output_prefix, max_scrolls)`: one file
   * name per iteration, appended before the comparison, and a swipe after
   * every iteration except the last one run.
   */
  method CaptureFullPage(prefix: string, maxScrolls: nat, hash: nat -> Option<string>) returns (files: seq<string>, swipes: nat)
    ensures files == Names(prefix, Iterations(hash, maxScrolls))
    ensures swipes == if files == [] then 0 else |files| - 1
  {
    files, swipes := [], 0;
    var previous: Option<string> := None;
    var same := 0;
    for i := 0 to maxScrolls
      invariant files == Names(prefix, i)
      invariant previous == Before(hash, i)
      invariant same == if i == 0 then 0 else Unchanged(hash, i - 1)
      invariant FirstFrom(maxScrolls, StopsAt(hash), i) == FirstFrom(maxScrolls, StopsAt(hash), 0)
      invariant swipes == if i == maxScrolls && 0 < i then i - 1 else i
    {
      files := files + [FileName(prefix, i)];
      var stop;
      same, stop := Compare(hash, i, previous, same);
      StopAt(hash, maxScrolls, i);
      if stop {
        return;
      }
      previous := hash(i);
      if i + 1 < maxScrolls {
        swipes := swipes + 1;
      }
    }
  }

  /** A screen that never changes is captured four times, then the capture stops. */
  lemma StillScreenFourShots(hash: nat -> Option<string>, maxScrolls: nat)
    requires maxScrolls >= 4
    requires hash(0) != None && hash(1) == hash(0) && hash(2) == hash(0) && hash(3) == hash(0)
    ensures Iterations(hash, maxScrolls) == 4
  {
    var p := StopsAt(hash);
    assert Unchanged(hash, 0) == 0;
    assert Unchanged(hash, 1) == 1;
    assert Unchanged(hash, 2) == 2;
    assert !p(0) && !p(1) && !p(2) && p(3);
    assert FirstFrom(maxScrolls, p, 3) == Some(3);
    assert FirstFrom(maxScrolls, p, 1) == Some(3);
  }

  // ---------------------------------------------------------------------------
  // stitch_screenshots

  /** Where `stitch_screenshots` pastes: the height of the canvas and the top of each image. */
  datatype Layout = Layout(total: int, offsets: seq<int>)

  /** `img_height + (img_height - overlap_pixels) * (len(screenshot_files) - 1)` */
  function TotalHeight(h: int, overlap: int, n: nat): int
    requires n > 0
  {
    h + (h - overlap) * (n - 1)
  }

  /** The index of the first missing file. */
  function Missing(files: seq<string>, present: string -> bool): nat -> bool {
    (k: nat) => k < |files| && !present(files[k])
  }

  /**
   * `stitch_screenshots(screenshot_files, overlap_pixels)`: None for no
   * files, for a missing file and when the canvas height is negative (PIL
   * refuses it and the handler returns None); otherwise image `i` goes
   * `i * (h - overlap)` from the top and the last one ends at the bottom.
   */
  method Stitch(files: seq<string>, present: string -> bool, h: int, overlap: int) returns (r: Option<Layout>)
    ensures r.None? <==> files == [] || FirstFrom(|files|, Missing(files, present), 0).Some? || TotalHeight(h, overlap, |files|) < 0
    ensures r.Some? ==> r.value.total == TotalHeight(h, overlap, |files|) && |r.value.offsets| == |files|
    ensures r.Some? ==> forall i :: 0 <= i < |files| ==> r.value.offsets[i] == i * (h - overlap)
    ensures r.Some? ==> r.value.offsets[|files| - 1] + h == r.value.total
  {
    if files == [] {
      return None;
    }
    for k := 0 to |files|
      invariant FirstFrom(|files|, Missing(files, present), k) == FirstFrom(|files|, Missing(files, present), 0)
    {
      if !present(files[k]) {
        assert Missing(files, present)(k);
        return None;
      }
    }
    var total := h + (h - overlap) * (|files| - 1);
    if total < 0 {
      return None;
    }
    var offsets: seq<int> := [];
    var y := 0;
    for i := 0 to |files|
      invariant |offsets| == i && forall k :: 0 <= k < i ==> offsets[k] == k * (h - overlap)
      invariant y == if i == |files| then (i - 1) * (h - overlap) else i * (h - overlap)
    {
      offsets := offsets + [y];
      if i < |files| - 1 {
        y := y + (h - overlap);
      }
    }
    assert (|files| - 1) * (h - overlap) + h == total;
    return Some(Layout(total, offsets));
  }
}
