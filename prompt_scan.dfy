/**
 * `find_all_prompts_and_likes_with_scrolling` (utils/find_and_tap_button.py):
 * dump the screen, extract its prompts into a dictionary keyed by id, swipe
 * on when the dump looks unchanged, and stop when it stays unchanged after
 * three extra swipes.
 *
 * The device is a parameter: the `k`-th dump the scan takes finds
 * `screen(k)` in `ui.xml` (Missing when the pull left no file). The numbers
 * of dumps and swipes the scan sends to the device are returned.
 */
module PromptScan {
  import opened PyStr
  import opened UiDump
  import opened PromptBlocks

  /** `DUMP_FILE` */
  const DumpPath := "ui.xml"

  /** `take_ui_dump`: the constant path when the pulled file exists, None otherwise. */
  function TakeUiDump(file: DumpFile): (r: Option<string>)
    ensures r.None? <==> file.Missing?
    ensures r.Some? ==> r.value == DumpPath
  {
    if file.Missing? then None else Some(DumpPath)
  }

  // ---------------------------------------------------------------------------
  // The dictionary of prompts

  /** The keys of the dictionary. */
  function Ids(ps: seq<Prompt>): set<string> {
    set k | 0 <= k < |ps| :: ps[k].id
  }

  lemma IdsSnoc(ps: seq<Prompt>, p: Prompt)
    ensures Ids(ps + [p]) == Ids(ps) + {p.id}
  {
    var s := ps + [p];
    forall x | x in Ids(s) ensures x in Ids(ps) + {p.id} {
      var k :| 0 <= k < |s| && x == s[k].id;
      if k < |ps| {
        assert s[k] == ps[k];
      }
    }
    forall x | x in Ids(ps) ensures x in Ids(s) {
      var k :| 0 <= k < |ps| && x == ps[k].id;
      assert s[k] == ps[k];
    }
    assert p.id == s[|ps|].id;
  }

  /** The positions of the records whose id did not occur earlier, in order. */
  function FirstIdx(xs: seq<Prompt>): (pos: seq<nat>)
    ensures forall k :: 0 <= k < |pos| ==> pos[k] < |xs|
  {
    if xs == [] then []
    else
      var front := xs[..|xs| - 1];
      FirstIdx(front) + (if xs[|xs| - 1].id in Ids(front) then [] else [|xs| - 1])
  }

  /**
   * The values of a dictionary filled from `xs` with
   * `if p["id"] not in d: d[p["id"]] = p`: the first record of each id, in
   * the order the ids were first seen.
   */
  function FirstById(xs: seq<Prompt>): (r: seq<Prompt>)
    ensures |r| == |FirstIdx(xs)|
  {
    var pos := FirstIdx(xs);
    seq(|pos|, k requires 0 <= k < |pos| => xs[pos[k]])
  }

  /** The records kept are exactly the first of each id, in increasing position. */
  lemma {:induction false} FirstIdxSound(xs: seq<Prompt>)
    ensures forall j, k :: 0 <= j < k < |FirstIdx(xs)| ==> FirstIdx(xs)[j] < FirstIdx(xs)[k]
    ensures forall i :: 0 <= i < |xs| ==> (i in FirstIdx(xs) <==> xs[i].id !in Ids(xs[..i]))
  {
    if xs != [] {
      var n := |xs| - 1;
      var front := xs[..n];
      FirstIdxSound(front);
      var pos := FirstIdx(xs);
      forall i | 0 <= i < |xs| ensures i in pos <==> xs[i].id !in Ids(xs[..i]) {
        if i < n {
          assert xs[..i] == front[..i];
          assert front[i] == xs[i];
        } else {
          assert xs[..i] == front;
        }
      }
    }
  }

  /** Adding one record to the dictionary. */
  lemma FirstByIdSnoc(xs: seq<Prompt>, p: Prompt)
    ensures FirstById(xs + [p]) == FirstById(xs) + (if p.id in Ids(xs) then [] else [p])
  {
    var s := xs + [p];
    assert s[..|xs|] == xs;
    var pos := FirstIdx(xs);
    assert FirstIdx(s) == pos + (if p.id in Ids(xs) then [] else [|xs|]);
    forall k | 0 <= k < |pos| ensures FirstById(s)[k] == FirstById(xs)[k] {
      assert s[pos[k]] == xs[pos[k]];
    }
  }

  /** No id occurs twice in the dictionary, and its keys are the ids of all records. */
  lemma {:induction false} FirstByIdKeys(xs: seq<Prompt>)
    ensures Ids(FirstById(xs)) == Ids(xs)
    ensures forall j, k :: 0 <= j < k < |FirstById(xs)| ==> FirstById(xs)[j].id != FirstById(xs)[k].id
  {
    if xs != [] {
      var front := xs[..|xs| - 1];
      var p := xs[|xs| - 1];
      assert xs == front + [p];
      FirstByIdKeys(front);
      FirstByIdSnoc(front, p);
      IdsSnoc(front, p);
      var d := FirstById(front);
      if p.id in Ids(front) {
        assert FirstById(xs) == d;
      } else {
        assert FirstById(xs) == d + [p];
        IdsSnoc(d, p);
        forall j, k | 0 <= j < k < |d| + 1 ensures (d + [p])[j].id != (d + [p])[k].id {
          if k == |d| {
            assert d[j].id in Ids(d);
          }
        }
      }
    }
  }

  /** Records whose ids are already distinct all stay, in their order. */
  lemma {:induction false} FirstByIdDistinct(xs: seq<Prompt>)
    requires forall j, k :: 0 <= j < k < |xs| ==> xs[j].id != xs[k].id
    ensures FirstById(xs) == xs
  {
    if xs != [] {
      var front := xs[..|xs| - 1];
      var p := xs[|xs| - 1];
      assert xs == front + [p];
      FirstByIdDistinct(front);
      forall k | 0 <= k < |front| ensures front[k].id != p.id {
        assert front[k] == xs[k];
      }
      assert p.id !in Ids(front);
      FirstByIdSnoc(front, p);
    }
  }

  /** The records of the screens, in the order they were read. */
  function Flat(bs: seq<seq<Prompt>>): seq<Prompt> {
    if bs == [] then [] else Flat(bs[..|bs| - 1]) + bs[|bs| - 1]
  }

  lemma FlatSnoc(bs: seq<seq<Prompt>>, b: seq<Prompt>)
    ensures Flat(bs + [b]) == Flat(bs) + b
  {
    assert (bs + [b])[..|bs|] == bs;
  }

  /** `if prompt["id"] not in all_found_prompts: all_found_prompts[prompt["id"]] = prompt` for each prompt of a screen. */
  method AddPrompts(found: seq<Prompt>, ghost seen: seq<Prompt>, ps: seq<Prompt>) returns (found': seq<Prompt>)
    requires found == FirstById(seen)
    ensures found' == FirstById(seen + ps)
  {
    found' := found;
    assert seen + ps[..0] == seen;
    for j := 0 to |ps|
      invariant found' == FirstById(seen + ps[..j])
    {
      var p := ps[j];
      FirstByIdKeys(seen + ps[..j]);
      FirstByIdSnoc(seen + ps[..j], p);
      assert (seen + ps[..j]) + [p] == seen + ps[..j + 1];
      if p.id !in Ids(found') {
        found' := found' + [p];
      }
    }
    assert ps[..|ps|] == ps;
  }

  /** `extract_prompts_from_dump(DUMP_FILE)` followed by adding its prompts to the dictionary. */
  method AddScreen(file: DumpFile, found: seq<Prompt>, ghost batches: seq<seq<Prompt>>) returns (r: Py<seq<Prompt>>, ghost ps: seq<Prompt>)
    requires found == FirstById(Flat(batches))
    ensures r.Raise? ==> r.exc == TypeError
    ensures r.Ok? ==> ExtractedFrom(file, ps) && r.value == FirstById(Flat(batches + [ps]))
  {
    var onScreen := ExtractPrompts(file);
    if onScreen.Raise? {
      return Raise(onScreen.exc), [];
    }
    ps := onScreen.value;
    var found' := AddPrompts(found, Flat(batches), onScreen.value);
    FlatSnoc(batches, ps);
    r := Ok(found');
  }

  // ---------------------------------------------------------------------------
  // The scan

  /** Every dump the device gives leaves a file. */
  ghost predicate AllPresent(screen: nat -> DumpFile) {
    forall k: nat :: !screen(k).Missing?
  }

  /**
   * The `for extra_swipe in range(3)` loop, entered after `dumps` dumps:
   * swipe, dump, and stop at the first dump that differs from `last`.
   * `current` is what the last dump returned.
   */
  method ExtraSwipes(screen: nat -> DumpFile, dumps: nat, last: Option<string>) returns (current: Option<string>, extra: nat)
    ensures 0 < extra <= 3
    ensures current == TakeUiDump(screen(dumps + extra - 1))
    ensures current == last ==> extra == 3
    ensures AllPresent(screen) && last == Some(DumpPath) ==> current == last
  {
    current, extra := last, 0;
    for e := 0 to 3
      invariant extra == e && current == last
      invariant 0 < e ==> current == TakeUiDump(screen(dumps + e - 1))
    {
      current := TakeUiDump(screen(dumps + e));
      extra := e + 1;
      if current != last {
        return;
      }
    }
  }

  /**
   * `batches[j]` are the prompts extracted from dump number `read[j]`; the
   * dumps read are strictly increasing and all among the first `dumps`.
   */
  ghost predicate ReadFrom(screen: nat -> DumpFile, read: seq<nat>, batches: seq<seq<Prompt>>, dumps: nat)
    decreases |read|
  {
    && |read| == |batches|
    && (read == [] ||
        var d := read[|read| - 1];
        && d < dumps
        && ExtractedFrom(screen(d), batches[|batches| - 1])
        && ReadFrom(screen, read[..|read| - 1], batches[..|batches| - 1], d))
  }

  lemma ReadMore(screen: nat -> DumpFile, read: seq<nat>, batches: seq<seq<Prompt>>, dumps: nat, more: nat)
    requires ReadFrom(screen, read, batches, dumps) && dumps <= more
    ensures ReadFrom(screen, read, batches, more)
  {
  }

  /** What the record says dump by dump. */
  lemma {:induction false} ReadFromIndexed(screen: nat -> DumpFile, read: seq<nat>, batches: seq<seq<Prompt>>, dumps: nat)
    requires ReadFrom(screen, read, batches, dumps)
    ensures |read| == |batches|
    ensures forall j :: 0 <= j < |read| ==> read[j] < dumps && ExtractedFrom(screen(read[j]), batches[j])
    ensures forall j, k :: 0 <= j < k < |read| ==> read[j] < read[k]
    decreases |read|
  {
    if read != [] {
      var n := |read| - 1;
      var front, frontB := read[..n], batches[..n];
      ReadFromIndexed(screen, front, frontB, read[n]);
      forall j | 0 <= j < |read|
        ensures read[j] < dumps && ExtractedFrom(screen(read[j]), batches[j])
      {
        if j < n {
          assert read[j] == front[j] && batches[j] == frontB[j];
        }
      }
      forall j, k | 0 <= j < k < |read|
        ensures read[j] < read[k]
      {
        assert read[j] == front[j];
        if k < n {
          assert read[k] == front[k];
        }
      }
    }
  }

  /** Reading a dump later than all those read extends the record. */
  lemma ReadSnoc(screen: nat -> DumpFile, read: seq<nat>, batches: seq<seq<Prompt>>, dumps: nat, dumped: nat, ps: seq<Prompt>)
    requires ReadFrom(screen, read, batches, dumps) && dumps <= dumped
    requires ExtractedFrom(screen(dumped), ps)
    ensures ReadFrom(screen, read + [dumped], batches + [ps], dumped + 1)
  {
    ReadMore(screen, read, batches, dumps, dumped);
    assert (read + [dumped])[..|read|] == read;
    assert (batches + [ps])[..|batches|] == batches;
  }

  /**
   * The tail of a pass: `extract_prompts_from_dump(DUMP_FILE)` on dump number
   * `dumped`, then merging its prompts into `found`.
   */
  method ReadScreen(screen: nat -> DumpFile, found: seq<Prompt>, dumped: nat, ghost batches: seq<seq<Prompt>>, ghost read: seq<nat>, ghost dumps: nat)
    returns (r: Py<seq<Prompt>>, ghost batches': seq<seq<Prompt>>, ghost read': seq<nat>)
    requires ReadFrom(screen, read, batches, dumps) && dumps <= dumped && found == FirstById(Flat(batches))
    ensures r.Raise? ==> r.exc == TypeError && batches' == batches && read' == read
    ensures r.Ok? ==> read' == read + [dumped] && ReadFrom(screen, read', batches', dumped + 1) && r.value == FirstById(Flat(batches'))
  {
    ghost var onScreen;
    r, onScreen := AddScreen(screen(dumped), found, batches);
    batches', read' := batches, read;
    if r.Ok? {
      ReadSnoc(screen, read, batches, dumps, dumped, onScreen);
      batches', read' := batches + [onScreen], read + [dumped];
    }
  }

  /** How a pass of the scan loop ends before any prompt is read. */
  datatype Step = Stop | Again | Read

  /**
   * The device half of one pass of the `for i in range(max_swipes)` loop of
   * `find_all_prompts_and_likes_with_scrolling`, entered after `dumps` dumps
   * and `swipes` swipes, with `last` the previous dump's result and `same`
   * the count of unchanged dumps: `Stop` breaks the loop, `Again` continues
   * it, `Read` goes on to extract the prompts of the latest dump.
   */
  method Look(screen: nat -> DumpFile, last: Option<string>, same: nat, dumps: nat, swipes: nat)
    returns (step: Step, last': Option<string>, same': nat, dumps': nat, swipes': nat)
    requires same <= 1
    ensures dumps < dumps' <= dumps + 4 && swipes <= swipes' <= swipes + 3 && same' <= 1
    ensures step == Read ==> last' != last && last' == TakeUiDump(screen(dumps' - 1)) && same' == 0
    ensures step == Again ==> last' == last && dumps' == dumps + 1 && swipes' == swipes + 1 && same == 0 && same' == 1
    ensures screen(dumps).Missing? ==> step == Stop && dumps' == dumps + 1 && swipes' == swipes
    ensures AllPresent(screen) && last != Some(DumpPath) ==> step == Read && dumps' == dumps + 1 && swipes' == swipes
    ensures AllPresent(screen) && last == Some(DumpPath) && same == 0 ==> step == Again
    ensures AllPresent(screen) && last == Some(DumpPath) && same == 1 ==> step == Stop && dumps' == dumps + 4 && swipes' == swipes + 3
  {
    step, last', same', dumps', swipes' := Stop, last, same, dumps + 1, swipes;
    var current := TakeUiDump(screen(dumps));
    if current.None? {
      return;
    }
    if current == last {
      same' := same + 1;
      if same' < 2 {
        step, swipes' := Again, swipes + 1;
        return;
      }
      var extra;
      current, extra := ExtraSwipes(screen, dumps', last);
      dumps', swipes' := dumps' + extra, swipes + extra;
      if current == last {
        same' := 1;
        return;
      }
    }
    step, same', last' := Read, 0, current;
  }

  /**
   * `find_all_prompts_and_likes_with_scrolling(max_swipes)`. `dumps` and
   * `swipes` count the commands sent to the device; `batches[j]` are the
   * prompts read from the `read[j]`-th dump. A TypeError from
   * `extract_prompts_from_dump` escapes.
   */
  method ScanWithScrolling(maxSwipes: nat, screen: nat -> DumpFile)
    returns (r: Py<seq<Prompt>>, dumps: nat, swipes: nat, ghost batches: seq<seq<Prompt>>, ghost read: seq<nat>)
    ensures dumps <= 4 * maxSwipes && swipes <= 3 * maxSwipes
    ensures r.Raise? ==> r.exc == TypeError
    ensures ReadFrom(screen, read, batches, dumps)
    ensures r.Ok? ==> r.value == FirstById(Flat(batches))
    ensures 0 < maxSwipes && screen(0).Missing? ==> r == Ok([]) && dumps == 1 && swipes == 0
    ensures 0 < maxSwipes && AllPresent(screen) && r.Ok? ==>
              read == [0] && dumps == (if maxSwipes >= 3 then 6 else maxSwipes) && swipes == (if maxSwipes >= 3 then 4 else maxSwipes - 1)
  {
    var found: seq<Prompt> := [];
    var last: Option<string> := Some("");
    var same := 0;
    dumps, swipes, batches, read := 0, 0, [], [];
    for i := 0 to maxSwipes
      invariant dumps <= 4 * i && swipes <= 3 * i && same <= 1
      invariant ReadFrom(screen, read, batches, dumps) && found == FirstById(Flat(batches))
      invariant screen(0).Missing? ==> i == 0
      invariant i == 0 ==> dumps == 0 && read == [] && last == Some("")
      invariant AllPresent(screen) && 0 < i ==> i <= 2 && dumps == i && swipes == i - 1 && read == [0] && last == Some(DumpPath) && same == i - 1
    {
      ghost var before := dumps;
      var step;
      step, last, same, dumps, swipes := Look(screen, last, same, dumps, swipes);
      ReadMore(screen, read, batches, before, dumps);
      if step == Stop {
        break;
      } else if step == Again {
        continue;
      }
      var added;
      added, batches, read := ReadScreen(screen, found, dumps - 1, batches, read, before);
      if added.Raise? {
        return added, dumps, swipes, batches, read;
      }
      found := added.value;
    }
    r := Ok(found);
  }

  /**
   * When only the first dump was read (as `ScanWithScrolling` ensures when
   * every dump is present, since every dump then has the same path), the
   * scan returns exactly the prompts extracted from that first screen.
   */
  lemma StaticScreenOnlyFirst(screen: nat -> DumpFile, batches: seq<seq<Prompt>>, dumps: nat, found: seq<Prompt>)
    requires ReadFrom(screen, [0], batches, dumps)
    requires found == FirstById(Flat(batches))
    ensures |batches| == 1 && ExtractedFrom(screen(0), batches[0]) && found == batches[0]
  {
    var b := batches[0];
    assert batches == [] + [b];
    FlatSnoc([], b);
    assert Flat(batches) == b;
    ExtractedFromDistinct(screen(0), b);
    FirstByIdDistinct(b);
    assert found == FirstById(b);
  }
}
