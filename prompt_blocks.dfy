/**
 * Prompt blocks on a profile (utils/find_and_tap_button.py): consecutive
 * non-empty TextViews are paired into "prompt | answer" blocks, each block
 * may pick up the Like button that follows it, duplicates are dropped, and
 * at most three blocks are read from one dump.
 */
module PromptBlocks {
  import opened PyStr
  import opened Bounds
  import opened UiDump
  import opened Finders

  /**
   * `{"id": ..., "prompt_text": ..., "like_coords": ...}`. `like` is None
   * while `like_coords` is None; otherwise it holds the pair `parse_bounds`
   * returned, where None stands for `(None, None)`.
   */
  datatype Prompt = Prompt(id: string, text: string, like: Option<Option<Point>>)

  /** `node.attrib.get("text", "").strip()` */
  function PromptText(n: UiNode): string {
    Strip(Get(n, "text", ""))
  }

  /** A TextView whose stripped text is not empty. */
  predicate IsPromptText(n: UiNode) {
    Get(n, "class", "") == "android.widget.TextView" && PromptText(n) != []
  }

  /** A Button whose lowercased content-desc mentions "like" or "heart". */
  predicate IsLikeButton(n: UiNode) {
    var desc := Lower(Get(n, "content-desc", ""));
    Get(n, "class", "") == "android.widget.Button" && (Contains(desc, "like") || Contains(desc, "heart"))
  }

  /** `" | ".join([a, b])` */
  function Pair(a: string, b: string): string {
    a + " | " + b
  }

  // ---------------------------------------------------------------------------
  // Reference definitions

  /** The stripped texts of the non-empty TextViews among `nodes`, in order. */
  function TextsOf(nodes: seq<UiNode>): seq<string> {
    if nodes == [] then []
    else
      var last := nodes[|nodes| - 1];
      TextsOf(nodes[..|nodes| - 1]) + (if IsPromptText(last) then [PromptText(last)] else [])
  }

  /**
   * The texts taken two at a time, `[t0 | t1, t2 | t3, ...]`, together with
   * an odd last text that is still waiting for its partner.
   */
  function PairUp(ts: seq<string>): (r: (seq<string>, seq<string>))
    ensures |r.1| <= 1
  {
    if ts == [] then ([], [])
    else
      var front := PairUp(ts[..|ts| - 1]);
      var t := ts[|ts| - 1];
      if front.1 == [] then (front.0, [t]) else (front.0 + [Pair(front.1[0], t)], [])
  }

  function Pairs(ts: seq<string>): seq<string> {
    PairUp(ts).0
  }

  function Waiting(ts: seq<string>): seq<string> {
    PairUp(ts).1
  }

  /** The lowercased texts. */
  function LowerSet(ts: seq<string>): set<string> {
    set k | 0 <= k < |ts| :: Lower(ts[k])
  }

  /** The texts whose lowercase did not occur earlier: the first of each case-insensitive duplicate. */
  function Dedup(ts: seq<string>): seq<string> {
    if ts == [] then []
    else
      var d := Dedup(ts[..|ts| - 1]);
      if Lower(ts[|ts| - 1]) in LowerSet(d) then d else d + [ts[|ts| - 1]]
  }

  /** The prompt texts a dump yields when nothing stops the scan early. */
  function PromptTexts(nodes: seq<UiNode>): seq<string> {
    Dedup(Pairs(TextsOf(nodes)))
  }

  function Take<T>(s: seq<T>, n: nat): (r: seq<T>)
    ensures |r| <= n && IsPrefix(r, s)
    ensures |s| <= n ==> r == s
  {
    if |s| <= n then s else s[..n]
  }

  function Texts(ps: seq<Prompt>): (r: seq<string>)
    ensures |r| == |ps|
  {
    seq(|ps|, k requires 0 <= k < |ps| => ps[k].text)
  }

  function Likes(nodes: seq<UiNode>): nat -> bool {
    (m: nat) => m < |nodes| && IsLikeButton(nodes[m])
  }

  /** What `parse_bounds` makes of a like button's bounds; None is `(None, None)`. */
  function LikeCoords(n: UiNode): Option<Point> {
    if "bounds" in n.attrs then ParseBoundsRegex(n.attrs["bounds"]) else None
  }

  /** The coordinates a prompt keeps when the nodes `from..to` follow it: those of the first like button there. */
  function Attached(nodes: seq<UiNode>, from: nat, to: nat): Option<Option<Point>>
    requires to <= |nodes|
  {
    match FirstFrom(to, Likes(nodes), from)
    case None => None
    case Some(m) => Some(LikeCoords(nodes[m]))
  }

  // ---------------------------------------------------------------------------
  // Properties of the reference definitions

  /** `Pairs` pairs the texts at positions `2k` and `2k + 1`; only an odd last text waits. */
  lemma {:induction false} PairsShape(ts: seq<string>)
    ensures |ts| == 2 * |Pairs(ts)| + |Waiting(ts)|
    ensures forall k :: 0 <= k < |Pairs(ts)| ==> Pairs(ts)[k] == Pair(ts[2 * k], ts[2 * k + 1])
    ensures Waiting(ts) != [] ==> Waiting(ts) == [ts[|ts| - 1]]
    decreases |ts|
  {
    if ts != [] {
      var front := ts[..|ts| - 1];
      PairsShape(front);
      var p := Pairs(front);
      forall k | 0 <= k < |Pairs(ts)| ensures Pairs(ts)[k] == Pair(ts[2 * k], ts[2 * k + 1]) {
        if k < |p| {
          assert Pairs(ts)[k] == p[k];
          assert front[2 * k] == ts[2 * k] && front[2 * k + 1] == ts[2 * k + 1];
        } else {
          assert Waiting(front) == [ts[|ts| - 2]];
        }
      }
    }
  }

  /** `Dedup` keeps one text per lowercase, and every lowercase of the input is kept. */
  lemma {:induction false} DedupSound(ts: seq<string>)
    ensures LowerSet(Dedup(ts)) == LowerSet(ts)
    ensures forall j, k :: 0 <= j < k < |Dedup(ts)| ==> Lower(Dedup(ts)[j]) != Lower(Dedup(ts)[k])
    ensures forall k :: 0 <= k < |Dedup(ts)| ==> Dedup(ts)[k] in ts
    decreases |ts|
  {
    if ts != [] {
      var front := ts[..|ts| - 1];
      var last := ts[|ts| - 1];
      DedupSound(front);
      LowerSetSnoc(front, last);
      var d := Dedup(front);
      if Lower(last) !in LowerSet(d) {
        LowerSetSnoc(d, last);
        forall j, k | 0 <= j < k < |d| + 1 ensures Lower((d + [last])[j]) != Lower((d + [last])[k]) {
          if k == |d| {
            assert Lower(d[j]) in LowerSet(d);
          }
        }
      }
      forall k | 0 <= k < |Dedup(ts)| ensures Dedup(ts)[k] in ts {
        if k < |d| {
          assert Dedup(ts)[k] == d[k];
          assert d[k] in front;
        }
      }
    }
  }

  lemma LowerSetSnoc(ts: seq<string>, t: string)
    ensures LowerSet(ts + [t]) == LowerSet(ts) + {Lower(t)}
  {
    var s := ts + [t];
    forall x | x in LowerSet(s) ensures x in LowerSet(ts) + {Lower(t)} {
      var k :| 0 <= k < |s| && x == Lower(s[k]);
      if k < |ts| {
        assert s[k] == ts[k];
      }
    }
    forall x | x in LowerSet(ts) ensures x in LowerSet(s) {
      var k :| 0 <= k < |ts| && x == Lower(ts[k]);
      assert s[k] == ts[k];
    }
    assert Lower(t) == Lower(s[|ts|]);
  }

  /** A prompt's coordinates come from the first like button among the nodes `from..to`, and are None when there is none. */
  lemma AttachedIsFirst(nodes: seq<UiNode>, from: nat, to: nat)
    requires to <= |nodes|
    ensures Attached(nodes, from, to).None? <==> forall m :: from <= m < to ==> !IsLikeButton(nodes[m])
    ensures forall m :: from <= m < to && IsLikeButton(nodes[m]) && (forall j :: from <= j < m ==> !IsLikeButton(nodes[j]))
              ==> Attached(nodes, from, to) == Some(LikeCoords(nodes[m]))
  {
    var t := FirstFrom(to, Likes(nodes), from);
    if t.None? {
      forall m | from <= m < to ensures !IsLikeButton(nodes[m]) {
        FirstFromSkips(to, Likes(nodes), from, m);
      }
    } else {
      assert IsLikeButton(nodes[t.value]);
      forall m | from <= m < to && IsLikeButton(nodes[m]) && (forall j :: from <= j < m ==> !IsLikeButton(nodes[j]))
        ensures t.value == m
      {
        if m < t.value {
          FirstFromSkips(to, Likes(nodes), from, m);
        }
      }
    }
  }

  // ---------------------------------------------------------------------------
  // One more node

  lemma TextsOfStep(nodes: seq<UiNode>, i: nat)
    requires i < |nodes|
    ensures TextsOf(nodes[..i + 1])
            == TextsOf(nodes[..i]) + (if IsPromptText(nodes[i]) then [PromptText(nodes[i])] else [])
  {
    assert nodes[..i + 1][..i] == nodes[..i];
  }

  lemma PairUpSnoc(ts: seq<string>, t: string)
    ensures PairUp(ts + [t])
            == if Waiting(ts) == [] then (Pairs(ts), [t]) else (Pairs(ts) + [Pair(Waiting(ts)[0], t)], [])
  {
    assert (ts + [t])[..|ts|] == ts;
  }

  lemma DedupSnoc(ts: seq<string>, t: string)
    ensures Dedup(ts + [t]) == if Lower(t) in LowerSet(Dedup(ts)) then Dedup(ts) else Dedup(ts) + [t]
  {
    assert (ts + [t])[..|ts|] == ts;
  }

  /** A node that is not a prompt text changes neither the prompt texts nor the waiting text. */
  lemma TextStepOther(nodes: seq<UiNode>, i: nat)
    requires i < |nodes| && !IsPromptText(nodes[i])
    ensures TextsOf(nodes[..i + 1]) == TextsOf(nodes[..i])
    ensures PromptTexts(nodes[..i + 1]) == PromptTexts(nodes[..i])
  {
    TextsOfStep(nodes, i);
  }

  /** A prompt text with nothing waiting starts to wait. */
  lemma TextStepFirst(nodes: seq<UiNode>, i: nat)
    requires i < |nodes| && IsPromptText(nodes[i]) && Waiting(TextsOf(nodes[..i])) == []
    ensures Waiting(TextsOf(nodes[..i + 1])) == [PromptText(nodes[i])]
    ensures PromptTexts(nodes[..i + 1]) == PromptTexts(nodes[..i])
  {
    TextsOfStep(nodes, i);
    PairUpSnoc(TextsOf(nodes[..i]), PromptText(nodes[i]));
  }

  /** A prompt text completes the waiting one into a pair, kept unless its lowercase was seen. */
  lemma TextStepPair(nodes: seq<UiNode>, i: nat)
    requires i < |nodes| && IsPromptText(nodes[i]) && Waiting(TextsOf(nodes[..i])) != []
    ensures Waiting(TextsOf(nodes[..i + 1])) == []
    ensures var text := Pair(Waiting(TextsOf(nodes[..i]))[0], PromptText(nodes[i]));
            PromptTexts(nodes[..i + 1])
            == if Lower(text) in LowerSet(PromptTexts(nodes[..i])) then PromptTexts(nodes[..i])
               else PromptTexts(nodes[..i]) + [text]
  {
    var ts := TextsOf(nodes[..i]);
    var t := PromptText(nodes[i]);
    TextsOfStep(nodes, i);
    PairUpSnoc(ts, t);
    DedupSnoc(Pairs(ts), Pair(Waiting(ts)[0], t));
  }

  lemma AttachedGrow(nodes: seq<UiNode>, from: nat, i: nat)
    requires i < |nodes|
    ensures Attached(nodes, from, i + 1)
            == if Attached(nodes, from, i).Some? then Attached(nodes, from, i)
               else if from <= i && IsLikeButton(nodes[i]) then Some(LikeCoords(nodes[i])) else None
  {
    FirstFromGrow(i, Likes(nodes), from);
  }

  // ---------------------------------------------------------------------------
  // The state of the scan

  /** `prompts`, `temp_prompt` and `seen_prompts` after the first `i` nodes. */
  ghost predicate TextState(nodes: seq<UiNode>, i: nat, ps: seq<Prompt>, temp: seq<string>, seen: set<string>) {
    && i <= |nodes|
    && Texts(ps) == PromptTexts(nodes[..i])
    && temp == Waiting(TextsOf(nodes[..i]))
    && seen == LowerSet(Texts(ps))
    && (forall k :: 0 <= k < |ps| ==> ps[k].id == Lower(ps[k].text))
  }

  /** The `k`-th prompt text is created by node `b`. */
  ghost predicate BornAt(nodes: seq<UiNode>, b: nat, k: nat) {
    b < |nodes| && |PromptTexts(nodes[..b])| == k && |PromptTexts(nodes[..b + 1])| == k + 1
  }

  /** Where each prompt was created, among the first `i` nodes. */
  ghost predicate BornState(nodes: seq<UiNode>, i: nat, born: seq<nat>) {
    && i <= |nodes|
    && (forall k :: 0 <= k < |born| ==> born[k] < i)
    && (forall k :: 0 <= k < |born| ==> BornAt(nodes, born[k], k))
  }

  /** Where the nodes that may give the `k`-th prompt its like button end: at the next prompt, or at `i`. */
  function NextBorn(born: seq<nat>, k: nat, i: nat): nat {
    if k + 1 < |born| then born[k + 1] else i
  }

  /** The `k`-th prompt holds the first like button between its creation and the next prompt's (or node `i`). */
  ghost predicate LikeOk(nodes: seq<UiNode>, ps: seq<Prompt>, born: seq<nat>, k: nat, i: nat) {
    && k < |ps| && k < |born| && NextBorn(born, k, i) <= |nodes|
    && ps[k].like == Attached(nodes, born[k] + 1, NextBorn(born, k, i))
  }

  ghost predicate LikeState(nodes: seq<UiNode>, i: nat, ps: seq<Prompt>, born: seq<nat>) {
    && i <= |nodes| && |born| == |ps|
    && (forall k :: 0 <= k < |born| ==> born[k] < i)
    && (forall k :: 0 <= k < |ps| ==> LikeOk(nodes, ps, born, k, i))
  }

  ghost predicate Scanned(nodes: seq<UiNode>, i: nat, ps: seq<Prompt>, temp: seq<string>, seen: set<string>, born: seq<nat>) {
    && |ps| <= 3
    && TextState(nodes, i, ps, temp, seen)
    && BornState(nodes, i, born)
    && LikeState(nodes, i, ps, born)
    && (|ps| == 3 ==> born[2] + 1 == i)
  }

  lemma BornKeep(nodes: seq<UiNode>, i: nat, born: seq<nat>)
    requires BornState(nodes, i, born) && i < |nodes|
    ensures BornState(nodes, i + 1, born)
  {
  }

  lemma BornNew(nodes: seq<UiNode>, i: nat, born: seq<nat>)
    requires BornState(nodes, i, born) && i < |nodes|
    requires |PromptTexts(nodes[..i])| == |born| && |PromptTexts(nodes[..i + 1])| == |born| + 1
    ensures BornState(nodes, i + 1, born + [i])
  {
    var born' := born + [i];
    forall k | 0 <= k < |born'| ensures born'[k] < i + 1 && BornAt(nodes, born'[k], k) {
      if k < |born| {
        assert born'[k] == born[k];
      }
    }
  }

  /** A prompt followed by a later prompt keeps its coordinates whatever node `i` is. */
  lemma LikeOkEarlier(nodes: seq<UiNode>, ps: seq<Prompt>, born: seq<nat>, k: nat, i: nat)
    requires LikeOk(nodes, ps, born, k, i) && k + 1 < |ps| == |born|
    ensures LikeOk(nodes, ps, born, k, i + 1)
  {
  }

  /** The last prompt takes node `i` as its like button when it is one and none came before. */
  lemma LikeOkLast(nodes: seq<UiNode>, ps: seq<Prompt>, born: seq<nat>, i: nat, like: Option<Option<Point>>)
    requires ps != [] && LikeOk(nodes, ps, born, |ps| - 1, i) && |born| == |ps| && born[|ps| - 1] < i < |nodes|
    requires like == if ps[|ps| - 1].like.None? && IsLikeButton(nodes[i]) then Some(LikeCoords(nodes[i])) else ps[|ps| - 1].like
    ensures LikeOk(nodes, ps[|ps| - 1 := ps[|ps| - 1].(like := like)], born, |ps| - 1, i + 1)
  {
    var k := |ps| - 1;
    AttachedGrow(nodes, born[k] + 1, i);
    assert NextBorn(born, k, i) == i && NextBorn(born, k, i + 1) == i + 1;
    assert ps[k].like == Attached(nodes, born[k] + 1, i);
  }

  /** No like button reaches the last prompt: all prompts keep their coordinates. */
  lemma LikeKeep(nodes: seq<UiNode>, i: nat, ps: seq<Prompt>, born: seq<nat>)
    requires LikeState(nodes, i, ps, born) && i < |nodes|
    requires ps == [] || !IsLikeButton(nodes[i]) || ps[|ps| - 1].like.Some?
    ensures LikeState(nodes, i + 1, ps, born)
  {
    var j := i + 1;
    forall k | 0 <= k < |ps| ensures LikeOk(nodes, ps, born, k, j) {
      if k + 1 < |ps| {
        LikeOkEarlier(nodes, ps, born, k, i);
      } else {
        LikeOkLast(nodes, ps, born, i, ps[k].like);
        assert ps[k := ps[k].(like := ps[k].like)] == ps;
      }
    }
  }

  /** A like button reaches the last prompt, which had no coordinates yet. */
  lemma LikeSet(nodes: seq<UiNode>, i: nat, ps: seq<Prompt>, born: seq<nat>)
    requires LikeState(nodes, i, ps, born) && i < |nodes|
    requires ps != [] && IsLikeButton(nodes[i]) && ps[|ps| - 1].like.None?
    ensures LikeState(nodes, i + 1, ps[|ps| - 1 := ps[|ps| - 1].(like := Some(LikeCoords(nodes[i])))], born)
  {
    var ps' := ps[|ps| - 1 := ps[|ps| - 1].(like := Some(LikeCoords(nodes[i])))];
    var j := i + 1;
    forall k | 0 <= k < |ps'| ensures LikeOk(nodes, ps', born, k, j) {
      if k + 1 < |ps| {
        LikeOkEarlier(nodes, ps, born, k, i);
        assert ps'[k] == ps[k];
      } else {
        LikeOkLast(nodes, ps, born, i, Some(LikeCoords(nodes[i])));
      }
    }
  }

  lemma AttachedNone(nodes: seq<UiNode>, i: nat)
    requires i <= |nodes|
    ensures Attached(nodes, i, i) == None
  {
  }

  /** A new prompt, created by node `i`, starts without coordinates. */
  lemma LikeNew(nodes: seq<UiNode>, i: nat, ps: seq<Prompt>, born: seq<nat>, p: Prompt)
    requires LikeState(nodes, i, ps, born) && i < |nodes| && p.like.None?
    ensures LikeState(nodes, i + 1, ps + [p], born + [i])
  {
    var ps' := ps + [p];
    var born' := born + [i];
    forall k | 0 <= k < |born'| ensures born'[k] < i + 1 {
      if k < |born| {
        assert born'[k] == born[k];
      }
    }
    var j := i + 1;
    forall k | 0 <= k < |ps'| ensures LikeOk(nodes, ps', born', k, j) {
      if k < |ps| {
        LikeNewKeeps(nodes, i, ps, born, p, k);
      } else {
        AttachedNone(nodes, i + 1);
      }
    }
  }

  lemma LikeNewKeeps(nodes: seq<UiNode>, i: nat, ps: seq<Prompt>, born: seq<nat>, p: Prompt, k: nat)
    requires LikeState(nodes, i, ps, born) && i < |nodes| && k < |ps|
    ensures LikeOk(nodes, ps + [p], born + [i], k, i + 1)
  {
    assert LikeOk(nodes, ps, born, k, i);
    assert (ps + [p])[k] == ps[k] && (born + [i])[k] == born[k];
    assert NextBorn(born + [i], k, i + 1) == NextBorn(born, k, i);
  }

  /** A node that neither completes a text nor gives a like button to a prompt still waiting for one. */
  lemma StepOther(nodes: seq<UiNode>, i: nat, ps: seq<Prompt>, temp: seq<string>, seen: set<string>, born: seq<nat>)
    requires Scanned(nodes, i, ps, temp, seen, born) && i < |nodes| && |ps| < 3
    requires !IsPromptText(nodes[i])
    requires ps == [] || !IsLikeButton(nodes[i]) || ps[|ps| - 1].like.Some?
    ensures Scanned(nodes, i + 1, ps, temp, seen, born)
  {
    TextStepOther(nodes, i);
    BornKeep(nodes, i, born);
    LikeKeep(nodes, i, ps, born);
  }

  /** A like button reaches the most recent prompt while it has no coordinates yet. */
  lemma StepLike(nodes: seq<UiNode>, i: nat, ps: seq<Prompt>, temp: seq<string>, seen: set<string>, born: seq<nat>)
    requires Scanned(nodes, i, ps, temp, seen, born) && i < |nodes| && 0 < |ps| < 3
    requires IsLikeButton(nodes[i]) && ps[|ps| - 1].like.None?
    ensures Scanned(nodes, i + 1, ps[|ps| - 1 := ps[|ps| - 1].(like := Some(LikeCoords(nodes[i])))], temp, seen, born)
  {
    var ps' := ps[|ps| - 1 := ps[|ps| - 1].(like := Some(LikeCoords(nodes[i])))];
    assert !IsPromptText(nodes[i]);
    TextStepOther(nodes, i);
    assert Texts(ps') == Texts(ps);
    BornKeep(nodes, i, born);
    LikeSet(nodes, i, ps, born);
  }

  /** The first text of a pair waits in `temp_prompt`. */
  lemma StepFirstText(nodes: seq<UiNode>, i: nat, ps: seq<Prompt>, temp: seq<string>, seen: set<string>, born: seq<nat>)
    requires Scanned(nodes, i, ps, temp, seen, born) && i < |nodes| && |ps| < 3
    requires IsPromptText(nodes[i]) && temp == []
    ensures Scanned(nodes, i + 1, ps, [PromptText(nodes[i])], seen, born)
  {
    TextStepFirst(nodes, i);
    BornKeep(nodes, i, born);
    LikeKeep(nodes, i, ps, born);
  }

  /** The second text of a pair completes a prompt that was seen before: only `temp_prompt` is reset. */
  lemma StepSeenPair(nodes: seq<UiNode>, i: nat, ps: seq<Prompt>, temp: seq<string>, seen: set<string>, born: seq<nat>)
    requires Scanned(nodes, i, ps, temp, seen, born) && i < |nodes| && |ps| < 3
    requires IsPromptText(nodes[i]) && |temp| == 1
    requires Lower(Pair(temp[0], PromptText(nodes[i]))) in seen
    ensures Scanned(nodes, i + 1, ps, [], seen, born)
  {
    TextStepPair(nodes, i);
    BornKeep(nodes, i, born);
    LikeKeep(nodes, i, ps, born);
  }

  /** The second text of a pair completes a new prompt, created without coordinates. */
  lemma StepNewPair(nodes: seq<UiNode>, i: nat, ps: seq<Prompt>, temp: seq<string>, seen: set<string>, born: seq<nat>)
    requires Scanned(nodes, i, ps, temp, seen, born) && i < |nodes| && |ps| < 3
    requires IsPromptText(nodes[i]) && |temp| == 1
    requires Lower(Pair(temp[0], PromptText(nodes[i]))) !in seen
    ensures var text := Pair(temp[0], PromptText(nodes[i]));
            Scanned(nodes, i + 1, ps + [Prompt(Lower(text), text, None)], [], seen + {Lower(text)}, born + [i])
  {
    var text := Pair(temp[0], PromptText(nodes[i]));
    var p := Prompt(Lower(text), text, None);
    TextNew(nodes, i, ps, temp, seen, p);
    BornNew(nodes, i, born);
    LikeNew(nodes, i, ps, born, p);
  }

  lemma TextNew(nodes: seq<UiNode>, i: nat, ps: seq<Prompt>, temp: seq<string>, seen: set<string>, p: Prompt)
    requires TextState(nodes, i, ps, temp, seen) && i < |nodes|
    requires IsPromptText(nodes[i]) && |temp| == 1
    requires p.text == Pair(temp[0], PromptText(nodes[i])) && p.id == Lower(p.text) && p.id !in seen
    ensures TextState(nodes, i + 1, ps + [p], [], seen + {p.id})
    ensures |PromptTexts(nodes[..i])| == |ps| && |PromptTexts(nodes[..i + 1])| == |ps| + 1
  {
    var ps' := ps + [p];
    TextStepPair(nodes, i);
    assert PromptTexts(nodes[..i + 1]) == Texts(ps) + [p.text];
    assert Texts(ps') == Texts(ps) + [p.text];
    LowerSetSnoc(Texts(ps), p.text);
    assert forall k :: 0 <= k < |ps'| ==> ps'[k].id == Lower(ps'[k].text);
  }

  /** What one call of `extract_prompts_from_dump` returns: the prompts, where each was created, and where the scan stopped. */
  ghost predicate Extracted(nodes: seq<UiNode>, ps: seq<Prompt>, born: seq<nat>, stop: nat) {
    && stop <= |nodes| && |ps| <= 3 && |born| == |ps|
    && (|ps| < 3 ==> stop == |nodes|)
    && (|ps| == 3 ==> stop == born[2] + 1)
    && Texts(ps) == PromptTexts(nodes[..stop])
    && (forall k :: 0 <= k < |ps| ==> ps[k].id == Lower(ps[k].text))
    && (forall k :: 0 <= k < |ps| ==> born[k] < stop)
    && (forall k :: 0 <= k < |ps| ==> |PromptTexts(nodes[..born[k]])| == k && |PromptTexts(nodes[..born[k] + 1])| == k + 1)
    && (forall k :: 0 <= k < |ps| ==> LikeOk(nodes, ps, born, k, stop))
  }

  /**
   * One pass of the loop body of `extract_prompts_from_dump`. `ok` is false
   * when the node is a like button without `bounds` that reaches `re.match`
   * as None.
   */
  method ScanNode(nodes: seq<UiNode>, i: nat, prompts: seq<Prompt>, temp: seq<string>, seen: set<string>, ghost born: seq<nat>)
    returns (ok: bool, prompts': seq<Prompt>, temp': seq<string>, seen': set<string>, ghost born': seq<nat>)
    requires Scanned(nodes, i, prompts, temp, seen, born) && i < |nodes| && |prompts| < 3
    ensures ok ==> Scanned(nodes, i + 1, prompts', temp', seen', born')
    ensures !ok ==> IsLikeButton(nodes[i]) && "bounds" !in nodes[i].attrs
  {
    ok, prompts', temp', seen', born' := true, prompts, temp, seen, born;
    var node := nodes[i];
    if IsPromptText(node) {
      if temp == [] {
        StepFirstText(nodes, i, prompts, temp, seen, born);
        temp' := [PromptText(node)];
      } else {
        var text := Pair(temp[0], PromptText(node));
        var id := Lower(text);
        if id !in seen {
          StepNewPair(nodes, i, prompts, temp, seen, born);
          prompts' := prompts + [Prompt(id, text, None)];
          seen' := seen + {id};
          born' := born + [i];
        } else {
          StepSeenPair(nodes, i, prompts, temp, seen, born);
        }
        temp' := [];
      }
    } else if IsLikeButton(node) && prompts != [] {
      if "bounds" !in node.attrs {
        ok := false;
        return;
      }
      var coords := ParseBoundsRegex(node.attrs["bounds"]);
      if prompts[|prompts| - 1].like.None? {
        StepLike(nodes, i, prompts, temp, seen, born);
        prompts' := prompts[|prompts| - 1 := prompts[|prompts| - 1].(like := Some(coords))];
      } else {
        StepOther(nodes, i, prompts, temp, seen, born);
      }
    } else {
      StepOther(nodes, i, prompts, temp, seen, born);
    }
  }

  /**
   * The loop of `extract_prompts_from_dump` over `root.iter("node")`, which
   * stops once three prompts are collected. A like button whose `bounds`
   * attribute is missing raises a TypeError that escapes to the caller.
   */
  method ScanNodes(nodes: seq<UiNode>) returns (r: Py<seq<Prompt>>, ghost born: seq<nat>, ghost stop: nat)
    ensures r.Raise? ==> r.exc == TypeError
    ensures (forall m :: 0 <= m < |nodes| && IsLikeButton(nodes[m]) ==> "bounds" in nodes[m].attrs) ==> r.Ok?
    ensures r.Ok? ==> Extracted(nodes, r.value, born, stop)
  {
    var prompts: seq<Prompt> := [];
    var temp: seq<string> := [];
    var seen: set<string> := {};
    born := [];
    var i := 0;
    assert nodes[..0] == [];
    while i < |nodes| && |prompts| < 3
      invariant Scanned(nodes, i, prompts, temp, seen, born)
      decreases |nodes| - i
    {
      var ok;
      ok, prompts, temp, seen, born := ScanNode(nodes, i, prompts, temp, seen, born);
      if !ok {
        return Raise(TypeError), born, i;
      }
      i := i + 1;
    }
    ScannedExtracted(nodes, i, prompts, temp, seen, born);
    return Ok(prompts), born, i;
  }

  lemma ScannedExtracted(nodes: seq<UiNode>, i: nat, ps: seq<Prompt>, temp: seq<string>, seen: set<string>, born: seq<nat>)
    requires Scanned(nodes, i, ps, temp, seen, born) && (i == |nodes| || |ps| == 3)
    ensures Extracted(nodes, ps, born, i)
  {
  }

  // ---------------------------------------------------------------------------
  // What the scan returns

  /** The `j`-th node either leaves the prompt texts as they are or appends one. */
  lemma PromptTextsStep(nodes: seq<UiNode>, j: nat)
    requires j < |nodes|
    ensures IsPrefix(PromptTexts(nodes[..j]), PromptTexts(nodes[..j + 1]))
  {
    if !IsPromptText(nodes[j]) {
      TextStepOther(nodes, j);
    } else if Waiting(TextsOf(nodes[..j])) == [] {
      TextStepFirst(nodes, j);
    } else {
      TextStepPair(nodes, j);
    }
  }

  lemma PrefixTrans<T>(a: seq<T>, b: seq<T>, c: seq<T>)
    requires IsPrefix(a, b) && IsPrefix(b, c)
    ensures IsPrefix(a, c)
  {
    assert c[..|a|] == c[..|b|][..|a|];
  }

  /** Reading more nodes only appends prompt texts. */
  lemma {:induction false} PromptTextsPrefix(nodes: seq<UiNode>, j: nat, j': nat)
    requires j <= j' <= |nodes|
    ensures IsPrefix(PromptTexts(nodes[..j]), PromptTexts(nodes[..j']))
    decreases j' - j
  {
    if j < j' {
      PromptTextsPrefix(nodes, j, j' - 1);
      PromptTextsStep(nodes, j' - 1);
      PrefixTrans(PromptTexts(nodes[..j]), PromptTexts(nodes[..j' - 1]), PromptTexts(nodes[..j']));
    }
  }

  /** The prompts' texts are the first three prompt texts of the whole dump. */
  lemma ExtractedTexts(nodes: seq<UiNode>, ps: seq<Prompt>, born: seq<nat>, stop: nat)
    requires Extracted(nodes, ps, born, stop)
    ensures Texts(ps) == Take(PromptTexts(nodes), 3)
  {
    if |ps| < 3 {
      assert nodes[..stop] == nodes;
    } else {
      PromptTextsPrefix(nodes, stop, |nodes|);
      assert nodes[..|nodes|] == nodes;
    }
  }

  /** Ids are the lowercased texts and no two prompts share one. */
  lemma ExtractedDistinct(nodes: seq<UiNode>, ps: seq<Prompt>, born: seq<nat>, stop: nat)
    requires Extracted(nodes, ps, born, stop)
    ensures forall k :: 0 <= k < |ps| ==> ps[k].id == Lower(ps[k].text)
    ensures forall j, k :: 0 <= j < k < |ps| ==> ps[j].id != ps[k].id
  {
    DedupSound(Pairs(TextsOf(nodes[..stop])));
    forall j, k | 0 <= j < k < |ps| ensures ps[j].id != ps[k].id {
      assert ps[j].text == Texts(ps)[j] && ps[k].text == Texts(ps)[k];
    }
  }

  /** Each prompt text joins two consecutive non-empty TextView texts with `" | "`. */
  lemma ExtractedPairs(nodes: seq<UiNode>, ps: seq<Prompt>, born: seq<nat>, stop: nat)
    requires Extracted(nodes, ps, born, stop)
    ensures forall k :: 0 <= k < |ps| ==> IsPairOf(TextsOf(nodes[..stop]), ps[k].text)
  {
    var ts := TextsOf(nodes[..stop]);
    DedupSound(Pairs(ts));
    forall k | 0 <= k < |ps| ensures IsPairOf(ts, ps[k].text) {
      assert ps[k].text == Texts(ps)[k] == Dedup(Pairs(ts))[k];
      PairOfTexts(ts, ps[k].text);
    }
  }

  /** `x` joins the texts at positions `2m` and `2m + 1` for some `m`. */
  ghost predicate IsPairOf(ts: seq<string>, x: string) {
    exists m :: 0 <= m && 2 * m + 1 < |ts| && x == Pair(ts[2 * m], ts[2 * m + 1])
  }

  lemma PairOfTexts(ts: seq<string>, x: string)
    requires x in Pairs(ts)
    ensures IsPairOf(ts, x)
  {
    PairsShape(ts);
    var m :| 0 <= m < |Pairs(ts)| && Pairs(ts)[m] == x;
    assert x == Pair(ts[2 * m], ts[2 * m + 1]);
  }

  /** The scan stops as soon as the third prompt exists, so it never gets coordinates. */
  lemma ExtractedThirdBare(nodes: seq<UiNode>, ps: seq<Prompt>, born: seq<nat>, stop: nat)
    requires Extracted(nodes, ps, born, stop)
    ensures |ps| == 3 ==> ps[2].like == None
  {
    if |ps| == 3 {
      assert LikeOk(nodes, ps, born, 2, stop);
      AttachedNone(nodes, stop);
    }
  }

  /** What `extract_prompts_from_dump` may return for a dump file. */
  ghost predicate ExtractedFrom(file: DumpFile, ps: seq<Prompt>) {
    if file.Xml? then exists born, stop :: Extracted(Nodes(file.roots), ps, born, stop) else ps == []
  }

  lemma ExtractedFromDistinct(file: DumpFile, ps: seq<Prompt>)
    requires ExtractedFrom(file, ps)
    ensures forall j, k :: 0 <= j < k < |ps| ==> ps[j].id != ps[k].id
  {
    if file.Xml? {
      var born, stop :| Extracted(Nodes(file.roots), ps, born, stop);
      ExtractedDistinct(Nodes(file.roots), ps, born, stop);
    }
  }

  /**
   * `extract_prompts_from_dump`: a missing or unparsable file gives `[]`;
   * otherwise the scan of the dump's nodes.
   */
  method ExtractPrompts(file: DumpFile) returns (r: Py<seq<Prompt>>)
    ensures r.Raise? ==> file.Xml? && r.exc == TypeError
    ensures file.Xml? && (forall m :: 0 <= m < |Nodes(file.roots)| && IsLikeButton(Nodes(file.roots)[m]) ==> "bounds" in Nodes(file.roots)[m].attrs)
            ==> r.Ok?
    ensures r.Ok? ==> ExtractedFrom(file, r.value)
    ensures r.Ok? && file.Xml? ==> Texts(r.value) == Take(PromptTexts(Nodes(file.roots)), 3)
    ensures r.Ok? ==> |r.value| <= 3 && forall j, k :: 0 <= j < k < |r.value| ==> r.value[j].id != r.value[k].id
    ensures r.Ok? && |r.value| == 3 ==> r.value[2].like == None
  {
    if !file.Xml? {
      return Ok([]);
    }
    var nodes := Nodes(file.roots);
    ghost var born, stop;
    r, born, stop := ScanNodes(nodes);
    if r.Ok? {
      ExtractedTexts(nodes, r.value, born, stop);
      ExtractedDistinct(nodes, r.value, born, stop);
      ExtractedThirdBare(nodes, r.value, born, stop);
    }
  }
}
