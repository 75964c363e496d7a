/**
 * utils/prompt_extractor.py: the known prompts are the non-blank lines of a
 * text file, and a dump is scanned in preorder for nodes whose text is a
 * known prompt, each paired with the first answer among the next three
 * nodes.
 *
 * The scan advances with `i = j`, where `j` is the variable of the inner
 * `for` loop. When the prompt is the last node that loop is empty, and `j`
 * is either unbound or left over from an earlier prompt. The scan is
 * modelled twice: step by step as written, where that case raises NameError
 * or never moves on, and as the evidently intended scan, which moves past
 * such a last prompt.
 */
module PromptPairs {
  import opened PyStr
  import opened UiDump
  import opened Finders

  // ---------------------------------------------------------------------------
  // load_known_prompts

  /** The strings of a list, gathered into a set one by one. */
  function Elems(xs: seq<string>): (r: set<string>)
    ensures forall x :: x in r <==> x in xs
  {
    if xs == [] then {} else Elems(xs[..|xs| - 1]) + {xs[|xs| - 1]}
  }

  /** One more string, one more element. */
  lemma ElemsSnoc(xs: seq<string>, y: string)
    ensures Elems(xs + [y]) == Elems(xs) + {y}
  {
    assert (xs + [y])[..|xs|] == xs;
  }

  /** The set of the non-blank lines, each stripped. */
  function PromptSet(lines: seq<string>): set<string> {
    Elems(FilterMap(lines, StripEach(), NotBlank()))
  }

  /** A string is a known prompt exactly when it is some line of the file, stripped, and not empty. */
  lemma PromptSetExactly(lines: seq<string>, x: string)
    ensures x in PromptSet(lines) <==> exists k :: 0 <= k < |lines| && x == Strip(lines[k]) && x != []
  {
    FilterMapExactly(lines, StripEach(), NotBlank(), x);
  }

  /** `load_known_prompts(prompts_file)`: FileNotFoundError without a file, else the set of its non-blank stripped lines. */
  method LoadPromptSet(file: Option<string>) returns (r: Py<set<string>>)
    ensures file.None? ==> r == Raise(FileNotFoundError)
    ensures file.Some? ==> r == Ok(PromptSet(Lines(file.value)))
  {
    if file.None? {
      return Raise(FileNotFoundError);
    }
    var lines := Lines(file.value);
    var prompts: set<string> := {};
    for k := 0 to |lines|
      invariant prompts == Elems(FilterMap(lines[..k], StripEach(), NotBlank()))
    {
      FilterMapSnoc(lines, k, StripEach(), NotBlank());
      var line := Strip(lines[k]);
      if line != [] {
        ElemsSnoc(FilterMap(lines[..k], StripEach(), NotBlank()), line);
        prompts := prompts + {line};
      }
    }
    assert lines[..|lines|] == lines;
    return Ok(prompts);
  }

  // ---------------------------------------------------------------------------
  // extract_prompt_response_pairs_from_xml

  /** `node.attrib.get('text', '').strip()`, as a function value. */
  function NodeText(): (f: UiNode -> string)
    ensures forall n :: f(n) == Strip(Get(n, "text", ""))
  {
    n => Strip(Get(n, "text", ""))
  }

  /**
   * The stripped text of every node, in preorder. The scan below reads
   * node texts only through this list; stripping has no effect, so reading
   * them all at once gives what reading them node by node gives.
   */
  function Texts(nodes: seq<UiNode>, f: UiNode -> string): (r: seq<string>)
    ensures |r| == |nodes|
    ensures forall k :: 0 <= k < |nodes| ==> r[k] == f(nodes[k])
  {
    if nodes == [] then [] else Texts(nodes[..|nodes| - 1], f) + [f(nodes[|nodes| - 1])]
  }

  /** A node that answers a prompt: its text is not empty and is not itself a known prompt. */
  predicate IsReply(texts: seq<string>, known: set<string>, k: nat)
    requires k < |texts|
  {
    texts[k] != [] && texts[k] !in known
  }

  function Replies(texts: seq<string>, known: set<string>): nat -> bool {
    (k: nat) => k < |texts| && IsReply(texts, known, k)
  }

  /** The end of the window `range(i+1, min(i+4, len(nodes)))`. */
  function WindowEnd(i: nat, n: nat): (e: nat)
    requires i < n
    ensures i < e <= n && e <= i + 4
  {
    if i + 4 <= n then i + 4 else n
  }

  /** The index at which the inner loop breaks: the first answer in the window. */
  function ReplyIndex(texts: seq<string>, known: set<string>, i: nat): (j: Option<nat>)
    requires i < |texts|
    ensures j.Some? ==> i < j.value <= i + 3 && j.value < |texts| && IsReply(texts, known, j.value)
  {
    FirstFrom(WindowEnd(i, |texts|), Replies(texts, known), i + 1)
  }

  /** The response recorded for the prompt at `i`: the text of its answer, or None. */
  function Response(texts: seq<string>, known: set<string>, i: nat): (r: Option<string>)
    requires i < |texts|
    ensures r.Some? ==> r.value != [] && r.value !in known
  {
    match ReplyIndex(texts, known, i)
    case Some(j) => Some(texts[j])
    case None => None
  }

  /** The answer is the first node of the window that can answer; with none, the response is None. */
  lemma ResponseIsFirst(texts: seq<string>, known: set<string>, i: nat)
    requires i < |texts|
    ensures Response(texts, known, i).None? <==>
              forall k :: i < k < WindowEnd(i, |texts|) ==> !IsReply(texts, known, k)
    ensures forall j :: i < j < WindowEnd(i, |texts|) && IsReply(texts, known, j)
              && (forall k :: i < k < j ==> !IsReply(texts, known, k))
              ==> Response(texts, known, i) == Some(texts[j])
  {
    var e := WindowEnd(i, |texts|);
    var p := Replies(texts, known);
    var t := ReplyIndex(texts, known, i);
    forall k | i < k < e && (t.None? || k < t.value) ensures !IsReply(texts, known, k) {
      FirstFromSkips(e, p, i + 1, k);
      assert !p(k);
    }
  }

  /** The value the inner loop's variable `j` holds after the loop, or None when the window is empty. */
  function LoopIndex(texts: seq<string>, known: set<string>, i: nat): (j: Option<nat>)
    requires i < |texts|
    ensures j.None? <==> i == |texts| - 1
    ensures j.Some? ==> i < j.value < |texts|
  {
    match ReplyIndex(texts, known, i)
    case Some(j) => Some(j)
    case None => if i + 1 < WindowEnd(i, |texts|) then Some(WindowEnd(i, |texts|) - 1) else None
  }

  /** One pair: a known prompt and what follows it. */
  datatype Pair = Pair(prompt: string, response: Option<string>)

  /** The variables of the outer loop: `i`, the inner loop's `j` (None while unbound), and `pairs`. */
  datatype ScanState = ScanState(i: nat, j: Option<nat>, pairs: seq<Pair>)

  /**
   * One turn of the `while` loop as written: a node that is no known prompt
   * moves `i` on by one; a known prompt appends its pair and sets `i = j`,
   * where `j` keeps its old value when the window is empty, and an unbound
   * `j` raises NameError.
   */
  function StepAsWritten(texts: seq<string>, known: set<string>, s: ScanState): (r: Py<ScanState>)
    requires s.i < |texts|
    ensures r.Raise? ==> r.exc == NameError && s.j.None? && s.i == |texts| - 1
  {
    var text := texts[s.i];
    if text !in known then Ok(ScanState(s.i + 1, s.j, s.pairs))
    else
      var j := if LoopIndex(texts, known, s.i).Some? then LoopIndex(texts, known, s.i) else s.j;
      match j
      case None => Raise(NameError)
      case Some(k) => Ok(ScanState(k, j, s.pairs + [Pair(text, Response(texts, known, s.i))]))
  }

  /** A dump whose only node is a known prompt makes the scan raise NameError. */
  lemma LonePromptRaises(texts: seq<string>, known: set<string>)
    requires |texts| == 1 && texts[0] in known
    ensures StepAsWritten(texts, known, ScanState(0, None, [])) == Raise(NameError)
  {
  }

  /**
   * Two known prompts at the end of the dump: the first sets `i = j = 1`;
   * from then on every turn appends another pair and leaves `i` at 1, so the
   * loop never ends.
   */
  lemma {:induction false} LastPromptsLoop(texts: seq<string>, known: set<string>, pairs: seq<Pair>)
    requires |texts| == 2 && texts[0] in known && texts[1] in known
    ensures StepAsWritten(texts, known, ScanState(0, None, []))
            == Ok(ScanState(1, Some(1), [Pair(texts[0], None)]))
    ensures StepAsWritten(texts, known, ScanState(1, Some(1), pairs))
            == Ok(ScanState(1, Some(1), pairs + [Pair(texts[1], None)]))
  {
    assert !Replies(texts, known)(1);
    assert FirstFrom(2, Replies(texts, known), 2) == None;
    assert ReplyIndex(texts, known, 0) == None;
    assert [] + [Pair(texts[0], None)] == [Pair(texts[0], None)];
  }

  /** Where the scan resumes after the prompt at `i`: `j`, or the next node when the window is empty. */
  function Next(texts: seq<string>, known: set<string>, i: nat): (next: nat)
    requires i < |texts|
    ensures i < next <= |texts|
  {
    match LoopIndex(texts, known, i)
    case Some(j) => j
    case None => i + 1
  }

  /**
   * The pairs the corrected scan collects from node `i` on. Every prompt is
   * known, and every response is a non-empty text that is no known prompt.
   */
  function PairsFrom(texts: seq<string>, known: set<string>, i: nat): (r: seq<Pair>)
    ensures forall k :: 0 <= k < |r| ==> r[k].prompt in known
    ensures forall k :: 0 <= k < |r| && r[k].response.Some? ==> r[k].response.value != [] && r[k].response.value !in known
    ensures i <= |texts| ==> |r| <= |texts| - i
    decreases |texts| - i
  {
    if i >= |texts| then []
    else
      var text := texts[i];
      if text !in known then PairsFrom(texts, known, i + 1)
      else [Pair(text, Response(texts, known, i))] + PairsFrom(texts, known, Next(texts, known, i))
  }

  /** Wherever the loop as written does not fail, the corrected scan takes the same step. */
  lemma StepAgrees(texts: seq<string>, known: set<string>, s: ScanState)
    requires s.i < |texts| - 1
    ensures StepAsWritten(texts, known, s).Ok?
    ensures var t := StepAsWritten(texts, known, s).value;
            && (texts[s.i] !in known ==> t.i == s.i + 1 && t.pairs == s.pairs)
            && (texts[s.i] in known ==>
                  t.i == Next(texts, known, s.i) && t.pairs == s.pairs + [Pair(texts[s.i], Response(texts, known, s.i))])
  {
  }

  /** When the last node is no known prompt, every turn of the loop as written succeeds and moves `i` on. */
  lemma StepAdvances(texts: seq<string>, known: set<string>, s: ScanState)
    requires s.i < |texts| && texts[|texts| - 1] !in known
    ensures StepAsWritten(texts, known, s).Ok?
    ensures s.i < StepAsWritten(texts, known, s).value.i <= |texts|
  {
    if s.i < |texts| - 1 {
      StepAgrees(texts, known, s);
    }
  }

  /**
   * The `while i < len(nodes)` loop as written, from state `s`, on a dump
   * whose last node is no known prompt: the pairs it has collected when it
   * stops.
   */
  function RunAsWritten(texts: seq<string>, known: set<string>, s: ScanState): seq<Pair>
    requires s.i <= |texts| && (texts == [] || texts[|texts| - 1] !in known)
    decreases |texts| - s.i
  {
    if s.i == |texts| then s.pairs
    else
      StepAdvances(texts, known, s);
      RunAsWritten(texts, known, StepAsWritten(texts, known, s).value)
  }

  /**
   * Unless the dump ends with a known prompt, the loop as written ends and
   * collects exactly the pairs of the corrected scan.
   */
  lemma {:induction false} RunAsWrittenAgrees(texts: seq<string>, known: set<string>, s: ScanState)
    requires s.i <= |texts| && (texts == [] || texts[|texts| - 1] !in known)
    ensures RunAsWritten(texts, known, s) == s.pairs + PairsFrom(texts, known, s.i)
    decreases |texts| - s.i
  {
    if s.i == |texts| {
      assert s.pairs + [] == s.pairs;
    } else {
      StepAdvances(texts, known, s);
      var t := StepAsWritten(texts, known, s).value;
      if s.i < |texts| - 1 {
        StepAgrees(texts, known, s);
      }
      RunAsWrittenAgrees(texts, known, t);
      if texts[s.i] in known {
        var pair := Pair(texts[s.i], Response(texts, known, s.i));
        assert (s.pairs + [pair]) + PairsFrom(texts, known, t.i) == s.pairs + ([pair] + PairsFrom(texts, known, t.i));
      }
    }
  }

  /** A known prompt that ends the dump is paired with no response, and the corrected scan stops after it. */
  lemma LastPromptEnds(texts: seq<string>, known: set<string>)
    requires texts != [] && texts[|texts| - 1] in known
    ensures PairsFrom(texts, known, |texts| - 1) == [Pair(texts[|texts| - 1], None)]
  {
    assert FirstFrom(|texts|, Replies(texts, known), |texts|) == None;
    assert PairsFrom(texts, known, |texts|) == [];
  }

  /**
   * Known prompts right after a prompt with no answer in reach are skipped:
   * in `P P P X`, the scan resumes at `X`, so only the first `P` is paired.
   */
  lemma {:induction false} SkipsPromptsInWindow(texts: seq<string>, known: set<string>)
    requires |texts| == 4 && texts[0] in known && texts[1] in known && texts[2] in known
    requires texts[3] != [] && texts[3] !in known
    ensures PairsFrom(texts, known, 0) == [Pair(texts[0], Some(texts[3]))]
  {
    var p := Replies(texts, known);
    assert !p(1) && !p(2) && p(3);
    assert FirstFrom(4, p, 3) == Some(3);
    assert FirstFrom(4, p, 2) == Some(3);
    assert ReplyIndex(texts, known, 0) == Some(3);
    assert Next(texts, known, 0) == 3;
    assert PairsFrom(texts, known, 4) == [];
    assert PairsFrom(texts, known, 3) == [];
  }

  /** The inner `for j in range(i+1, min(i+4, len(nodes)))` loop with its `break`, as the corrected scan uses it. */
  method FindResponse(texts: seq<string>, known: set<string>, i: nat) returns (response: Option<string>, next: nat)
    requires i < |texts|
    ensures response == Response(texts, known, i)
    ensures next == Next(texts, known, i)
  {
    var end := if i + 4 <= |texts| then i + 4 else |texts|;
    var p := Replies(texts, known);
    next := i + 1;
    var j := i + 1;
    while j < end
      invariant i + 1 <= j <= end
      invariant FirstFrom(end, p, j) == FirstFrom(end, p, i + 1)
      invariant next == if j == i + 1 then i + 1 else j - 1
    {
      if texts[j] != [] && texts[j] !in known {
        assert p(j);
        return Some(texts[j]), j;
      }
      next := j;
      j := j + 1;
    }
    return None, next;
  }

  /** The `while i < len(nodes)` loop of the corrected scan over the node texts. */
  method ScanPairs(texts: seq<string>, known: set<string>) returns (pairs: seq<Pair>)
    ensures pairs == PairsFrom(texts, known, 0)
  {
    pairs := [];
    var i := 0;
    while i < |texts|
      invariant pairs + PairsFrom(texts, known, i) == PairsFrom(texts, known, 0)
      decreases |texts| - i
    {
      var text := texts[i];
      if text in known {
        var response, next := FindResponse(texts, known, i);
        assert pairs + ([Pair(text, response)] + PairsFrom(texts, known, next))
            == (pairs + [Pair(text, response)]) + PairsFrom(texts, known, next);
        pairs := pairs + [Pair(text, response)];
        i := next;
      } else {
        i := i + 1;
      }
    }
    assert pairs + [] == pairs;
  }

  /**
   * `extract_prompt_response_pairs_from_xml(xml_path, known_prompts)` with
   * the scan resuming after a last prompt: the dump's read error, or the
   * pairs in preorder.
   */
  method ExtractPairs(file: DumpFile, known: set<string>) returns (r: Py<seq<Pair>>)
    ensures ReadDump(file).Raise? ==> r == Raise(ReadDump(file).exc)
    ensures ReadDump(file).Ok? ==> r == Ok(PairsFrom(Texts(ReadDump(file).value, NodeText()), known, 0))
  {
    var dump := ReadDump(file);
    if dump.Raise? {
      return Raise(dump.exc);
    }
    var pairs := ScanPairs(Texts(dump.value, NodeText()), known);
    return Ok(pairs);
  }
}
