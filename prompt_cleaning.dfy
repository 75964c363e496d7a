/**
 * The OCR clean-up of utils/smart_message_v1.py: `load_known_prompts` reads
 * the prompt library, `find_best_match` keeps a running maximum of string
 * similarity over it, and `clean_prompt_text` groups OCR lines greedily,
 * widest group first, into known prompts.
 *
 * The similarity ratio of `difflib.SequenceMatcher` is an oracle.
 */
module PromptCleaning {
  import opened PyStr
  import opened Bounds

  // ---------------------------------------------------------------------------
  // load_known_prompts

  /** `re.match(r"^\d+\.", line)`: the line opens with digits and a dot, as a section heading does. */
  predicate NumberedHeading(line: string) {
    var d := DigitRun(line);
    0 < d < |line| && line[d] == '.'
  }

  /** A stripped line that enters the library: not blank and no heading. */
  function IsPromptLine(): (keep: string -> bool)
    ensures forall s :: keep(s) == (s != [] && !NumberedHeading(s))
  {
    s => s != [] && !NumberedHeading(s)
  }

  /** The prompts kept from the lines read: each stripped, without blanks and headings, in file order. */
  function KeptPrompts(lines: seq<string>): seq<string> {
    FilterMap(lines, StripEach(), IsPromptLine())
  }

  /** A string is in the library exactly when some line, stripped, gives it and it is neither blank nor a heading. */
  lemma KeptPromptsExactly(lines: seq<string>, x: string)
    ensures x in KeptPrompts(lines) <==> exists k :: 0 <= k < |lines| && x == Strip(lines[k]) && x != [] && !NumberedHeading(x)
  {
    FilterMapExactly(lines, StripEach(), IsPromptLine(), x);
  }

  /**
   * `load_known_prompts(filepath)`: the file's lines in order, each
   * stripped, without blanks and headings; FileNotFoundError without a file.
   */
  method LoadKnownPrompts(file: Option<string>) returns (r: Py<seq<string>>)
    ensures file.None? ==> r == Raise(FileNotFoundError)
    ensures file.Some? ==> r == Ok(KeptPrompts(Lines(file.value)))
  {
    if file.None? {
      return Raise(FileNotFoundError);
    }
    var lines := Lines(file.value);
    var prompts: seq<string> := [];
    for k := 0 to |lines|
      invariant prompts == FilterMap(lines[..k], StripEach(), IsPromptLine())
    {
      FilterMapSnoc(lines, k, StripEach(), IsPromptLine());
      var line := Strip(lines[k]);
      if line != [] && !NumberedHeading(line) {
        prompts := prompts + [line];
      }
    }
    assert lines[..|lines|] == lines;
    return Ok(prompts);
  }

  // ---------------------------------------------------------------------------
  // find_best_match

  /** `SequenceMatcher(None, a, b).ratio()` */
  type Ratio = (string, string) -> real

  /** The prompt library and how chunks are compared with it. */
  datatype Matcher = Matcher(known: seq<string>, ratio: Ratio, threshold: real)

  /** The ratio `find_best_match` computes for a prompt: both sides lowercased. */
  function Score(mt: Matcher, chunk: string, k: nat): real
    requires k < |mt.known|
  {
    mt.ratio(Lower(chunk), Lower(mt.known[k]))
  }

  /** A prompt the running maximum can pick at all: at least the threshold and above the initial 0. */
  predicate Eligible(mt: Matcher, chunk: string, k: nat)
    requires k < |mt.known|
  {
    Score(mt, chunk, k) >= mt.threshold && Score(mt, chunk, k) > 0.0
  }

  /** The index of the prompt `best_match` holds after the first `n` prompts. */
  function Leader(mt: Matcher, chunk: string, n: nat): (b: Option<nat>)
    requires n <= |mt.known|
    ensures b.Some? ==> b.value < n && Eligible(mt, chunk, b.value)
  {
    if n == 0 then None
    else
      var b := Leader(mt, chunk, n - 1);
      var best := if b.None? then 0.0 else Score(mt, chunk, b.value);
      var r := Score(mt, chunk, n - 1);
      if r > best && r >= mt.threshold then Some(n - 1) else b
  }

  /**
   * The leader is the earliest eligible prompt of maximal ratio: none when no
   * prompt is eligible, otherwise no eligible prompt scores higher and every
   * earlier eligible prompt scores lower.
   */
  lemma {:induction false} LeaderIsEarliestMaximum(mt: Matcher, chunk: string, n: nat)
    requires n <= |mt.known|
    ensures Leader(mt, chunk, n).None? <==> forall k :: 0 <= k < n ==> !Eligible(mt, chunk, k)
    ensures Leader(mt, chunk, n).Some? ==>
              var b := Leader(mt, chunk, n).value;
              && (forall k :: 0 <= k < n && Eligible(mt, chunk, k) ==> Score(mt, chunk, k) <= Score(mt, chunk, b))
              && (forall k :: 0 <= k < b && Eligible(mt, chunk, k) ==> Score(mt, chunk, k) < Score(mt, chunk, b))
  {
    if n > 0 {
      LeaderIsEarliestMaximum(mt, chunk, n - 1);
    }
  }

  /** What `find_best_match(chunk, known, threshold)` returns. */
  function BestMatch(mt: Matcher, chunk: string): (m: Option<string>)
    ensures m.Some? ==> m.value in mt.known
  {
    match Leader(mt, chunk, |mt.known|)
    case None => None
    case Some(k) => Some(mt.known[k])
  }

  /** `find_best_match`: keep a prompt when its ratio beats the best so far and reaches the threshold. */
  method FindBestMatch(mt: Matcher, chunk: string) returns (best: Option<string>)
    ensures best == BestMatch(mt, chunk)
  {
    var lowered := Lower(chunk);
    var bestRatio: real := 0.0;
    best := None;
    ghost var lead: Option<nat> := None;
    for n := 0 to |mt.known|
      invariant lead == Leader(mt, chunk, n)
      invariant best == if lead.None? then None else Some(mt.known[lead.value])
      invariant bestRatio == if lead.None? then 0.0 else Score(mt, chunk, lead.value)
    {
      var ratio := mt.ratio(lowered, Lower(mt.known[n]));
      if ratio > bestRatio && ratio >= mt.threshold {
        bestRatio := ratio;
        best := Some(mt.known[n]);
        lead := Some(n);
      }
    }
  }

  // ---------------------------------------------------------------------------
  // The OCR lines

  /** The line boundaries of `str.splitlines()`. */
  predicate IsLineBreak(c: char) {
    || c == '\n' || c == '\r' || c == '\U{0B}' || c == '\U{0C}' || '\U{1C}' <= c <= '\U{1E}'
    || c == '\U{85}' || c == '\U{2028}' || c == '\U{2029}'
  }

  predicate NoBreak(s: string) {
    forall t :: 0 <= t < |s| ==> !IsLineBreak(s[t])
  }

  /** The first line boundary at or after `from`, or the end. */
  function BreakFrom(s: string, from: nat): (k: nat)
    requires from <= |s|
    ensures from <= k <= |s|
    ensures k < |s| ==> IsLineBreak(s[k])
    ensures forall t :: from <= t < k ==> !IsLineBreak(s[t])
    decreases |s| - from
  {
    if from == |s| || IsLineBreak(s[from]) then from else BreakFrom(s, from + 1)
  }

  /**
   * `s[from:].splitlines()`: the pieces between line boundaries, `\r\n`
   * counting as one boundary and no piece after a final one. No piece holds
   * a boundary.
   */
  function SplitLines(s: string, from: nat): (ls: seq<string>)
    requires from <= |s|
    ensures forall j :: 0 <= j < |ls| ==> NoBreak(ls[j])
    decreases |s| - from
  {
    if from == |s| then []
    else
      var k := BreakFrom(s, from);
      var line := s[from..k];
      if k == |s| then [line]
      else
        var next := if s[k] == '\r' && k + 1 < |s| && s[k + 1] == '\n' then k + 2 else k + 1;
        [line] + SplitLines(s, next)
  }

  predicate StampChar(c: char) {
    IsDigit(c) || IsSpace(c) || c == ':'
  }

  /**
   * `re.match(r'^[\d\s:]{2,}.*$', l)` on a line without breaks: `.*$` takes
   * whatever follows, so the first two characters decide.
   */
  predicate StampLike(l: string) {
    |l| >= 2 && StampChar(l[0]) && StampChar(l[1])
  }

  /** `\b(?:ee|am|pm)\b`, case ignored, matches at `i`. */
  predicate ClockWordAt(l: string, i: nat) {
    && i + 2 <= |l|
    && Boundary(l, i) && Boundary(l, i + 2)
    && (Lower(l[i..i + 2]) == "ee" || Lower(l[i..i + 2]) == "am" || Lower(l[i..i + 2]) == "pm")
  }

  /** A line the clean-up drops as a timestamp or clock residue. */
  predicate Noise(l: string) {
    StampLike(l) || exists i: nat | i < |l| :: ClockWordAt(l, i)
  }

  function Same(): (f: string -> string)
    ensures forall s :: f(s) == s
  {
    s => s
  }

  function NotNoise(): (keep: string -> bool)
    ensures forall s :: keep(s) == !Noise(s)
  {
    s => !Noise(s)
  }

  /**
   * The lines `clean_prompt_text` groups:
   * `[l.strip() for l in raw_text.splitlines() if l.strip()]`, then without
   * the noise lines.
   */
  function OcrLines(raw: string): seq<string> {
    FilterMap(FilterMap(SplitLines(raw, 0), StripEach(), NotBlank()), Same(), NotNoise())
  }

  /** Every grouped line is one stripped line of the text, non-blank and no noise. */
  lemma OcrLinesClean(raw: string, j: nat)
    requires j < |OcrLines(raw)|
    ensures var l := OcrLines(raw)[j];
            l != [] && Trimmed(l) && !Noise(l) && exists k :: 0 <= k < |SplitLines(raw, 0)| && l == Strip(SplitLines(raw, 0)[k])
  {
    var l := OcrLines(raw)[j];
    var nonBlank := FilterMap(SplitLines(raw, 0), StripEach(), NotBlank());
    FilterMapExactly(nonBlank, Same(), NotNoise(), l);
    FilterMapExactly(SplitLines(raw, 0), StripEach(), NotBlank(), l);
  }

  // ---------------------------------------------------------------------------
  // clean_prompt_text

  /** `" ".join(lines[i:i+j])`: the slice stops at the end of the list. */
  function Chunk(lines: seq<string>, i: nat, j: nat): string
    requires i <= |lines|
  {
    Join(lines[i..if i + j <= |lines| then i + j else |lines|], " ")
  }

  /** `if match:` on what `find_best_match` returned. */
  predicate Truthy(m: Option<string>) {
    m.Some? && m.value != []
  }

  /** What the inner loop finds at a line: no group, or the width of the group that matched and its prompt. */
  datatype Group = NoGroup | Group(width: nat, prompt: string)

  /** The inner loop, trying groups of `j`, `j - 1`, ..., 1 lines from `i`: the first width that matches and its prompt. */
  function WidestMatch(lines: seq<string>, i: nat, j: nat, mt: Matcher): (w: Group)
    requires i < |lines|
    ensures w.Group? ==> 1 <= w.width <= j && BestMatch(mt, Chunk(lines, i, w.width)) == Some(w.prompt) && w.prompt != []
    decreases j
  {
    if j == 0 then NoGroup
    else
      var m := BestMatch(mt, Chunk(lines, i, j));
      if Truthy(m) then Group(j, m.value) else WidestMatch(lines, i, j - 1, mt)
  }

  /** Wider groups come first: every width above the chosen one, or every width when none matched, found no prompt. */
  lemma {:induction false} WidestMatchIsWidest(lines: seq<string>, i: nat, j: nat, mt: Matcher)
    requires i < |lines|
    ensures WidestMatch(lines, i, j, mt).Group? ==>
              forall k :: WidestMatch(lines, i, j, mt).width < k <= j ==> !Truthy(BestMatch(mt, Chunk(lines, i, k)))
    ensures WidestMatch(lines, i, j, mt).NoGroup? ==> forall k :: 1 <= k <= j ==> !Truthy(BestMatch(mt, Chunk(lines, i, k)))
    decreases j
  {
    if j > 0 && !Truthy(BestMatch(mt, Chunk(lines, i, j))) {
      WidestMatchIsWidest(lines, i, j - 1, mt);
    }
  }

  /**
   * The prompts the outer loop collects from line `i` on. Each is a
   * non-empty known prompt, and each consumes at least one line.
   */
  function CleanFrom(lines: seq<string>, i: nat, width: nat, mt: Matcher): (r: seq<string>)
    ensures forall k :: 0 <= k < |r| ==> r[k] in mt.known && r[k] != []
    ensures i <= |lines| ==> |r| <= |lines| - i
    ensures i >= |lines| ==> r == []
    decreases |lines| - i
  {
    if i >= |lines| then []
    else match WidestMatch(lines, i, width, mt)
      case Group(j, p) => [p] + CleanFrom(lines, i + j, width, mt)
      case NoGroup => CleanFrom(lines, i + 1, width, mt)
  }

  /** The inner `for j in range(width, 0, -1)` with its `break`. */
  method MatchGroup(lines: seq<string>, i: nat, width: nat, mt: Matcher) returns (w: Group)
    requires i < |lines|
    ensures w == WidestMatch(lines, i, width, mt)
  {
    var j: nat := width;
    while j > 0
      invariant j <= width
      invariant WidestMatch(lines, i, width, mt) == WidestMatch(lines, i, j, mt)
    {
      var chunk := Join(lines[i..if i + j <= |lines| then i + j else |lines|], " ");
      var m := FindBestMatch(mt, chunk);
      if m.Some? && m.value != [] {
        return Group(j, m.value);
      }
      j := j - 1;
    }
    return NoGroup;
  }

  /** The collection from line `i` goes on after the group picked there, or after line `i` alone. */
  lemma CleanFromStep(lines: seq<string>, i: nat, width: nat, mt: Matcher, w: Group, p: Option<string>, next: nat)
    requires i < |lines| && w == WidestMatch(lines, i, width, mt)
    requires w.Group? ==> p == Some(w.prompt) && next == i + w.width
    requires w.NoGroup? ==> p == None && next == i + 1
    ensures p.Some? ==> CleanFrom(lines, i, width, mt) == [p.value] + CleanFrom(lines, next, width, mt)
    ensures p.None? ==> CleanFrom(lines, i, width, mt) == CleanFrom(lines, next, width, mt)
  {
  }

  /** One turn of the outer loop from line `i`: the prompt it appends, if any, and where the next turn starts. */
  method CleanStep(lines: seq<string>, i: nat, width: nat, mt: Matcher) returns (p: Option<string>, next: nat)
    requires i < |lines|
    ensures i < next
    ensures p.Some? ==> CleanFrom(lines, i, width, mt) == [p.value] + CleanFrom(lines, next, width, mt)
    ensures p.None? ==> CleanFrom(lines, i, width, mt) == CleanFrom(lines, next, width, mt)
  {
    var w := MatchGroup(lines, i, width, mt);
    if w.Group? {
      p, next := Some(w.prompt), i + w.width;
    } else {
      p, next := None, i + 1;
    }
    CleanFromStep(lines, i, width, mt, w, p, next);
  }

  /** The outer `while i < len(lines)` loop: the prompts collected from the whole of `lines`. */
  method CleanLines(lines: seq<string>, width: nat, mt: Matcher) returns (cleaned: seq<string>)
    ensures cleaned == CleanFrom(lines, 0, width, mt)
  {
    cleaned := [];
    var i := 0;
    while i < |lines|
      invariant cleaned + CleanFrom(lines, i, width, mt) == CleanFrom(lines, 0, width, mt)
      decreases |lines| - i
    {
      var p, next := CleanStep(lines, i, width, mt);
      if p.Some? {
        assert cleaned + ([p.value] + CleanFrom(lines, next, width, mt)) == (cleaned + [p.value]) + CleanFrom(lines, next, width, mt);
        cleaned := cleaned + [p.value];
      }
      i := next;
    }
    assert cleaned + [] == cleaned;
  }

  /**
   * `clean_prompt_text(raw_text, max_lines_per_prompt, min_ratio)`: a
   * missing prompt library raises before the `try`; otherwise the prompts
   * the greedy grouping finds, in order.
   */
  method CleanPromptText(raw: string, library: Option<string>, width: nat, ratio: Ratio, threshold: real)
    returns (r: Py<seq<string>>)
    ensures library.None? ==> r == Raise(FileNotFoundError)
    ensures library.Some? ==>
              r == Ok(CleanFrom(OcrLines(raw), 0, width, Matcher(KeptPrompts(Lines(library.value)), ratio, threshold)))
  {
    var known := LoadKnownPrompts(library);
    match known
    case Raise(e) =>
      return Raise(e);
    case Ok(prompts) =>
      var cleaned := CleanLines(OcrLines(raw), width, Matcher(prompts, ratio, threshold));
      return Ok(cleaned);
  }
}
