/**
 * The rule matcher of bio_parser.py: `extract_name` finds the name after a
 * `Name:` label in the text read from a profile, and `match_rules` picks the
 * message of the first configured rule the text satisfies.
 */
module Bio {
  import opened PyStr

  /** Where a greedy `\s*` tried at `from` stops. */
  function SpaceEnd(s: string, from: nat): (e: nat)
    requires from <= |s|
    ensures from <= e <= |s|
    decreases |s| - from
  {
    if from < |s| && IsSpace(s[from]) then SpaceEnd(s, from + 1) else from
  }

  /** Where a greedy `\w*` tried at `from` stops. */
  function WordEnd(s: string, from: nat): (e: nat)
    requires from <= |s|
    ensures from <= e <= |s|
    decreases |s| - from
  {
    if from < |s| && IsWordChar(s[from]) then WordEnd(s, from + 1) else from
  }

  /** The word run is the longest stretch of word characters from `from`. */
  lemma {:induction false} WordEndLongest(s: string, from: nat)
    requires from <= |s|
    ensures forall i :: from <= i < WordEnd(s, from) ==> IsWordChar(s[i])
    ensures WordEnd(s, from) < |s| ==> !IsWordChar(s[WordEnd(s, from)])
    decreases |s| - from
  {
    if from < |s| && IsWordChar(s[from]) {
      WordEndLongest(s, from + 1);
    }
  }

  /** Whitespace followed by a non-whitespace character is consumed exactly. */
  lemma {:induction false} SpaceEndPast(s: string, from: nat, n: nat)
    requires from + n <= |s|
    requires forall k :: from <= k < from + n ==> IsSpace(s[k])
    requires from + n == |s| || !IsSpace(s[from + n])
    ensures SpaceEnd(s, from) == from + n
    decreases n
  {
    if n > 0 {
      SpaceEndPast(s, from + 1, n - 1);
    }
  }

  /** Word characters followed by a non-word character are consumed exactly. */
  lemma {:induction false} WordEndPast(s: string, from: nat, n: nat)
    requires from + n <= |s|
    requires forall k :: from <= k < from + n ==> IsWordChar(s[k])
    requires from + n == |s| || !IsWordChar(s[from + n])
    ensures WordEnd(s, from) == from + n
    decreases n
  {
    if n > 0 {
      WordEndPast(s, from + 1, n - 1);
    }
  }

  const Label := "Name:"

  /**
   * The match of `Name:\s*(\w+)` tried at position `i`, if it succeeds: the
   * label, then the greedy whitespace run, then at least one word
   * character, all of which the greedy group takes.
   */
  function NameAt(text: string, i: nat): Option<string> {
    if OccursAt(text, Label, i) then
      var j := SpaceEnd(text, i + |Label|);
      var e := WordEnd(text, j);
      if j < e then Some(text[j..e]) else None
    else None
  }

  /** A match is a non-empty run of word characters. */
  lemma NameAtWord(text: string, i: nat)
    requires NameAt(text, i).Some?
    ensures NameAt(text, i).value != [] && forall k :: 0 <= k < |NameAt(text, i).value| ==> IsWordChar(NameAt(text, i).value[k])
  {
    WordEndLongest(text, SpaceEnd(text, i + |Label|));
  }

  /** A search that tries positions `i`, `i + 1`, ..., `last` in turn: the first result it gets. */
  function FirstSome(last: nat, at: nat -> Option<string>, i: nat): Option<string>
    decreases last + 1 - i
  {
    if i > last then None
    else if at(i).Some? then at(i)
    else FirstSome(last, at, i + 1)
  }

  lemma {:induction false} FirstSomeLeftmost(last: nat, at: nat -> Option<string>, k: nat)
    ensures FirstSome(last, at, k).None? <==> forall i :: k <= i <= last ==> at(i).None?
    ensures FirstSome(last, at, k).Some? ==> exists i :: k <= i <= last && FirstSome(last, at, k) == at(i)
    ensures forall i :: k <= i <= last && at(i).Some? && (forall j :: k <= j < i ==> at(j).None?) ==>
              FirstSome(last, at, k) == at(i)
    decreases last + 1 - k
  {
    if k <= last && at(k).None? {
      FirstSomeLeftmost(last, at, k + 1);
    }
  }

  /** The pattern tried at each position of `text`. */
  function NameMatches(text: string): nat -> Option<string> {
    (i: nat) => NameAt(text, i)
  }

  /** `re.search(r'Name:\s*(\w+)', text)`: the group of the leftmost match. */
  function ExtractName(text: string): Option<string> {
    FirstSome(|text|, NameMatches(text), 0)
  }

  /** `extract_name` is the match at the leftmost position where the pattern matches, and None when it matches nowhere. */
  lemma ExtractNameLeftmost(text: string)
    ensures ExtractName(text).None? <==> forall i :: 0 <= i <= |text| ==> NameAt(text, i).None?
    ensures forall i :: 0 <= i <= |text| && NameAt(text, i).Some? && (forall j :: 0 <= j < i ==> NameAt(text, j).None?) ==>
              ExtractName(text) == NameAt(text, i)
  {
    var at := NameMatches(text);
    FirstSomeLeftmost(|text|, at, 0);
    forall i: nat ensures at(i) == NameAt(text, i) {
    }
  }

  /** The group `extract_name` returns is a non-empty run of word characters. */
  lemma ExtractNameWord(text: string)
    requires ExtractName(text).Some?
    ensures ExtractName(text).value != [] && forall k :: 0 <= k < |ExtractName(text).value| ==> IsWordChar(ExtractName(text).value[k])
  {
    FirstSomeLeftmost(|text|, NameMatches(text), 0);
    var i :| 0 <= i <= |text| && ExtractName(text) == NameAt(text, i);
    NameAtWord(text, i);
  }

  /**
   * A text that opens with the label, some whitespace and a word gives that
   * word, whatever follows it once a non-word character ends the word.
   */
  lemma ExtractNameOfLabel(spaces: string, word: string, rest: string)
    requires AllSpace(spaces) && word != [] && forall k :: 0 <= k < |word| ==> IsWordChar(word[k])
    requires rest == [] || !IsWordChar(rest[0])
    ensures ExtractName(Label + spaces + word + rest) == Some(word)
  {
    var text := Label + spaces + word + rest;
    var j := |Label| + |spaces|;
    var e := j + |word|;
    assert text[..|Label|] == Label;
    assert forall k :: |Label| <= k < j ==> text[k] == spaces[k - |Label|];
    assert forall k :: j <= k < e ==> text[k] == word[k - j];
    assert e < |text| ==> text[e] == rest[0];
    assert !IsSpace(word[0]);
    SpaceEndPast(text, |Label|, |spaces|);
    WordEndPast(text, j, |word|);
    assert text[j..e] == word;
    assert NameAt(text, 0) == Some(word);
    ExtractNameLeftmost(text);
  }

  /** A rule of `config.yaml`: a condition and the message it sends. */
  datatype Rule = Rule(condition: string, message: string)

  /** `condition.split(word)[1].strip()` for a condition containing `word`. */
  function Argument(condition: string, word: string): (arg: string)
    requires word != [] && Contains(condition, word)
    ensures Trimmed(arg)
  {
    SplitFound(condition, word);
    Strip(Split(condition, word)[1])
  }

  /**
   * Whether `rule` fires for `text` in `match_rules`: a condition naming
   * `contains` is a case-insensitive substring test (and is never tried as a
   * `startswith` one); otherwise a condition naming `startswith` tests the
   * extracted name's prefix, case-insensitively; any other condition never
   * fires.
   */
  predicate Fires(text: string, rule: Rule) {
    if Contains(rule.condition, "contains") then
      Contains(Lower(text), Lower(Argument(rule.condition, "contains")))
    else if Contains(rule.condition, "startswith") then
      var name := ExtractName(text);
      name.Some? && StartsWith(Lower(name.value), Lower(Argument(rule.condition, "startswith")))
    else false
  }

  /** The loop of `match_rules` from rule `k` on, for rules that fire when `fires` says so: the message of the first. */
  function FirstMessage(rules: seq<Rule>, fires: Rule -> bool, k: nat): Option<string>
    decreases |rules| - k
  {
    if k >= |rules| then None
    else if fires(rules[k]) then Some(rules[k].message)
    else FirstMessage(rules, fires, k + 1)
  }

  lemma {:induction false} FirstMessageIsFirst(rules: seq<Rule>, fires: Rule -> bool, k: nat)
    ensures FirstMessage(rules, fires, k).None? <==> forall i :: k <= i < |rules| ==> !fires(rules[i])
    ensures forall i :: k <= i < |rules| && fires(rules[i]) && (forall j :: k <= j < i ==> !fires(rules[j])) ==>
              FirstMessage(rules, fires, k) == Some(rules[i].message)
    decreases |rules| - k
  {
    if k < |rules| && !fires(rules[k]) {
      FirstMessageIsFirst(rules, fires, k + 1);
    }
  }

  /** Which rules fire for `text`. */
  function FiresFor(text: string): Rule -> bool {
    rule => Fires(text, rule)
  }

  /** `match_rules(text, rules)`. */
  function MatchRules(text: string, rules: seq<Rule>): Option<string> {
    FirstMessage(rules, FiresFor(text), 0)
  }

  /**
   * `match_rules` returns the message of the first rule in list order that
   * fires, and None exactly when no rule fires.
   */
  lemma MatchRulesFirst(text: string, rules: seq<Rule>)
    ensures MatchRules(text, rules).None? <==> forall k :: 0 <= k < |rules| ==> !Fires(text, rules[k])
    ensures forall k :: 0 <= k < |rules| && Fires(text, rules[k]) && (forall j :: 0 <= j < k ==> !Fires(text, rules[j])) ==>
              MatchRules(text, rules) == Some(rules[k].message)
  {
    FirstMessageIsFirst(rules, FiresFor(text), 0);
  }

  /** A `contains` rule whose keyword is empty (after stripping) fires for every text. */
  lemma EmptyKeywordFires(text: string, rule: Rule)
    requires Contains(rule.condition, "contains") && Argument(rule.condition, "contains") == ""
    ensures Fires(text, rule)
  {
    assert OccursAt(Lower(text), Lower(""), 0);
  }

  /** A `startswith` rule is skipped when the text has no `Name:` label followed by a word. */
  lemma NoNameNoStartsWith(text: string, rule: Rule)
    requires !Contains(rule.condition, "contains") && ExtractName(text).None?
    ensures !Fires(text, rule)
  {
  }
}
