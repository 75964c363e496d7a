/**
 * The checks the two message generators run on what the language model
 * answers, and their retry loops: `_is_valid_message` and `generate` of
 * utils/smart_message_generator.py and of utils/smart_message_v1.py.
 *
 * The model itself is an oracle: attempt `a` answers `raw(a)`, None when the
 * HTTP call failed. Regex searches are written out as the positions where
 * they match; `re.IGNORECASE` compares through `Lower`.
 */
module Validators {
  import opened PyStr
  import opened Bounds

  predicate IsAsciiLetter(c: char) {
    'a' <= c <= 'z' || 'A' <= c <= 'Z'
  }

  predicate IsCapital(c: char) {
    'A' <= c <= 'Z'
  }

  /** Only ASCII letters in `s[from..to]`. */
  predicate LettersIn(s: string, from: nat, to: nat)
    requires from <= to <= |s|
  {
    forall t :: from <= t < to ==> IsAsciiLetter(s[t])
  }

  // ---------------------------------------------------------------------------
  // smart_message_generator.py: _is_valid_message

  const GeneratorMaxLength := 130

  /** `[A-Za-z0-9 ]` */
  predicate PlainChar(c: char) {
    IsAsciiLetter(c) || IsDigit(c) || c == ' '
  }

  /** `re.fullmatch(r"[A-Za-z0-9 ]+", m)` */
  predicate PlainText(m: string) {
    m != [] && forall i :: 0 <= i < |m| ==> PlainChar(m[i])
  }

  /** The class `[A-Z]`: every ASCII letter when case is ignored, the capitals otherwise. */
  predicate AZ(c: char, ignoreCase: bool) {
    if ignoreCase then IsAsciiLetter(c) else IsCapital(c)
  }

  /** `\b[A-Z]{2,}\b` matches `m[i..j]`. */
  predicate CapsWordAt(m: string, i: nat, j: nat, ignoreCase: bool) {
    && i + 2 <= j <= |m|
    && Boundary(m, i) && Boundary(m, j)
    && forall t :: i <= t < j ==> AZ(m[t], ignoreCase)
  }

  predicate CapsWord(m: string, ignoreCase: bool) {
    exists i: nat, j: nat | i <= j <= |m| :: CapsWordAt(m, i, j, ignoreCase)
  }

  /** `Man\b` matches at `k`. */
  predicate ManAt(m: string, k: nat, ignoreCase: bool) {
    && k + 3 <= |m|
    && (if ignoreCase then Lower(m[k..k + 3]) == "man" else m[k..k + 3] == "Man")
    && Boundary(m, k + 3)
  }

  /** `\b[A-Z]\s?Man\b` matches from `i`. */
  predicate LetterManAt(m: string, i: nat, ignoreCase: bool) {
    && i < |m| && Boundary(m, i) && AZ(m[i], ignoreCase)
    && (ManAt(m, i + 1, ignoreCase) || (i + 1 < |m| && IsSpace(m[i + 1]) && ManAt(m, i + 2, ignoreCase)))
  }

  predicate LetterMan(m: string, ignoreCase: bool) {
    exists i: nat | i < |m| :: LetterManAt(m, i, ignoreCase)
  }

  /** `5['′] ?\d+` matches from `i`. */
  predicate HeightAt(m: string, i: nat) {
    && i + 2 < |m| && m[i] == '5' && (m[i + 1] == '\'' || m[i + 1] == '\U{2032}')
    && (IsDigit(m[i + 2]) || (m[i + 2] == ' ' && i + 3 < |m| && IsDigit(m[i + 3])))
  }

  /** The alternatives of the last banned pattern, in the order written. */
  const Phrases: seq<string> := [
    "listen to", "before we meet", "follow me", "let's meet", "let's grab", "let's go", "let's do",
    "let's hang out", "let's catch up", "let's chat", "let's talk", "let's connect", "let's vibe",
    "let's explore", "let's discover", "let's experience", "let's enjoy", "let's have fun",
    " wingman ", " astrology", " shoe ", "cheesy pickup", "If we matched ", " wingman ",
    " whirlpool ", " spontaneous"]

  /** The alternative `p`, case ignored, at `i` and then `\b`. */
  predicate PhraseAt(m: string, p: string, i: nat) {
    OccursAt(Lower(m), Lower(p), i) && Boundary(m, i + |p|)
  }

  predicate BannedPhrase(m: string) {
    exists k, i: nat | 0 <= k < |Phrases| && i <= |m| :: PhraseAt(m, Phrases[k], i)
  }

  /**
   * Some banned pattern is found in `m`. The source searches all of them with
   * `re.IGNORECASE`; `ignoreCase` applies to the two patterns spelled with
   * capitals, `\b[A-Z]\s?Man\b` and `\b[A-Z]{2,}\b`.
   */
  predicate GeneratorBanned(m: string, ignoreCase: bool) {
    || '\n' in m
    || '"' in m || '\'' in m
    || LetterMan(m, ignoreCase)
    || (exists i: nat | i < |m| :: HeightAt(m, i))
    || CapsWord(m, ignoreCase)
    || BannedPhrase(m)
  }

  /** `_is_valid_message` as written: every banned pattern searched with `re.IGNORECASE`. */
  predicate GeneratorAcceptsAsWritten(msg: string) {
    var m := Strip(msg);
    |m| <= GeneratorMaxLength && PlainText(m) && !GeneratorBanned(m, true)
  }

  /** `_is_valid_message` as evidently intended: the capital-letter patterns match capitals only. */
  predicate GeneratorAccepts(msg: string) {
    var m := Strip(msg);
    |m| <= GeneratorMaxLength && PlainText(m) && !GeneratorBanned(m, false)
  }

  /** The phrase `p` matched at `i` shows `m` its letters, up to case, and its spaces. */
  lemma PhraseShows(m: string, p: string, i: nat, t: nat)
    requires PhraseAt(m, p, i) && t < |p|
    ensures IsAsciiLetter(p[t]) ==> IsAsciiLetter(m[i + t])
    ensures p[t] == ' ' ==> m[i + t] == ' '
    ensures p[t] == '\'' ==> m[i + t] == '\''
  {
    assert Lower(m)[i..i + |p|][t] == Lower(p)[t];
  }

  /** The phrase `p` matched at `i` ends with the letter word `p[o + 1..]` after a space. */
  lemma PhraseEndsInWord(m: string, p: string, i: nat, o: nat)
    requires PhraseAt(m, p, i)
    requires o + 3 <= |p| && p[o] == ' ' && LettersIn(p, o + 1, |p|)
    ensures CapsWordAt(m, i + o + 1, i + |p|, true)
  {
    PhraseShows(m, p, i, o);
    forall t | i + o + 1 <= t < i + |p|
      ensures IsAsciiLetter(m[t])
    {
      PhraseShows(m, p, i, t - i);
    }
  }

  /** The phrase `p` matched at `i` holds the letter word `p[o + 1..e]` between two spaces. */
  lemma PhraseHoldsWord(m: string, p: string, i: nat, o: nat, e: nat)
    requires PhraseAt(m, p, i)
    requires o + 3 <= e < |p| && p[o] == ' ' && p[e] == ' ' && LettersIn(p, o + 1, e)
    ensures CapsWordAt(m, i + o + 1, i + e, true)
  {
    PhraseShows(m, p, i, o);
    PhraseShows(m, p, i, e);
    forall t | i + o + 1 <= t < i + e
      ensures IsAsciiLetter(m[t])
    {
      PhraseShows(m, p, i, t - i);
    }
  }

  /** The "let's" phrases hold an apostrophe, which plain text does not. */
  lemma LetsPhraseNotPlain(m: string, k: nat, i: nat)
    requires 3 <= k <= 17 && PhraseAt(m, Phrases[k], i)
    ensures !PlainText(m)
  {
    var p := Phrases[k];
    assert p[3] == '\'';
    PhraseShows(m, p, i, 3);
    assert !PlainChar(m[i + 3]);
  }

  /** "listen to", "before we meet" and "follow me" end in a word of at least two letters. */
  lemma HeadPhraseIsCapsWord(m: string, k: nat, i: nat)
    requires k < 3 && PhraseAt(m, Phrases[k], i)
    ensures CapsWord(m, true)
  {
    var p := Phrases[k];
    if k == 1 {
      PhraseEndsInWord(m, p, i, 9);
    } else {
      PhraseEndsInWord(m, p, i, 6);
    }
  }

  /** " wingman ", " astrology", " shoe " and "cheesy pickup" end in or hold such a word. */
  lemma MiddlePhraseIsCapsWord(m: string, k: nat, i: nat)
    requires 18 <= k <= 21 && PhraseAt(m, Phrases[k], i)
    ensures CapsWord(m, true)
  {
    var p := Phrases[k];
    if k == 18 {
      PhraseHoldsWord(m, p, i, 0, 8);
    } else if k == 19 {
      PhraseEndsInWord(m, p, i, 0);
    } else if k == 20 {
      PhraseHoldsWord(m, p, i, 0, 5);
    } else {
      PhraseEndsInWord(m, p, i, 6);
    }
  }

  /** "If we matched " and " wingman " hold such a word. */
  lemma TailPhraseIsCapsWord(m: string, k: nat, i: nat)
    requires 22 <= k <= 23 && PhraseAt(m, Phrases[k], i)
    ensures CapsWord(m, true)
  {
    var p := Phrases[k];
    if k == 22 {
      PhraseHoldsWord(m, p, i, 2, 5);
    } else {
      PhraseHoldsWord(m, p, i, 0, 8);
    }
  }

  /** " whirlpool " and " spontaneous" hold or end in such a word. */
  lemma LastPhraseIsCapsWord(m: string, k: nat, i: nat)
    requires 24 <= k < |Phrases| && PhraseAt(m, Phrases[k], i)
    ensures CapsWord(m, true)
  {
    var p := Phrases[k];
    if k == 24 {
      PhraseHoldsWord(m, p, i, 0, 10);
    } else {
      PhraseEndsInWord(m, p, i, 0);
    }
  }

  /** The three characters that lowercase to "man" are letters. */
  lemma ManLetters(m: string, k: nat)
    requires ManAt(m, k, true)
    ensures forall t :: k <= t < k + 3 ==> AZ(m[t], true)
  {
    var l := Lower(m[k..k + 3]);
    assert l[0] == 'm' && l[1] == 'a' && l[2] == 'n';
    assert LowerChar(m[k]) == 'm' && LowerChar(m[k + 1]) == 'a' && LowerChar(m[k + 2]) == 'n';
  }

  /** `[A-Z]\s?Man`, case ignored, spans a word of two or more letters. */
  lemma LetterManIsCapsWord(m: string, i: nat)
    requires LetterManAt(m, i, true)
    ensures CapsWord(m, true)
  {
    if ManAt(m, i + 1, true) {
      ManLetters(m, i + 1);
      assert CapsWordAt(m, i, i + 4, true);
    } else {
      ManLetters(m, i + 2);
      assert CapsWordAt(m, i + 2, i + 5, true);
    }
  }

  /**
   * As written, with every pattern case-insensitive, the validator accepts
   * exactly the plain texts of at most 130 characters that contain no word
   * of two or more letters: every other banned pattern is either impossible
   * in plain text or implies such a word.
   */
  lemma {:induction false} GeneratorAsWrittenExactly(msg: string)
    ensures GeneratorAcceptsAsWritten(msg)
            <==> var m := Strip(msg); |m| <= GeneratorMaxLength && PlainText(m) && !CapsWord(m, true)
  {
    var m := Strip(msg);
    if |m| <= GeneratorMaxLength && PlainText(m) && !CapsWord(m, true) {
      PlainTextQuiet(m);
      forall i: nat | i < |m| ensures !LetterManAt(m, i, true) {
        if LetterManAt(m, i, true) {
          LetterManIsCapsWord(m, i);
        }
      }
      forall k, i: nat | 0 <= k < |Phrases| && i <= |m| ensures !PhraseAt(m, Phrases[k], i) {
        if 3 <= k <= 17 && PhraseAt(m, Phrases[k], i) {
          LetsPhraseNotPlain(m, k, i);
        } else if k < 3 && PhraseAt(m, Phrases[k], i) {
          HeadPhraseIsCapsWord(m, k, i);
        } else if 18 <= k <= 21 && PhraseAt(m, Phrases[k], i) {
          MiddlePhraseIsCapsWord(m, k, i);
        } else if 22 <= k <= 23 && PhraseAt(m, Phrases[k], i) {
          TailPhraseIsCapsWord(m, k, i);
        } else if 24 <= k && PhraseAt(m, Phrases[k], i) {
          LastPhraseIsCapsWord(m, k, i);
        }
      }
    }
  }

  /** "hey u" is rejected as written, for its word "hey". */
  lemma GeneratorRejectsWords()
    ensures !GeneratorAcceptsAsWritten("hey u")
  {
    var m := "hey u";
    StripTrimmed(m);
    assert CapsWordAt(m, 0, 3, true);
  }

  /** As written, "a man" is rejected: `[A-Z]` takes the `a` and `Man` the `man`. */
  lemma GeneratorRejectsLetterMan()
    ensures LetterMan("a man", true) && !GeneratorAcceptsAsWritten("a man")
  {
    var m := "a man";
    StripTrimmed(m);
    assert Lower(m[2..5]) == "man";
    assert LetterManAt(m, 0, true);
  }

  /** Plain text holds no line break, quote or height pattern. */
  lemma PlainTextQuiet(m: string)
    requires PlainText(m)
    ensures '\n' !in m && '"' !in m && '\'' !in m
    ensures forall i: nat | i < |m| :: !HeightAt(m, i)
  {
    forall t | 0 <= t < |m| ensures PlainChar(m[t]) {}
    forall i: nat | i + 1 < |m| ensures !HeightAt(m, i) {
      assert PlainChar(m[i + 1]);
    }
  }

  /** Every banned phrase is at least six characters long. */
  lemma PhrasesLong()
    ensures forall k :: 0 <= k < |Phrases| ==> |Phrases[k]| >= 6
  {
  }

  /**
   * With the capital-letter patterns matching capitals, a plain text of at
   * most 130 characters without capitals is accepted unless it holds a
   * banned phrase: ordinary words no longer reject it.
   */
  lemma {:induction false} GeneratorAcceptsLowercase(msg: string)
    requires var m := Strip(msg); |m| <= GeneratorMaxLength && PlainText(m) && !BannedPhrase(m)
    requires forall t :: 0 <= t < |Strip(msg)| ==> !IsCapital(Strip(msg)[t])
    ensures GeneratorAccepts(msg)
  {
    var m := Strip(msg);
    PlainTextQuiet(m);
    forall i: nat | i < |m| ensures !LetterManAt(m, i, false) {
      assert !IsCapital(m[i]);
    }
    forall i: nat, j: nat | i <= j <= |m| ensures !CapsWordAt(m, i, j, false) {
      if i < |m| {
        assert !IsCapital(m[i]);
      }
    }
  }

  /** The intended check accepts "hey u", which the written one rejects. */
  lemma GeneratorAcceptsShortWords()
    ensures GeneratorAccepts("hey u")
  {
    var m := "hey u";
    StripTrimmed(m);
    PhrasesLong();
    GeneratorAcceptsLowercase(m);
  }

  // ---------------------------------------------------------------------------
  // smart_message_v1.py: _is_valid_message

  /** `[a-zA-Z0-9 .,!?'\-()]` */
  predicate PunctChar(c: char) {
    || IsAsciiLetter(c) || IsDigit(c)
    || c == ' ' || c == '.' || c == ',' || c == '!' || c == '?' || c == '\'' || c == '-' || c == '(' || c == ')'
  }

  /** `re.match(r"^[a-zA-Z0-9 .,!?'\-()]+$", m)` on a stripped `m` (no trailing newline for `$` to skip). */
  predicate PunctText(m: string) {
    m != [] && forall i :: 0 <= i < |m| ==> PunctChar(m[i])
  }

  /** `\[.*\]` matches `m[i..j + 1]`: no line break between the brackets. */
  predicate BracketedAt(m: string, i: nat, j: nat) {
    i < j < |m| && m[i] == '[' && m[j] == ']' && '\n' !in m[i + 1..j]
  }

  const Greetings: seq<string> := ["hi", "hey", "hello"]

  /** `^(hi|hey|hello)\b`, case ignored. */
  predicate Greeting(m: string) {
    exists g :: g in Greetings && StartsWith(Lower(m), g) && Boundary(m, |g|)
  }

  /** `\bif only you\b`, case ignored, matches from `i`. */
  predicate IfOnlyYouAt(m: string, i: nat) {
    Boundary(m, i) && OccursAt(Lower(m), "if only you", i) && Boundary(m, i + 11)
  }

  predicate IfOnlyYou(m: string) {
    exists i: nat | i <= |m| :: IfOnlyYouAt(m, i)
  }

  /** The banned patterns of the v1 check, all searched with `re.IGNORECASE`. */
  predicate V1Banned(m: string) {
    || '\n' in m
    || Contains(Lower(m), "bio:")
    || (exists i: nat, j: nat | i < j < |m| :: BracketedAt(m, i, j))
    || Contains(Lower(m), "message:")
    || Greeting(m)
    || IfOnlyYou(m)
  }

  /** `msg.lower() in [line.lower() for line in curated_lines]` */
  predicate Duplicate(m: string, curated: seq<string>) {
    exists k :: 0 <= k < |curated| && Lower(curated[k]) == Lower(m)
  }

  /** `_is_valid_message` of smart_message_v1.py. */
  predicate V1Accepts(message: string, curated: seq<string>) {
    && message != []
    && var m := Strip(message);
    && 10 < |m| < 140
    && PunctText(m)
    && !V1Banned(m)
    && !Duplicate(m, curated)
  }

  /** Text of the allowed characters holds no line break, `bio:`, `message:` or bracket. */
  lemma PunctTextQuiet(m: string)
    requires PunctText(m)
    ensures '\n' !in m
    ensures forall i: nat | i <= |m| :: !OccursAt(Lower(m), "bio:", i) && !OccursAt(Lower(m), "message:", i)
    ensures forall i: nat, j: nat | i < j < |m| :: !BracketedAt(m, i, j)
  {
    forall t | 0 <= t < |m| ensures m[t] != '\n' && m[t] != '[' && LowerChar(m[t]) != ':' {
      assert PunctChar(m[t]);
    }
    forall i: nat | i <= |m| ensures !OccursAt(Lower(m), "bio:", i) && !OccursAt(Lower(m), "message:", i) {
      NotOccursAt(Lower(m), "bio:", i, 3);
      NotOccursAt(Lower(m), "message:", i, 7);
    }
  }

  /** On text of the allowed characters only the greeting and "if only you" patterns can match. */
  lemma PunctBanned(m: string)
    requires PunctText(m)
    ensures V1Banned(m) <==> Greeting(m) || IfOnlyYou(m)
  {
    PunctTextQuiet(m);
  }

  /**
   * The v1 check accepts exactly a non-empty message whose stripped form has
   * 11 to 139 allowed characters, does not open with a greeting word, holds
   * no whole "if only you" and is no curated line up to case: the line-break,
   * `bio:`, bracket and `message:` patterns cannot match the allowed
   * characters.
   */
  lemma {:induction false} V1AcceptsExactly(message: string, curated: seq<string>)
    ensures V1Accepts(message, curated)
            <==> && message != []
                 && var m := Strip(message);
                 && 10 < |m| < 140 && PunctText(m)
                 && !Greeting(m) && !IfOnlyYou(m) && !Duplicate(m, curated)
  {
    var m := Strip(message);
    if PunctText(m) {
      PunctBanned(m);
    }
  }

  /** A message opening with "Hey," is rejected, whatever follows. */
  lemma V1RejectsGreeting(rest: string, curated: seq<string>)
    ensures !V1Accepts("Hey, " + rest, curated)
  {
    var message := "Hey, " + rest;
    var m := Strip(message);
    if message != [] && 10 < |m| < 140 && PunctText(m) {
      assert m == message[..|m|] by {
        assert !IsSpace(message[0]);
      }
      assert m[..3] == "Hey" && m[3] == ',';
      assert Lower(m)[..3] == "hey";
      assert Greeting(m) by {
        assert "hey" in Greetings;
      }
    }
  }

  // ---------------------------------------------------------------------------
  // The retry loops of `generate`

  /** `if message and self._is_valid_message(message)`: an answer that came back, is non-empty and passes `accept`. */
  predicate Good(answer: Option<string>, accept: string -> bool) {
    answer.Some? && answer.value != [] && accept(answer.value)
  }

  /**
   * `for attempt in range(tries)`: ask the model, return the first good
   * answer. `calls` counts the requests sent.
   */
  method Retry(tries: nat, raw: nat -> Option<string>, accept: string -> bool) returns (r: Option<string>, calls: nat)
    ensures calls <= tries
    ensures r.Some? ==> 0 < calls && r == raw(calls - 1) && Good(r, accept)
    ensures r.Some? ==> forall a :: 0 <= a < calls - 1 ==> !Good(raw(a), accept)
    ensures r.None? ==> calls == tries && forall a :: 0 <= a < tries ==> !Good(raw(a), accept)
  {
    calls := 0;
    while calls < tries
      invariant calls <= tries
      invariant forall a :: 0 <= a < calls ==> !Good(raw(a), accept)
    {
      var message := raw(calls);
      calls := calls + 1;
      if Good(message, accept) {
        return message, calls;
      }
    }
    return None, calls;
  }

  /** `self.max_retries = 3` in smart_message_generator.py. */
  const GeneratorRetries := 3

  /** The check `generate` calls, `_is_valid_message` as written. */
  function GeneratorCheckAsWritten(): (accept: string -> bool)
    ensures forall msg :: accept(msg) == GeneratorAcceptsAsWritten(msg)
  {
    msg => GeneratorAcceptsAsWritten(msg)
  }

  /** The check with the capitals patterns matching capitals only. */
  function GeneratorCheck(): (accept: string -> bool)
    ensures forall msg :: accept(msg) == GeneratorAccepts(msg)
  {
    msg => GeneratorAccepts(msg)
  }

  /**
   * `generate` of smart_message_generator.py as written: at most three
   * requests, and the first non-empty answer that `_is_valid_message`
   * accepts, every case-insensitive pattern included.
   */
  method GeneratorGenerate(raw: nat -> Option<string>) returns (r: Option<string>, calls: nat)
    ensures calls <= GeneratorRetries
    ensures r.Some? ==> 0 < calls && r == raw(calls - 1) && r.value != [] && GeneratorAcceptsAsWritten(r.value)
    ensures r.Some? ==> forall a :: 0 <= a < calls - 1 ==> !Good(raw(a), GeneratorCheckAsWritten())
    ensures r.None? ==> calls == GeneratorRetries && forall a :: 0 <= a < GeneratorRetries ==> !Good(raw(a), GeneratorCheckAsWritten())
  {
    r, calls := Retry(GeneratorRetries, raw, GeneratorCheckAsWritten());
  }

  /** `generate` with the corrected check: the same loop, the first answer the intended validator accepts. */
  method GeneratorGenerateCorrected(raw: nat -> Option<string>) returns (r: Option<string>, calls: nat)
    ensures calls <= GeneratorRetries
    ensures r.Some? ==> 0 < calls && r == raw(calls - 1) && r.value != [] && GeneratorAccepts(r.value)
    ensures r.Some? ==> forall a :: 0 <= a < calls - 1 ==> !Good(raw(a), GeneratorCheck())
    ensures r.None? ==> calls == GeneratorRetries && forall a :: 0 <= a < GeneratorRetries ==> !Good(raw(a), GeneratorCheck())
  {
    r, calls := Retry(GeneratorRetries, raw, GeneratorCheck());
  }

  /** As written, answers such as "hey u" are never good: three of them make `generate` give up. */
  lemma ShortWordsNeverGood()
    ensures !Good(Some("hey u"), GeneratorCheckAsWritten())
    ensures Good(Some("hey u"), GeneratorCheck())
  {
    GeneratorRejectsWords();
    GeneratorAcceptsShortWords();
  }

  function V1Check(curated: seq<string>): (accept: string -> bool)
    ensures forall msg :: accept(msg) == V1Accepts(msg, curated)
  {
    msg => V1Accepts(msg, curated)
  }

  /**
   * `generate` of smart_message_v1.py: an empty bio gets None without a
   * request; otherwise at most `maxRetries` requests and the first good answer.
   */
  method V1Generate(bio: string, maxRetries: nat, curated: seq<string>, raw: nat -> Option<string>)
    returns (r: Option<string>, calls: nat)
    ensures bio == [] ==> r.None? && calls == 0
    ensures calls <= maxRetries
    ensures r.Some? ==> 0 < calls && r == raw(calls - 1) && V1Accepts(r.value, curated)
    ensures r.Some? ==> forall a :: 0 <= a < calls - 1 ==> !Good(raw(a), V1Check(curated))
    ensures r.None? && bio != [] ==> calls == maxRetries && forall a :: 0 <= a < maxRetries ==> !Good(raw(a), V1Check(curated))
  {
    if bio == [] {
      return None, 0;
    }
    r, calls := Retry(maxRetries, raw, V1Check(curated));
  }
}
