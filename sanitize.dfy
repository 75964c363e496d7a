/**
 * The text pipeline shared by the three message senders (utils/actions.py,
 * utils/message_sender.py, message_sender.py): the message is cleaned for
 * the device shell, cut into chunks of at most 100 characters and typed
 * with `adb shell input text`, which reads `%s` as a space.
 */
module Sanitize {
  import opened PyStr

  /** The characters of `s` that satisfy `p`, in order. */
  function Filter(s: string, p: char -> bool): (r: string)
    ensures |r| <= |s|
    ensures forall i :: 0 <= i < |r| ==> p(r[i])
    ensures forall c :: c in r ==> c in s
  {
    if s == [] then [] else (if p(s[0]) then [s[0]] else []) + Filter(s[1..], p)
  }

  lemma {:induction false} FilterAll(s: string, p: char -> bool)
    requires forall i :: 0 <= i < |s| ==> p(s[i])
    ensures Filter(s, p) == s
  {
    if s != [] {
      FilterAll(s[1..], p);
    }
  }

  lemma {:induction false} FilterConcat(a: string, b: string, p: char -> bool)
    ensures Filter(a + b, p) == Filter(a, p) + Filter(b, p)
  {
    if a == [] {
      assert a + b == b;
    } else {
      assert (a + b)[1..] == a[1..] + b;
      FilterConcat(a[1..], b, p);
    }
  }

  lemma {:induction false} FilterNone(s: string, p: char -> bool)
    requires forall i :: 0 <= i < |s| ==> !p(s[i])
    ensures Filter(s, p) == []
  {
    if s != [] {
      FilterNone(s[1..], p);
    }
  }

  // ---------------------------------------------------------------------------
  // The five steps

  predicate IsAscii(c: char) {
    c as int < 0x80
  }

  /** The characters `[\'\"\\\\`$&|;<>]` removes. */
  predicate IsForbidden(c: char) {
    c == '\'' || c == '"' || c == '\\' || c == '`' || c == '$' || c == '&' || c == '|' || c == ';' || c == '<' || c == '>'
  }

  predicate NotForbidden(c: char) {
    !IsForbidden(c)
  }

  predicate NotSpace(c: char) {
    !IsSpace(c)
  }

  /** A character that survives the pipeline as itself: ASCII, not forbidden, not whitespace. */
  predicate Keepable(c: char) {
    IsAscii(c) && !IsForbidden(c) && !IsSpace(c)
  }

  /** `s.replace('\n', ' ').replace('\r', ' ')` */
  function NewlinesToSpaces(s: string): string {
    ReplaceChar(ReplaceChar(s, '\n', " "), '\r', " ")
  }

  /** `re.sub(r'\s+', ' ', s)`: every maximal run of whitespace becomes one space. */
  function CollapseSpaces(s: string): (r: string)
    decreases |s|
  {
    if s == [] then []
    else if IsSpace(s[0]) then " " + CollapseSpaces(LStrip(s))
    else [s[0]] + CollapseSpaces(s[1..])
  }

  /**
   * The sanitised message: non-ASCII characters removed, then the shell
   * metacharacters, newlines turned into spaces, whitespace runs collapsed
   * and the ends stripped.
   */
  function SanitizeMessage(message: string): string {
    var ascii := Filter(message, IsAscii);
    var safe := Filter(ascii, NotForbidden);
    Strip(CollapseSpaces(NewlinesToSpaces(safe)))
  }

  // ---------------------------------------------------------------------------
  // What the result looks like

  /** The only whitespace is the plain space, and no two spaces are adjacent. */
  predicate SingleSpaced(s: string) {
    && (forall i :: 0 <= i < |s| && IsSpace(s[i]) ==> s[i] == ' ')
    && (forall i :: 0 <= i < |s| - 1 ==> !(s[i] == ' ' && s[i + 1] == ' '))
  }

  /** The shape of a sanitised message. */
  predicate Clean(s: string) {
    && (forall i :: 0 <= i < |s| ==> IsAscii(s[i]) && !IsForbidden(s[i]))
    && Trimmed(s)
    && SingleSpaced(s)
  }

  lemma {:induction false} CollapseShape(s: string)
    ensures SingleSpaced(CollapseSpaces(s))
    ensures CollapseSpaces(s) != [] && CollapseSpaces(s)[0] == ' ' ==> s != [] && IsSpace(s[0])
    decreases |s|
  {
    if s == [] {
    } else if IsSpace(s[0]) {
      var t := LStrip(s);
      CollapseShape(t);
      SpaceThen(CollapseSpaces(t));
    } else {
      CollapseShape(s[1..]);
      KeptThen(s[0], CollapseSpaces(s[1..]));
    }
  }

  lemma SpaceThen(t: string)
    requires SingleSpaced(t) && (t == [] || t[0] != ' ')
    ensures SingleSpaced(" " + t)
  {
    var r := " " + t;
    forall i | 0 <= i < |r| - 1 ensures !(r[i] == ' ' && r[i + 1] == ' ') {
      assert r[i + 1] == t[i];
      if i > 0 { assert r[i] == t[i - 1]; }
    }
    forall i | 0 <= i < |r| && IsSpace(r[i]) ensures r[i] == ' ' {
      if i > 0 { assert r[i] == t[i - 1]; }
    }
  }

  lemma KeptThen(c: char, t: string)
    requires SingleSpaced(t) && !IsSpace(c)
    ensures SingleSpaced([c] + t)
  {
    var r := [c] + t;
    forall i | 0 <= i < |r| - 1 ensures !(r[i] == ' ' && r[i + 1] == ' ') {
      assert r[i + 1] == t[i];
      if i > 0 { assert r[i] == t[i - 1]; }
    }
    forall i | 0 <= i < |r| && IsSpace(r[i]) ensures r[i] == ' ' {
      if i > 0 { assert r[i] == t[i - 1]; }
    }
  }

  lemma {:induction false} InFilter(s: string, i: nat, p: char -> bool)
    requires i < |s| && p(s[i])
    ensures s[i] in Filter(s, p)
  {
    if i > 0 {
      InFilter(s[1..], i - 1, p);
      assert s[1..][i - 1] == s[i];
    }
  }

  /** A character the filter keeps is in the result exactly when it is in the input. */
  lemma FilterMember(s: string, p: char -> bool, c: char)
    requires p(c)
    ensures (c in Filter(s, p)) == (c in s)
  {
    if c in s {
      var i :| 0 <= i < |s| && s[i] == c;
      InFilter(s, i, p);
    }
  }

  /** A slice of a single-spaced string is single-spaced. */
  lemma SingleSpacedSlice(s: string, lo: nat, hi: nat)
    requires lo <= hi <= |s| && SingleSpaced(s)
    ensures SingleSpaced(s[lo..hi])
  {
    var t := s[lo..hi];
    forall i | 0 <= i < |t| - 1 ensures !(t[i] == ' ' && t[i + 1] == ' ') {
      assert t[i] == s[lo + i] && t[i + 1] == s[lo + i + 1];
    }
  }

  /** `strip()` returns a slice. */
  lemma StripSlice(s: string) returns (lo: nat)
    ensures lo + |Strip(s)| <= |s| && Strip(s) == s[lo..lo + |Strip(s)|]
  {
    var l := LStrip(s);
    lo := |s| - |l|;
    var r := RStrip(l);
    assert r == l[..|r|];
    assert l == s[lo..];
    assert s[lo..][..|r|] == s[lo..lo + |r|];
  }

  // ---------------------------------------------------------------------------
  // What the result keeps

  lemma {:induction false} ReplaceSpaceKeepsWords(s: string, c: char)
    requires IsSpace(c)
    ensures Filter(ReplaceChar(s, c, " "), NotSpace) == Filter(s, NotSpace)
  {
    if s != [] {
      ReplaceSpaceKeepsWords(s[1..], c);
      var head := if s[0] == c then " " else [s[0]];
      assert ReplaceChar(s, c, " ") == head + ReplaceChar(s[1..], c, " ");
      FilterConcat(head, ReplaceChar(s[1..], c, " "), NotSpace);
      assert Filter(" ", NotSpace) == [];
    }
  }

  lemma AllSpaceWords(s: string)
    requires AllSpace(s)
    ensures Filter(s, NotSpace) == []
  {
    FilterNone(s, NotSpace);
  }

  lemma {:induction false} CollapseKeepsWords(s: string)
    ensures Filter(CollapseSpaces(s), NotSpace) == Filter(s, NotSpace)
    decreases |s|
  {
    if s != [] {
      if IsSpace(s[0]) {
        var t := LStrip(s);
        CollapseKeepsWords(t);
        FilterConcat(" ", CollapseSpaces(t), NotSpace);
        assert Filter(" ", NotSpace) == [];
        assert s == s[..|s| - |t|] + t;
        FilterConcat(s[..|s| - |t|], t, NotSpace);
        AllSpaceWords(s[..|s| - |t|]);
      } else {
        CollapseKeepsWords(s[1..]);
        FilterConcat([s[0]], CollapseSpaces(s[1..]), NotSpace);
      }
    }
  }

  lemma LStripKeepsWords(s: string)
    ensures Filter(LStrip(s), NotSpace) == Filter(s, NotSpace)
  {
    var l := LStrip(s);
    var pre := s[..|s| - |l|];
    assert s == pre + l;
    FilterConcat(pre, l, NotSpace);
    AllSpaceWords(pre);
  }

  lemma RStripKeepsWords(s: string)
    ensures Filter(RStrip(s), NotSpace) == Filter(s, NotSpace)
  {
    var r := RStrip(s);
    var post := s[|r|..];
    assert s == r + post;
    FilterConcat(r, post, NotSpace);
    AllSpaceWords(post);
  }

  lemma StripKeepsWords(s: string)
    ensures Filter(Strip(s), NotSpace) == Filter(s, NotSpace)
  {
    LStripKeepsWords(s);
    RStripKeepsWords(LStrip(s));
  }

  lemma {:induction false} FilterFilter(s: string)
    ensures Filter(Filter(Filter(s, IsAscii), NotForbidden), NotSpace) == Filter(s, Keepable)
  {
    if s != [] {
      FilterFilter(s[1..]);
      var a := if IsAscii(s[0]) then [s[0]] else [];
      var f := if IsAscii(s[0]) && NotForbidden(s[0]) then [s[0]] else [];
      assert Filter(s, IsAscii) == a + Filter(s[1..], IsAscii);
      FilterConcat(a, Filter(s[1..], IsAscii), NotForbidden);
      assert Filter(a, NotForbidden) == f;
      FilterConcat(f, Filter(Filter(s[1..], IsAscii), NotForbidden), NotSpace);
    }
  }

  /**
   * Apart from spaces, the sanitised message holds exactly the keepable
   * characters of the original, in their original order.
   */
  lemma SanitizeKeepsWords(message: string)
    ensures Filter(SanitizeMessage(message), NotSpace) == Filter(message, Keepable)
  {
    var ascii := Filter(message, IsAscii);
    var safe := Filter(ascii, NotForbidden);
    ReplaceSpaceKeepsWords(safe, '\n');
    ReplaceSpaceKeepsWords(ReplaceChar(safe, '\n', " "), '\r');
    CollapseKeepsWords(NewlinesToSpaces(safe));
    StripKeepsWords(CollapseSpaces(NewlinesToSpaces(safe)));
    FilterFilter(message);
  }

  /** The pipeline yields the empty string exactly when the message has no keepable character. */
  lemma SanitizeEmpty(message: string)
    ensures SanitizeMessage(message) == [] <==> Filter(message, Keepable) == []
  {
    var r := SanitizeMessage(message);
    SanitizeKeepsWords(message);
    SanitizeClean(message);
    if r != [] {
      assert r[0] in Filter(r, NotSpace) by {
        FilterConcat([r[0]], r[1..], NotSpace);
        assert [r[0]] + r[1..] == r;
      }
    }
  }

  lemma SanitizeSingleSpaced(message: string)
    ensures SingleSpaced(SanitizeMessage(message))
  {
    var spaced := NewlinesToSpaces(Filter(Filter(message, IsAscii), NotForbidden));
    CollapseShape(spaced);
    StripSingleSpaced(CollapseSpaces(spaced));
    assert SanitizeMessage(message) == Strip(CollapseSpaces(spaced));
  }

  lemma StripSingleSpaced(t: string)
    requires SingleSpaced(t)
    ensures SingleSpaced(Strip(t))
  {
    var lo := StripSlice(t);
    SingleSpacedSlice(t, lo, lo + |Strip(t)|);
  }

  /** The sanitised message is ASCII, free of shell metacharacters, trimmed and single-spaced. */
  lemma SanitizeClean(message: string)
    ensures Clean(SanitizeMessage(message))
  {
    var r := SanitizeMessage(message);
    SanitizeSingleSpaced(message);
    SanitizeKeepsWords(message);
    forall i | 0 <= i < |r| ensures IsAscii(r[i]) && !IsForbidden(r[i]) {
      if NotSpace(r[i]) {
        InFilter(r, i, NotSpace);
        assert Keepable(r[i]);
      } else {
        assert r[i] == ' ';
      }
    }
  }

  // ---------------------------------------------------------------------------
  // Idempotence

  lemma {:induction false} CollapseSingleSpaced(s: string)
    requires SingleSpaced(s)
    ensures CollapseSpaces(s) == s
    decreases |s|
  {
    if s != [] {
      SingleSpacedSlice(s, 1, |s|);
      CollapseSingleSpaced(s[1..]);
      if IsSpace(s[0]) {
        assert s[0] == ' ';
        assert |s| > 1 ==> !(s[0] == ' ' && s[1] == ' ');
        assert LStrip(s[1..]) == s[1..];
        assert LStrip(s) == s[1..];
      }
    }
  }

  lemma NoNewlineReplace(s: string)
    requires SingleSpaced(s)
    ensures NewlinesToSpaces(s) == s
  {
    NoCharReplace(s, '\n');
    NoCharReplace(s, '\r');
  }

  lemma {:induction false} NoCharReplace(s: string, c: char)
    requires c !in s
    ensures ReplaceChar(s, c, " ") == s
  {
    if s != [] {
      NoCharReplace(s[1..], c);
    }
  }

  /** Sanitising a sanitised message changes nothing. */
  lemma SanitizeIdempotent(message: string)
    ensures SanitizeMessage(SanitizeMessage(message)) == SanitizeMessage(message)
  {
    var r := SanitizeMessage(message);
    SanitizeClean(message);
    FilterAll(r, IsAscii);
    FilterAll(r, NotForbidden);
    forall k | 0 <= k < |r| ensures r[k] != '\n' && r[k] != '\r' {
      if IsSpace(r[k]) { assert r[k] == ' '; }
    }
    NoNewlineReplace(r);
    CollapseSingleSpaced(r);
    StripTrimmed(r);
  }

  // ---------------------------------------------------------------------------
  // Chunking and typing

  /** `max_length` in the typing loop. */
  const MaxChunk: nat := 100

  /**
   * `[s[i:i + n] for i in range(0, len(s), n)]`: consecutive slices of
   * length `n`, the last one possibly shorter, none empty.
   */
  function Chunks(s: string, n: nat): seq<string>
    requires n > 0
    decreases |s|
  {
    if s == [] then []
    else if |s| <= n then [s]
    else [s[..n]] + Chunks(s[n..], n)
  }

  /** Joined back together, the chunks are the string itself. */
  lemma {:induction false} ChunksConcat(s: string, n: nat)
    requires n > 0
    ensures Concat(Chunks(s, n)) == s
    decreases |s|
  {
    if |s| > n {
      var r := Chunks(s, n);
      assert r[1..] == Chunks(s[n..], n);
      ChunksConcat(s[n..], n);
      assert s == s[..n] + s[n..];
    }
  }

  /** Every chunk holds 1 to `n` characters, and every chunk but the last exactly `n`. */
  lemma {:induction false} ChunksSizes(s: string, n: nat)
    requires n > 0
    ensures forall k :: 0 <= k < |Chunks(s, n)| ==> 0 < |Chunks(s, n)[k]| <= n
    ensures forall k :: 0 <= k < |Chunks(s, n)| - 1 ==> |Chunks(s, n)[k]| == n
    decreases |s|
  {
    if |s| > n {
      var r := Chunks(s, n);
      assert r[1..] == Chunks(s[n..], n);
      ChunksSizes(s[n..], n);
    }
  }

  /** The chunks of `s[i..]` are the slice of at most `n` characters at `i`, then the chunks of the rest. */
  lemma ChunksStep(s: string, i: nat, n: nat)
    requires n > 0 && i < |s|
    ensures var end := if i + n <= |s| then i + n else |s|;
            Chunks(s[i..], n) == [s[i..end]] + Chunks(s[end..], n)
  {
    var end := if i + n <= |s| then i + n else |s|;
    if end == |s| {
      assert s[i..] == s[i..end];
      assert s[end..] == [];
    } else {
      assert s[i..][n..] == s[end..];
      assert s[i..][..n] == s[i..end];
    }
  }

  /** `chunk.replace(' ', '%s')` */
  function EscapeSpaces(chunk: string): (r: string)
    ensures ' ' !in r
  {
    ReplaceChar(chunk, ' ', "%s")
  }

  /** How `adb shell input text` reads its argument: each `%s` is typed as a space. */
  function TypedText(arg: string): string
    decreases |arg|
  {
    if arg == [] then []
    else if |arg| >= 2 && arg[0] == '%' && arg[1] == 's' then " " + TypedText(arg[2..])
    else [arg[0]] + TypedText(arg[1..])
  }

  /** A chunk without `%` is typed back exactly as it was before escaping. */
  lemma {:induction false} EscapeRoundTrip(chunk: string)
    requires '%' !in chunk
    ensures TypedText(EscapeSpaces(chunk)) == chunk
  {
    if chunk != [] {
      assert '%' !in chunk[1..] by {
        forall k | 0 <= k < |chunk[1..]| ensures chunk[1..][k] != '%' {
          assert chunk[1..][k] == chunk[k + 1];
        }
      }
      EscapeRoundTrip(chunk[1..]);
      var rest := ReplaceChar(chunk[1..], ' ', "%s");
      if chunk[0] == ' ' {
        assert EscapeSpaces(chunk) == "%s" + rest;
        assert ("%s" + rest)[2..] == rest;
      } else {
        assert EscapeSpaces(chunk) == [chunk[0]] + rest;
        assert ([chunk[0]] + rest)[1..] == rest;
      }
    }
  }

  /** A message made only of keepable characters comes out of sanitising unchanged. */
  lemma KeepableUnchanged(m: string)
    requires forall k :: 0 <= k < |m| ==> Keepable(m[k])
    ensures SanitizeMessage(m) == m
  {
    FilterAll(m, IsAscii);
    FilterAll(m, NotForbidden);
    NoNewlineReplace(m);
    CollapseSingleSpaced(m);
    StripTrimmed(m);
  }

  /**
   * A literal `%s` survives sanitising and is then typed as a space: the
   * escaping cannot tell the two apart.
   */
  lemma PercentSIsTypedAsSpace()
    ensures SanitizeMessage("5%s") == "5%s"
    ensures TypedText(EscapeSpaces(SanitizeMessage("5%s"))) == "5 "
  {
    KeepableUnchanged("5%s");
    EscapedPercentS();
  }

  /** `"5%s"` has no space to escape, and its `%s` is typed as a space. */
  lemma EscapedPercentS()
    ensures EscapeSpaces("5%s") == "5%s"
    ensures TypedText(EscapeSpaces("5%s")) == "5 "
  {
    NoCharReplaceAny("5%s", ' ', "%s");
    assert "5%s"[1..] == "%s";
    assert "%s"[2..] == "";
  }

  lemma {:induction false} NoCharReplaceAny(s: string, c: char, t: string)
    requires c !in s
    ensures ReplaceChar(s, c, t) == s
  {
    if s != [] {
      NoCharReplaceAny(s[1..], c, t);
    }
  }
}
