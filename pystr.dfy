/**
 * The part of Python's `str` semantics that the bot's code relies on, stated on
 * Dafny's `string` (a `seq<char>`): whitespace, `strip`, ASCII `lower`,
 * substring search, `split`/`join`, `replace`, and the exceptions a call can
 * raise.
 */
module PyStr {

  datatype Option<+T> = None | Some(value: T)

  /** The exceptions the modelled functions can raise or catch. */
  datatype Exc = KeyError | ValueError | TypeError | NameError | ParseError | FileNotFoundError | CalledProcessError

  /** What a Python call does: return a value, or raise an exception that propagates. */
  datatype Py<+T> = Ok(value: T) | Raise(exc: Exc)

  /** `c.isspace()`: what `str.strip()` and the regex class `\s` treat as whitespace. */
  predicate IsSpace(c: char) {
    c == ' ' || '\t' <= c <= '\r' || '\U{1C}' <= c <= '\U{1F}' || c == '\U{85}' || c == '\U{A0}'
    || c == '\U{1680}' || '\U{2000}' <= c <= '\U{200A}' || c == '\U{2028}' || c == '\U{2029}'
    || c == '\U{202F}' || c == '\U{205F}' || c == '\U{3000}'
  }

  predicate AllSpace(s: string) {
    forall i :: 0 <= i < |s| ==> IsSpace(s[i])
  }

  /** `\w` on ASCII text: a letter, a digit or `_`. */
  predicate IsWordChar(c: char) {
    'a' <= c <= 'z' || 'A' <= c <= 'Z' || '0' <= c <= '9' || c == '_'
  }

  /** The regex assertion `\b` at index `k` of `s`: a word character on exactly one side. */
  predicate Boundary(s: string, k: nat) {
    (0 < k <= |s| && IsWordChar(s[k - 1])) != (k < |s| && IsWordChar(s[k]))
  }

  /** No whitespace at either end: what `strip()` leaves. */
  predicate Trimmed(s: string) {
    s == [] || (!IsSpace(s[0]) && !IsSpace(s[|s| - 1]))
  }

  /** `s.lstrip()`: drops the whitespace prefix and nothing more. */
  function LStrip(s: string): (r: string)
    ensures |r| <= |s|
    ensures |r| == |s| ==> r == s
    ensures |r| < |s| ==> r == s[|s| - |r|..]
    ensures AllSpace(s[..|s| - |r|])
    ensures r == [] || !IsSpace(r[0])
    ensures s != [] && IsSpace(s[0]) ==> |r| < |s|
  {
    if s != [] && IsSpace(s[0]) then
      var r := LStrip(s[1..]);
      assert r == s[|s| - |r|..] by {
        assert s[1..][|s| - 1 - |r|..] == s[|s| - |r|..];
      }
      assert AllSpace(s[..|s| - |r|]) by {
        forall i | 0 < i < |s| - |r| ensures IsSpace(s[i]) {
          assert s[i] == s[1..][..|s| - 1 - |r|][i - 1];
        }
      }
      r
    else
      s
  }

  /** `s.rstrip()`: drops the whitespace suffix and nothing more. */
  function RStrip(s: string): (r: string)
    ensures |r| <= |s|
    ensures |r| == |s| ==> r == s
    ensures |r| < |s| ==> r == s[..|r|]
    ensures AllSpace(s[|r|..])
    ensures r == [] || !IsSpace(r[|r| - 1])
    ensures s != [] && IsSpace(s[|s| - 1]) ==> |r| < |s|
  {
    if s != [] && IsSpace(s[|s| - 1]) then
      var r := RStrip(s[..|s| - 1]);
      assert |r| < |s|;
      assert s[|r|..] == s[..|s| - 1][|r|..] + [s[|s| - 1]];
      r
    else
      s
  }

  /** `s.strip()`: the longest slice of `s` with whitespace only around it. */
  function Strip(s: string): (r: string)
    ensures |r| <= |s| && Trimmed(r)
    ensures AllSpace(s) <==> r == []
  {
    var l := LStrip(s);
    var r := RStrip(l);
    assert r != [] ==> !IsSpace(r[0]) by {
      if r != [] { assert r[0] == l[0]; }
    }
    assert l != [] ==> l[0] == s[|s| - |l|];
    assert r == [] ==> AllSpace(s) by {
      if r == [] {
        assert l[|r|..] == l;
        assert l == [];
        assert s[..|s|] == s;
      }
    }
    r
  }

  /** Stripping a string that has no whitespace at its ends changes nothing. */
  lemma {:induction false} StripTrimmed(s: string)
    requires Trimmed(s)
    ensures Strip(s) == s
  {
  }

  function LowerChar(c: char): char {
    if 'A' <= c <= 'Z' then (c as int + 32) as char else c
  }

  /** `s.lower()`, with the case mapping restricted to ASCII letters. */
  function Lower(s: string): (r: string)
    ensures |r| == |s|
    ensures forall i :: 0 <= i < |s| ==> r[i] == LowerChar(s[i])
  {
    seq(|s|, i requires 0 <= i < |s| => LowerChar(s[i]))
  }

  /** `t` occurs in `s` at index `i`. */
  predicate OccursAt(s: string, t: string, i: nat) {
    i + |t| <= |s| && s[i..i + |t|] == t
  }

  /** `t` does not occur at `i` when one of its characters is missing there. */
  lemma NotOccursAt(s: string, t: string, i: nat, k: nat)
    requires k < |t| && (i + k >= |s| || s[i + k] != t[k])
    ensures !OccursAt(s, t, i)
  {
    if i + |t| <= |s| {
      assert s[i..i + |t|][k] == s[i + k];
    }
  }

  /** `t in s` for strings. */
  predicate Contains(s: string, t: string) {
    exists i: nat :: i <= |s| && OccursAt(s, t, i)
  }

  /** `s.startswith(p)` */
  predicate StartsWith(s: string, p: string) {
    |p| <= |s| && s[..|p|] == p
  }

  /** The first index at or after `from` where a non-empty `t` occurs in `s`. */
  function FindFrom(s: string, t: string, from: nat): (r: Option<nat>)
    requires t != []
    ensures r.Some? ==> from <= r.value && OccursAt(s, t, r.value)
    ensures r.Some? ==> forall j: nat :: from <= j < r.value ==> !OccursAt(s, t, j)
    ensures r.None? ==> forall j: nat :: from <= j ==> !OccursAt(s, t, j)
    decreases |s| - from
  {
    if from + |t| > |s| then None
    else if OccursAt(s, t, from) then Some(from)
    else FindFrom(s, t, from + 1)
  }

  /** `sep.join(parts)` */
  function Join(parts: seq<string>, sep: string): string {
    if |parts| == 0 then ""
    else if |parts| == 1 then parts[0]
    else parts[0] + sep + Join(parts[1..], sep)
  }

  /** `s.split(sep)` for a non-empty separator: the pieces between its non-overlapping occurrences, left to right. */
  function Split(s: string, sep: string): (r: seq<string>)
    requires sep != []
    ensures |r| >= 1
    ensures Join(r, sep) == s
    decreases |s|
  {
    match FindFrom(s, sep, 0)
    case None => [s]
    case Some(i) =>
      var rest := Split(s[i + |sep|..], sep);
      assert s == s[..i] + sep + s[i + |sep|..];
      assert ([s[..i]] + rest)[1..] == rest;
      [s[..i]] + rest
  }

  /** Splitting `a + sep + b` gives back `[a, b]` when `sep` cannot start inside `a` and does not occur in `b`. */
  lemma SplitAround(a: string, sep: string, b: string)
    requires sep != [] && sep[0] !in a && !Contains(b, sep)
    ensures Split(a + sep + b, sep) == [a, b]
  {
    var s := a + sep + b;
    assert s[|a|..|a| + |sep|] == sep;
    assert OccursAt(s, sep, |a|);
    forall j: nat | j < |a| ensures !OccursAt(s, sep, j) {
      assert s[j] == a[j];
      assert s[j] != sep[0];
    }
    assert FindFrom(s, sep, 0) == Some(|a|);
    assert s[|a| + |sep|..] == b;
    match FindFrom(b, sep, 0) {
      case None =>
      case Some(k) => assert Contains(b, sep);
    }
  }

  /** A string in which `sep` occurs splits into at least two pieces. */
  lemma SplitFound(s: string, sep: string)
    requires sep != [] && Contains(s, sep)
    ensures |Split(s, sep)| >= 2
  {
    var i: nat :| i <= |s| && OccursAt(s, sep, i);
    assert FindFrom(s, sep, 0).Some?;
  }

  /** `a` is a prefix of `b`. */
  predicate IsPrefix<T(==)>(a: seq<T>, b: seq<T>) {
    |a| <= |b| && b[..|a|] == a
  }

  /** `s.replace(c, t)` for a single character `c`. */
  function ReplaceChar(s: string, c: char, t: string): (r: string)
    ensures c !in t ==> c !in r
    ensures forall d :: d in r ==> d in t || (d in s && d != c)
  {
    if s == [] then []
    else (if s[0] == c then t else [s[0]]) + ReplaceChar(s[1..], c, t)
  }

  lemma ReplaceCharConcat(a: string, b: string, c: char, t: string)
    ensures ReplaceChar(a + b, c, t) == ReplaceChar(a, c, t) + ReplaceChar(b, c, t)
  {
    if a != [] {
      assert (a + b)[1..] == a[1..] + b;
      ReplaceCharConcat(a[1..], b, c, t);
    } else {
      assert a + b == b;
    }
  }

  /** `[f(x) for x in xs if keep(f(x))]`: the loop that transforms each item in turn and keeps some. */
  function FilterMap(xs: seq<string>, f: string -> string, keep: string -> bool): (r: seq<string>)
    ensures forall j :: 0 <= j < |r| ==> keep(r[j])
  {
    if xs == [] then []
    else
      var r := FilterMap(xs[..|xs| - 1], f, keep);
      var y := f(xs[|xs| - 1]);
      if keep(y) then r + [y] else r
  }

  /** Looking at one more item appends its image when it is kept. */
  lemma FilterMapSnoc(xs: seq<string>, k: nat, f: string -> string, keep: string -> bool)
    requires k < |xs|
    ensures FilterMap(xs[..k + 1], f, keep)
            == FilterMap(xs[..k], f, keep) + (if keep(f(xs[k])) then [f(xs[k])] else [])
  {
    assert xs[..k + 1][..k] == xs[..k];
  }

  /** A string is in the result exactly when it is the image of some item and is kept. */
  lemma {:induction false} FilterMapExactly(xs: seq<string>, f: string -> string, keep: string -> bool, y: string)
    ensures y in FilterMap(xs, f, keep) <==> exists k :: 0 <= k < |xs| && y == f(xs[k]) && keep(y)
    decreases |xs|
  {
    if xs != [] {
      var init := xs[..|xs| - 1];
      FilterMapExactly(init, f, keep, y);
      if exists k :: 0 <= k < |init| && y == f(init[k]) && keep(y) {
        var k :| 0 <= k < |init| && y == f(init[k]) && keep(y);
        assert xs[k] == init[k];
      }
      if exists k :: 0 <= k < |xs| && y == f(xs[k]) && keep(y) {
        var k :| 0 <= k < |xs| && y == f(xs[k]) && keep(y);
        if k < |init| {
          assert init[k] == xs[k];
        }
      }
    }
  }

  /** `str.strip` as a function value. */
  function StripEach(): (f: string -> string)
    ensures forall s :: f(s) == Strip(s)
  {
    s => Strip(s)
  }

  /** Python truthiness of a string, as a function value. */
  function NotBlank(): (keep: string -> bool)
    ensures forall s :: keep(s) == (s != [])
  {
    s => s != []
  }

  // ---------------------------------------------------------------------------
  // Lines of a file

  /** `"".join(parts)` */
  function Concat(parts: seq<string>): string {
    if parts == [] then "" else parts[0] + Concat(parts[1..])
  }

  /** The position of the first newline. */
  function FirstNewline(s: string): (i: nat)
    requires '\n' in s
    ensures i < |s| && s[i] == '\n' && '\n' !in s[..i]
  {
    if s[0] == '\n' then 0
    else
      var i := 1 + FirstNewline(s[1..]);
      assert s[..i] == [s[0]] + s[1..][..i - 1];
      i
  }

  /** The first newline is the one with none before it. */
  lemma FirstNewlineAt(s: string, i: nat)
    requires i < |s| && s[i] == '\n' && '\n' !in s[..i]
    ensures FirstNewline(s) == i
  {
    var j := FirstNewline(s);
    assert forall k :: 0 <= k < i ==> s[k] == s[..i][k];
    assert forall k :: 0 <= k < j ==> s[k] == s[..j][k];
  }

  /**
   * The lines `for line in f` yields for a file holding `text`: each keeps
   * its newline, and only the last may lack one.
   */
  function Lines(text: string): (ls: seq<string>)
    decreases |text|
  {
    if text == [] then []
    else if '\n' !in text then [text]
    else
      var i := FirstNewline(text);
      [text[..i + 1]] + Lines(text[i + 1..])
  }

  /** Putting the lines back together gives the text. */
  lemma {:induction false} LinesConcat(text: string)
    ensures Concat(Lines(text)) == text
    ensures forall k :: 0 <= k < |Lines(text)| ==> Lines(text)[k] != []
    decreases |text|
  {
    if text != [] && '\n' in text {
      var i := FirstNewline(text);
      LinesConcat(text[i + 1..]);
      assert text == text[..i + 1] + text[i + 1..];
    }
  }
}
