/**
 * The two ways the bot turns a uiautomator `bounds` attribute such as
 * "[84,1650][996,1790]" into numbers: an anchored regular expression over
 * unsigned digits (utils/actions.py, utils/find_and_tap_button.py), and a
 * split on "][" and "," followed by Python's `int()` (utils/message_sender.py,
 * message_sender.py and every inline copy in the button scanners).
 */
module Bounds {
  import opened PyStr

  /** A rectangle as uiautomator reports it: left, top, right, bottom. */
  datatype Rect = Rect(left: int, top: int, right: int, bottom: int)

  /** A screen point (x, y). */
  datatype Point = Point(x: int, y: int)

  predicate IsDigit(c: char) {
    '0' <= c <= '9'
  }

  predicate AllDigits(s: string) {
    forall i :: 0 <= i < |s| ==> IsDigit(s[i])
  }

  function DigitValue(c: char): nat
    requires IsDigit(c)
  {
    c as int - '0' as int
  }

  function DigitChar(d: nat): (c: char)
    requires d < 10
    ensures IsDigit(c) && DigitValue(c) == d
  {
    (d + '0' as int) as char
  }

  /** The value of a string of decimal digits (leading zeros allowed, as `int()` allows them). */
  function DigitsValue(s: string): nat
    requires AllDigits(s)
  {
    if s == [] then 0 else DigitsValue(s[..|s| - 1]) * 10 + DigitValue(s[|s| - 1])
  }

  /** `str(n)` for a natural number. */
  function NatToString(n: nat): (r: string)
    ensures r != [] && AllDigits(r)
    ensures DigitsValue(r) == n
  {
    if n < 10 then [DigitChar(n)]
    else
      var r := NatToString(n / 10) + [DigitChar(n % 10)];
      assert r[..|r| - 1] == NatToString(n / 10);
      r
  }

  /** `str(n)` for any integer. */
  function IntToString(n: int): (r: string)
    ensures r != [] && (n < 0 ==> r[0] == '-')
  {
    if n < 0 then "-" + NatToString(-n) else NatToString(n)
  }

  /** Digits with single underscores between them, as `int()` accepts them ("1_000"). */
  predicate IsGroupedDigits(s: string)
    decreases |s|
  {
    && s != []
    && IsDigit(s[0])
    && (|s| == 1 || IsGroupedDigits(s[1..]) || (s[1] == '_' && IsGroupedDigits(s[2..])))
  }

  lemma {:induction false} DigitsAreGrouped(s: string)
    requires s != [] && AllDigits(s)
    ensures IsGroupedDigits(s)
    decreases |s|
  {
    if |s| > 1 {
      DigitsAreGrouped(s[1..]);
    }
  }

  function RemoveUnderscores(s: string): (r: string)
    ensures IsGroupedDigits(s) ==> r != [] && AllDigits(r)
    decreases |s|
  {
    if s == [] then [] else (if s[0] == '_' then [] else [s[0]]) + RemoveUnderscores(s[1..])
  }

  lemma RemoveUnderscoresDigits(s: string)
    requires AllDigits(s)
    ensures RemoveUnderscores(s) == s
  {
  }

  /**
   * `int(s)` for a `str` argument, base 10: surrounding whitespace is ignored,
   * one optional sign, then grouped digits; anything else is a ValueError.
   */
  function ParseInt(s: string): Option<int> {
    var t := Strip(s);
    var sign := if t != [] && t[0] == '-' then -1 else 1;
    var body := if t != [] && (t[0] == '-' || t[0] == '+') then t[1..] else t;
    if IsGroupedDigits(body) then Some(sign * GroupedValue(body)) else None
  }

  function GroupedValue(s: string): nat
    requires IsGroupedDigits(s)
  {
    DigitsValue(RemoveUnderscores(s))
  }

  /** The digits `str()` writes for a natural number are trimmed and grouped, and `int()` gives back their value. */
  lemma NatToStringGrouped(m: nat)
    ensures Trimmed(NatToString(m)) && IsGroupedDigits(NatToString(m))
    ensures GroupedValue(NatToString(m)) == m
  {
    var d := NatToString(m);
    DigitsAreGrouped(d);
    RemoveUnderscoresDigits(d);
  }

  lemma ParseIntSigned(s: string, d: string)
    requires s == "-" + d && Trimmed(d) && IsGroupedDigits(d)
    ensures ParseInt(s) == Some(-(GroupedValue(d) as int))
  {
    assert Trimmed(s) by {
      assert s[|s| - 1] == d[|d| - 1];
    }
    StripTrimmed(s);
    var t := Strip(s);
    assert t[0] == '-' && t[1..] == d;
  }

  lemma ParseIntNonNeg(n: int)
    requires n >= 0
    ensures ParseInt(IntToString(n)) == Some(n)
  {
    var d := NatToString(n);
    assert IntToString(n) == d;
    NatToStringGrouped(n);
    StripTrimmed(d);
    assert ParseInt(d) == Some(1 * n);
  }

  lemma ParseIntNeg(n: int)
    requires n < 0
    ensures ParseInt(IntToString(n)) == Some(n)
  {
    var d := NatToString(-n);
    NatToStringGrouped(-n);
    assert IntToString(n) == "-" + d;
    ParseIntSigned("-" + d, d);
  }

  /** `int()` reads back what `str()` writes. */
  lemma ParseIntToString(n: int)
    ensures ParseInt(IntToString(n)) == Some(n)
  {
    if n < 0 {
      ParseIntNeg(n);
    } else {
      ParseIntNonNeg(n);
    }
  }

  /** The floor of the midpoint of each pair of edges: `((l + r) // 2, (t + b) // 2)`. */
  function Centre(r: Rect): (p: Point)
    ensures 2 * p.x <= r.left + r.right <= 2 * p.x + 1
    ensures 2 * p.y <= r.top + r.bottom <= 2 * p.y + 1
  {
    // Dafny's `/` is Euclidean; for the divisor 2 it coincides with Python's floor division `//`.
    Point((r.left + r.right) / 2, (r.top + r.bottom) / 2)
  }

  // ---------------------------------------------------------------------------
  // The regular-expression parser: re.match(r"\[(\d+),(\d+)\]\[(\d+),(\d+)\]", s)

  /** The length of the longest prefix of `s` made of ASCII digits. */
  function DigitRun(s: string): (n: nat)
    ensures n <= |s| && AllDigits(s[..n])
    ensures n == |s| || !IsDigit(s[n])
  {
    if s != [] && IsDigit(s[0]) then
      var n := 1 + DigitRun(s[1..]);
      assert s[..n] == [s[0]] + s[1..][..n - 1];
      n
    else 0
  }

  /** `(\d+)` followed by the character `c` at the start of `s`: the group's value and what follows `c`. */
  function NumberThen(s: string, c: char): Option<(nat, string)>
    requires !IsDigit(c)
  {
    var n := DigitRun(s);
    if 0 < n < |s| && s[n] == c then Some((DigitsValue(s[..n]), s[n + 1..])) else None
  }

  /** `\[(\d+),(\d+)\]` at the start of `s`: the two groups' values and the text after the match. */
  function BracketPair(s: string): Option<(nat, nat, string)> {
    if s == [] || s[0] != '[' then None
    else match NumberThen(s[1..], ',')
      case None => None
      case Some((a, s1)) =>
        match NumberThen(s1, ']')
        case None => None
        case Some((b, s2)) => Some((a, b, s2))
  }

  /** The four groups of the bounds pattern when it matches at the start of `s`; trailing text is ignored. */
  function MatchBounds(s: string): Option<Rect> {
    match BracketPair(s)
    case None => None
    case Some((l, t, s1)) =>
      match BracketPair(s1)
      case None => None
      case Some((r, b, _)) => Some(Rect(l, t, r, b))
  }

  /**
   * `parse_bounds` of utils/actions.py: the centre when the string starts with
   * `[d,d][d,d]`, and `(None, None)` (here `None`) otherwise.
   */
  function ParseBoundsRegex(s: string): Option<Point> {
    match MatchBounds(s)
    case Some(r) => Some(Centre(r))
    case None => None
  }

  /** `[a,b]` */
  function RenderPair(a: string, b: string): string {
    "[" + a + "," + b + "]"
  }

  /** The bounds string uiautomator writes for a rectangle with the given components. */
  function Render(l: string, t: string, r: string, b: string): string {
    RenderPair(l, t) + RenderPair(r, b)
  }

  lemma DigitRunPrefix(d: string, rest: string)
    requires AllDigits(d) && (rest == [] || !IsDigit(rest[0]))
    ensures DigitRun(d + rest) == |d|
  {
    if d != [] {
      assert (d + rest)[1..] == d[1..] + rest;
      DigitRunPrefix(d[1..], rest);
    } else {
      assert d + rest == rest;
    }
  }

  lemma NumberThenDigits(d: string, c: char, rest: string)
    requires d != [] && AllDigits(d) && !IsDigit(c)
    ensures NumberThen(d + [c] + rest, c) == Some((DigitsValue(d), rest))
  {
    var tail := [c] + rest;
    var s := d + tail;
    assert s == d + [c] + rest;
    DigitRunPrefix(d, tail);
    assert s[..|d|] == d;
    assert s[|d|] == c;
    assert s[|d| + 1..] == rest;
  }

  lemma BracketPairComplete(a: string, b: string, rest: string)
    requires a != [] && b != [] && AllDigits(a) && AllDigits(b)
    ensures BracketPair(RenderPair(a, b) + rest) == Some((DigitsValue(a), DigitsValue(b), rest))
  {
    var s := RenderPair(a, b) + rest;
    var s1 := b + "]" + rest;
    assert s[1..] == a + [','] + s1;
    NumberThenDigits(a, ',', s1);
    assert s1 == b + [']'] + rest;
    NumberThenDigits(b, ']', rest);
  }

  lemma RenderThen(l: string, t: string, r: string, b: string, rest: string)
    ensures Render(l, t, r, b) + rest == RenderPair(l, t) + (RenderPair(r, b) + rest)
  {
  }

  /** Every string that begins with a well-formed bounds string parses to its four numbers, whatever follows. */
  lemma MatchBoundsComplete(l: string, t: string, r: string, b: string, rest: string)
    requires l != [] && t != [] && r != [] && b != []
    requires AllDigits(l) && AllDigits(t) && AllDigits(r) && AllDigits(b)
    ensures MatchBounds(Render(l, t, r, b) + rest)
            == Some(Rect(DigitsValue(l), DigitsValue(t), DigitsValue(r), DigitsValue(b)))
  {
    var tail := RenderPair(r, b) + rest;
    RenderThen(l, t, r, b, rest);
    BracketPairComplete(l, t, tail);
    BracketPairComplete(r, b, rest);
  }

  /** A well-formed bounds string parses to its centre. */
  lemma ParseBoundsRegexRender(rect: Rect, rest: string)
    requires rect.left >= 0 && rect.top >= 0 && rect.right >= 0 && rect.bottom >= 0
    ensures ParseBoundsRegex(Render(NatToString(rect.left), NatToString(rect.top),
                                    NatToString(rect.right), NatToString(rect.bottom)) + rest)
            == Some(Centre(rect))
  {
    MatchBoundsComplete(NatToString(rect.left), NatToString(rect.top),
                        NatToString(rect.right), NatToString(rect.bottom), rest);
  }

  lemma NumberThenSound(s: string, c: char) returns (d: string, rest: string)
    requires !IsDigit(c) && NumberThen(s, c).Some?
    ensures d != [] && AllDigits(d) && s == d + [c] + rest
    ensures NumberThen(s, c) == Some((DigitsValue(d), rest))
  {
    var n := DigitRun(s);
    d, rest := s[..n], s[n + 1..];
    assert s == s[..n] + [s[n]] + s[n + 1..];
  }

  lemma BracketPairSound(s: string) returns (a: string, b: string, rest: string)
    requires BracketPair(s).Some?
    ensures a != [] && b != [] && AllDigits(a) && AllDigits(b)
    ensures s == RenderPair(a, b) + rest
    ensures BracketPair(s) == Some((DigitsValue(a), DigitsValue(b), rest))
  {
    var s1;
    a, s1 := NumberThenSound(s[1..], ',');
    b, rest := NumberThenSound(s1, ']');
    RenderPairOf(s, a, s1, b, rest);
  }

  lemma RenderPairOf(s: string, a: string, s1: string, b: string, rest: string)
    requires s != [] && s[0] == '['
    requires s[1..] == a + [','] + s1 && s1 == b + [']'] + rest
    ensures s == RenderPair(a, b) + rest
  {
    calc {
      s;
      [s[0]] + s[1..];
      "[" + (a + [','] + (b + [']'] + rest));
      RenderPair(a, b) + rest;
    }
  }

  /**
   * The regular expression accepts nothing else: a match means the string
   * begins with a bounds string whose four groups are non-empty digit runs.
   */
  lemma MatchBoundsSound(s: string) returns (l: string, t: string, r: string, b: string, rest: string)
    requires MatchBounds(s).Some?
    ensures l != [] && t != [] && r != [] && b != []
    ensures AllDigits(l) && AllDigits(t) && AllDigits(r) && AllDigits(b)
    ensures s == Render(l, t, r, b) + rest
    ensures MatchBounds(s) == Some(Rect(DigitsValue(l), DigitsValue(t), DigitsValue(r), DigitsValue(b)))
  {
    var s1;
    l, t, s1 := BracketPairSound(s);
    r, b, rest := BracketPairSound(s1);
    RenderThen(l, t, r, b, rest);
  }

  // ---------------------------------------------------------------------------
  // The split-based parser of utils/message_sender.py and message_sender.py

  /** `s[1:]` */
  function DropFirst(s: string): string {
    if s == [] then [] else s[1..]
  }

  /** `s[:-1]` */
  function DropLast(s: string): string {
    if s == [] then [] else s[..|s| - 1]
  }

  /** `a, b = map(int, s.split(","))`: ValueError unless there are exactly two parts that `int()` accepts. */
  function IntPair(s: string): Py<(int, int)> {
    var parts := Split(s, ",");
    if |parts| != 2 then Raise(ValueError)
    else match (ParseInt(parts[0]), ParseInt(parts[1]))
      case (Some(a), Some(b)) => Ok((a, b))
      case _ => Raise(ValueError)
  }

  /**
   * The split parser: `left_top, right_bottom = bounds.split("][")`, then
   * the two integers of `left_top[1:]` and of `right_bottom[:-1]`. Any
   * other shape raises ValueError; the first and last characters are never
   * inspected.
   */
  function SplitBounds(s: string): (r: Py<Rect>)
    ensures r.Raise? ==> r.exc == ValueError
    ensures |Split(s, "][")| != 2 ==> r == Raise(ValueError)
  {
    var halves := Split(s, "][");
    if |halves| != 2 then Raise(ValueError)
    else match (IntPair(DropFirst(halves[0])), IntPair(DropLast(halves[1])))
      case (Ok((l, t)), Ok((rt, b))) => Ok(Rect(l, t, rt, b))
      case _ => Raise(ValueError)
  }

  /** `parse_bounds` of utils/message_sender.py and message_sender.py: the centre, or the exception. */
  function ParseBoundsSplit(s: string): Py<Point> {
    match SplitBounds(s)
    case Ok(r) => Ok(Centre(r))
    case Raise(e) => Raise(e)
  }

  /** Only digits and minus signs: what `str()` of an integer is made of. */
  predicate SignedDigits(s: string) {
    forall i :: 0 <= i < |s| ==> s[i] == '-' || IsDigit(s[i])
  }

  lemma IntToStringChars(n: int)
    ensures SignedDigits(IntToString(n))
  {
  }

  lemma NoComma(s: string)
    requires SignedDigits(s)
    ensures ',' !in s && !Contains(s, ",")
  {
    forall i | 0 <= i < |s| ensures s[i] != ',' { }
    forall j: nat | j <= |s| ensures !OccursAt(s, ",", j) {
      if j + 1 <= |s| { assert s[j..j + 1][0] == s[j]; }
    }
  }

  lemma IntPairRender(x: int, y: int)
    ensures IntPair(IntToString(x) + "," + IntToString(y)) == Ok((x, y))
  {
    IntToStringChars(x);
    IntToStringChars(y);
    NoComma(IntToString(x));
    NoComma(IntToString(y));
    SplitAround(IntToString(x), ",", IntToString(y));
    ParseIntToString(x);
    ParseIntToString(y);
  }

  lemma NoBracketFront(l: string, t: string)
    requires SignedDigits(l) && SignedDigits(t)
    ensures ']' !in "[" + l + "," + t
  {
    var front := "[" + l + "," + t;
    forall i | 0 <= i < |front| ensures front[i] != ']' {
      if 1 <= i < 1 + |l| { assert front[i] == l[i - 1]; }
      else if 2 + |l| <= i { assert front[i] == t[i - 2 - |l|]; }
    }
  }

  lemma NoSeparatorBack(r: string, b: string)
    requires SignedDigits(r) && SignedDigits(b)
    ensures !Contains(r + "," + b + "]", "][")
  {
    var back := r + "," + b + "]";
    forall j: nat | j <= |back| ensures !OccursAt(back, "][", j) {
      if j + 2 <= |back| {
        assert back[j] != ']' by {
          if j < |r| { assert back[j] == r[j]; }
          else if j > |r| { assert back[j] == b[j - |r| - 1]; }
        }
        assert back[j..j + 2][0] == back[j];
      }
    }
  }

  /** A rendered bounds string splits at "][" into its two halves. */
  lemma SplitRender(l: string, t: string, r: string, b: string)
    requires SignedDigits(l) && SignedDigits(t) && SignedDigits(r) && SignedDigits(b)
    ensures Split(Render(l, t, r, b), "][") == ["[" + l + "," + t, r + "," + b + "]"]
  {
    var front := "[" + l + "," + t;
    var back := r + "," + b + "]";
    assert Render(l, t, r, b) == front + "][" + back;
    NoBracketFront(l, t);
    NoSeparatorBack(r, b);
    SplitAround(front, "][", back);
  }

  lemma TrimHalves(l: string, t: string, r: string, b: string)
    ensures DropFirst("[" + l + "," + t) == l + "," + t
    ensures DropLast(r + "," + b + "]") == r + "," + b
  {
  }

  /** The split parser reads back every rectangle, negative components included. */
  lemma SplitBoundsRender(rect: Rect)
    ensures SplitBounds(Render(IntToString(rect.left), IntToString(rect.top),
                               IntToString(rect.right), IntToString(rect.bottom))) == Ok(rect)
  {
    var l, t, r, b := IntToString(rect.left), IntToString(rect.top), IntToString(rect.right), IntToString(rect.bottom);
    IntToStringChars(rect.left);
    IntToStringChars(rect.top);
    IntToStringChars(rect.right);
    IntToStringChars(rect.bottom);
    SplitRender(l, t, r, b);
    TrimHalves(l, t, r, b);
    IntPairRender(rect.left, rect.top);
    IntPairRender(rect.right, rect.bottom);
  }

  // ---------------------------------------------------------------------------
  // Cropping around a box

  /**
   * `(max(l - m, 0), max(t - m, 0), min(r + m, width), min(b + m, height))`:
   * the box grown by the margin and clamped to the image, so that the crop
   * never leaves the image and still holds every part of the box that lies
   * on it.
   */
  function Crop(box: Rect, margin: nat, width: nat, height: nat): (c: Rect)
    ensures 0 <= c.left && 0 <= c.top && c.right <= width && c.bottom <= height
    ensures c.left <= box.left || c.left == 0
    ensures c.top <= box.top || c.top == 0
    ensures box.right <= c.right || c.right == width
    ensures box.bottom <= c.bottom || c.bottom == height
  {
    Rect(if box.left - margin > 0 then box.left - margin else 0,
         if box.top - margin > 0 then box.top - margin else 0,
         if box.right + margin < width then box.right + margin else width,
         if box.bottom + margin < height then box.bottom + margin else height)
  }
}
