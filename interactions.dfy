/**
 * The interaction log of `utils/interaction_manager.py` and
 * `interaction_manager.py` (the two copies of `log_interaction` and
 * `has_interacted` are identical): a text file, `history/interactions.log`,
 * to which one line per contacted profile is appended.
 */
module Interactions {
  import opened PyStr

  /** A text that is empty or ends at a line break. */
  predicate WholeLines(text: string) {
    text == [] || text[|text| - 1] == '\n'
  }

  /** The first line break of a text is still the first once more text follows. */
  lemma FirstNewlineAppend(a: string, b: string)
    requires '\n' in a
    ensures '\n' in a + b && FirstNewline(a + b) == FirstNewline(a)
  {
    var i := FirstNewline(a);
    assert (a + b)[i] == '\n';
    assert (a + b)[..i] == a[..i];
    FirstNewlineAt(a + b, i);
  }

  /** Splitting after the first line of a text keeps the appended part whole. */
  lemma DropAppend(a: string, b: string, k: nat)
    requires k <= |a|
    ensures (a + b)[..k] == a[..k] && (a + b)[k..] == a[k..] + b
  {
  }

  /** A text with a line break is its first line, then the lines of the rest. */
  lemma LinesFirst(s: string)
    requires '\n' in s
    ensures Lines(s) == [s[..FirstNewline(s) + 1]] + Lines(s[FirstNewline(s) + 1..])
  {
  }

  /** One step of LinesAppend: the first line of `a` comes first in `a + b`. */
  lemma LinesAppendStep(a: string, b: string, i: nat)
    requires '\n' in a && i == FirstNewline(a)
    requires Lines(a[i + 1..] + b) == Lines(a[i + 1..]) + Lines(b)
    ensures Lines(a + b) == Lines(a) + Lines(b)
  {
    var line, rest := a[..i + 1], a[i + 1..];
    FirstNewlineAppend(a, b);
    DropAppend(a, b, i + 1);
    calc {
      Lines(a + b);
      { LinesFirst(a + b); }
      [line] + Lines(rest + b);
      [line] + (Lines(rest) + Lines(b));
      ([line] + Lines(rest)) + Lines(b);
      { LinesFirst(a); }
      Lines(a) + Lines(b);
    }
  }

  /** Appending to a text of whole lines leaves its lines as they were. */
  lemma {:induction false} LinesAppend(a: string, b: string)
    requires WholeLines(a)
    ensures Lines(a + b) == Lines(a) + Lines(b)
    decreases |a|
  {
    if a != [] {
      assert '\n' in a by { assert a[|a| - 1] == '\n'; }
      var i := FirstNewline(a);
      assert WholeLines(a[i + 1..]);
      LinesAppend(a[i + 1..], b);
      LinesAppendStep(a, b, i);
    } else {
      assert a + b == b;
    }
  }

  /** A name without a newline is written as exactly one line. */
  lemma OneLine(name: string)
    requires '\n' !in name
    ensures Lines(name + "\n") == [name + "\n"]
  {
    var s := name + "\n";
    assert '\n' in s by { assert s[|name|] == '\n'; }
    assert s[..|name|] == name;
    FirstNewlineAt(s, |name|);
    assert s[|name| + 1..] == [];
    assert s[..|name| + 1] == s;
    assert Lines(s) == [s] + Lines([]);
  }

  /** `lstrip` of a string followed by whitespace. */
  lemma {:induction false} LStripSnoc(s: string, c: char)
    requires IsSpace(c)
    ensures LStrip(s + [c]) == if AllSpace(s) then [] else LStrip(s) + [c]
  {
    if s != [] && IsSpace(s[0]) {
      assert (s + [c])[1..] == s[1..] + [c];
      LStripSnoc(s[1..], c);
      assert AllSpace(s) <==> AllSpace(s[1..]) by {
        if AllSpace(s[1..]) {
          forall i | 0 < i < |s| ensures IsSpace(s[i]) {
            assert s[i] == s[1..][i - 1];
          }
        }
      }
    } else if s == [] {
      assert LStrip([c]) == LStrip([c][1..]);
    }
  }

  /** A trailing whitespace character does not change `strip()`. */
  lemma StripSnocSpace(s: string, c: char)
    requires IsSpace(c)
    ensures Strip(s + [c]) == Strip(s)
  {
    LStripSnoc(s, c);
    if !AllSpace(s) {
      var l := LStrip(s);
      assert (l + [c])[..|l|] == l;
      assert RStrip(l + [c]) == RStrip(l);
    }
  }

  /** `line.strip().lower()`: the key a log line stands for. */
  function Key(line: string): string {
    Lower(Strip(line))
  }

  /**
   * `has_interacted(name)` on a log file that exists when `present` and then
   * holds `text`.
   */
  function Interacted(present: bool, text: string, name: string): (b: bool)
    ensures b <==> present && exists line :: line in Lines(text) && Key(line) == Lower(name)
  {
    present && Lower(name) in (set line | line in Lines(text) :: Key(line))
  }

  /**
   * The files of `interaction_manager.py`: whether the `history` folder
   * exists, and whether the log file exists and what it holds.
   */
  class InteractionLog {
    var folder: bool
    var present: bool
    var text: string

    /** No log file yet; the `history` folder exists when `history` says so. */
    constructor (history: bool)
      ensures folder == history && !present && text == ""
    {
      folder, present, text := history, false, "";
    }

    /**
     * The files as earlier runs left them: a log of whole lines, kept
     * inside the `history` folder.
     */
    constructor Resume(history: bool, found: bool, log: string)
      requires WholeLines(log) && (found ==> history) && (found || log == "")
      ensures folder == history && present == found && text == log
      ensures Valid()
    {
      folder, present, text := history, found, log;
    }

    /** The log as `log_interaction` leaves it: whole lines only, inside the folder. */
    predicate Valid()
      reads this
    {
      WholeLines(text) && (present ==> folder) && (present || text == "")
    }

    /** `setup_history_folders()`: `os.makedirs(..., exist_ok=True)` creates the folder, or leaves it. */
    method SetupHistoryFolders()
      requires Valid()
      modifies this
      ensures Valid()
      ensures folder && present == old(present) && text == old(text)
    {
      folder := true;
    }

    /**
     * `log_interaction(name)`: `open(..., "a")` raises FileNotFoundError
     * when the `history` folder is missing; otherwise it creates the file
     * if need be and appends `name` and a newline.
     */
    method LogInteraction(name: string) returns (r: Py<()>)
      requires Valid()
      modifies this
      ensures Valid()
      ensures folder == old(folder)
      ensures !old(folder) ==> r == Raise(FileNotFoundError) && present == old(present) && text == old(text)
      ensures old(folder) ==> r == Ok(()) && present && text == old(text) + name + "\n"
    {
      if !folder {
        return Raise(FileNotFoundError);
      }
      present := true;
      text := text + name + "\n";
      return Ok(());
    }

    /** `has_interacted(name)`. */
    function HasInteracted(name: string): (b: bool)
      reads this
      ensures !present ==> !b
      ensures b <==> present && exists line :: line in Lines(text) && Key(line) == Lower(name)
    {
      Interacted(present, text, name)
    }
  }

  /** Logging a name with no newline adds exactly one line and keeps the rest. */
  lemma LoggedLines(text: string, name: string)
    requires WholeLines(text) && '\n' !in name
    ensures Lines(text + name + "\n") == Lines(text) + [name + "\n"]
  {
    assert text + name + "\n" == text + (name + "\n");
    LinesAppend(text, name + "\n");
    OneLine(name);
  }

  /**
   * After logging a name with no newline and no whitespace at either end,
   * every case variant of it counts as interacted.
   */
  lemma LoggedIsFound(text: string, name: string, query: string)
    requires WholeLines(text) && '\n' !in name && Trimmed(name)
    requires Lower(query) == Lower(name)
    ensures Interacted(true, text + name + "\n", query)
  {
    LoggedLines(text, name);
    StripSnocSpace(name, '\n');
    StripTrimmed(name);
    assert name + "\n" == name + ['\n'];
    assert name + "\n" in Lines(text + name + "\n");
    assert Key(name + "\n") == Lower(query);
  }

  /** Lowercasing keeps whitespace at the ends, so a trimmed and an untrimmed string never lowercase alike. */
  lemma LowerTrimmedDiffers(k: string, name: string)
    requires Trimmed(k) && !Trimmed(name)
    ensures Lower(k) != Lower(name)
  {
    if |k| == |name| {
      var n := |name| - 1;
      assert IsSpace(name[0]) || IsSpace(name[n]);
      assert Lower(name)[0] == LowerChar(name[0]) && Lower(name)[n] == LowerChar(name[n]);
      assert Lower(k)[0] == LowerChar(k[0]) && Lower(k)[n] == LowerChar(k[n]);
    }
  }

  /**
   * A name with whitespace at either end is never found, whatever the log
   * holds: every key is a stripped line, the query is not stripped. In
   * particular logging such a name verbatim does not make it found.
   */
  lemma PaddedNotFound(present: bool, text: string, name: string)
    requires !Trimmed(name)
    ensures !Interacted(present, text, name)
  {
    forall line | line in Lines(text) ensures Key(line) != Lower(name) {
      LowerTrimmedDiffers(Strip(line), name);
    }
  }

  /** Without a log file nothing has been interacted with. */
  lemma NoFileNoInteraction(text: string, name: string)
    ensures !Interacted(false, text, name)
  {
  }
}
