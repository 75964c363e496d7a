/**
 * `send_message` / `click_on_like_button_type_and_send_message`: dump the
 * screen, tap the message field, clear it, type the sanitised message in
 * escaped chunks of 100 characters, find the Send button and tap it. Every
 * `adb` call runs with `check=True`, so a failing command raises
 * CalledProcessError, and the except blocks decide what the caller sees.
 *
 * The device is a parameter: whether the `k`-th command issued succeeds, and
 * what `uiautomator dump` captures when it is the `k`-th command. Sleeps and
 * log lines are left out.
 */
module Sending {
  import opened PyStr
  import opened Bounds
  import opened UiDump
  import opened Finders
  import opened Sanitize

  /** The `adb` commands the flow issues. */
  datatype Cmd =
    | DumpUi                  // adb shell uiautomator dump /sdcard/ui.xml
    | PullDump                // adb pull /sdcard/ui.xml ui_dump.xml
    | Tap(at: Point)          // adb shell input tap x y
    | KeyEvent(code: int)     // adb shell input keyevent code
    | InputText(arg: string)  // adb shell input text arg

  /** The device as the flow sees it: which commands succeed, and what each dump captures. */
  datatype Adb = Adb(succeeds: nat -> bool, screen: nat -> DumpFile) {
    /** Command number `k` exits with status zero. */
    predicate Succeeds(k: nat) { succeeds(k) }
    /** What `uiautomator dump` captures as command number `k`. */
    function Screen(k: nat): DumpFile { screen(k) }
  }

  /** The same command number, the same capture. */
  lemma SameScreen(adb: Adb, k: nat, l: nat)
    requires k == l
    ensures adb.Screen(k) == adb.Screen(l)
  {
  }

  /** The dump on the device, the local `ui_dump.xml`, and every command issued so far. */
  datatype Phone = Phone(sdcard: DumpFile, local: DumpFile, trace: seq<Cmd>)

  /** `subprocess.run(cmd, check=True)` as command number `|trace|`: False is a non-zero exit. */
  function Run(adb: Adb, ph: Phone, c: Cmd): (bool, Phone) {
    var k := |ph.trace|;
    var ok := adb.Succeeds(k);
    var sdcard := if ok && c.DumpUi? then adb.Screen(k) else ph.sdcard;
    var local := if ok && c.PullDump? then ph.sdcard else ph.local;
    (ok, Phone(sdcard, local, ph.trace + [c]))
  }

  /** `input keyevent 67`, the DEL key the flow sends before typing. */
  const ClearKey: int := 67

  /** The three copies of the flow differ in how they parse bounds, whether they dump again before looking for Send, and what their except blocks do. */
  datatype Fallback =
    | NoFallback               // message_sender.py: both except blocks return False
    | TapCancel(typo: bool)    // tap Cancel in the last local dump; `typo` is `return Fals` in the last branch

  datatype Flow = Flow(parser: Parser, redump: bool, fallback: Fallback)

  /** utils/actions.py */
  const ActionsFlow := Flow(RegexParser, false, TapCancel(false))
  /** utils/message_sender.py as written, with `return Fals` */
  const UtilsSenderAsWritten := Flow(SplitParser, false, TapCancel(true))
  /** utils/message_sender.py with `return False` */
  const UtilsSender := Flow(SplitParser, false, TapCancel(false))
  /** message_sender.py */
  const RootSender := Flow(SplitParser, true, NoFallback)

  // ---------------------------------------------------------------------------
  // What is typed

  /** The `input text` arguments among a sequence of commands, in order. */
  function InputTexts(cmds: seq<Cmd>): seq<string> {
    if cmds == [] then []
    else
      var last := cmds[|cmds| - 1];
      InputTexts(cmds[..|cmds| - 1]) + (if last.InputText? then [last.arg] else [])
  }

  lemma {:induction false} InputTextsConcat(a: seq<Cmd>, b: seq<Cmd>)
    ensures InputTexts(a + b) == InputTexts(a) + InputTexts(b)
  {
    if b == [] {
      assert a + b == a;
    } else {
      var c := b[|b| - 1];
      assert (a + b)[..|a + b| - 1] == a + b[..|b| - 1];
      InputTextsConcat(a, b[..|b| - 1]);
      SeqAssoc(InputTexts(a), InputTexts(b[..|b| - 1]), if c.InputText? then [c.arg] else []);
    }
  }

  /** Escape each chunk's spaces. */
  function EscapeAll(chunks: seq<string>): (r: seq<string>)
    ensures |r| == |chunks|
  {
    if chunks == [] then [] else [EscapeSpaces(chunks[0])] + EscapeAll(chunks[1..])
  }

  /** The `k`-th escaped chunk is chunk `k` escaped. */
  lemma {:induction false} EscapeAllAt(chunks: seq<string>)
    ensures forall k :: 0 <= k < |chunks| ==> EscapeAll(chunks)[k] == EscapeSpaces(chunks[k])
  {
    if chunks != [] {
      EscapeAllAt(chunks[1..]);
    }
  }

  /** Escaping distributes over concatenation of chunk lists. */
  lemma {:induction false} EscapeAllConcat(a: seq<string>, b: seq<string>)
    ensures EscapeAll(a + b) == EscapeAll(a) + EscapeAll(b)
  {
    if a == [] {
      assert a + b == b;
    } else {
      assert (a + b)[1..] == a[1..] + b;
      EscapeAllConcat(a[1..], b);
    }
  }

  /** The `input text` arguments for a sanitised message: its 100-character chunks, spaces escaped. */
  function TextArgs(safe: string): seq<string> {
    EscapeAll(Chunks(safe, MaxChunk))
  }

  /** What the text arguments type on the device, concatenated. */
  function TypedAll(args: seq<string>): string {
    if args == [] then "" else TypedText(args[0]) + TypedAll(args[1..])
  }

  lemma {:induction false} TypedAllEscaped(chunks: seq<string>)
    requires forall k :: 0 <= k < |chunks| ==> '%' !in chunks[k]
    ensures TypedAll(EscapeAll(chunks)) == Concat(chunks)
  {
    if chunks != [] {
      EscapeRoundTrip(chunks[0]);
      assert EscapeAll(chunks)[1..] == EscapeAll(chunks[1..]);
      TypedAllEscaped(chunks[1..]);
    }
  }

  lemma {:induction false} ConcatMember(parts: seq<string>, k: nat, c: char)
    requires k < |parts| && c in parts[k]
    ensures c in Concat(parts)
  {
    if k > 0 {
      ConcatMember(parts[1..], k - 1, c);
    }
  }

  /**
   * Why `TextArgsTypeMessage` needs a message without `%`: "5%s" is sent
   * as one `input text` argument that the device types as "5 ".
   */
  lemma PercentSMessageTyped()
    ensures TextArgs(SanitizeMessage("5%s")) == ["5%s"]
    ensures TypedAll(TextArgs(SanitizeMessage("5%s"))) == "5 "
  {
    PercentSIsTypedAsSpace();
    ShortTextArgs("5%s");
    EscapedPercentS();
    TypedOne(EscapeSpaces("5%s"));
  }

  /** A message of at most one chunk is sent as a single escaped argument. */
  lemma ShortTextArgs(safe: string)
    requires 0 < |safe| <= MaxChunk
    ensures TextArgs(safe) == [EscapeSpaces(safe)]
  {
    assert Chunks(safe, MaxChunk) == [safe];
  }

  lemma TypedOne(arg: string)
    ensures TypedAll([arg]) == TypedText(arg)
  {
    assert [arg][1..] == [];
  }

  /**
   * For a message without `%`, what the chunks type is the sanitised message
   * itself; every argument is 1 to 200 characters of the cleaned alphabet with
   * no space in it.
   */
  lemma TextArgsTypeMessage(message: string)
    requires '%' !in message
    ensures TypedAll(TextArgs(SanitizeMessage(message))) == SanitizeMessage(message)
  {
    var safe := SanitizeMessage(message);
    var chunks := Chunks(safe, MaxChunk);
    ChunksConcat(safe, MaxChunk);
    assert '%' !in safe by {
      SanitizeKeepsWords(message);
      FilterMember(safe, NotSpace, '%');
    }
    forall k | 0 <= k < |chunks| ensures '%' !in chunks[k] {
      if '%' in chunks[k] {
        ConcatMember(chunks, k, '%');
      }
    }
    TypedAllEscaped(chunks);
  }

  /** Replacing a character by a two-character string at most doubles the length. */
  lemma {:induction false} ReplaceCharLength(s: string, c: char, t: string)
    requires |t| == 2
    ensures |s| <= |ReplaceChar(s, c, t)| <= 2 * |s|
  {
    if s != [] {
      ReplaceCharLength(s[1..], c, t);
    }
  }

  lemma TextArgsShape(safe: string)
    ensures forall k :: 0 <= k < |TextArgs(safe)| ==> ' ' !in TextArgs(safe)[k]
    ensures forall k :: 0 <= k < |TextArgs(safe)| ==> 0 < |TextArgs(safe)[k]| <= 2 * MaxChunk
  {
    var chunks := Chunks(safe, MaxChunk);
    ChunksSizes(safe, MaxChunk);
    EscapeAllAt(chunks);
    forall k | 0 <= k < |chunks| ensures 0 < |EscapeSpaces(chunks[k])| <= 2 * MaxChunk {
      ReplaceCharLength(chunks[k], ' ', "%s");
    }
  }


  // ---------------------------------------------------------------------------
  // The typing loop

  /** `input text` commands with the given arguments, in order. */
  function TextCmds(args: seq<string>): (r: seq<Cmd>)
    ensures |r| == |args|
    ensures InputTexts(r) == args
  {
    if args == [] then []
    else
      var r := TextCmds(args[..|args| - 1]) + [InputText(args[|args| - 1])];
      assert r[..|r| - 1] == TextCmds(args[..|args| - 1]);
      r
  }

  /** One more argument, one more command at the end. */
  lemma TextCmdsAppend(args: seq<string>, arg: string)
    ensures TextCmds(args + [arg]) == TextCmds(args) + [InputText(arg)]
  {
    assert (args + [arg])[..|args|] == args;
  }

  /** Typing one more chunk issues one more escaped argument. */
  lemma TypedStep(done: seq<string>, chunk: string)
    ensures TextCmds(EscapeAll(done + [chunk])) == TextCmds(EscapeAll(done)) + [InputText(EscapeSpaces(chunk))]
  {
    EscapeAllConcat(done, [chunk]);
    TextCmdsAppend(EscapeAll(done), EscapeSpaces(chunk));
  }

  /** The arguments for the chunks typed so far are the first arguments of the message. */
  lemma ArgsPrefix(safe: string, done: seq<string>, rest: seq<string>)
    requires Chunks(safe, MaxChunk) == done + rest
    ensures |done| <= |TextArgs(safe)| && TextArgs(safe)[..|done|] == EscapeAll(done)
  {
    EscapeAllConcat(done, rest);
  }

  /**
   * The state of the typing loop once the chunks `done` are typed and the
   * loop index is `i`: the phone saw their escaped `input text` commands,
   * and every one of them succeeded.
   */
  ghost predicate TypedSoFar(adb: Adb, ph0: Phone, safe: string, done: seq<string>, i: nat, ph: Phone) {
    && i <= |safe|
    && Chunks(safe, MaxChunk) == done + Chunks(safe[i..], MaxChunk)
    && ph == ph0.(trace := ph0.trace + TextCmds(EscapeAll(done)))
    && forall k :: |ph0.trace| <= k < |ph0.trace| + |done| ==> adb.Succeeds(k)
  }

  /** The end of the slice the loop types at index `i`. */
  function ChunkEnd(safe: string, i: nat): (end: nat)
    requires i < |safe|
    ensures i < end <= |safe|
  {
    if i + MaxChunk <= |safe| then i + MaxChunk else |safe|
  }

  /** The chunks still to type begin with the slice the loop types at `i`. */
  lemma ChunksAdvance(safe: string, done: seq<string>, i: nat)
    requires i < |safe| && Chunks(safe, MaxChunk) == done + Chunks(safe[i..], MaxChunk)
    ensures Chunks(safe, MaxChunk) == (done + [safe[i..ChunkEnd(safe, i)]]) + Chunks(safe[ChunkEnd(safe, i)..], MaxChunk)
  {
    var end := ChunkEnd(safe, i);
    ChunksStep(safe, i, MaxChunk);
    SeqAssoc(done, [safe[i..end]], Chunks(safe[end..], MaxChunk));
  }

  /** Two runs of commands that type nothing, one after the other. */
  lemma ExtendUntyped(t0: seq<Cmd>, a: seq<Cmd>, b: seq<Cmd>)
    requires InputTexts(a) == [] && InputTexts(b) == []
    ensures InputTexts(a + b) == [] && t0 + a + b == t0 + (a + b)
  {
    InputTextsConcat(a, b);
  }

  lemma SeqAssoc<T>(a: seq<T>, b: seq<T>, c: seq<T>)
    ensures a + (b + c) == (a + b) + c
  {
  }

  /** Issuing the next chunk's command extends the trace by it. */
  lemma TraceAdvance(t0: seq<Cmd>, done: seq<string>, chunk: string)
    ensures t0 + TextCmds(EscapeAll(done)) + [InputText(EscapeSpaces(chunk))] == t0 + TextCmds(EscapeAll(done + [chunk]))
  {
    TypedStep(done, chunk);
    SeqAssoc(t0, TextCmds(EscapeAll(done)), [InputText(EscapeSpaces(chunk))]);
  }

  /** Typing the next chunk, when its command succeeds, keeps the loop state. */
  lemma TypingStep(adb: Adb, ph0: Phone, safe: string, done: seq<string>, i: nat, ph: Phone)
    requires TypedSoFar(adb, ph0, safe, done, i, ph) && i < |safe| && adb.Succeeds(|ph.trace|)
    ensures var chunk := safe[i..ChunkEnd(safe, i)];
            TypedSoFar(adb, ph0, safe, done + [chunk], ChunkEnd(safe, i), ph.(trace := ph.trace + [InputText(EscapeSpaces(chunk))]))
  {
    var chunk := safe[i..ChunkEnd(safe, i)];
    ChunksAdvance(safe, done, i);
    TraceAdvance(ph0.trace, done, chunk);
    LastSucceeded(adb, |ph0.trace|, |done|);
  }

  /**
   * What the loop has done when it stops: `typed` commands issued, the
   * arguments the first `typed` of the message's, all of them when `ok`, and
   * every command but a failing last one succeeded.
   */
  ghost predicate Typed(adb: Adb, ph0: Phone, safe: string, ok: bool, ph: Phone, typed: nat) {
    && typed <= |TextArgs(safe)|
    && ph == ph0.(trace := ph0.trace + TextCmds(TextArgs(safe)[..typed]))
    && (ok ==> typed == |TextArgs(safe)|)
    && (!ok ==> typed > 0)
    && forall k :: |ph0.trace| <= k < |ph0.trace| + typed ==> adb.Succeeds(k) == (ok || k < |ph0.trace| + typed - 1)
  }

  /** The loop stops after a command that failed. */
  lemma TypingFailed(adb: Adb, ph0: Phone, safe: string, done: seq<string>, i: nat, ph: Phone)
    requires TypedSoFar(adb, ph0, safe, done, i, ph) && i < |safe| && !adb.Succeeds(|ph.trace|)
    ensures var chunk := safe[i..ChunkEnd(safe, i)];
            Typed(adb, ph0, safe, false, ph.(trace := ph.trace + [InputText(EscapeSpaces(chunk))]), |done| + 1)
  {
    var chunk := safe[i..ChunkEnd(safe, i)];
    ChunksAdvance(safe, done, i);
    TraceAdvance(ph0.trace, done, chunk);
    ArgsPrefix(safe, done + [chunk], Chunks(safe[ChunkEnd(safe, i)..], MaxChunk));
    var k0, n := |ph0.trace|, |done|;
    assert |ph.trace| == k0 + n;
    LastFailed(adb, k0, n);
  }

  lemma LastSucceeded(adb: Adb, k0: nat, n: nat)
    requires (forall k :: k0 <= k < k0 + n ==> adb.Succeeds(k)) && adb.Succeeds(k0 + n)
    ensures forall k :: k0 <= k < k0 + (n + 1) ==> adb.Succeeds(k)
  {
  }

  /** The commands `k0 .. k0 + n - 1` succeeded and command `k0 + n` failed. */
  lemma LastFailed(adb: Adb, k0: nat, n: nat)
    requires (forall k :: k0 <= k < k0 + n ==> adb.Succeeds(k)) && !adb.Succeeds(k0 + n)
    ensures forall k :: k0 <= k < k0 + (n + 1) ==> adb.Succeeds(k) == (false || k < k0 + (n + 1) - 1)
  {
  }

  /** The loop stops when every chunk is typed. */
  lemma TypingDone(adb: Adb, ph0: Phone, safe: string, done: seq<string>, ph: Phone)
    requires TypedSoFar(adb, ph0, safe, done, |safe|, ph)
    ensures Typed(adb, ph0, safe, true, ph, |done|)
  {
    assert safe[|safe|..] == [];
    ArgsPrefix(safe, done, []);
  }

  /**
   * `for i in range(0, len(safe), 100): input text chunk.replace(' ', '%s')`.
   * The loop issues the escaped chunks in order, and stops right after the
   * first command that fails.
   */
  method TypeMessage(adb: Adb, ph0: Phone, safe: string) returns (ok: bool, ph: Phone, ghost typed: nat)
    ensures Typed(adb, ph0, safe, ok, ph, typed)
  {
    ph := ph0;
    ghost var done: seq<string> := [];
    var i := 0;
    while i < |safe|
      invariant TypedSoFar(adb, ph0, safe, done, i, ph)
      decreases |safe| - i
    {
      var end := ChunkEnd(safe, i);
      var chunk := safe[i..end];
      ok := adb.Succeeds(|ph.trace|);
      if !ok {
        TypingFailed(adb, ph0, safe, done, i, ph);
        ph := ph.(trace := ph.trace + [InputText(EscapeSpaces(chunk))]);
        return false, ph, |done| + 1;
      }
      TypingStep(adb, ph0, safe, done, i, ph);
      ph := ph.(trace := ph.trace + [InputText(EscapeSpaces(chunk))]);
      done := done + [chunk];
      i := end;
    }
    TypingDone(adb, ph0, safe, done, ph);
    return true, ph, |done|;
  }

  // ---------------------------------------------------------------------------
  // The except blocks

  /**
   * The except block once its Cancel lookup has run: the lookup's own
   * exception escapes; a Cancel button found is tapped (with `check=True`) and
   * the answer is False; none found is False, except in the generic branch of
   * a copy with the `return Fals` typo, where evaluating the undefined name
   * raises NameError. `adbFailed` says which except block runs.
   */
  function CancelOutcome(typo: bool, adbFailed: bool, lookup: Py<Option<Point>>, adb: Adb, ph: Phone): (res: (Py<bool>, Phone))
    ensures lookup.Ok? ==> (res.0 == Raise(NameError) <==> typo && !adbFailed && lookup.value.None?)
    ensures res.0.Ok? ==> res.0 == Ok(false)
    ensures lookup.Raise? ==> res == (Raise(lookup.exc), ph)
    ensures lookup.Ok? && lookup.value.Some? ==> res.1 == ph.(trace := ph.trace + [Tap(lookup.value.value)])
    ensures !(lookup.Ok? && lookup.value.Some?) ==> res.1 == ph
  {
    match lookup
    case Raise(e) => (Raise(e), ph)
    case Ok(None) => (if typo && !adbFailed then Raise(NameError) else Ok(false), ph)
    case Ok(Some(p)) =>
      var (ok, ph') := Run(adb, ph, Tap(p));
      (if ok then Ok(false) else Raise(CalledProcessError), ph')
  }

  /** With `return Fals`, a failure that is not an adb error on a screen with no Cancel button raises NameError out of `send_message`. */
  lemma FalsRaisesNameError(adb: Adb, ph: Phone)
    ensures CancelOutcome(UtilsSenderAsWritten.fallback.typo, false, Ok(None), adb, ph).0 == Raise(NameError)
  {
  }

  /** With `return False`, the same failure is reported as False and nothing more is issued. */
  lemma FallbackReturnsFalse(adbFailed: bool, adb: Adb, ph: Phone)
    ensures CancelOutcome(UtilsSender.fallback.typo, adbFailed, Ok(None), adb, ph) == (Ok(false), ph)
  {
  }

  /**
   * Run the except block of `flow` after a failure: at most one tap (on
   * Cancel), nothing typed, and the answer is False or an exception.
   */
  method Recover(flow: Flow, adbFailed: bool, adb: Adb, ph0: Phone) returns (r: Py<bool>, ph: Phone, ghost cmds: seq<Cmd>)
    ensures r.Ok? ==> r == Ok(false)
    ensures flow.fallback == NoFallback ==> r == Ok(false) && cmds == []
    ensures r == Raise(NameError) ==> flow.fallback == TapCancel(true) && !adbFailed
    ensures ph == ph0.(trace := ph0.trace + cmds)
    ensures |cmds| <= 1 && InputTexts(cmds) == []
  {
    match flow.fallback
    case NoFallback =>
      return Ok(false), ph0, [];
    case TapCancel(typo) =>
      var lookup: Py<Option<Point>>;
      match ReadDump(ph0.local) {
        case Raise(e) => lookup := Raise(e);
        case Ok(nodes) => lookup := CancelButtonCoordinates(nodes, flow.parser);
      }
      var res := CancelOutcome(typo, adbFailed, lookup, adb, ph0);
      cmds := if lookup.Ok? && lookup.value.Some? then [Tap(lookup.value.value)] else [];
      return res.0, res.1, cmds;
  }

  // ---------------------------------------------------------------------------
  // The steps of the flow

  /** How a step of the flow ends: go on, return a value, or raise into an except block (`adbFailed` for CalledProcessError). */
  datatype Outcome = Proceed | Answer(value: bool) | Failed(adbFailed: bool)

  /** Commands number `from` up to, but not including, `to` all exit with status zero. */
  ghost predicate Succeed(adb: Adb, from: nat, to: nat) {
    forall k :: from <= k < to ==> adb.Succeeds(k)
  }

  /** Every command from number `from` on exits with status zero. */
  ghost predicate SucceedFrom(adb: Adb, from: nat) {
    forall k :: from <= k ==> adb.Succeeds(k)
  }

  /** Parse the local dump and look for the input field: the parse's exception, or what the lookup returns. */
  function InputLookup(file: DumpFile, parser: Parser): Py<Option<Point>> {
    match ReadDump(file)
    case Raise(e) => Raise(e)
    case Ok(nodes) => InputCentre(nodes, parser)
  }

  /** Parse the local dump and look for the Send button: the parse's exception, or what the lookup returns. */
  function SendLookup(file: DumpFile, parser: Parser): Py<Option<Point>> {
    match ReadDump(file)
    case Raise(e) => Raise(e)
    case Ok(nodes) => SendCentre(nodes, parser)
  }

  /**
   * How a look-up-and-tap step ends, given what the look-up `found` and
   * whether the tap would exit with status zero: a parse error or a bad
   * `bounds` goes to the generic except block with nothing issued; not found
   * is the answer False with nothing issued; found is one tap on the centre,
   * and the step ends with `hit` exactly when that tap succeeds, in the adb
   * except block otherwise.
   */
  ghost predicate Tapped(found: Py<Option<Point>>, tapOk: bool, hit: Outcome, out: Outcome, cmds: seq<Cmd>) {
    && (found.Raise? ==> out == Failed(false) && cmds == [])
    && (found == Ok(None) ==> out == Answer(false) && cmds == [])
    && (found.Ok? && found.value.Some? ==>
          cmds == [Tap(found.value.value)] && out == if tapOk then hit else Failed(true))
  }

  /** `uiautomator dump` then `adb pull`: the local file is what the dump captured when both succeed. */
  method Refresh(adb: Adb, ph0: Phone) returns (ok: bool, ph: Phone, ghost cmds: seq<Cmd>)
    ensures ok == (adb.Succeeds(|ph0.trace|) && adb.Succeeds(|ph0.trace| + 1))
    ensures ok ==> ph.local == adb.Screen(|ph0.trace|)
    ensures ph.trace == ph0.trace + cmds
    ensures cmds == if adb.Succeeds(|ph0.trace|) then [DumpUi, PullDump] else [DumpUi]
    ensures InputTexts(cmds) == []
  {
    var res := Run(adb, ph0, DumpUi);
    ph := res.1;
    cmds := [DumpUi];
    if res.0 {
      res := Run(adb, ph, PullDump);
      ph := res.1;
      cmds := [DumpUi, PullDump];
    }
    ok := res.0;
  }

  /**
   * Find the input field in the local dump and tap it: not found is the
   * answer False; a parse error or a bad `bounds` goes to the generic except
   * block, a failing tap to the adb one.
   */
  method TapInput(flow: Flow, adb: Adb, ph0: Phone) returns (out: Outcome, ph: Phone, ghost cmds: seq<Cmd>)
    ensures out.Answer? ==> out.value == false
    ensures ph == ph0.(trace := ph0.trace + cmds)
    ensures |cmds| <= 1 && InputTexts(cmds) == []
    ensures out == Proceed ==> |cmds| == 1 && cmds[0].Tap? && adb.Succeeds(|ph0.trace|)
    ensures Tapped(InputLookup(ph0.local, flow.parser), adb.Succeeds(|ph0.trace|), Proceed, out, cmds)
  {
    var input: Py<Option<Point>>;
    match ReadDump(ph0.local) {
      case Raise(e) => input := Raise(e);
      case Ok(nodes) => input := InputFieldCoordinates(nodes, flow.parser);
    }
    assert input == InputLookup(ph0.local, flow.parser);
    match input {
      case Raise(_) =>
        return Failed(false), ph0, [];
      case Ok(None) =>
        return Answer(false), ph0, [];
      case Ok(Some(p)) =>
        var res := Run(adb, ph0, Tap(p));
        return if res.0 then Proceed else Failed(true), res.1, [Tap(p)];
    }
  }

  /** The last command is a tap on the Send button of the local dump: the centre of the first Send label's clickable parent. */
  ghost predicate TappedSend(parser: Parser, ph: Phone) {
    && ph.trace != []
    && ph.trace[|ph.trace| - 1].Tap?
    && ph.local.Xml?
    && var nodes := Nodes(ph.local.roots);
       SendCentre(nodes, parser) == Ok(Some(ph.trace[|ph.trace| - 1].at))
  }

  /** The local dump was captured by the `uiautomator dump` three commands back: the one pulled right before the last command. */
  ghost predicate ReadFreshDump(adb: Adb, ph: Phone) {
    |ph.trace| >= 3 && ph.trace[|ph.trace| - 3] == DumpUi && ph.local == adb.Screen(|ph.trace| - 3)
  }

  /**
   * Look for the Send button in the local dump and tap it: True exactly when
   * it is found and the tap exits with status zero; not found is False; a
   * failing tap goes to the adb except block, a parse error or a bad
   * `bounds` to the generic one.
   */
  method TapSend(flow: Flow, adb: Adb, ph0: Phone) returns (out: Outcome, ph: Phone, ghost cmds: seq<Cmd>)
    ensures out != Proceed
    ensures out == Answer(true) ==> TappedSend(flow.parser, ph) && |cmds| == 1 && adb.Succeeds(|ph0.trace|)
    ensures Tapped(SendLookup(ph0.local, flow.parser), adb.Succeeds(|ph0.trace|), Answer(true), out, cmds)
    ensures ph == ph0.(trace := ph0.trace + cmds)
    ensures |cmds| <= 1 && InputTexts(cmds) == []
  {
    var send: Py<Option<Point>>;
    match ReadDump(ph0.local) {
      case Raise(e) => send := Raise(e);
      case Ok(nodes) => send := SendButtonCoordinates(nodes, flow.parser);
    }
    assert send == SendLookup(ph0.local, flow.parser);
    match send {
      case Raise(_) =>
        return Failed(false), ph0, [];
      case Ok(None) =>
        return Answer(false), ph0, [];
      case Ok(Some(p)) =>
        var res := Run(adb, ph0, Tap(p));
        return if res.0 then Answer(true) else Failed(true), res.1, [Tap(p)];
    }
  }

  // ---------------------------------------------------------------------------
  // The flow

  /** Appending commands that type nothing keeps what was typed. */
  lemma Untyped(issued: seq<Cmd>, more: seq<Cmd>, args: seq<string>)
    requires IsPrefix(InputTexts(issued), args) && InputTexts(more) == []
    ensures InputTexts(issued + more) == InputTexts(issued)
  {
    InputTextsConcat(issued, more);
  }

  /** Run the except block and keep the facts about what was typed. */
  method RecoverFrom(flow: Flow, adbFailed: bool, adb: Adb, ph1: Phone, ghost ph0: Phone, ghost issued: seq<Cmd>, ghost args: seq<string>)
    returns (r: Py<bool>, ph: Phone, ghost all: seq<Cmd>)
    requires ph1.trace == ph0.trace + issued && IsPrefix(InputTexts(issued), args)
    ensures ph.trace == ph0.trace + all && InputTexts(all) == InputTexts(issued)
    ensures r.Ok? ==> r == Ok(false)
    ensures r != Ok(true)
    ensures flow.fallback == NoFallback ==> r.Ok?
    ensures r == Raise(NameError) ==> flow.fallback == TapCancel(true)
  {
    ghost var more;
    r, ph, more := Recover(flow, adbFailed, adb, ph1);
    all := issued + more;
    Untyped(issued, more, args);
  }

  /** The first half of the flow: dump, find and tap the input field. */
  method OpenInput(flow: Flow, adb: Adb, ph0: Phone) returns (out: Outcome, ph: Phone, ghost cmds: seq<Cmd>)
    ensures out.Answer? ==> out.value == false
    ensures ph.trace == ph0.trace + cmds && InputTexts(cmds) == []
    ensures out == Proceed ==> |cmds| == 3 && ph.local == adb.Screen(|ph0.trace|)
    ensures out == Proceed ==> Succeed(adb, |ph0.trace|, |ph.trace|)
    ensures var found := InputLookup(adb.Screen(|ph0.trace|), flow.parser);
            adb.Succeeds(|ph0.trace|) && adb.Succeeds(|ph0.trace| + 1) ==>
              && (found == Ok(None) ==> out == Answer(false))
              && (found.Ok? && found.value.Some? && adb.Succeeds(|ph0.trace| + 2) ==> out == Proceed)
  {
    var ok;
    ghost var more;
    ok, ph, cmds := Refresh(adb, ph0);
    if !ok {
      return Failed(true), ph, cmds;
    }
    var ph1 := ph;
    assert |ph1.trace| == |ph0.trace| + 2 && ph1.local == adb.Screen(|ph0.trace|);
    ghost var found := InputLookup(ph1.local, flow.parser);
    out, ph, more := TapInput(flow, adb, ph1);
    OpenSucceeds(adb, |ph0.trace|, |ph1.trace|, found, out, more);
    ExtendUntyped(ph0.trace, cmds, more);
    cmds := cmds + more;
  }

  /**
   * The input step once the dump and pull succeeded: it goes on exactly when
   * the field is found and the tap, command `k0 + 2`, succeeds.
   */
  lemma OpenSucceeds(adb: Adb, k0: nat, k1: nat, found: Py<Option<Point>>, out: Outcome, tap: seq<Cmd>)
    requires k1 == k0 + 2 && adb.Succeeds(k0) && adb.Succeeds(k0 + 1)
    requires Tapped(found, adb.Succeeds(k1), Proceed, out, tap)
    ensures out == Proceed ==> Succeed(adb, k0, k0 + 3)
    ensures found == Ok(None) ==> out == Answer(false)
    ensures found.Ok? && found.value.Some? && adb.Succeeds(k0 + 2) ==> out == Proceed
  {
    if out == Proceed {
      SucceedThree(adb, k0);
    }
  }

  lemma SucceedThree(adb: Adb, k: nat)
    requires adb.Succeeds(k) && adb.Succeeds(k + 1) && adb.Succeeds(k + 2)
    ensures Succeed(adb, k, k + 3)
  {
  }

  /** Once the field is cleared, the typing loop ends well exactly when all its commands succeed. */
  lemma TypedSucceed(adb: Adb, ph0: Phone, ph1: Phone, safe: string, ok: bool, ph: Phone, typed: nat)
    requires adb.Succeeds(|ph0.trace|) && |ph1.trace| == |ph0.trace| + 1
    requires Typed(adb, ph1, safe, ok, ph, typed)
    ensures ok ==> Succeed(adb, |ph0.trace|, |ph.trace|)
    ensures Succeed(adb, |ph0.trace|, |ph0.trace| + 1 + |TextArgs(safe)|) ==> ok
  {
    assert |ph.trace| == |ph1.trace| + typed;
    if !ok {
      assert !adb.Succeeds(|ph1.trace| + typed - 1);
    }
  }

  /**
   * Clear the field with one key event, then type the message: every command
   * typed is one of the message's arguments, in order, and all of them when
   * `ok`. The local dump is left as it was.
   */
  method EnterText(adb: Adb, ph0: Phone, safe: string) returns (ok: bool, ph: Phone, ghost cmds: seq<Cmd>)
    ensures ph == ph0.(trace := ph0.trace + cmds)
    ensures IsPrefix(InputTexts(cmds), TextArgs(safe))
    ensures ok ==> InputTexts(cmds) == TextArgs(safe) && |cmds| == 1 + |TextArgs(safe)|
    ensures ok ==> Succeed(adb, |ph0.trace|, |ph.trace|)
    ensures Succeed(adb, |ph0.trace|, |ph0.trace| + 1 + |TextArgs(safe)|) ==> ok
    ensures SucceedFrom(adb, |ph0.trace|) ==> ok
  {
    SucceedFromSpan(adb, |ph0.trace|, |ph0.trace| + 1 + |TextArgs(safe)|);
    var res := Run(adb, ph0, KeyEvent(ClearKey));
    ph := res.1;
    cmds := [KeyEvent(ClearKey)];
    if !res.0 {
      assert !adb.Succeeds(|ph0.trace|);
      return false, ph, cmds;
    }
    ghost var typed;
    var ph1 := ph;
    ok, ph, typed := TypeMessage(adb, ph1, safe);
    TypedSucceed(adb, ph0, ph1, safe, ok, ph, typed);
    InputTextsConcat(cmds, TextCmds(TextArgs(safe)[..typed]));
    SeqAssoc(ph0.trace, cmds, TextCmds(TextArgs(safe)[..typed]));
    cmds := cmds + TextCmds(TextArgs(safe)[..typed]);
  }

  /**
   * The second half of the flow: in the copy that dumps again, refresh the
   * local dump, then find and tap Send. Nothing is typed; True means the
   * last command tapped Send in the dump read last, and every command of
   * this step succeeded. With every command succeeding, the answer is
   * whether that dump has a Send button.
   */
  method SubmitText(flow: Flow, adb: Adb, ph0: Phone) returns (out: Outcome, ph: Phone, ghost cmds: seq<Cmd>)
    ensures out != Proceed
    ensures ph.trace == ph0.trace + cmds && InputTexts(cmds) == []
    ensures out == Answer(true) ==> TappedSend(flow.parser, ph)
    ensures out == Answer(true) && !flow.redump ==> ph.local == ph0.local
    ensures out == Answer(true) && flow.redump ==> ReadFreshDump(adb, ph)
    ensures out == Answer(true) ==> Succeed(adb, |ph0.trace|, |ph.trace|)
    ensures var found := SendLookup(if flow.redump then adb.Screen(|ph0.trace|) else ph0.local, flow.parser);
            SucceedFrom(adb, |ph0.trace|) && found.Ok? ==> out == Answer(found.value.Some?)
  {
    if flow.redump {
      out, ph, cmds := RedumpAndTapSend(flow, adb, ph0);
    } else {
      ghost var found := SendLookup(ph0.local, flow.parser);
      out, ph, cmds := TapSend(flow, adb, ph0);
      SubmitSucceeds(adb, |ph0.trace|, |ph0.trace|, false, found, out, cmds);
    }
  }

  /** `message_sender.py` dumps the screen again before it looks for Send. */
  method RedumpAndTapSend(flow: Flow, adb: Adb, ph0: Phone) returns (out: Outcome, ph: Phone, ghost cmds: seq<Cmd>)
    ensures out != Proceed
    ensures ph.trace == ph0.trace + cmds && InputTexts(cmds) == []
    ensures out == Answer(true) ==> TappedSend(flow.parser, ph) && ReadFreshDump(adb, ph)
    ensures out == Answer(true) ==> Succeed(adb, |ph0.trace|, |ph.trace|)
    ensures var found := SendLookup(adb.Screen(|ph0.trace|), flow.parser);
            SucceedFrom(adb, |ph0.trace|) && found.Ok? ==> out == Answer(found.value.Some?)
  {
    var ok, ph1;
    ok, ph1, cmds := Refresh(adb, ph0);
    if !ok {
      return Failed(true), ph1, cmds;
    }
    assert |ph1.trace| == |ph0.trace| + 2 && ph1.local == adb.Screen(|ph0.trace|);
    ghost var found := SendLookup(ph1.local, flow.parser);
    ghost var more;
    out, ph, more := TapSend(flow, adb, ph1);
    SubmitSucceeds(adb, |ph0.trace|, |ph1.trace|, true, found, out, more);
    ExtendUntyped(ph0.trace, cmds, more);
    cmds := cmds + more;
    if out == Answer(true) {
      SameScreen(adb, |ph0.trace|, |ph.trace| - 3);
    }
  }

  /**
   * The Send step, told apart by command status: True only when the dump and
   * pull (in the copy that dumps again) and the tap command `k1` succeed, and
   * with every command succeeding the answer is whether Send was found.
   */
  lemma SubmitSucceeds(adb: Adb, k0: nat, k1: nat, redump: bool, found: Py<Option<Point>>, out: Outcome, tap: seq<Cmd>)
    requires k1 == if redump then k0 + 2 else k0
    requires redump ==> adb.Succeeds(k0) && adb.Succeeds(k0 + 1)
    requires Tapped(found, adb.Succeeds(k1), Answer(true), out, tap)
    ensures out == Answer(true) ==> Succeed(adb, k0, k1 + 1)
    ensures SucceedFrom(adb, k0) && found.Ok? ==> out == Answer(found.value.Some?)
  {
    if SucceedFrom(adb, k0) {
      assert adb.Succeeds(k1);
    }
  }

  /** The dump the Send step reads: the one captured by command `k` in the copy that dumps again, the local one otherwise. */
  function SendDump(flow: Flow, adb: Adb, k: nat, local: DumpFile): DumpFile {
    if flow.redump then adb.Screen(k) else local
  }

  /**
   * Once the input field is tapped: clear it, type the non-empty message,
   * tap Send, and run the except block on a failure. What is typed is a
   * prefix of the message's arguments, all of them when True.
   */
  method TypeAndSubmit(flow: Flow, adb: Adb, ph0: Phone, safe: string, ghost k1: nat) returns (r: Py<bool>, ph: Phone, ghost cmds: seq<Cmd>)
    requires k1 == |ph0.trace| + 1 + |TextArgs(safe)|
    ensures ph.trace == ph0.trace + cmds
    ensures IsPrefix(InputTexts(cmds), TextArgs(safe))
    ensures r == Ok(true) ==> InputTexts(cmds) == TextArgs(safe) && TappedSend(flow.parser, ph)
    ensures r == Ok(true) && !flow.redump ==> ph.local == ph0.local
    ensures r == Ok(true) && flow.redump ==> ReadFreshDump(adb, ph)
    ensures flow.fallback == NoFallback ==> r.Ok?
    ensures r == Raise(NameError) ==> flow.fallback == TapCancel(true)
    ensures r == Ok(true) ==> Succeed(adb, |ph0.trace|, |ph.trace|)
    ensures var found := SendLookup(SendDump(flow, adb, k1, ph0.local), flow.parser);
            SucceedFrom(adb, |ph0.trace|) && found.Ok? ==> r == Ok(found.value.Some?)
  {
    ghost var args := TextArgs(safe);
    var typedAll;
    typedAll, ph, cmds := EnterText(adb, ph0, safe);
    if !typedAll {
      assert !SucceedFrom(adb, |ph0.trace|);
      r, ph, cmds := RecoverFrom(flow, true, adb, ph, ph0, cmds, args);
      return;
    }
    r, ph, cmds := SubmitTyped(flow, adb, ph, ph0, cmds, args, k1);
  }

  /**
   * Once every argument is typed and every command so far succeeded: find
   * and tap Send, and run the except block on a failure. With every command
   * from `k1` on succeeding, the answer is whether the dump read has Send.
   */
  method SubmitTyped(flow: Flow, adb: Adb, ph1: Phone, ghost ph0: Phone, ghost typed: seq<Cmd>, ghost args: seq<string>, ghost k1: nat)
    returns (r: Py<bool>, ph: Phone, ghost cmds: seq<Cmd>)
    requires ph1 == ph0.(trace := ph0.trace + typed) && k1 == |ph1.trace|
    requires InputTexts(typed) == args && Succeed(adb, |ph0.trace|, |ph1.trace|)
    ensures ph.trace == ph0.trace + cmds && InputTexts(cmds) == args
    ensures r == Ok(true) ==> TappedSend(flow.parser, ph)
    ensures r == Ok(true) && !flow.redump ==> ph.local == ph0.local
    ensures r == Ok(true) && flow.redump ==> ReadFreshDump(adb, ph)
    ensures flow.fallback == NoFallback ==> r.Ok?
    ensures r == Raise(NameError) ==> flow.fallback == TapCancel(true)
    ensures r == Ok(true) ==> Succeed(adb, |ph0.trace|, |ph.trace|)
    ensures var found := SendLookup(SendDump(flow, adb, k1, ph0.local), flow.parser);
            SucceedFrom(adb, |ph0.trace|) && found.Ok? ==> r == Ok(found.value.Some?)
  {
    SucceedFromSpan(adb, |ph0.trace|, k1);
    var out;
    ghost var more;
    out, ph, more := SubmitText(flow, adb, ph1);
    Untyped(typed, more, args);
    cmds := typed + more;
    assert ph.trace == ph0.trace + cmds;
    if out.Failed? {
      r, ph, cmds := RecoverFrom(flow, out.adbFailed, adb, ph, ph0, cmds, args);
    } else {
      r := Ok(out.value);
      if r == Ok(true) {
        SucceedJoin(adb, |ph0.trace|, k1, |ph.trace|);
      }
    }
  }

  /** Two runs of succeeding commands, one right after the other, make one. */
  lemma SucceedJoin(adb: Adb, a: nat, b: nat, c: nat)
    requires a <= b <= c && Succeed(adb, a, b) && Succeed(adb, b, c)
    ensures Succeed(adb, a, c)
  {
  }

  /** If every command from `k` on succeeds, so do the three of the input step, and every command after them. */
  lemma SucceedFromThree(adb: Adb, k: nat)
    ensures SucceedFrom(adb, k) ==> adb.Succeeds(k) && adb.Succeeds(k + 1) && adb.Succeeds(k + 2) && SucceedFrom(adb, k + 3)
  {
  }

  /** If every command from `a` on succeeds, so does every command from `a` up to `b`, and from `b` on. */
  lemma SucceedFromSpan(adb: Adb, a: nat, b: nat)
    requires a <= b
    ensures SucceedFrom(adb, a) ==> Succeed(adb, a, b) && SucceedFrom(adb, b)
  {
  }

  /**
   * The dump the flow looks for Send in when every command succeeds: the one
   * taken at the start, or, in the copy that dumps again, the one taken
   * after the dump, the pull, the tap, the key event and the `input text`
   * commands.
   */
  function SendScreen(flow: Flow, adb: Adb, k0: nat, safe: string): DumpFile {
    SendDump(flow, adb, k0 + 4 + |TextArgs(safe)|, adb.Screen(k0))
  }

  /**
   * The flow for a message already sanitised: only its escaped chunks are
   * ever typed, in order. True means all of them were typed and the last
   * command tapped the Send button of the dump read last: the one taken
   * before typing, or, in the copy that dumps again, the one taken after it.
   */
  method SendSanitised(flow: Flow, safe: string, adb: Adb, ph0: Phone) returns (r: Py<bool>, ph: Phone, ghost issued: seq<Cmd>)
    ensures ph.trace == ph0.trace + issued
    ensures IsPrefix(InputTexts(issued), TextArgs(safe))
    ensures r == Ok(true) ==> InputTexts(issued) == TextArgs(safe)
    ensures r == Ok(true) ==> TappedSend(flow.parser, ph)
    ensures r == Ok(true) && !flow.redump ==> ph.local == adb.Screen(|ph0.trace|)
    ensures r == Ok(true) && flow.redump ==> ReadFreshDump(adb, ph)
    ensures safe == [] ==> r != Ok(true)
    ensures flow.fallback == NoFallback ==> r.Ok?
    ensures r == Raise(NameError) ==> flow.fallback == TapCancel(true)
    ensures r == Ok(true) ==> Succeed(adb, |ph0.trace|, |ph.trace|)
    ensures SucceedFrom(adb, |ph0.trace|) && InputLookup(adb.Screen(|ph0.trace|), flow.parser) == Ok(None) ==> r == Ok(false)
    ensures var input := InputLookup(adb.Screen(|ph0.trace|), flow.parser);
            var send := SendLookup(SendScreen(flow, adb, |ph0.trace|, safe), flow.parser);
            SucceedFrom(adb, |ph0.trace|) && input.Ok? && input.value.Some? && safe != [] && send.Ok? ==>
              r == Ok(send.value.Some?)
  {
    ghost var args := TextArgs(safe);
    var out;
    out, ph, issued := OpenInput(flow, adb, ph0);
    SucceedFromThree(adb, |ph0.trace|);
    if out.Failed? {
      assert SucceedFrom(adb, |ph0.trace|) ==> InputLookup(adb.Screen(|ph0.trace|), flow.parser).Raise?;
      r, ph, issued := RecoverFrom(flow, out.adbFailed, adb, ph, ph0, issued, args);
      return;
    } else if out.Answer? || safe == [] {
      return Ok(false), ph, issued;
    }
    ghost var k := |ph.trace| + 1 + |TextArgs(safe)|;
    SendScreenAfterOpen(flow, adb, |ph0.trace|, |ph.trace|, k, safe, ph.local);
    r, ph, issued := TypeAfterOpen(flow, adb, ph, ph0, issued, safe, k);
  }

  /** `SendScreen`, counted from the end of the input step. */
  lemma SendScreenAfterOpen(flow: Flow, adb: Adb, k0: nat, k1: nat, k: nat, safe: string, local: DumpFile)
    requires k1 == k0 + 3 && k == k1 + 1 + |TextArgs(safe)| && local == adb.Screen(k0)
    ensures SendScreen(flow, adb, k0, safe) == SendDump(flow, adb, k, local)
  {
    SameScreen(adb, k, k0 + 4 + |TextArgs(safe)|);
  }

  /**
   * The flow once the input field is tapped and every command so far
   * succeeded: type the message and submit it, with the facts restated from
   * the start of the flow.
   */
  method TypeAfterOpen(flow: Flow, adb: Adb, ph1: Phone, ghost ph0: Phone, ghost openCmds: seq<Cmd>, safe: string, ghost k: nat)
    returns (r: Py<bool>, ph: Phone, ghost issued: seq<Cmd>)
    requires ph1.trace == ph0.trace + openCmds && InputTexts(openCmds) == [] && |openCmds| == 3
    requires ph1.local == adb.Screen(|ph0.trace|) && Succeed(adb, |ph0.trace|, |ph1.trace|)
    requires k == |ph1.trace| + 1 + |TextArgs(safe)|
    ensures ph.trace == ph0.trace + issued
    ensures IsPrefix(InputTexts(issued), TextArgs(safe))
    ensures r == Ok(true) ==> InputTexts(issued) == TextArgs(safe)
    ensures r == Ok(true) ==> TappedSend(flow.parser, ph)
    ensures r == Ok(true) && !flow.redump ==> ph.local == adb.Screen(|ph0.trace|)
    ensures r == Ok(true) && flow.redump ==> ReadFreshDump(adb, ph)
    ensures flow.fallback == NoFallback ==> r.Ok?
    ensures r == Raise(NameError) ==> flow.fallback == TapCancel(true)
    ensures r == Ok(true) ==> Succeed(adb, |ph0.trace|, |ph.trace|)
    ensures var send := SendLookup(SendDump(flow, adb, k, ph1.local), flow.parser);
            SucceedFrom(adb, |ph0.trace|) && send.Ok? ==> r == Ok(send.value.Some?)
  {
    ghost var more;
    SucceedFromSpan(adb, |ph0.trace|, |ph1.trace|);
    r, ph, more := TypeAndSubmit(flow, adb, ph1, safe, k);
    InputTextsConcat(openCmds, more);
    SeqAssoc(ph0.trace, openCmds, more);
    issued := openCmds + more;
    if r == Ok(true) {
      SucceedJoin(adb, |ph0.trace|, |ph1.trace|, |ph.trace|);
    }
  }

  /**
   * One call of the flow on a raw message: the flow run on the sanitised
   * message. An empty sanitised message types nothing and is never True. The
   * copy without a fallback never raises; NameError comes only from the
   * `return Fals` copy. True means every command issued exited with status
   * zero, so the copy without a fallback answers False after any failure.
   * When every command succeeds, the dumps decide: no input field is False,
   * and otherwise the answer is whether the dump read for Send has a Send
   * button.
   */
  method SendMessage(flow: Flow, message: string, adb: Adb, ph0: Phone) returns (r: Py<bool>, ph: Phone, ghost issued: seq<Cmd>)
    ensures ph.trace == ph0.trace + issued
    ensures IsPrefix(InputTexts(issued), TextArgs(SanitizeMessage(message)))
    ensures r == Ok(true) ==> InputTexts(issued) == TextArgs(SanitizeMessage(message))
    ensures r == Ok(true) ==> TappedSend(flow.parser, ph)
    ensures r == Ok(true) && !flow.redump ==> ph.local == adb.Screen(|ph0.trace|)
    ensures r == Ok(true) && flow.redump ==> ReadFreshDump(adb, ph)
    ensures SanitizeMessage(message) == [] ==> r != Ok(true) && InputTexts(issued) == []
    ensures flow.fallback == NoFallback ==> r.Ok?
    ensures r == Raise(NameError) ==> flow.fallback == TapCancel(true)
    ensures r == Ok(true) ==> Succeed(adb, |ph0.trace|, |ph.trace|)
    ensures flow.fallback == NoFallback && !Succeed(adb, |ph0.trace|, |ph.trace|) ==> r == Ok(false)
    ensures SucceedFrom(adb, |ph0.trace|) && InputLookup(adb.Screen(|ph0.trace|), flow.parser) == Ok(None) ==> r == Ok(false)
    ensures var input := InputLookup(adb.Screen(|ph0.trace|), flow.parser);
            var send := SendLookup(SendScreen(flow, adb, |ph0.trace|, SanitizeMessage(message)), flow.parser);
            SucceedFrom(adb, |ph0.trace|) && input.Ok? && input.value.Some? && SanitizeMessage(message) != [] && send.Ok? ==>
              r == Ok(send.value.Some?)
  {
    r, ph, issued := SendSanitised(flow, SanitizeMessage(message), adb, ph0);
    if SanitizeMessage(message) == [] {
      assert Chunks(SanitizeMessage(message), MaxChunk) == [];
    }
    if flow.fallback == NoFallback {
      FalseOnFailure(r, Succeed(adb, |ph0.trace|, |ph.trace|));
    }
  }

  /** An answer that is True only when every command succeeded is False when one failed. */
  lemma FalseOnFailure(r: Py<bool>, succeeded: bool)
    requires r.Ok? && (r == Ok(true) ==> succeeded)
    ensures !succeeded ==> r == Ok(false)
  {
    var b: bool := r.value;
    assert r == Ok(b);
  }
}
