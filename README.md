# hinge-genie, the verified core

hinge-genie drives the Hinge dating app on an Android phone over `adb`. It
reads the screen through `uiautomator` XML dumps and screenshots. From those
it finds buttons and profile prompts, writes an opening message with a
language model and types it in. This project models the integer and string
logic under that glue, with the phone, the image matcher, the OCR engine and
the language model replaced by oracles. It proves what each piece promises.

The model covers six areas:

- **UI-dump finders** (`UiDump`, `Bounds`, `Finders`). A dump is a tree of
  `node` elements. `root.iter("node")` is its preorder node sequence, and a
  node is identified by its preorder index. The finders are:
  - the bounds parsers, both the regular-expression one and the split one;
  - the filtered button scan;
  - first-match searches for the message field, the Send, Cancel and Skip
    buttons.
- **Sending a message** (`Sanitize`, `Sending`). The message goes through the
  sanitising pipeline. It is cut into 100-character chunks with spaces escaped
  as `%s`, typed, and sent with the Send button. The three copies of the flow
  are modelled:
  - `utils/actions.py`;
  - `utils/message_sender.py`, including its `return Fals` typo;
  - `message_sender.py`, which dumps the screen again before looking for Send.

  Every `adb` command is issued on a device model that says which commands
  fail and what each dump captures.
- **Prompt blocks** (`PromptBlocks`, `PromptScan`, `PromptPairs`):
  - `extract_prompts_from_dump` pairs TextViews, attaches Like buttons,
    deduplicates, and caps the result at three;
  - the scrolling scan gathers prompts across dumps;
  - `extract_prompt_response_pairs_from_xml` pairs each known prompt with its
    answer.
- **Search loops** (`LikeTap`, `LikeSearch`, `TemplateSearch`, `ScreenCapture`):
  - the two-round Like tapper;
  - the dump-driven and the template-driven reply-button searches, with their
    scroll budgets, screen-hash convergence, template centre and crop clamp;
  - the full-page screenshot loop and the stitch layout.
- **Text checks** (`Validators`, `PromptCleaning`, `Bio`):
  - the two message validators and their retry loops;
  - the greedy OCR prompt grouping with an abstract similarity ratio;
  - `match_rules` and `extract_name`.
- **Interaction log** (`Interactions`): an append-only text file of names,
  with a case-insensitive membership query.

Python exceptions are the `Py<T>` datatype (`Ok(value)` or `Raise(exc)`). Each
oracle is a function-typed parameter indexed by the call or iteration
number:

- `adb` exit statuses and what each dump captures;
- screenshot hashes and template-match locations;
- OCR text;
- the suitability verdict of the language model;
- tap success;
- raw model answers.

## Model

| member | source | states |
|---|---|---|
| UiDump.ReadDump | utils/find_and_tap_button.py:110-114 | Parsing the dump file succeeds exactly when the file exists and holds XML. A missing file raises FileNotFoundError and unparsable text raises ParseError. |
| UiDump.NodesParentsBefore | utils/actions.py:248-253 | In `root.iter("node")` every node's parent comes before it, so the parent search over `list(parent)` finds it in preorder. |
| UiDump.Get | utils/actions.py:240 | `attrib.get(key, default)` gives the attribute when present, else the default. |
| UiDump.CentreOf | utils/actions.py:241 | `parse_bounds(node.attrib["bounds"])` raises KeyError without bounds. The regex parser may answer `(None, None)`; the split parser never does, and raises only ValueError. |
| UiDump.HitOf | utils/actions.py:207-213 | The inline split parse of a scanned button gives the rectangle that the bounds string spells and its floor-divided centre. |
| Bounds.Centre | utils/actions.py:190 | The centre is the floor of each midpoint: `2x <= l + r <= 2x + 1`, and the same for y. |
| Bounds.ParseIntToString | utils/message_sender.py:9-10 | `int()` reads back every integer that `str()` writes, negatives included. |
| Bounds.MatchBoundsComplete | utils/actions.py:187 | Every string that begins with `[d,d][d,d]` (digit runs) matches, whatever text follows, and yields those four numbers. |
| Bounds.MatchBoundsSound | utils/actions.py:187 | A match means the string begins with a bounds string of four non-empty digit runs, so no negative or signed number is accepted. |
| Bounds.ParseBoundsRegexRender | utils/actions.py:185-191 | The regex `parse_bounds` returns the floor-divided centre of any well-formed bounds string with a trailing suffix. |
| Bounds.SplitBounds | utils/message_sender.py:7-13 | The split parser raises ValueError, and only ValueError, when the string does not split into exactly two halves at `"]["`. |
| Bounds.SplitBoundsRender | message_sender.py:9-15 | The split parser reads back every rectangle, negative coordinates included. |
| Bounds.Crop | find_button_corrdinates.py:205-209 | The crop box stays inside `[0, width] x [0, height]`. It still contains every side of the button unless clamped at the image edge. |
| Finders.Keep | utils/actions.py:203-208 | The scan's filter: clickable, of the class unless the class is empty, and with the description inside content-desc unless it is empty. |
| Finders.ButtonCoordinates | utils/actions.py:198-216 | The button-list loop computes exactly the scan specification. It raises on the first kept node whose bounds cannot be parsed. |
| Finders.ScanExact | utils/find_button_corrdinates.py:132-153 | Every returned tuple is the hit of a kept node, in increasing preorder, and every kept node contributes one. |
| Finders.ScanRaise | utils/find_button_coordinate_v1.py:17-34 | A failed scan raises the exception of the first kept node whose bounds do not parse, and all kept nodes before it parsed. |
| Finders.FirstFromIsFirst | utils/actions.py:238-242 | The early-return search returns the first index that matches, and none exactly when no index matches. |
| Finders.InputCentreFirst | utils/actions.py:235-242 | `get_input_field_coordinates` answers from the first clickable EditText in preorder, and `(None, None)` when there is none. |
| Finders.InputFieldCoordinates | utils/message_sender.py:15-21 | The loop returns the input-field answer: the first EditText decides, and only KeyError or ValueError can escape. |
| Finders.ClickableParent | utils/actions.py:251-254 | The inner parent loop finds the direct parent only when it is clickable, and finds nothing otherwise. |
| Finders.FirstSend | utils/actions.py:244-255 | The Send search answers only with a "send priority like" node whose direct parent is clickable. A label without one is passed over. |
| Finders.SendButtonCoordinates | utils/message_sender.py:23-33 | The nested loop returns the centre of the first Send label's clickable parent, else `(None, None)`. |
| Finders.CancelTarget | utils/actions.py:262-270 | A Cancel label answers through itself, or through its direct parent only when the label is a TextView and the parent is an `android.widget.Button`. |
| Finders.ButtonParent | utils/message_sender.py:44-47 | The inner loop finds the direct parent only when it is an `android.widget.Button`. |
| Finders.CancelButtonCoordinates | utils/actions.py:257-272 | The first node whose lowercased desc or text is "cancel" decides the answer; later labels are never looked at. |
| Finders.TapSkipButton | utils/actions.py:275-310 | Returns True exactly when a tap happens, at the regex centre of the first Skip button. No dump, a parse error or no Skip button gives False. A missing bounds attribute raises TypeError. |
| Sanitize.Filter | utils/actions.py:330-331 | The character filter keeps, in order, only characters of the input that pass the test. |
| Sanitize.SanitizeClean | utils/actions.py:330-333 | The sanitised message is ASCII, has none of the forbidden shell characters, is trimmed, and is single-spaced. |
| Sanitize.SanitizeKeepsWords | utils/actions.py:330-333 | Apart from spaces, the sanitised message holds exactly the message's ASCII non-forbidden non-whitespace characters, in order. |
| Sanitize.SanitizeEmpty | utils/actions.py:335-337 | The sanitised message is empty exactly when the message has no character that survives. |
| Sanitize.SanitizeIdempotent | message_sender.py:55-58 | Sanitising a sanitised message changes nothing. |
| Sanitize.ChunksConcat | utils/actions.py:342-344 | The 100-character chunks joined back together are the sanitised message. |
| Sanitize.ChunksSizes | utils/message_sender.py:82-83 | Every chunk has 1 to 100 characters, and every chunk but the last has exactly 100. |
| Sanitize.EscapeSpaces | utils/actions.py:345 | An escaped chunk contains no space. |
| Sanitize.EscapeRoundTrip | utils/actions.py:345-346 | A chunk without `%` is typed back on the device exactly as it was before escaping. |
| Sanitize.PercentSIsTypedAsSpace | message_sender.py:55-71 | The message "5%s" comes out of sanitising unchanged, and its escaped chunk is typed as "5 ": a literal `%s` cannot be told from an escaped space. |
| Sanitize.KeepableUnchanged | message_sender.py:55-58 | A message of ASCII, non-forbidden, non-whitespace characters is left unchanged by sanitising. |
| Sending.PercentSMessageTyped | message_sender.py:55-72 | The message "5%s" is sent as the single `input text` argument "5%s", which the device types as "5 ". |
| Sending.TextArgsTypeMessage | utils/actions.py:342-347 | The `input text` arguments of a message without `%` type exactly the sanitised message. |
| Sending.TextArgsShape | message_sender.py:68-72 | Every `input text` argument is non-empty, has no space, and has at most 200 characters. |
| Sending.TypeMessage | utils/message_sender.py:81-86 | The typing loop issues the escaped chunks in order and stops at the first failed command. |
| Sending.Refresh | message_sender.py:74-76 | Dump and pull: the local file is what that dump captured exactly when both commands succeed. |
| Sending.TapSend | utils/actions.py:349-358 | True exactly when the Send button is found in the local dump and the tap on it, the one command issued, exits with status zero; it is the centre of the first Send label's clickable parent. Not found is False with nothing issued; a parse error or bad `bounds` goes to the generic except block, a failing tap to the adb one. |
| Sending.TapInput | utils/actions.py:320-328 | The input field found in the local dump is tapped once; the step goes on exactly when that tap exits with status zero. Not found is False with nothing issued; a parse error goes to the generic except block. |
| Sending.OpenInput | message_sender.py:43-53 | Dump, pull, find and tap the input field: going on means all three commands succeeded and the local file is the dump captured first. With dump and pull succeeding, no input field is the answer False, and a found field whose tap succeeds goes on. |
| Sending.EnterText | message_sender.py:64-72 | The key event and the `input text` commands type a prefix of the message's arguments, all of them exactly when every one of those commands succeeds. |
| Sending.TypeAndSubmit | message_sender.py:64-86 | True means the whole message was typed, Send was tapped, and every command from the key event on exited with status zero. When every command succeeds, the answer is whether the dump read for Send has a Send button. |
| Sending.SendSanitised | utils/message_sender.py:51-97 | True means every chunk argument was typed, Send was tapped in the dump read last, and every command issued succeeded. When every command succeeds, no input field is False, and otherwise a non-empty message is answered by whether the Send dump has a Send button. |
| Sending.CancelOutcome | utils/message_sender.py:99-118 | The except blocks tap a Cancel button found and answer False. The lookup's own exception escapes. NameError arises exactly in the generic branch of the `return Fals` copy when no Cancel button is found. |
| Sending.Recover | utils/actions.py:360-379 | An except block answers False or raises. The copy without a fallback always answers False and issues nothing. It types nothing. |
| Sending.FalsRaisesNameError | utils/message_sender.py:118 | As written, the generic branch with no Cancel button raises NameError out of `send_message`. |
| Sending.FallbackReturnsFalse | utils/message_sender.py:110-118 | With `return False`, the same branch answers False and issues nothing. |
| Sending.SendMessage | utils/actions.py:312-379 | The arguments typed so far are always a prefix of the message's chunk arguments. True means all chunks were typed, then Send was tapped in the pre-typing dump, or in a fresh dump for the copy that dumps again. An empty sanitised message types nothing and is never True. The copy without a fallback never raises, and NameError comes only from the `return Fals` copy. True means every command issued exited with status zero; the copy without a fallback answers False whenever one failed (message_sender.py:88-93). When every command succeeds, no input field is False, and otherwise a non-empty sanitised message is answered by whether the dump read for Send has a Send button. |
| Sending.FalseOnFailure | message_sender.py:88-93 | An answer that is True only when every command succeeded is False when one failed. |
| PromptBlocks.PairsShape | utils/find_and_tap_button.py:126-128 | The texts at positions 2k and 2k + 1 form the k-th pair, and only an odd last text is left waiting. |
| PromptBlocks.DedupSound | utils/find_and_tap_button.py:129-137 | Deduplication keeps one text per lowercase and keeps every lowercase of the input. |
| PromptBlocks.AttachedIsFirst | utils/find_and_tap_button.py:139-144 | A prompt's like coordinates are those of the first like button between it and the next prompt, and None when there is none. |
| PromptBlocks.ScanNodes | utils/find_and_tap_button.py:121-149 | The node loop raises only TypeError, and does not raise when every like button has bounds. Its prompts satisfy the extraction specification. |
| PromptBlocks.ExtractedTexts | utils/find_and_tap_button.py:146-147 | The prompts' texts are the first three pair texts of the whole dump. |
| PromptBlocks.ExtractedDistinct | utils/find_and_tap_button.py:129-136 | Each id is its text lowercased, and no two prompts share an id. |
| PromptBlocks.ExtractedPairs | utils/find_and_tap_button.py:126-128 | Every prompt text joins two consecutive non-empty TextView texts with `" \| "`. |
| PromptBlocks.ExtractedThirdBare | utils/find_and_tap_button.py:146-147 | The scan stops as soon as the third prompt exists, so that prompt never gets coordinates. |
| PromptBlocks.ExtractPrompts | utils/find_and_tap_button.py:104-149 | A missing or unparsable dump gives `[]`. The result has at most three prompts with distinct ids, and they are the first three pair texts. |
| PromptScan.TakeUiDump | utils/find_and_tap_button.py:21-33 | `take_ui_dump` is the constant path when the pulled file exists, and None otherwise. |
| PromptScan.FirstIdxSound | utils/find_and_tap_button.py:284-287 | The records kept are exactly the first of each id, in increasing position. |
| PromptScan.FirstByIdKeys | utils/find_and_tap_button.py:291 | The dictionary's values have no repeated id, and its keys are the ids of all records read. |
| PromptScan.AddPrompts | utils/find_and_tap_button.py:284-287 | Adding a screen's prompts keeps the first record of each id, in first-seen order. |
| PromptScan.ExtraSwipes | utils/find_and_tap_button.py:267-278 | One to three extra swipes, stopping at the first changed dump. With every dump present, the path never changes and all three run. |
| PromptScan.Look | utils/find_and_tap_button.py:249-270 | No dump stops the scan; a changed dump is read and resets the count; an unchanged one swipes again; the second unchanged one runs the extra swipes. |
| PromptScan.ScanWithScrolling | utils/find_and_tap_button.py:229-291 | At most `max_swipes` passes, each with at most three extra swipes. The result is the first-seen record per id over the dumps read. With every dump present, only the first dump is read. |
| PromptScan.StaticScreenOnlyFirst | utils/find_and_tap_button.py:27-30 | When only the first dump was read, the result is exactly the prompts of that first screen. |
| PromptPairs.PromptSetExactly | utils/prompt_extractor.py:5-15 | A string is a known prompt exactly when it is some line of the file, stripped and non-empty. |
| PromptPairs.LoadPromptSet | utils/prompt_extractor.py:9-15 | A missing file raises FileNotFoundError; otherwise the result is the set of stripped non-blank lines. |
| PromptPairs.ResponseIsFirst | utils/prompt_extractor.py:37-42 | A prompt's response is the first non-empty non-prompt text among the next three nodes, and None when there is none. |
| PromptPairs.StepAsWritten | utils/prompt_extractor.py:32-46 | As written, a turn of the loop can raise only NameError, and only at the last node while `j` was never bound. |
| PromptPairs.LastPromptsLoop | utils/prompt_extractor.py:38-44 | As written, a dump whose last two texts are known prompts revisits the same state forever, because `j` is stale. |
| PromptPairs.LonePromptRaises | utils/prompt_extractor.py:38-44 | As written, a dump whose only text is a known prompt raises NameError. |
| PromptPairs.PairsFrom | utils/prompt_extractor.py:18-47 | Every pair's prompt is known, and every response is None or a non-empty text that is not a known prompt. There is at most one pair per node. |
| PromptPairs.RunAsWrittenAgrees | utils/prompt_extractor.py:31-47 | When the last text is not a known prompt, the loop as written runs to the end and returns exactly the corrected pairs. |
| PromptPairs.StepAgrees | utils/prompt_extractor.py:32-46 | Wherever the loop as written does not fail, the corrected scan takes the same step. |
| PromptPairs.SkipsPromptsInWindow | utils/prompt_extractor.py:43-44 | Resuming at `j` skips the known prompts between a prompt and its answer: three prompts followed by an answer give one pair. |
| PromptPairs.LastPromptEnds | utils/prompt_extractor.py:38-44 | In the corrected scan, a known prompt at the end is paired with None and the scan stops. |
| PromptPairs.ScanPairs | utils/prompt_extractor.py:32-46 | The corrected `while` loop computes the pairs specification. |
| PromptPairs.ExtractPairs | utils/prompt_extractor.py:18-47 | The parse's exception escapes; otherwise the result is the corrected pairs over the stripped node texts. |
| LikeTap.FirstLikeIsFirst | utils/find_button_coordinate_v1.py:17-34 | A round's button is the first clickable Like Button in preorder, with its centre, and there is none only when no node qualifies. |
| LikeTap.TapFromOutcome | utils/find_button_coordinate_v1.py:45-69 | At most two rounds run. Each earlier round missed and swiped. A tap is reported only for the first button of the last round, when the tap succeeded. Otherwise the last round raised, or both rounds missed and swiped. |
| LikeTap.FindAndTapFirst | utils/actions.py:27-88 | The two-round loop computes the rounds specification: its hit, the rounds run and the swipes. |
| LikeSearch.LongLabel | utils/find_button_corrdinates.py:161-162 | A candidate's text is its `text`, or its content-desc when the text is empty, and it must be longer than 3 once stripped. |
| LikeSearch.Above | utils/find_button_corrdinates.py:163-171 | A prompt is a long-text node whose bottom lies above the button, less than 300 pixels away. |
| LikeSearch.NearestIsClosest | utils/find_button_corrdinates.py:155-173 | The prompt found is some candidate, no candidate is strictly closer, and every earlier candidate is strictly farther, so ties go to the earliest. |
| LikeSearch.NearestNone | utils/find_button_corrdinates.py:172-173 | No prompt is found exactly when no node qualifies. |
| LikeSearch.NearestRaises | utils/find_button_corrdinates.py:164-166 | The search raises exactly when some long-text node has bounds that do not parse. |
| LikeSearch.FindPromptAbove | utils/find_button_corrdinates.py:155-173 | The running-minimum loop computes the nearest-prompt specification. |
| LikeSearch.TapOnlyWhenSuitable | utils/find_button_corrdinates.py:200-235 | A view taps only when a prompt was found above a button, the image check passed, the message is non-empty, the verdict was suitable, and one of two taps succeeded. |
| LikeSearch.ScanView | utils/find_button_corrdinates.py:177-240 | One view computes the per-view specification over the dump, the button scan and the oracles. |
| LikeSearch.FindAndInteract | utils/find_button_corrdinates.py:19-257 | The scroll loop computes the search specification for the candidate rule of the source. |
| LikeSearch.SearchOutcome | utils/find_button_corrdinates.py:175-257 | A missing template ends before any command. At most six views run, with one scroll fewer than views. A tap comes from the first view that taps. Otherwise all six views run. An empty message never taps. |
| TemplateSearch.Compare | find_button_corrdinates.py:177-186 | An equal hash increments the repeat count; a different one resets it and records the new hash. |
| TemplateSearch.MatchCentre | find_button_corrdinates.py:199-200 | The centre is the match location plus half the template size, rounded down. |
| TemplateSearch.StepOutcome | find_button_corrdinates.py:166-236 | An attempt taps only when the message and the OCR text are non-empty, the verdict is suitable and a tap succeeds. It ends the search exactly on the third repeat. Only a failed probe of the screenshot file keeps the comparison state; after a good probe the state records the hash just compared, even a missing one, whatever happens afterwards. |
| TemplateSearch.SearchFromOutcome | find_button_corrdinates.py:166-259 | From any attempt on, with the comparison state the earlier attempts leave: at most fifteen attempts in all, one scroll fewer than attempts, and every attempt before the last goes on. A tap comes from the last attempt; no tap means the last attempt saw the third repeat or all fifteen attempts went on. |
| TemplateSearch.SearchOutcome | find_button_corrdinates.py:30-259 | A missing template ends at once with no command. Otherwise at most fifteen attempts run, with one scroll fewer than attempts. Every attempt before the last neither taps nor ends the search; the last one taps, sees the third repeat, or is the fifteenth. |
| TemplateSearch.UnreadableScreenEndsAtThird | find_button_corrdinates.py:72-83 | The hash starts as None, so unreadable screenshots count as repeats from the first one, and the search ends at the third. |
| TemplateSearch.StillScreenEndsAtFourth | find_button_corrdinates.py:74 | A screen that never changes ends the search at the fourth attempt, without a tap. |
| TemplateSearch.NoMessageNoTap | find_button_corrdinates.py:216 | An empty message never taps. |
| TemplateSearch.FindAndInteract | find_button_corrdinates.py:163-259 | The `while scroll_count < max_scrolls` loop computes the search specification. |
| ScreenCapture.FileNamesDistinct | utils/screen_capture.py:65 | The first thousand screenshots get distinct zero-padded names. |
| ScreenCapture.StopMeansFourEqual | utils/screen_capture.py:72-81 | The capture stops exactly when the last four hashes, counting the initial None, are equal. |
| ScreenCapture.CaptureFullPage | utils/screen_capture.py:33-91 | There is one file name per iteration, up to and including the first that stops, within `max_scrolls`. There is a swipe after every iteration but the last one run. |
| ScreenCapture.StillScreenFourShots | utils/screen_capture.py:61-81 | A screen that never changes is captured four times. |
| ScreenCapture.Stitch | utils/screen_capture.py:93-143 | None for no files, a missing file or a negative height. Otherwise image i sits at `i * (h - overlap)`, and the last one ends at the canvas bottom. |
| Validators.GeneratorAsWrittenExactly | utils/smart_message_generator.py:57-67 | As written, a message is accepted exactly when its stripped form has at most 130 characters, is plain text, and has no word of two or more letters. |
| Validators.GeneratorRejectsWords | utils/smart_message_generator.py:65-67 | As written, "hey u" is rejected. |
| Validators.GeneratorRejectsLetterMan | utils/smart_message_generator.py:64-67 | As written, "a man" is rejected. |
| Validators.GeneratorAcceptsLowercase | utils/smart_message_generator.py:57-67 | With the capitals patterns matching capitals only, a short plain lowercase message with no banned phrase is accepted. |
| Validators.GeneratorAcceptsShortWords | utils/smart_message_generator.py:65 | The intended check accepts "hey u". |
| Validators.V1AcceptsExactly | utils/smart_message_v1.py:128-175 | The v1 check accepts exactly the messages whose stripped form has 11 to 139 allowed characters, no greeting opening, no "if only you", and no curated duplicate. |
| Validators.V1RejectsGreeting | utils/smart_message_v1.py:162-166 | A message opening with "Hey," is rejected, whatever follows. |
| Validators.Retry | utils/smart_message_generator.py:93-101 | Returns the first good answer within the tries. Every earlier answer was bad. None means every try was bad. |
| Validators.GeneratorGenerate | utils/smart_message_generator.py:93-101 | At most three requests. The result is the first non-empty answer that passes the check as written, with its case-insensitive capitals patterns. |
| Validators.GeneratorGenerateCorrected | utils/smart_message_generator.py:93-101 | The same retry loop over the intended check, whose capitals patterns match capital letters only. |
| Validators.ShortWordsNeverGood | utils/smart_message_generator.py:63-67 | An answer "hey u" is never taken by the loop as written, but is taken by the corrected loop. |
| Validators.V1Generate | utils/smart_message_v1.py:218-251 | An empty bio gets None without a request; otherwise the first valid answer within `max_retries`. |
| PromptCleaning.KeptPromptsExactly | utils/smart_message_v1.py:309-316 | A string is in the library exactly when some line, stripped, gives it and it is neither blank nor a `digits.` heading. |
| PromptCleaning.LoadKnownPrompts | utils/smart_message_v1.py:309-316 | A missing file raises FileNotFoundError; otherwise the kept lines come in file order. |
| PromptCleaning.LeaderIsEarliestMaximum | utils/smart_message_v1.py:299-307 | The best match is the earliest prompt with the largest ratio among those at or above the threshold and above 0. |
| PromptCleaning.FindBestMatch | utils/smart_message_v1.py:295-307 | The running-maximum loop returns that prompt, or None. |
| PromptCleaning.OcrLinesClean | utils/smart_message_v1.py:269-272 | Every grouped line is a stripped, non-blank, non-noise line of the OCR text. |
| PromptCleaning.WidestMatchIsWidest | utils/smart_message_v1.py:278-286 | Wider groups are tried first: every width above the chosen one, or every width when none matched, found no prompt. |
| PromptCleaning.CleanFrom | utils/smart_message_v1.py:276-287 | Every cleaned prompt is a non-empty known prompt, and there are no more of them than lines. |
| PromptCleaning.CleanStep | utils/smart_message_v1.py:277-287 | One turn strictly advances `i` and appends what the specification appends. |
| PromptCleaning.CleanLines | utils/smart_message_v1.py:276-288 | The outer loop computes the greedy grouping of all the lines. |
| PromptCleaning.CleanPromptText | utils/smart_message_v1.py:254-293 | A missing library raises FileNotFoundError; otherwise the result is the greedy grouping of the OCR lines against the library. |
| Bio.ExtractNameLeftmost | bio_parser.py:40-42 | `extract_name` returns the match at the leftmost position where `Name:\s*(\w+)` matches, and None when it matches nowhere. |
| Bio.ExtractNameWord | bio_parser.py:41-42 | The extracted name is a non-empty run of word characters. |
| Bio.ExtractNameOfLabel | bio_parser.py:41 | A text that opens with `Name:`, whitespace and a word gives exactly that word. |
| Bio.MatchRulesFirst | bio_parser.py:22-38 | Returns the message of the first firing rule in list order, and None exactly when no rule fires. |
| Bio.EmptyKeywordFires | bio_parser.py:26-30 | A `contains` rule with an empty keyword fires for every text. |
| Bio.NoNameNoStartsWith | bio_parser.py:31-36 | A `startswith` rule is skipped when the text has no name. |
| PyStr.LinesConcat | utils/interaction_manager.py:32-33 | The file's lines, put back together, are its text, and no line is empty. |
| Interactions.Interacted | interaction_manager.py:24-30 | `has_interacted(p)` is True exactly when the file exists and some line, stripped and lowercased, equals `p` lowercased. |
| Interactions.InteractionLog.constructor | utils/interaction_manager.py:30-31 | There is no log file at first; the history folder exists or not, as given. |
| Interactions.InteractionLog.Resume | utils/interaction_manager.py:7-12 | The files as earlier runs left them: any log of whole lines inside the history folder, or no log at all. |
| Interactions.InteractionLog.SetupHistoryFolders | utils/interaction_manager.py:14-20 | The history folder exists afterwards, and the log file is left as it was. |
| Interactions.InteractionLog.LogInteraction | utils/interaction_manager.py:22-26 | Without the history folder, opening the log raises FileNotFoundError and nothing changes. Otherwise logging creates the file if needed, appends exactly the name and a newline, and keeps the log made of whole lines. |
| Interactions.InteractionLog.HasInteracted | utils/interaction_manager.py:28-34 | Without a log file the answer is False; otherwise some logged line stands for the name, ignoring case. |
| Interactions.LoggedLines | interaction_manager.py:18-22 | Logging a name without a newline adds exactly one line and leaves the earlier lines unchanged. |
| Interactions.LoggedIsFound | utils/interaction_manager.py:22-34 | After logging a trimmed name, every case variant of it is found. |
| Interactions.PaddedNotFound | interaction_manager.py:29-30 | A name with whitespace at either end is never found, whatever the log holds, since every logged line is stripped before comparison. |
| Interactions.NoFileNoInteraction | utils/interaction_manager.py:30-31 | Without a log file nothing has been interacted with. |

## Left out

- `adb`, `os.system`, `subprocess`, sleeps, random delays and logging are not modelled. Each device effect is an oracle, indexed by command or iteration number: a command's exit status, what a dump captures, tap success and swipe counts.
- XML parsing is not modelled. A dump file is already a tree, a missing file or an unparsable one. Every element is assumed to carry the tag `node`.
- OpenCV template matching and its floating-point confidence are oracles. A location is found or not found ("confidence > 0.45"). Pixel data, PIL and Tesseract are oracles too: screenshot hashes, image load failures and OCR text.
- `Image.fromarray` on an empty crop region is not modelled, and neither is any PIL error in `stitch_screenshots` other than a negative canvas height.
- md5 hashing is not modelled. A screen hash is an opaque optional string compared for equality.
- The language-model calls are not modelled. The suitability verdict and the raw answers of `_generate_raw_message` are oracles, including the quote stripping applied to the answer. `difflib.SequenceMatcher` is an abstract ratio function.
- `lower()`, `\w` and `\d` are modelled on ASCII only. `\s` and `strip()` use Python's whitespace set. There is no Unicode case folding.
- YAML and config loading are not modelled: the rules, `personality`, `max_retries` in smart_message_v1.py, and the KeyError `_build_prompt` can raise. `max_retries` is a parameter.
- Validators.V1Generate: the non-`str` bio check of utils/smart_message_v1.py:233-235 reduces to the empty-string test, because the model's bio is always a string.
- The `save_*` history copies, `extract_profile_name`, `extract_prompts_from_multiple_xml` (a directory listing), main.py, utils/llm.py, utils/humanizer.py, the root screen_capture.py (a single adb call) and the gpt_generator files are not part of this model.
- Python's universal newlines are not modelled. Files are split into lines at `\n` only, so a bare `\r` does not end a line in the interaction log or the prompt files.
- The module-level window lookup of find_button_corrdinates.py:18-28 is not modelled.
- The code after `return prompts` in utils/find_and_tap_button.py:151-205 is unreachable and is not modelled.
- The crop around each button in utils/find_button_corrdinates.py:193-199 has no effect. Its region is overwritten at lines 203-204 before any use, so it is not modelled. Bounds.Crop models the crop of find_button_corrdinates.py:205-209.
- LikeSearch.SearchOutcome: an exception inside a view ends that view and counts as a scroll. It is not told apart from a view that found nothing.
- PromptPairs.ExtractPairs: the node texts are stripped up front, in a list of their own, rather than inside the loop. Nothing else reads the nodes.
- PromptScan.ScanWithScrolling: `max_swipes` is a natural number. Negative budgets run no pass, as `range` does.
- Sanitize.EscapeRoundTrip: `TypedText` assumes that `adb shell input text` receives its argument verbatim. The device shell's own reading of `( ) # ~ * ? [ ] { }`, which the sanitiser keeps, is not modelled.
- Sending.TextArgsTypeMessage: states what `input text` types under the same assumption. The device shell may still expand or cut an argument holding one of `( ) # ~ * ? [ ] { }`.
- Sending.TextArgsShape: bounds each argument by 200 characters rather than stating the exact length after escaping.
- The first definitions of `parse_bounds`, `take_ui_dump` and `find_and_tap_skip_button` in utils/actions.py are not modelled, because Python keeps only the last definition of each name.

## Findings

| source | as written | input that shows it | evidently intended | confidence | as-written member | corrected member |
|---|---|---|---|---|---|---|
| utils/message_sender.py:118 | `return Fals` names an undefined variable, so the generic except branch raises NameError instead of answering | a generic exception (not CalledProcessError) on a screen with no Cancel button | `return False` | high, not executed | Sending.FalsRaisesNameError | Sending.FallbackReturnsFalse |
| utils/smart_message_generator.py:63-67 | every banned pattern is searched with `re.IGNORECASE`, so `\b[A-Z]{2,}\b` rejects any word of two letters or more and `\b[A-Z]\s?Man\b` rejects "a man" | "hey u" | the capitals rules match capital letters only | high, not executed | Validators.GeneratorRejectsWords, Validators.GeneratorGenerate | Validators.GeneratorAcceptsShortWords, Validators.GeneratorGenerateCorrected |
| utils/prompt_extractor.py:38-44 | when a known prompt's window is empty the `for j` loop does not run, and `i = j` reuses a stale `j` (an endless loop) or an unbound one (NameError) | a dump whose last two texts are known prompts; a dump whose only text is a known prompt | move on to the next node when the window is empty | high, not executed | PromptPairs.LastPromptsLoop | PromptPairs.LastPromptEnds |
