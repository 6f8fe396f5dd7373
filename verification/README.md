# KeySender script interpreter, in Dafny

This project models the script interpreter of the `KeySender` class in
`main.cpp`, the engine that types a text script into another window. That
engine is `send_char`, `send_line` and the line loop of `process_file`. Here
it is a set of pure functions from an interval state and script lines to a
trace of events. Each side effect of the program becomes an event:

- an `xvkbd -xsendevent -text <token>` call becomes `Emit(token)`;
- a `sleep_for` becomes `Delay(ms)`;
- the `popupTextChange`, `popupSizeChange` and `scriptEnded` signals become
  `PopupText`, `PopupSize` and `ScriptEnded`;
- `qApp->quit()` becomes `QuitRequested`.

The state is the pair of intervals (key and line), starting at 40 ms and
100 ms.

Modules:

- `Options`: the `Option` datatype.
- `Seqs`: small sequence identities the proofs use.
- `QStrings`: the Qt string operations the interpreter uses, over `string`:
  - `QChar::isSpace`;
  - `startsWith`;
  - `trimmed`;
  - `split(" ")`, keeping empty parts;
  - `remove("#popup")`: left to right, non-overlapping, never rescanning
    what it produced;
  - `replace("\\n", "\n")`.
- `QtInt`: `QString::toInt()`, in base 10 with no `ok` flag. It trims, reads
  an optional sign and one or more ASCII digits, and yields 0 when the text is
  not a numeral or the value does not fit in a 32-bit `int`.
- `Trace`: the events, and counting functions over traces (occurrences,
  keystrokes, total delay).
- `KeySender`:
  - `SendChar`, `KindOf`, `PopupPayload`, `TypeLine` and `SendLine`;
  - `Interpret`, the `process_file` loop;
  - `ProcessFile`, which takes the script as its lines and a flag saying
    whether the file could be opened.
- `ScriptProperties`:
  - reference definitions, such as `RunLines` (`send_line` applied to each
    line in turn) and `Untype` (the inverse of the keystroke encoding);
  - the properties of the interpreter, proved against them.

`send_line` reads `splitted[1]`, and for some directives `splitted[2]`,
without checking that they exist. So `SendLine` requires `HasArgs`: the line
has at least as many spaces as its directive reads arguments. `Runnable`
lifts this to a script. Only the lines before the first `#quit` or
`#pause_forever` need their arguments, because later lines are never sent.

Facts about the program that the model keeps:

- a `#popup_append ...` line is a `#popup` line whose text keeps `_append`;
- a `#popup` line whose text is empty after trimming shows nothing;
- `toInt` yields 0 for a malformed number;
- intervals may be negative or zero.

## Model

| member | source | states |
|---|---|---|
| KeySender.SendChar | main.cpp:46-53 | `send_char` makes one keystroke. Its token is the text, or the `"\[space]"` placeholder, and it decodes back to the text sent. |
| ScriptProperties.SendCharTokens | main.cpp:46-50 | A space is sent as `"\[space]"` and any other character as itself, so two different characters never give the same keystroke. |
| KeySender.KindOf | main.cpp:57-80 | A line is classified as a comment exactly when it is all whitespace or starts with `##`. |
| KeySender.HasArgsIff | main.cpp:60-78 | The pieces `send_line` indexes exist exactly when the line has as many spaces as its directive reads arguments. |
| KeySender.PopupPayload | main.cpp:71-74 | The popup text is empty exactly when nothing but whitespace is left once every `#popup` is removed, and it never contains a written `\n`. |
| KeySender.TypeChars | main.cpp:82-85 | Typing n characters gives 2n events. |
| KeySender.TypeCharsAt | main.cpp:82-85 | The i-th character's keystroke is event 2i, and the key interval follows it. |
| KeySender.TypeCharsKinds | main.cpp:82-85 | Typing characters makes only keystrokes and delays. |
| KeySender.TypeLine | main.cpp:82-87 | Typing a line of n characters gives 2n + 2 events, the last two being the `"\r"` keystroke and the line interval. |
| KeySender.IsQuit | main.cpp:104 | The test `line.startsWith("#quit")` of the loop. |
| KeySender.IsPause | main.cpp:108 | The test `line.startsWith("#pause_forever")` of the loop. |
| KeySender.IsStop | main.cpp:104-108 | A line the loop stops at instead of sending it: one passing either test. |
| QStrings.IsSpace | main.cpp:57 | `QChar::isSpace`, the whitespace `trimmed` cuts at main.cpp:57 and :72: TAB to CR, space, NEL, NBSP and the Unicode separators. |
| QStrings.StartsWith | main.cpp:57-77 | `startsWith`: the line begins with the keyword, as every test of `send_line` and of the loop at main.cpp:104-108 uses it. |
| ScriptProperties.StopLinesWouldBeTyped | main.cpp:104-108 | A `#quit` line is never a `#pause_forever` line, and neither kind of stop line is a `send_line` directive; only the loop's own tests stop on them. |
| ScriptProperties.DefaultTiming | main.cpp:128-129 | From the initial intervals of 40 and 100 ms, a script of one typed line of n characters requests 40n + 100 ms of delay in all and ends with `scriptEnded`. |
| KeySender.TypeLineShape | main.cpp:82-87 | A typed line of n characters gives 2n + 2 events: each character's keystroke then the key interval, then the return key then the line interval. It gives nothing else and never ends the run. |
| KeySender.SendLine | main.cpp:55-88 | Only `#interval` changes the state. A line makes keystrokes exactly when it is typed, and then its trace has the typing shape. Every other line gives at most one event, and no line ends the run. |
| KeySender.FirstStop | main.cpp:101-111 | Finds the first line starting with `#quit` or `#pause_forever`; no earlier line is one. When it finds none, no line is one. |
| KeySender.Interpret | main.cpp:101-118 | `scriptEnded` is in the trace exactly when no stop line occurs, `qApp->quit()` exactly when the first stop line is `#quit`, and either one can only be the last event. |
| KeySender.ProcessFile | main.cpp:91-119 | A file that cannot be opened gives `false` and no events. Otherwise the result is `true`, and `scriptEnded` is signalled exactly when no stop line occurs. |
| ScriptProperties.RunLines | main.cpp:101-114 | Sending lines one after another never requests a quit or ends the script. |
| ScriptProperties.StopIndex | main.cpp:101-111 | Where the loop stops lies within the script. |
| ScriptProperties.KeyTokens | main.cpp:82-83 | A line has one keystroke token per character. |
| ScriptProperties.CommentIsNoOp | main.cpp:57-58 | A blank, whitespace-only or `##` line gives no events and leaves the intervals unchanged. |
| ScriptProperties.IntervalReplacesBoth | main.cpp:62-66 | `#interval a b` sets the intervals to `toInt(a)` and `toInt(b)`. The result is the same from any earlier state, and the line gives no events. |
| ScriptProperties.SleepIsOneDelay | main.cpp:67-69 | `#sleep n` gives exactly one delay of `toInt(n)` and leaves the state unchanged. |
| ScriptProperties.ResizeIsOneResize | main.cpp:77-79 | `#resize_popup w h` gives exactly one resize to `toInt(w)` by `toInt(h)` and leaves the state unchanged. |
| ScriptProperties.PopupShowsPayload | main.cpp:70-76 | A `#popup` line leaves the state unchanged. It shows no text exactly when only whitespace remains after removal; otherwise it shows exactly its payload, with no keystrokes or delays. |
| ScriptProperties.OtherLinesAreTyped | main.cpp:57-87 | A line that is not blank, not `##` and starts with none of the four keywords (such as `#foo`) is typed in full. |
| ScriptProperties.NotComment | main.cpp:57 | A line starting with `#` and then something other than `#` is not a comment. |
| ScriptProperties.IntervalLineKind | main.cpp:57-62 | Every line starting with `#interval` takes the interval branch. |
| ScriptProperties.SleepLineKind | main.cpp:57-67 | Every line starting with `#sleep` takes the sleep branch. |
| ScriptProperties.PopupLineKind | main.cpp:57-70 | Every line starting with `#popup` takes the popup branch. |
| ScriptProperties.ResizeLineKind | main.cpp:57-77 | Every line starting with `#resize_popup` takes the resize branch. |
| ScriptProperties.TwoArgLine | main.cpp:60 | `keyword x y` starts with the keyword and splits into keyword, x and y. |
| ScriptProperties.OneArgLine | main.cpp:60 | `keyword x` starts with the keyword and splits into keyword and x. |
| ScriptProperties.IntervalArgs | main.cpp:60-66 | `#interval x y` for any two words has its arguments and sets the intervals to `toInt(x)` and `toInt(y)`. |
| ScriptProperties.SleepArg | main.cpp:60-69 | `#sleep x` for any word has its argument and sleeps `toInt(x)`. |
| ScriptProperties.ResizeArgs | main.cpp:60-79 | `#resize_popup x y` for any two words has its arguments and resizes to `toInt(x)` by `toInt(y)`. |
| ScriptProperties.IntervalNumerals | main.cpp:62-64 | `#interval a b`, written with the numerals of two `int`s, sets exactly those intervals. |
| ScriptProperties.SleepNumeral | main.cpp:67-68 | `#sleep n`, written with the numeral of an `int`, sleeps exactly n ms. |
| ScriptProperties.ResizeNumerals | main.cpp:77-78 | `#resize_popup w h`, written with numerals, resizes to exactly w by h. |
| ScriptProperties.SpacedTextHasNoKeyword | main.cpp:71 | Putting a space in front of a text with no `#popup` adds no `#popup`. |
| ScriptProperties.PopupPayloadOfWritten | main.cpp:71-73 | `#popup w` has `w` with its written `\n`s expanded as its payload. This holds for a `w` without surrounding whitespace or `#popup`. |
| ScriptProperties.PopupPayloadOf | main.cpp:71-73 | `#popup text` has `text` as its payload. This holds for a text without surrounding whitespace, `#popup` or written `\n`. |
| ScriptProperties.PopupRoundTrip | main.cpp:70-76 | Such a `#popup text` line shows exactly `text` and nothing else. |
| ScriptProperties.PopupEscapedRoundTrip | main.cpp:70-76 | A multi-line text written on a `#popup` line, with each newline as `\n`, is shown exactly, real newlines included. The text has no surrounding whitespace and no backslash, and its written form has no `#popup`. |
| ScriptProperties.EscapeTwoLines | main.cpp:73 | The written form of `a`, newline, `b` is `a\nb`. |
| ScriptProperties.TwoLinePopupExample | main.cpp:70-76 | `#popup a\nb` shows `a`, a newline, then `b`. |
| ScriptProperties.TypeCharsKeystrokes | main.cpp:82-83 | The keystrokes of typing characters are their `send_char` tokens, in order. |
| ScriptProperties.UntypeSnoc | main.cpp:82-83 | Decoding one more token appends its text. |
| ScriptProperties.TokenTextOfChar | main.cpp:48-52 | The token of one character decodes to that character. |
| ScriptProperties.UntypeKeyTokens | main.cpp:82-83 | Decoding the keystrokes of a line gives the line back. |
| ScriptProperties.TypedLineKeystrokes | main.cpp:82-86 | A typed line of n characters makes exactly n + 1 keystrokes: its characters' tokens in order, then the return key. |
| ScriptProperties.TypeCharsDelay | main.cpp:82-85 | Typing n characters requests n key intervals of delay. |
| ScriptProperties.TypedLineDelay | main.cpp:82-87 | A typed line of n characters requests n key intervals plus one line interval of delay. |
| ScriptProperties.RunnableIff | main.cpp:101-113 | A script can be run exactly when every line before the first stop has its arguments. |
| ScriptProperties.AllHaveArgsCons | main.cpp:101-113 | A line with its arguments in front of lines with theirs gives lines that all have theirs. |
| ScriptProperties.RunLinesCons | main.cpp:101-114 | Sending a line and then the rest is the first line's events followed by the rest's events, from the first line's state. |
| ScriptProperties.AllHaveArgsAppend | main.cpp:101-113 | Joining two lists of lines that have their arguments gives lines that have theirs. |
| ScriptProperties.RunLinesAppend | main.cpp:101-114 | Sending a + b is sending a, then b from the state a leaves. |
| ScriptProperties.InterpretAppend | main.cpp:101-114 | Running a stop-free prefix and then b gives the prefix's events, then b's run from the state the prefix leaves. |
| ScriptProperties.InterpretCons | main.cpp:101-114 | A non-stop line in front of a script contributes its `send_line` events, then the rest runs from its state. |
| ScriptProperties.EndOfInputSignalsOnce | main.cpp:101-118 | With no stop line, the trace is every line's events in order followed by `scriptEnded`. `scriptEnded` occurs exactly once and quit never. |
| ScriptProperties.StopEndsRun | main.cpp:104-111 | At the first stop line, the trace is the events of the lines before it, plus one quit when the stop line is `#quit`. `scriptEnded` never occurs. |
| ScriptProperties.LinesAfterStopIgnored | main.cpp:104-111 | Lines after the first stop line change neither whether the script runs nor its trace. |
| ScriptProperties.TypedLine | main.cpp:82-87 | A typed line has its arguments, types its text and leaves the intervals unchanged. |
| ScriptProperties.IntervalIsNotStop | main.cpp:104-108 | An `#interval` line is neither `#quit` nor `#pause_forever`. |
| ScriptProperties.IntervalGovernsNextLine | main.cpp:62-87 | After `#interval a b`, the next typed line waits `toInt(a)` after each character and `toInt(b)` after the return key, whatever the intervals were before. |
| ScriptProperties.ProcessFileDefaults | main.cpp:91-129 | An unopened file gives `false` and nothing else. Otherwise the first typed line uses 40 ms per character and 100 ms per line. |
| ScriptProperties.ABIsTyped | main.cpp:57-87 | `a b` is a typed line. |
| ScriptProperties.TypeABExample | main.cpp:82-87 | `a b` types `a`, the space placeholder and `b`, each followed by 40 ms, then the return key followed by 100 ms. |
| ScriptProperties.PopupAppendIsPopup | main.cpp:70-71 | A `#popup_append` line is a `#popup` line: the leading `#popup` is cut, `_append` is kept, and the rest loses its own `#popup`s. |
| ScriptProperties.QuitOnlyExample | main.cpp:104-107 | A script made only of `#quit` returns `true` and requests a quit, and nothing else. |
| QStrings.Trim | main.cpp:57 | `trimmed` cuts only whitespace, from the two ends. What remains neither starts nor ends with whitespace. |
| QStrings.TrimEmptyIffAllSpace | main.cpp:57 | `trimmed().isEmpty()` holds exactly when the line is all whitespace. |
| QStrings.TrimNoOp | main.cpp:72 | Trimming changes nothing when neither end is whitespace. |
| QStrings.TrimIdempotent | main.cpp:72 | Trimming twice is trimming once. |
| QStrings.TrimLeadingSpace | main.cpp:72 | One leading space before a text without whitespace at its ends is cut. |
| QStrings.StartsWithAppend | main.cpp:62 | A string starts with any prefix it was built from. |
| QStrings.Split | main.cpp:60 | `split(" ")` gives one piece more than there are spaces, and no piece contains a space. |
| QStrings.SplitNoSpace | main.cpp:60 | A word without spaces splits to itself. |
| QStrings.SplitCons | main.cpp:60 | `a + " " + b` splits to `a` followed by the pieces of `b`. |
| QStrings.SplitTwo | main.cpp:60 | `k x` splits into k and x. |
| QStrings.SplitThree | main.cpp:60 | `k x y` splits into k, x and y. |
| QStrings.RemoveAll | main.cpp:71 | Removal never lengthens the line. |
| QStrings.RemoveAllPrefix | main.cpp:71 | An occurrence at the start is removed, and the scan continues after it. |
| QStrings.RemoveAllCons | main.cpp:71 | When the pattern does not start at the first character, that character is kept and the scan continues after it. Together with RemoveAllPrefix this decides every step of the removal. |
| QStrings.RemoveAllKeepsHead | main.cpp:71 | A prefix with no character that can start the pattern is kept whole in front of the removal from the rest. |
| QStrings.ContainsCons | main.cpp:71 | An occurrence is either at the head or in the tail. |
| QStrings.RemoveAllUnchangedIff | main.cpp:71 | Removal leaves the line unchanged exactly when the pattern does not occur. |
| QStrings.UnescapeNewlines | main.cpp:73 | The expansion never lengthens the text, empties it only when it was empty, and turns a leading `\n` into a newline. UnescapeEscape fixes the whole result for the written form of any text with no backslash. |
| QStrings.EscapeNewlines | main.cpp:73 | The inverse of the expansion: each newline is written as `\n`. The written form is never shorter. |
| QStrings.UnescapeEscape | main.cpp:73 | For a text with no backslash, expanding its written form gives the text back: every newline is restored and every other character kept. |
| QStrings.EscapeFirst | main.cpp:73 | The written form keeps a first character that is not a newline. |
| QStrings.EscapeLast | main.cpp:73 | The written form keeps a last character that is not a newline. |
| QStrings.EscapeAt | main.cpp:73 | A written `\n` is a backslash followed by `n`. |
| QStrings.UnescapeLeavesNoEscape | main.cpp:73 | No written `\n` survives the expansion. |
| QStrings.UnescapeUnchangedIff | main.cpp:73 | The expansion changes the text exactly when it contains a written `\n`. |
| QtInt.ToInt | main.cpp:63-64 | `toInt` always gives a 32-bit `int`, and a non-zero result is the value of the numeral in the text. |
| QtInt.ToIntOfDecimal | main.cpp:63-64 | A numeral whose value fits in an `int` reads as that value. |
| QtInt.DecimalRoundTrip | main.cpp:63-64 | Reading back the digits of a natural number gives the number. |
| QtInt.TrimDigits | main.cpp:63-64 | A run of digits has nothing to trim. |
| QtInt.ParseDigitsDecimal | main.cpp:63-64 | The digits of a natural number parse back to it. |
| QtInt.TrimNumeral | main.cpp:63-64 | A numeral has nothing to trim. |
| QtInt.ParseSignedNumeral | main.cpp:63-64 | A signed numeral parses back to its number. |
| QtInt.ToIntNumeral | main.cpp:63-64 | `toInt` reads every `int` back from its numeral. |
| Trace.TerminalOnlyLastAppend | main.cpp:101-118 | Non-terminal events in front of a trace whose terminal event is last keep it last. |
| Trace.Occurrences | main.cpp:117 | An event occurs zero times exactly when it is absent. |
| Trace.OccurrencesAppend | main.cpp:101-118 | Occurrences add up over joined traces. |
| Trace.Keystrokes | main.cpp:82-86 | There are no more keystrokes than events. |
| Trace.KeystrokesAppend | main.cpp:82-86 | Keystrokes add up over joined traces. |
| Trace.TotalDelayAppend | main.cpp:84-87 | Requested delays add up over joined traces. |
| Trace.KeyThenDelay | main.cpp:83-84 | A keystroke followed by a delay makes one keystroke and sleeps for that delay. |

## Left out

- The window, its layout, its resizing and moving, and the screen geometry in
  `main`: user interface, outside the interpreter.
- `QThread`, `moveToThread` and the signal and slot connections: concurrency
  plumbing. Each emitted signal is a trace event instead.
- The `system("xvkbd ...")` call, with its conversion to Latin-1 and its
  interpretation by the shell: a foreign process. Only the token handed to it
  is modelled.
- Real sleeping: each `sleep_for` is a `Delay` event. A negative delay is
  recorded as given, although `sleep_for` does not wait for it.
- Opening and reading the file with `QFile` and `QTextStream`: I/O. The script
  arrives as its lines, already split, and a flag says whether it could be
  opened.
- `qApp->quit()` beyond the request itself, `qDebug` and `qWarning`: side
  effects outside the interpreter.
- Characters are Unicode scalar values here, while `for (QChar c : line)`
  walks UTF-16 code units. A character outside the Basic Multilingual Plane is
  one keystroke here and two in the program.
- QtInt.ToInt: written from Qt's documented `toInt` behaviour, because Qt's
  own source is not part of this model. No property of the interpreter
  depends on more than its 32-bit range and on its reading back numerals.
- A line missing an argument that `send_line` indexes (`#interval 5`, `#sleep`)
  is excluded by the `HasArgs` precondition and not modelled. In the program
  such an index is out of range, and what follows depends on the Qt build.
- QStrings.UnescapeNewlines: its own contract fixes only the length bound,
  emptiness and the first character. UnescapeEscape fixes the whole result
  only on texts whose backslashes all begin a `\n`. Other texts are covered
  only by UnescapeLeavesNoEscape and UnescapeUnchangedIff.
- QStrings.RemoveAll: its own contract states only the length bound. Its
  result is fixed step by step instead of by one closed form. RemoveAllPrefix
  covers the pattern at the start, RemoveAllCons covers any other first
  character, and an input shorter than the pattern is kept by definition.
  Removal can create a new `#popup` (for example `#pop#popupup`), so "no
  `#popup` remains" is not promised.
