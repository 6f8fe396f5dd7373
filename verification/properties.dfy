/**
  What the interpreter promises about traces: the effect of each directive,
  the shape and content of a typed line, and how the loop stops.
 */
module ScriptProperties {
  import opened QStrings
  import opened QtInt
  import opened Trace
  import opened Options
  import opened KeySender
  import opened Seqs

  /* ---------------------------------------------------------------------- */
  /* Reference definitions                                                  */
  /* ---------------------------------------------------------------------- */

  /** Every line has the arguments its directive reads. */
  predicate AllHaveArgs(lines: seq<string>)
    decreases |lines|
  {
    |lines| == 0 || (HasArgs(lines[0]) && AllHaveArgs(lines[1..]))
  }

  /** `send_line` applied to every line in turn, the state threaded through. */
  function RunLines(st: State, lines: seq<string>): (r: Step)
    requires AllHaveArgs(lines)
    ensures QuitRequested !in r.events && ScriptEnded !in r.events
    decreases |lines|
  {
    if |lines| == 0 then Step(st, [])
    else
      var first := SendLine(st, lines[0]);
      var rest := RunLines(first.state, lines[1..]);
      Step(rest.state, first.events + rest.events)
  }

  /** Where the loop stops: the first stop line, or the end of the input. */
  function StopIndex(lines: seq<string>): (k: nat)
    ensures k <= |lines|
  {
    match FirstStop(lines)
    case Some(k) => k
    case None => |lines|
  }

  /** The text a sequence of keystroke tokens types. */
  function Untype(tokens: seq<string>): string {
    if |tokens| == 0 then []
    else Untype(tokens[..|tokens| - 1]) + TokenText(tokens[|tokens| - 1])
  }

  /** The tokens `send_char` is given for the characters of a line. */
  function KeyTokens(line: string): (tokens: seq<string>)
    ensures |tokens| == |line|
  {
    if |line| == 0 then []
    else KeyTokens(line[..|line| - 1]) + [SendChar([line[|line| - 1]]).token]
  }

  lemma MulSucc(n: int, k: int)
    ensures (n + 1) * k == n * k + k
  {
  }

  /* ---------------------------------------------------------------------- */
  /* send_char                                                              */
  /* ---------------------------------------------------------------------- */

  /** A space is sent as the placeholder and any other character as itself,
      so distinct characters give distinct keystrokes. */
  lemma SendCharTokens(c: char, d: char)
    ensures SendChar([c]).token == (if c == ' ' then SpaceToken else [c])
    ensures SendChar([c]) == SendChar([d]) ==> c == d
  {
  }

  /* ---------------------------------------------------------------------- */
  /* send_line, directive by directive                                      */
  /* ---------------------------------------------------------------------- */

  /** A blank or whitespace-only line, or one starting with `##`, yields no
      events and leaves the intervals alone. */
  lemma CommentIsNoOp(st: State, line: string)
    requires AllSpace(line) || StartsWith(line, CommentPrefix)
    ensures HasArgs(line)
    ensures SendLine(st, line) == Step(st, [])
  {
  }

  /** `#interval a b` replaces both intervals by `toInt(a)` and `toInt(b)`
      whatever they were before, and yields no events. */
  lemma IntervalReplacesBoth(st: State, other: State, line: string)
    requires KindOf(line) == SetInterval && HasArgs(line)
    ensures SendLine(st, line).events == []
    ensures SendLine(st, line).state == State(ToInt(Split(line)[1]), ToInt(Split(line)[2]))
    ensures SendLine(st, line).state == SendLine(other, line).state
  {
  }

  /** `#sleep n` yields exactly one delay of `toInt(n)`. */
  lemma SleepIsOneDelay(st: State, line: string)
    requires KindOf(line) == Sleep && HasArgs(line)
    ensures SendLine(st, line) == Step(st, [Delay(ToInt(Split(line)[1]))])
  {
  }

  /** `#resize_popup w h` yields exactly one resize to `toInt(w)` by `toInt(h)`. */
  lemma ResizeIsOneResize(st: State, line: string)
    requires KindOf(line) == ResizePopup && HasArgs(line)
    ensures SendLine(st, line) == Step(st, [PopupSize(ToInt(Split(line)[1]), ToInt(Split(line)[2]))])
  {
  }

  /** A `#popup` line shows its payload, and only when the payload is not
      empty; it never types or sleeps, and the shown text has every written
      `\n` expanded. */
  lemma PopupShowsPayload(st: State, line: string)
    requires KindOf(line) == Popup
    ensures HasArgs(line)
    ensures SendLine(st, line).state == st
    ensures SendLine(st, line).events == [] <==> AllSpace(RemoveAll(line, PopupKeyword))
    ensures SendLine(st, line).events != [] ==>
              SendLine(st, line).events == [PopupText(PopupPayload(line))]
              && !Contains(PopupPayload(line), NewlineEscape)
  {
  }

  /** A line that is not blank, not `##` and starts with none of the four
      keywords, such as an unknown `#foo` directive, is typed. */
  lemma OtherLinesAreTyped(st: State, line: string)
    requires !AllSpace(line) && !StartsWith(line, CommentPrefix)
    requires !StartsWith(line, IntervalKeyword) && !StartsWith(line, SleepKeyword)
    requires !StartsWith(line, PopupKeyword) && !StartsWith(line, ResizePopupKeyword)
    ensures KindOf(line) == Typed && HasArgs(line)
    ensures SendLine(st, line) == Step(st, TypeLine(st, line))
  {
    assert ArgsRead(KindOf(line)) == 0;
    var r := SendLine(st, line);
    assert r.events == TypeLine(st, line);
  }

  /* ---------------------------------------------------------------------- */
  /* Keywords match as prefixes                                             */
  /* ---------------------------------------------------------------------- */

  /** A line that starts with `#` and then something other than `#` is not
      blank and not a comment. */
  lemma NotComment(line: string)
    requires |line| >= 2 && line[0] == '#' && line[1] != '#'
    ensures KindOf(line) != Comment
  {
    assert !IsSpace(line[0]);
    PrefixesDisagree(line, line[..2], CommentPrefix, 1);
  }

  /** A line starting with `#interval` sets the intervals, whatever follows. */
  lemma IntervalLineKind(line: string)
    requires StartsWith(line, IntervalKeyword)
    ensures KindOf(line) == SetInterval
  {
    StartsWithAt(line, IntervalKeyword, 0);
    StartsWithAt(line, IntervalKeyword, 1);
    NotComment(line);
  }

  /** A line starting with `#sleep` sleeps, whatever follows. */
  lemma SleepLineKind(line: string)
    requires StartsWith(line, SleepKeyword)
    ensures KindOf(line) == Sleep
  {
    StartsWithAt(line, SleepKeyword, 0);
    StartsWithAt(line, SleepKeyword, 1);
    NotComment(line);
    PrefixesDisagree(line, SleepKeyword, IntervalKeyword, 1);
  }

  /** A line starting with `#popup`, `#popup_append` included, shows a
      popup text, whatever follows. */
  lemma PopupLineKind(line: string)
    requires StartsWith(line, PopupKeyword)
    ensures KindOf(line) == Popup
  {
    StartsWithAt(line, PopupKeyword, 0);
    StartsWithAt(line, PopupKeyword, 1);
    NotComment(line);
    PrefixesDisagree(line, PopupKeyword, IntervalKeyword, 1);
    PrefixesDisagree(line, PopupKeyword, SleepKeyword, 1);
  }

  /** A line starting with `#resize_popup` resizes the popup, whatever
      follows. */
  lemma ResizeLineKind(line: string)
    requires StartsWith(line, ResizePopupKeyword)
    ensures KindOf(line) == ResizePopup
  {
    StartsWithAt(line, ResizePopupKeyword, 0);
    StartsWithAt(line, ResizePopupKeyword, 1);
    NotComment(line);
    PrefixesDisagree(line, ResizePopupKeyword, IntervalKeyword, 1);
    PrefixesDisagree(line, ResizePopupKeyword, SleepKeyword, 1);
    PrefixesDisagree(line, ResizePopupKeyword, PopupKeyword, 1);
  }

  /* ---------------------------------------------------------------------- */
  /* Directives written with numerals                                       */
  /* ---------------------------------------------------------------------- */

  /** The line `keyword x y`: it starts with the keyword and splits into the
      keyword and the two words. */
  lemma TwoArgLine(keyword: string, x: string, y: string)
    requires ' ' !in keyword && ' ' !in x && ' ' !in y
    ensures var line := keyword + " " + x + " " + y;
            StartsWith(line, keyword) && Split(line) == [keyword, x, y]
  {
    SplitThree(keyword, x, y);
    AppendAssoc(keyword, " ", x);
    AppendAssoc(keyword, " " + x, " ");
    AppendAssoc(keyword, " " + x + " ", y);
    StartsWithAppend(keyword, " " + x + " " + y);
  }

  /** The line `keyword x`: it starts with the keyword and splits into the
      keyword and the word. */
  lemma OneArgLine(keyword: string, x: string)
    requires ' ' !in keyword && ' ' !in x
    ensures var line := keyword + " " + x;
            StartsWith(line, keyword) && Split(line) == [keyword, x]
  {
    SplitTwo(keyword, x);
    AppendAssoc(keyword, " ", x);
    StartsWithAppend(keyword, " " + x);
  }

  /** `#interval x y` for any two words sets the intervals to their values. */
  lemma IntervalArgs(st: State, x: string, y: string)
    requires ' ' !in x && ' ' !in y
    ensures var line := IntervalKeyword + " " + x + " " + y;
            HasArgs(line) && SendLine(st, line) == Step(State(ToInt(x), ToInt(y)), [])
  {
    var line := IntervalKeyword + " " + x + " " + y;
    TwoArgLine(IntervalKeyword, x, y);
    var parts := Split(line);
    assert parts[1] == x && parts[2] == y;
    IntervalLineKind(line);
    HasArgsIff(line);
    IntervalReplacesBoth(st, st, line);
  }

  /** `#sleep x` for any word sleeps for its value. */
  lemma SleepArg(st: State, x: string)
    requires ' ' !in x
    ensures var line := SleepKeyword + " " + x;
            HasArgs(line) && SendLine(st, line) == Step(st, [Delay(ToInt(x))])
  {
    var line := SleepKeyword + " " + x;
    OneArgLine(SleepKeyword, x);
    var parts := Split(line);
    assert parts[1] == x;
    SleepLineKind(line);
    HasArgsIff(line);
    SleepIsOneDelay(st, line);
  }

  /** `#resize_popup x y` for any two words resizes to their values. */
  lemma ResizeArgs(st: State, x: string, y: string)
    requires ' ' !in x && ' ' !in y
    ensures var line := ResizePopupKeyword + " " + x + " " + y;
            HasArgs(line) && SendLine(st, line) == Step(st, [PopupSize(ToInt(x), ToInt(y))])
  {
    var line := ResizePopupKeyword + " " + x + " " + y;
    TwoArgLine(ResizePopupKeyword, x, y);
    var parts := Split(line);
    assert parts[1] == x && parts[2] == y;
    ResizeLineKind(line);
    HasArgsIff(line);
    ResizeIsOneResize(st, line);
  }

  /** `#interval a b` with numerals for `a` and `b` sets exactly those
      intervals. */
  lemma IntervalNumerals(st: State, a: int, b: int)
    requires Int32Min <= a <= Int32Max && Int32Min <= b <= Int32Max
    ensures var line := IntervalKeyword + " " + Numeral(a) + " " + Numeral(b);
            HasArgs(line) && SendLine(st, line) == Step(State(a, b), [])
  {
    IntervalArgs(st, Numeral(a), Numeral(b));
    ToIntNumeral(a);
    ToIntNumeral(b);
  }

  /** `#sleep n` with a numeral for `n` sleeps exactly `n` milliseconds. */
  lemma SleepNumeral(st: State, n: int)
    requires Int32Min <= n <= Int32Max
    ensures var line := SleepKeyword + " " + Numeral(n);
            HasArgs(line) && SendLine(st, line) == Step(st, [Delay(n)])
  {
    SleepArg(st, Numeral(n));
    ToIntNumeral(n);
  }

  /** `#resize_popup w h` with numerals for `w` and `h` resizes to exactly
      `w` by `h`. */
  lemma ResizeNumerals(st: State, w: int, h: int)
    requires Int32Min <= w <= Int32Max && Int32Min <= h <= Int32Max
    ensures var line := ResizePopupKeyword + " " + Numeral(w) + " " + Numeral(h);
            HasArgs(line) && SendLine(st, line) == Step(st, [PopupSize(w, h)])
  {
    ResizeArgs(st, Numeral(w), Numeral(h));
    ToIntNumeral(w);
    ToIntNumeral(h);
  }

  /** A space followed by a text without `#popup` holds no `#popup`. */
  lemma SpacedTextHasNoKeyword(text: string)
    requires !Contains(text, PopupKeyword)
    ensures !Contains(" " + text, PopupKeyword)
  {
    var body := " " + text;
    ContainsCons(body, PopupKeyword);
    assert body[1..] == text;
    if |body| >= |PopupKeyword| {
      assert body[..|PopupKeyword|][0] == ' ';
    }
  }

  /** The payload of `#popup w`, for a written text `w` with no surrounding
      whitespace and no `#popup`, is `w` with its written `\n`s expanded. */
  lemma PopupPayloadOfWritten(w: string)
    requires |w| > 0 && !IsSpace(w[0]) && !IsSpace(w[|w| - 1])
    requires !Contains(w, PopupKeyword)
    ensures PopupPayload(PopupKeyword + " " + w) == UnescapeNewlines(w)
  {
    var body := " " + w;
    AppendAssoc(PopupKeyword, " ", w);
    RemoveAllPrefix(PopupKeyword, body);
    SpacedTextHasNoKeyword(w);
    RemoveAllUnchangedIff(body, PopupKeyword);
    TrimLeadingSpace(w);
  }

  /** The payload of `#popup text`, for a text with no surrounding
      whitespace, no `#popup` and no written `\n`, is the text itself. */
  lemma PopupPayloadOf(text: string)
    requires |text| > 0 && !IsSpace(text[0]) && !IsSpace(text[|text| - 1])
    requires !Contains(text, PopupKeyword) && !Contains(text, NewlineEscape)
    ensures PopupPayload(PopupKeyword + " " + text) == text
  {
    PopupPayloadOfWritten(text);
    UnescapeUnchangedIff(text);
  }

  /** A `#popup` line written for a text shows exactly that text, provided
      the text has no surrounding whitespace, no `#popup` of its own and no
      written `\n`. */
  lemma PopupRoundTrip(st: State, text: string)
    requires |text| > 0 && !IsSpace(text[0]) && !IsSpace(text[|text| - 1])
    requires !Contains(text, PopupKeyword) && !Contains(text, NewlineEscape)
    ensures var line := PopupKeyword + " " + text;
            HasArgs(line) && SendLine(st, line) == Step(st, [PopupText(text)])
  {
    var line := PopupKeyword + " " + text;
    AppendAssoc(PopupKeyword, " ", text);
    StartsWithAppend(PopupKeyword, " " + text);
    PopupLineKind(line);
    PopupPayloadOf(text);
    PopupShowsPayload(st, line);
  }

  /** A multi-line text, written on a `#popup` line with each newline as
      `\n`, is shown exactly: the popup gets the real newlines back.  The
      text has no surrounding whitespace and no backslash, and its written
      form holds no `#popup`. */
  lemma PopupEscapedRoundTrip(st: State, text: string)
    requires |text| > 0 && !IsSpace(text[0]) && !IsSpace(text[|text| - 1])
    requires '\\' !in text && !Contains(EscapeNewlines(text), PopupKeyword)
    ensures var line := PopupKeyword + " " + EscapeNewlines(text);
            HasArgs(line) && SendLine(st, line) == Step(st, [PopupText(text)])
  {
    var w := EscapeNewlines(text);
    var line := PopupKeyword + " " + w;
    EscapeFirst(text);
    EscapeLast(text);
    AppendAssoc(PopupKeyword, " ", w);
    StartsWithAppend(PopupKeyword, " " + w);
    PopupLineKind(line);
    PopupPayloadOfWritten(w);
    UnescapeEscape(text);
    PopupShowsPayload(st, line);
  }

  /** Example: `#popup a\nb` shows `a`, a newline, then `b`. */
  lemma TwoLinePopupExample(st: State)
    ensures var line := PopupKeyword + " " + "a\\nb";
            SendLine(st, line) == Step(st, [PopupText("a\nb")])
  {
    var text := "a\nb";
    EscapeTwoLines();
    assert !Contains("a\\nb", PopupKeyword) by {
      assert |"a\\nb"| < |PopupKeyword|;
    }
    PopupEscapedRoundTrip(st, text);
  }

  /** The written form of `a`, newline, `b`. */
  lemma EscapeTwoLines()
    ensures EscapeNewlines("a\nb") == "a\\nb"
  {
  }

  /* ---------------------------------------------------------------------- */
  /* Typed lines                                                            */
  /* ---------------------------------------------------------------------- */

  /** The keystrokes of a line's characters are their `send_char` tokens. */
  lemma {:induction false} TypeCharsKeystrokes(st: State, chars: string)
    ensures Keystrokes(TypeChars(st, chars)) == KeyTokens(chars)
  {
    if |chars| > 0 {
      var n := |chars| - 1;
      var last := [SendChar([chars[n]]), Delay(st.keyIntervalMs)];
      KeystrokesAppend(TypeChars(st, chars[..n]), last);
      TypeCharsKeystrokes(st, chars[..n]);
      KeyThenDelay(SendChar([chars[n]]).token, st.keyIntervalMs);
    }
  }

  /** Decoding one more token appends its text. */
  lemma UntypeSnoc(tokens: seq<string>, t: string)
    ensures Untype(tokens + [t]) == Untype(tokens) + TokenText(t)
  {
    SnocParts(tokens, t);
  }

  /** The token of a single character decodes to that character. */
  lemma TokenTextOfChar(c: char)
    ensures TokenText(SendChar([c]).token) == [c]
  {
    assert [c] != SpaceToken by { assert |SpaceToken| != 1; }
  }

  /** Decoding the keystrokes of a line's characters gives the line back. */
  lemma {:induction false} UntypeKeyTokens(line: string)
    ensures Untype(KeyTokens(line)) == line
  {
    if |line| > 0 {
      var n := |line| - 1;
      var t := SendChar([line[n]]).token;
      assert KeyTokens(line) == KeyTokens(line[..n]) + [t];
      UntypeKeyTokens(line[..n]);
      UntypeSnoc(KeyTokens(line[..n]), t);
      TokenTextOfChar(line[n]);
      LastSplit(line);
    }
  }

  /** A typed line of n characters makes exactly n + 1 keystrokes: the
      tokens of its characters, in order, which decode back to the line,
      then the return key. */
  lemma TypedLineKeystrokes(st: State, line: string)
    ensures Keystrokes(TypeLine(st, line)) == KeyTokens(line) + [ReturnToken]
    ensures |Keystrokes(TypeLine(st, line))| == |line| + 1
    ensures Untype(KeyTokens(line)) == line
  {
    var tail := [SendChar(ReturnToken), Delay(st.lineIntervalMs)];
    KeystrokesAppend(TypeChars(st, line), tail);
    TypeCharsKeystrokes(st, line);
    KeyThenDelay(ReturnToken, st.lineIntervalMs);
    UntypeKeyTokens(line);
  }

  lemma {:induction false} TypeCharsDelay(st: State, chars: string)
    ensures TotalDelay(TypeChars(st, chars)) == |chars| * st.keyIntervalMs
  {
    if |chars| > 0 {
      var n := |chars| - 1;
      var last := [SendChar([chars[n]]), Delay(st.keyIntervalMs)];
      TotalDelayAppend(TypeChars(st, chars[..n]), last);
      TypeCharsDelay(st, chars[..n]);
      KeyThenDelay(SendChar([chars[n]]).token, st.keyIntervalMs);
      MulSucc(n, st.keyIntervalMs);
    }
  }

  /** Typing a line of n characters requests n key intervals and one line
      interval in all. */
  lemma TypedLineDelay(st: State, line: string)
    ensures TotalDelay(TypeLine(st, line)) == |line| * st.keyIntervalMs + st.lineIntervalMs
  {
    var tail := [SendChar(ReturnToken), Delay(st.lineIntervalMs)];
    TotalDelayAppend(TypeChars(st, line), tail);
    TypeCharsDelay(st, line);
    KeyThenDelay(ReturnToken, st.lineIntervalMs);
  }

  /* ---------------------------------------------------------------------- */
  /* process_file                                                           */
  /* ---------------------------------------------------------------------- */

  /** A script can be run exactly when every line before the stop point
      has the arguments its directive reads. */
  lemma {:induction false} RunnableIff(lines: seq<string>)
    ensures Runnable(lines) <==> AllHaveArgs(lines[..StopIndex(lines)])
    decreases |lines|
  {
    if |lines| > 0 && !IsStop(lines[0]) {
      RunnableIff(lines[1..]);
      var k := StopIndex(lines);
      assert StopIndex(lines[1..]) == k - 1;
      assert lines[..k][1..] == lines[1..][..k - 1];
      assert lines[..k][0] == lines[0];
    }
  }

  /** Adding a line with its arguments in front keeps every line runnable. */
  lemma AllHaveArgsCons(x: string, rest: seq<string>)
    requires HasArgs(x) && AllHaveArgs(rest)
    ensures AllHaveArgs([x] + rest)
  {
    ConsParts(x, rest);
  }

  /** Running a line in front of others: its events come first, and the
      others run from the state it leaves. */
  lemma RunLinesCons(st: State, x: string, rest: seq<string>)
    requires HasArgs(x) && AllHaveArgs(rest)
    ensures AllHaveArgs([x] + rest)
    ensures var first := SendLine(st, x);
            var others := RunLines(first.state, rest);
            RunLines(st, [x] + rest) == Step(others.state, first.events + others.events)
  {
    AllHaveArgsCons(x, rest);
    ConsParts(x, rest);
  }

  lemma {:induction false} AllHaveArgsAppend(a: seq<string>, b: seq<string>)
    requires AllHaveArgs(a) && AllHaveArgs(b)
    ensures AllHaveArgs(a + b)
    decreases |a|
  {
    if |a| > 0 {
      AllHaveArgsAppend(a[1..], b);
      AllHaveArgsCons(a[0], a[1..] + b);
      ConsAppend(a, b);
    } else {
      AppendEmpty(a, b);
    }
  }

  /** Running two blocks of lines is running the first, then the second
      from the state the first leaves. */
  lemma {:induction false} RunLinesAppend(st: State, a: seq<string>, b: seq<string>)
    requires AllHaveArgs(a) && AllHaveArgs(b)
    ensures AllHaveArgs(a + b)
    ensures RunLines(st, a + b)
         == Step(RunLines(RunLines(st, a).state, b).state,
                 RunLines(st, a).events + RunLines(RunLines(st, a).state, b).events)
    decreases |a|
  {
    AllHaveArgsAppend(a, b);
    if |a| > 0 {
      var x := a[0];
      var first := SendLine(st, x);
      AllHaveArgsAppend(a[1..], b);
      RunLinesAppend(first.state, a[1..], b);
      var ra := RunLines(first.state, a[1..]);
      var rb := RunLines(ra.state, b);
      ConsAppend(a, b);
      RunLinesCons(st, x, a[1..]);
      RunLinesCons(st, x, a[1..] + b);
      AppendAssoc(first.events, ra.events, rb.events);
    } else {
      AppendEmpty(a, b);
    }
  }

  /** Lines before any stop line run one after another: the trace of the
      whole script is the trace of the first part followed by the trace of
      the rest from the state the first part left. */
  lemma {:induction false} InterpretAppend(st: State, a: seq<string>, b: seq<string>)
    requires FirstStop(a).None? && AllHaveArgs(a) && Runnable(b)
    ensures Runnable(a + b)
    ensures Interpret(st, a + b) == RunLines(st, a).events + Interpret(RunLines(st, a).state, b)
    decreases |a|
  {
    if |a| == 0 {
      AppendEmpty(a, b);
    } else {
      var x := a[0];
      var first := SendLine(st, x);
      var ra := RunLines(first.state, a[1..]);
      assert Runnable(a[1..] + b)
             && Interpret(first.state, a[1..] + b) == ra.events + Interpret(ra.state, b) by {
        assert !IsStop(x);
        assert FirstStop(a[1..]).None?;
        InterpretAppend(first.state, a[1..], b);
      }
      assert RunLines(st, a) == Step(ra.state, first.events + ra.events) by {
        ConsAppend(a, b);
        RunLinesCons(st, x, a[1..]);
      }
      assert Runnable(a + b)
             && Interpret(st, a + b) == first.events + Interpret(first.state, a[1..] + b) by {
        ConsAppend(a, b);
        InterpretCons(st, x, a[1..] + b);
      }
      var ib := Interpret(ra.state, b);
      AppendAssoc(first.events, ra.events, ib);
    }
  }

  /** Interpreting a line that is not a stop line in front of others: its
      events come first, and the others run from the state it leaves. */
  lemma InterpretCons(st: State, x: string, rest: seq<string>)
    requires !IsStop(x) && HasArgs(x) && Runnable(rest)
    ensures Runnable([x] + rest)
    ensures Interpret(st, [x] + rest)
         == SendLine(st, x).events + Interpret(SendLine(st, x).state, rest)
  {
    ConsParts(x, rest);
  }

  /** Without a stop line, every line contributes its events in order and
      `scriptEnded` is signalled once, as the very last event. */
  lemma EndOfInputSignalsOnce(st: State, lines: seq<string>)
    requires Runnable(lines) && FirstStop(lines).None?
    ensures AllHaveArgs(lines)
    ensures Interpret(st, lines) == RunLines(st, lines).events + [ScriptEnded]
    ensures Occurrences(Interpret(st, lines), ScriptEnded) == 1
    ensures Occurrences(Interpret(st, lines), QuitRequested) == 0
  {
    RunnableIff(lines);
    TakeDrop(lines, |lines|);
    InterpretAppend(st, lines, []);
    AppendEmpty([], lines);
    var evs := RunLines(st, lines).events;
    OccurrencesAppend(evs, [ScriptEnded], ScriptEnded);
    OccurrencesAppend(evs, [ScriptEnded], QuitRequested);
  }

  /** At the first `#quit` or `#pause_forever` line the loop stops: the lines
      before it contribute their events in order, `#quit` adds one
      `qApp->quit()`, and `scriptEnded` is never signalled. */
  lemma StopEndsRun(st: State, lines: seq<string>)
    requires Runnable(lines) && FirstStop(lines).Some?
    ensures AllHaveArgs(lines[..FirstStop(lines).value])
    ensures Interpret(st, lines)
         == RunLines(st, lines[..FirstStop(lines).value]).events
            + (if IsQuit(lines[FirstStop(lines).value]) then [QuitRequested] else [])
    ensures Occurrences(Interpret(st, lines), ScriptEnded) == 0
    ensures Occurrences(Interpret(st, lines), QuitRequested) == (if StopsAtQuit(lines) then 1 else 0)
  {
    var k := FirstStop(lines).value;
    var a := lines[..k];
    var b := lines[k..];
    RunnableIff(lines);
    TakeDrop(lines, k);
    assert FirstStop(a).None?;
    assert Runnable(b);
    InterpretAppend(st, a, b);
    var evs := RunLines(st, a).events;
    var last := if IsQuit(lines[k]) then [QuitRequested] else [];
    OccurrencesAppend(evs, last, ScriptEnded);
    OccurrencesAppend(evs, last, QuitRequested);
  }

  /** Nothing after the first stop line matters: appending more lines to a
      script that stops changes neither what can be run nor the trace. */
  lemma LinesAfterStopIgnored(st: State, lines: seq<string>, more: seq<string>)
    requires Runnable(lines) && FirstStop(lines).Some?
    ensures Runnable(lines + more)
    ensures Interpret(st, lines + more) == Interpret(st, lines)
  {
    var k := FirstStop(lines).value;
    var a := lines[..k];
    var b := lines[k..];
    RunnableIff(lines);
    TakeDrop(lines, k);
    AppendAssoc(a, b, more);
    ConsAppend(b, more);
    assert FirstStop(a).None?;
    InterpretAppend(st, a, b);
    InterpretAppend(st, a, b + more);
  }

  /** A typed line types its text and leaves the intervals alone. */
  lemma TypedLine(st: State, line: string)
    requires KindOf(line) == Typed
    ensures HasArgs(line)
    ensures SendLine(st, line) == Step(st, TypeLine(st, line))
  {
    assert ArgsRead(KindOf(line)) == 0;
    var r := SendLine(st, line);
    assert r.events == TypeLine(st, line);
  }

  /** A line starting with `#interval` is not a stop line. */
  lemma IntervalIsNotStop(line: string)
    requires StartsWith(line, IntervalKeyword)
    ensures !IsStop(line)
  {
    PrefixesDisagree(line, IntervalKeyword, QuitKeyword, 1);
    PrefixesDisagree(line, IntervalKeyword, PauseKeyword, 1);
  }

  /** After `#interval a b`, the next typed line uses `toInt(a)` after each
      character and `toInt(b)` after the return key, whatever the intervals
      were before. */
  lemma IntervalGovernsNextLine(st: State, setter: string, typed: string, rest: seq<string>)
    requires KindOf(setter) == SetInterval && HasArgs(setter)
    requires KindOf(typed) == Typed && !IsStop(typed)
    requires Runnable(rest)
    ensures Runnable([setter, typed] + rest)
    ensures var after := State(ToInt(Split(setter)[1]), ToInt(Split(setter)[2]));
            Interpret(st, [setter, typed] + rest) == TypeLine(after, typed) + Interpret(after, rest)
  {
    IntervalIsNotStop(setter);
    var after := State(ToInt(Split(setter)[1]), ToInt(Split(setter)[2]));
    PairAppend(setter, typed, rest);
    IntervalReplacesBoth(st, st, setter);
    TypedLine(after, typed);
    InterpretCons(after, typed, rest);
    InterpretCons(st, setter, [typed] + rest);
    AppendEmpty([], TypeLine(after, typed) + Interpret(after, rest));
  }

  /** `process_file` on a script it cannot open returns false and does
      nothing; otherwise the first typed line uses the defaults of 40 ms per
      character and 100 ms per line. */
  lemma ProcessFileDefaults(line: string, rest: seq<string>)
    requires KindOf(line) == Typed && !IsStop(line) && Runnable(rest)
    ensures ProcessFile(false, [line] + rest) == RunResult(false, [])
    ensures Runnable([line] + rest)
    ensures var r := ProcessFile(true, [line] + rest);
            r.ok && r.events == TypeLine(State(40, 100), line) + Interpret(State(40, 100), rest)
  {
    TypedLine(InitialState, line);
    InterpretCons(InitialState, line, rest);
  }

  /** With the default intervals, a script of one typed line requests 40 ms of
      delay per character and 100 ms after the return key, and then ends. */
  lemma DefaultTiming(line: string)
    requires KindOf(line) == Typed && !IsStop(line)
    ensures Runnable([line])
    ensures TotalDelay(ProcessFile(true, [line]).events) == 40 * |line| + 100
    ensures ProcessFile(true, [line]).events[|ProcessFile(true, [line]).events| - 1] == ScriptEnded
  {
    var typed := TypeLine(InitialState, line);
    AppendEmpty([], [line]);
    ProcessFileDefaults(line, []);
    TypedLineDelay(InitialState, line);
    TotalDelayAppend(typed, [ScriptEnded]);
    assert [ScriptEnded][1..] == [];
  }

  /** A `#quit` line is not a `#pause_forever` line, and neither is a
      directive of `send_line`: the loop's own tests are what stop on them. */
  lemma StopLinesWouldBeTyped(line: string)
    requires IsStop(line)
    ensures IsQuit(line) ==> !IsPause(line)
    ensures KindOf(line) == Typed
  {
    var p := if IsQuit(line) then QuitKeyword else PauseKeyword;
    StartsWithAt(line, p, 0);
    StartsWithAt(line, p, 1);
    NotComment(line);
    if IsQuit(line) {
      PrefixesDisagree(line, QuitKeyword, PauseKeyword, 1);
    }
    PrefixesDisagree(line, p, IntervalKeyword, 1);
    PrefixesDisagree(line, p, SleepKeyword, 1);
    PrefixesDisagree(line, p, ResizePopupKeyword, 1);
    if !IsQuit(line) {
      PrefixesDisagree(line, p, PopupKeyword, 2);
    } else {
      PrefixesDisagree(line, p, PopupKeyword, 1);
    }
  }

  /* ---------------------------------------------------------------------- */
  /* Worked examples                                                        */
  /* ---------------------------------------------------------------------- */

  /** `a b` is an ordinary line to be typed. */
  lemma ABIsTyped()
    ensures KindOf("a b") == Typed
    ensures SendLine(InitialState, "a b") == Step(InitialState, TypeLine(InitialState, "a b"))
  {
    var line := "a b";
    assert !IsSpace(line[0]);
    assert !StartsWith(line, CommentPrefix) by { assert line[..2][0] == 'a'; }
    OtherLinesAreTyped(InitialState, line);
  }

  /** Typing `a b` with the defaults: three characters, the middle one the
      space placeholder, then the return key. */
  lemma TypeABExample()
    ensures TypeLine(InitialState, "a b")
         == [Emit("a"), Delay(40), Emit(SpaceToken), Delay(40), Emit("b"), Delay(40),
             Emit(ReturnToken), Delay(100)]
  {
    var line := "a b";
    TypeLineShape(InitialState, line);
    var evs := TypeLine(InitialState, line);
    var expected := [Emit("a"), Delay(40), Emit(SpaceToken), Delay(40), Emit("b"), Delay(40),
                     Emit(ReturnToken), Delay(100)];
    assert evs[0] == SendChar([line[0]]) == Emit("a");
    assert evs[2] == SendChar([line[1]]) == Emit(SpaceToken);
    assert evs[4] == SendChar([line[2]]) == Emit("b");
    assert forall i :: 0 <= i < 8 ==> evs[i] == expected[i];
  }

  /** A `#popup_append` line is a `#popup` line: the leading keyword is cut,
      `_append` is kept, and the rest loses its own `#popup`s. */
  lemma PopupAppendIsPopup(rest: string)
    ensures var line := PopupKeyword + "_append" + rest;
            KindOf(line) == Popup
            && RemoveAll(line, PopupKeyword) == "_append" + RemoveAll(rest, PopupKeyword)
  {
    var line := PopupKeyword + "_append" + rest;
    AppendAssoc(PopupKeyword, "_append", rest);
    StartsWithAppend(PopupKeyword, "_append" + rest);
    PopupLineKind(line);
    RemoveAllPrefix(PopupKeyword, "_append" + rest);
    RemoveAllKeepsHead("_append", rest, PopupKeyword);
  }

  /** A script that is only `#quit` asks the application to quit and does
      nothing else. */
  lemma QuitOnlyExample()
    ensures Runnable(["#quit"])
    ensures ProcessFile(true, ["#quit"]) == RunResult(true, [QuitRequested])
  {
    assert StartsWith("#quit", QuitKeyword);
  }
}
