/**
  The script interpreter of the `KeySender` class: `send_char`, `send_line`
  and the line loop of `process_file`, as pure functions from an interval
  state and script lines to a trace of events.
 */
module KeySender {
  import opened QStrings
  import opened QtInt
  import opened Trace
  import opened Options

  /** The two delays carried from line to line, in milliseconds. */
  datatype State = State(keyIntervalMs: int, lineIntervalMs: int)

  /** The member initialisers of `m_key_interval_ms` and `m_line_interval_ms`. */
  const InitialState: State := State(40, 100)

  /** What the interpretation of one line leaves behind. */
  datatype Step = Step(state: State, events: seq<Event>)

  /* ---------------------------------------------------------------------- */
  /* send_char                                                              */
  /* ---------------------------------------------------------------------- */

  /** The placeholder `"\[space]"`, quotes included, that the injection
      command is given for a space. */
  const SpaceToken: string := "\"\\[space]\""

  /** The return key `"\r"`, quotes included, sent after every typed line. */
  const ReturnToken: string := "\"\\r\""

  /** The text a keystroke token stands for: the inverse of `SendChar`. */
  function TokenText(token: string): string {
    if token == SpaceToken then " " else token
  }

  /** `send_char`: one call of the injection command. The token is the text
      itself or the space placeholder, and it stands for the text sent. */
  function SendChar(c: string): (e: Event)
    ensures e.Emit?
    ensures e.token == c || e.token == SpaceToken
    ensures c != SpaceToken ==> TokenText(e.token) == c
  {
    Emit(if c == " " then SpaceToken else c)
  }

  /* ---------------------------------------------------------------------- */
  /* Line classification in send_line                                       */
  /* ---------------------------------------------------------------------- */

  const CommentPrefix: string := "##"
  const IntervalKeyword: string := "#interval"
  const SleepKeyword: string := "#sleep"
  const PopupKeyword: string := "#popup"
  const ResizePopupKeyword: string := "#resize_popup"
  const QuitKeyword: string := "#quit"
  const PauseKeyword: string := "#pause_forever"

  /** The branch of `send_line` a line takes. */
  datatype LineKind = Comment | SetInterval | Sleep | Popup | ResizePopup | Typed

  /** The tests of `send_line`, in order; a keyword matches as a prefix and
      the first match wins. */
  function KindOf(line: string): (k: LineKind)
    ensures k == Comment <==> AllSpace(line) || StartsWith(line, CommentPrefix)
  {
    TrimEmptyIffAllSpace(line);
    if |Trim(line)| == 0 || StartsWith(line, CommentPrefix) then Comment
    else if StartsWith(line, IntervalKeyword) then SetInterval
    else if StartsWith(line, SleepKeyword) then Sleep
    else if StartsWith(line, PopupKeyword) then Popup
    else if StartsWith(line, ResizePopupKeyword) then ResizePopup
    else Typed
  }

  /** How many space-separated arguments after the keyword a branch reads. */
  function ArgsRead(k: LineKind): nat {
    match k
    case SetInterval => 2
    case Sleep => 1
    case ResizePopup => 2
    case _ => 0
  }

  /** `send_line` indexes `splitted[1]` and `splitted[2]` without a bounds
      check: a line may only be sent when those pieces exist, that is, when
      it has at least as many spaces as the branch reads arguments (a line
      with n spaces splits into n + 1 pieces). */
  predicate HasArgs(line: string) {
    CountChar(line, ' ') >= ArgsRead(KindOf(line))
  }

  /** The pieces `send_line` reads exist exactly when the line has its
      arguments. */
  lemma HasArgsIff(line: string)
    ensures HasArgs(line) <==> |Split(line)| > ArgsRead(KindOf(line))
  {
  }

  /* ---------------------------------------------------------------------- */
  /* send_line                                                              */
  /* ---------------------------------------------------------------------- */

  /** The text a `#popup` line shows: every `#popup` removed from the line,
      the rest trimmed, then each written `\n` turned into a newline. It is
      empty exactly when nothing but whitespace is left after the removal,
      and it never contains a written `\n`. */
  function PopupPayload(line: string): (text: string)
    ensures |text| == 0 <==> AllSpace(RemoveAll(line, PopupKeyword))
    ensures !Contains(text, NewlineEscape)
  {
    var t := Trim(RemoveAll(line, PopupKeyword));
    TrimEmptyIffAllSpace(RemoveAll(line, PopupKeyword));
    UnescapeLeavesNoEscape(t);
    UnescapeNewlines(t)
  }

  /** The key and delay events for the characters of a line, one character
      at a time: each keystroke is followed by the key interval. */
  function TypeChars(st: State, chars: string): (evs: seq<Event>)
    ensures |evs| == 2 * |chars|
  {
    if |chars| == 0 then []
    else
      var n := |chars| - 1;
      TypeChars(st, chars[..n]) + [SendChar([chars[n]]), Delay(st.keyIntervalMs)]
  }

  /** The i-th character's keystroke is event 2i, and the key interval
      follows it. */
  lemma {:induction false} TypeCharsAt(st: State, chars: string)
    ensures var evs := TypeChars(st, chars);
            forall i :: 0 <= i < |chars| ==>
              evs[2 * i] == SendChar([chars[i]]) && evs[2 * i + 1] == Delay(st.keyIntervalMs)
  {
    if |chars| > 0 {
      var n := |chars| - 1;
      var front := TypeChars(st, chars[..n]);
      var evs := TypeChars(st, chars);
      TypeCharsAt(st, chars[..n]);
      assert evs == front + [SendChar([chars[n]]), Delay(st.keyIntervalMs)];
      forall i | 0 <= i < |chars|
        ensures evs[2 * i] == SendChar([chars[i]]) && evs[2 * i + 1] == Delay(st.keyIntervalMs)
      {
        if i < n {
          assert chars[..n][i] == chars[i];
          assert evs[2 * i] == front[2 * i] && evs[2 * i + 1] == front[2 * i + 1];
        }
      }
    }
  }

  /** Typing characters only makes keystrokes and delays. */
  lemma {:induction false} TypeCharsKinds(st: State, chars: string)
    ensures forall e :: e in TypeChars(st, chars) ==> e.Emit? || e.Delay?
  {
    if |chars| > 0 {
      var n := |chars| - 1;
      TypeCharsKinds(st, chars[..n]);
      var front := TypeChars(st, chars[..n]);
      var last := [SendChar([chars[n]]), Delay(st.keyIntervalMs)];
      assert TypeChars(st, chars) == front + last;
      forall e: Event | e in front + last
        ensures e.Emit? || e.Delay?
      {
        if e !in front {
          assert e in last;
        }
      }
    }
  }

  /** The events of typing a whole line: its characters, then the return
      key followed by the line interval. */
  function TypeLine(st: State, line: string): (evs: seq<Event>)
    ensures |evs| == 2 * |line| + 2
    ensures evs[2 * |line|] == Emit(ReturnToken) && evs[2 * |line| + 1] == Delay(st.lineIntervalMs)
  {
    TypeChars(st, line) + [SendChar(ReturnToken), Delay(st.lineIntervalMs)]
  }

  /** The shape a typed line must have, stated position by position: 2n + 2
      events for n characters; the i-th character's keystroke at 2i followed
      by the key interval; the return key at 2n followed by the line
      interval. */
  predicate IsTypingTrace(st: State, line: string, evs: seq<Event>) {
    && |evs| == 2 * |line| + 2
    && (forall i :: 0 <= i < |line| ==>
          evs[2 * i] == SendChar([line[i]]) && evs[2 * i + 1] == Delay(st.keyIntervalMs))
    && evs[2 * |line|] == Emit(ReturnToken)
    && evs[2 * |line| + 1] == Delay(st.lineIntervalMs)
  }

  /** Typing a line gives a trace of that shape made of keystrokes and
      delays only, the return key among the keystrokes. */
  lemma TypeLineShape(st: State, line: string)
    ensures IsTypingTrace(st, line, TypeLine(st, line))
    ensures forall e :: e in TypeLine(st, line) ==> e.Emit? || e.Delay?
    ensures Emit(ReturnToken) in TypeLine(st, line)
    ensures QuitRequested !in TypeLine(st, line) && ScriptEnded !in TypeLine(st, line)
  {
    var chars := TypeChars(st, line);
    var tail := [SendChar(ReturnToken), Delay(st.lineIntervalMs)];
    var evs := chars + tail;
    TypeCharsAt(st, line);
    TypeCharsKinds(st, line);
    assert forall k :: 0 <= k < |chars| ==> evs[k] == chars[k];
    assert evs[2 * |line|] == Emit(ReturnToken);
    forall e: Event | e in evs
      ensures e.Emit? || e.Delay?
    {
      if e !in chars {
        assert e in tail;
      }
    }
  }

  /** `send_line`. Only `#interval` changes the state; a line makes
      keystrokes exactly when it is typed, and then its trace has the typing
      shape; every other line yields at most one event; no line ends the
      run. */
  function SendLine(st: State, line: string): (r: Step)
    requires HasArgs(line)
    ensures KindOf(line) != SetInterval ==> r.state == st
    ensures (exists e :: e in r.events && e.Emit?) <==> KindOf(line) == Typed
    ensures KindOf(line) == Typed ==> IsTypingTrace(st, line, r.events)
    ensures KindOf(line) != Typed ==> |r.events| <= 1
    ensures QuitRequested !in r.events && ScriptEnded !in r.events
  {
    var parts := Split(line);
    match KindOf(line)
    case Comment => Step(st, [])
    case SetInterval => Step(State(ToInt(parts[1]), ToInt(parts[2])), [])
    case Sleep => Step(st, [Delay(ToInt(parts[1]))])
    case Popup =>
      var text := PopupPayload(line);
      Step(st, if |text| == 0 then [] else [PopupText(text)])
    case ResizePopup => Step(st, [PopupSize(ToInt(parts[1]), ToInt(parts[2]))])
    case Typed =>
      TypeLineShape(st, line);
      Step(st, TypeLine(st, line))
  }

  /* ---------------------------------------------------------------------- */
  /* process_file                                                           */
  /* ---------------------------------------------------------------------- */

  predicate IsQuit(line: string) {
    StartsWith(line, QuitKeyword)
  }

  predicate IsPause(line: string) {
    StartsWith(line, PauseKeyword)
  }

  /** The lines `process_file` stops at before handing them to `send_line`. */
  predicate IsStop(line: string) {
    IsQuit(line) || IsPause(line)
  }

  /** Every line the loop hands to `send_line` has its arguments: the lines
      up to the first stop line, that is. */
  predicate Runnable(lines: seq<string>)
    decreases |lines|
  {
    |lines| == 0 || IsStop(lines[0]) || (HasArgs(lines[0]) && Runnable(lines[1..]))
  }

  /** The index of the first stop line, if there is one. */
  function FirstStop(lines: seq<string>): (k: Option<nat>)
    ensures k.Some? ==> k.value < |lines| && IsStop(lines[k.value])
                        && forall j :: 0 <= j < k.value ==> !IsStop(lines[j])
    ensures k.None? ==> forall j :: 0 <= j < |lines| ==> !IsStop(lines[j])
  {
    if |lines| == 0 then None
    else if IsStop(lines[0]) then Some(0)
    else
      match FirstStop(lines[1..])
      case Some(k) => Some(k + 1)
      case None => None
  }

  /** The script stops at a `#quit` line (rather than `#pause_forever` or the
      end of the input). */
  predicate StopsAtQuit(lines: seq<string>) {
    var k := FirstStop(lines);
    k.Some? && IsQuit(lines[k.value])
  }

  /** The line loop of `process_file`, from state `st`. `scriptEnded` is
      signalled exactly when the input runs out, `qApp->quit()` is called
      exactly when the loop stops at `#quit`, and either can only be the
      last event. */
  function Interpret(st: State, lines: seq<string>): (trace: seq<Event>)
    requires Runnable(lines)
    ensures ScriptEnded in trace <==> FirstStop(lines).None?
    ensures QuitRequested in trace <==> StopsAtQuit(lines)
    ensures TerminalOnlyLast(trace)
    decreases |lines|
  {
    if |lines| == 0 then [ScriptEnded]
    else if IsQuit(lines[0]) then [QuitRequested]
    else if IsPause(lines[0]) then []
    else
      var step := SendLine(st, lines[0]);
      var rest := Interpret(step.state, lines[1..]);
      var trace := step.events + rest;
      TerminalOnlyLastAppend(step.events, rest);
      trace
  }

  /** The outcome of `process_file`: its return value and the events. */
  datatype RunResult = RunResult(ok: bool, events: seq<Event>)

  /** `process_file`: a script that cannot be opened yields `false` and no
      events; otherwise `true` and the events of the loop, started from the
      default intervals. */
  function ProcessFile(fileOpened: bool, lines: seq<string>): (r: RunResult)
    requires fileOpened ==> Runnable(lines)
    ensures r.ok == fileOpened
    ensures !fileOpened ==> r.events == []
    ensures fileOpened ==> (ScriptEnded in r.events <==> FirstStop(lines).None?)
  {
    if !fileOpened then RunResult(false, [])
    else RunResult(true, Interpret(InitialState, lines))
  }
}
