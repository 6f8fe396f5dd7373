/**
  The observable behaviour of a script run, as a sequence of events. Each
  event stands for one side effect of the key sender: a keystroke handed to
  the injection command, a sleep, one of the three signals, or the call that
  quits the application.
 */
module Trace {

  datatype Event =
    | Emit(token: string)                 // one `xvkbd -xsendevent -text <token>` call
    | Delay(ms: int)                      // one `sleep_for(milliseconds(ms))`
    | PopupText(text: string)             // signal popupTextChange(text)
    | PopupSize(width: int, height: int)  // signal popupSizeChange(width, height)
    | QuitRequested                       // qApp->quit()
    | ScriptEnded                         // signal scriptEnded()

  /** The events after which the run is over. */
  predicate IsTerminal(e: Event) {
    e.QuitRequested? || e.ScriptEnded?
  }

  /** A terminal event, if any, is the last one. */
  predicate TerminalOnlyLast(evs: seq<Event>) {
    forall i :: 0 <= i < |evs| - 1 ==> !IsTerminal(evs[i])
  }

  /** Events with no terminal one, followed by a trace whose terminal events
      are last, give a trace whose terminal events are last. */
  lemma TerminalOnlyLastAppend(a: seq<Event>, b: seq<Event>)
    requires QuitRequested !in a && ScriptEnded !in a
    requires TerminalOnlyLast(b)
    ensures TerminalOnlyLast(a + b)
  {
    forall i | 0 <= i < |a + b| - 1
      ensures !IsTerminal((a + b)[i])
    {
      if i < |a| {
        assert (a + b)[i] == a[i];
        assert a[i] in a;
      } else {
        assert (a + b)[i] == b[i - |a|];
      }
    }
  }

  /** How many times `e` occurs in `evs`. */
  function Occurrences(evs: seq<Event>, e: Event): (n: nat)
    ensures n == 0 <==> e !in evs
  {
    if |evs| == 0 then 0
    else (if evs[0] == e then 1 else 0) + Occurrences(evs[1..], e)
  }

  /** The tokens of the keystrokes, in order. */
  function Keystrokes(evs: seq<Event>): (tokens: seq<string>)
    ensures |tokens| <= |evs|
  {
    if |evs| == 0 then []
    else (if evs[0].Emit? then [evs[0].token] else []) + Keystrokes(evs[1..])
  }

  /** The sum of the requested delays, in milliseconds. */
  function TotalDelay(evs: seq<Event>): int {
    if |evs| == 0 then 0
    else (if evs[0].Delay? then evs[0].ms else 0) + TotalDelay(evs[1..])
  }

  lemma {:induction false} OccurrencesAppend(a: seq<Event>, b: seq<Event>, e: Event)
    ensures Occurrences(a + b, e) == Occurrences(a, e) + Occurrences(b, e)
  {
    if |a| > 0 {
      assert (a + b)[0] == a[0];
      assert (a + b)[1..] == a[1..] + b;
      OccurrencesAppend(a[1..], b, e);
    } else {
      assert a + b == b;
    }
  }

  lemma {:induction false} KeystrokesAppend(a: seq<Event>, b: seq<Event>)
    ensures Keystrokes(a + b) == Keystrokes(a) + Keystrokes(b)
  {
    if |a| > 0 {
      assert (a + b)[0] == a[0];
      assert (a + b)[1..] == a[1..] + b;
      KeystrokesAppend(a[1..], b);
    } else {
      assert a + b == b;
    }
  }

  lemma {:induction false} TotalDelayAppend(a: seq<Event>, b: seq<Event>)
    ensures TotalDelay(a + b) == TotalDelay(a) + TotalDelay(b)
  {
    if |a| > 0 {
      assert (a + b)[0] == a[0];
      assert (a + b)[1..] == a[1..] + b;
      TotalDelayAppend(a[1..], b);
    } else {
      assert a + b == b;
    }
  }

  /** A keystroke followed by a delay: one token, and the delay's time. */
  lemma KeyThenDelay(token: string, ms: int)
    ensures Keystrokes([Emit(token), Delay(ms)]) == [token]
    ensures TotalDelay([Emit(token), Delay(ms)]) == ms
  {
    var evs := [Emit(token), Delay(ms)];
    assert evs[1..] == [Delay(ms)];
    assert evs[1..][1..] == [];
    assert TotalDelay(evs[1..]) == ms;
    assert Keystrokes(evs[1..]) == [];
  }
}
