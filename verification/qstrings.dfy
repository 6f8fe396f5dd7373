/**
  The handful of Qt QString operations the key sender relies on, modelled over
  `string` (a sequence of UTF-16 code units in Qt, of `char`s here):
  `QChar::isSpace`, `startsWith`, `trimmed`, `split(" ")`, `remove(str)` and
  the `replace("\\n", "\n")` escape expansion.
 */
module QStrings {
  import opened Seqs

  /** `QChar::isSpace`: ASCII TAB..CR, space, NEL, NBSP and the Unicode
      separator categories Zs, Zl and Zp. */
  predicate IsSpace(c: char) {
    var u := c as int;
    || u == 0x20
    || 0x09 <= u <= 0x0D
    || u == 0x85
    || u == 0xA0
    || u == 0x1680
    || 0x2000 <= u <= 0x200A
    || u == 0x2028
    || u == 0x2029
    || u == 0x202F
    || u == 0x205F
    || u == 0x3000
  }

  predicate StartsWith(s: string, prefix: string) {
    |prefix| <= |s| && s[..|prefix|] == prefix
  }

  /** A string starting with `prefix` agrees with it position by position. */
  lemma StartsWithAt(s: string, prefix: string, i: int)
    requires StartsWith(s, prefix) && 0 <= i < |prefix|
    ensures s[i] == prefix[i]
  {
    assert s[..|prefix|][i] == s[i];
  }

  /** A string cannot start with two prefixes that differ at some position. */
  lemma PrefixesDisagree(s: string, p: string, q: string, i: int)
    requires StartsWith(s, p) && 0 <= i < |p| && i < |q| && p[i] != q[i]
    ensures !StartsWith(s, q)
  {
    StartsWithAt(s, p, i);
    if StartsWith(s, q) {
      StartsWithAt(s, q, i);
    }
  }

  lemma StartsWithAppend(prefix: string, rest: string)
    ensures StartsWith(prefix + rest, prefix)
  {
    assert (prefix + rest)[..|prefix|] == prefix;
  }

  /** `pat` occurs in `s` starting at index `i`. */
  predicate OccursAt(s: string, pat: string, i: int) {
    0 <= i && i + |pat| <= |s| && s[i..i + |pat|] == pat
  }

  predicate Contains(s: string, pat: string) {
    exists i :: 0 <= i <= |s| - |pat| && OccursAt(s, pat, i)
  }

  predicate AllSpace(s: string) {
    forall i :: 0 <= i < |s| ==> IsSpace(s[i])
  }

  /* ---------------------------------------------------------------------- */
  /* trimmed()                                                              */
  /* ---------------------------------------------------------------------- */

  /** The end of the whitespace run that starts at `i`. */
  function SpaceRunEnd(s: string, i: nat): (k: nat)
    requires i <= |s|
    ensures i <= k <= |s|
    ensures forall x :: i <= x < k ==> IsSpace(s[x])
    ensures k < |s| ==> !IsSpace(s[k])
    decreases |s| - i
  {
    if i < |s| && IsSpace(s[i]) then SpaceRunEnd(s, i + 1) else i
  }

  /** The start of the whitespace run that ends at `j`, not looking below
      `lo`. */
  function SpaceRunStart(s: string, lo: nat, j: nat): (k: nat)
    requires lo <= j <= |s|
    ensures lo <= k <= j
    ensures forall x :: k <= x < j ==> IsSpace(s[x])
    ensures k > lo ==> !IsSpace(s[k - 1])
    decreases j
  {
    if j > lo && IsSpace(s[j - 1]) then SpaceRunStart(s, lo, j - 1) else j
  }

  /** `r` is `s` with whitespace cut from its two ends: `a` characters
      before and `|s| - a - |r|` after. */
  predicate TrimmedAt(s: string, r: string, a: int) {
    && 0 <= a && a + |r| <= |s| && r == s[a..a + |r|]
    && (forall x :: 0 <= x < a ==> IsSpace(s[x]))
    && (forall x :: a + |r| <= x < |s| ==> IsSpace(s[x]))
  }

  /** `QString::trimmed`: whitespace removed from both ends. What is cut is
      whitespace, and what is left neither starts nor ends with any. */
  function Trim(s: string): (r: string)
    ensures exists a :: TrimmedAt(s, r, a)
    ensures |r| > 0 ==> !IsSpace(r[0]) && !IsSpace(r[|r| - 1])
  {
    var a := SpaceRunEnd(s, 0);
    var b := SpaceRunStart(s, a, |s|);
    assert TrimmedAt(s, s[a..b], a);
    s[a..b]
  }

  /** One space in front of a text that has no whitespace at its ends is
      trimmed away. */
  lemma TrimLeadingSpace(text: string)
    requires |text| > 0 && !IsSpace(text[0]) && !IsSpace(text[|text| - 1])
    ensures Trim(" " + text) == text
  {
    var body := " " + text;
    assert SpaceRunEnd(body, 1) == 1;
    assert SpaceRunEnd(body, 0) == 1;
    assert SpaceRunStart(body, 1, |body|) == |body|;
    assert body[1..|body|] == text;
  }

  /** A line is blank for `trimmed().isEmpty()` exactly when every one of
      its characters is whitespace. */
  lemma TrimEmptyIffAllSpace(s: string)
    ensures |Trim(s)| == 0 <==> AllSpace(s)
  {
    var a := SpaceRunEnd(s, 0);
    if a < |s| {
      assert !IsSpace(s[a]);
    }
  }

  /** Trimming leaves a string alone when neither end is whitespace. */
  lemma TrimNoOp(s: string)
    requires |s| > 0 ==> !IsSpace(s[0]) && !IsSpace(s[|s| - 1])
    ensures Trim(s) == s
  {
  }

  /** Trimming twice is trimming once. */
  lemma TrimIdempotent(s: string)
    ensures Trim(Trim(s)) == Trim(s)
  {
    TrimNoOp(Trim(s));
  }

  /* ---------------------------------------------------------------------- */
  /* split(" ")                                                             */
  /* ---------------------------------------------------------------------- */

  function CountChar(s: string, c: char): nat {
    if |s| == 0 then 0 else (if s[0] == c then 1 else 0) + CountChar(s[1..], c)
  }

  /** `QString::split(" ")` with Qt's default `KeepEmptyParts`: the pieces
      between single spaces, empty pieces included. */
  function Split(s: string): (parts: seq<string>)
    ensures |parts| == CountChar(s, ' ') + 1
    ensures forall k :: 0 <= k < |parts| ==> ' ' !in parts[k]
  {
    if |s| == 0 then [[]]
    else
      var rest := Split(s[1..]);
      if s[0] == ' ' then [[]] + rest
      else [[s[0]] + rest[0]] + rest[1..]
  }

  /** A piece without spaces splits to itself. */
  lemma {:induction false} SplitNoSpace(a: string)
    requires ' ' !in a
    ensures Split(a) == [a]
  {
    if |a| > 0 {
      SplitNoSpace(a[1..]);
      assert [a[0]] + a[1..] == a;
    }
  }

  /** Splitting `a + " " + b`, where `a` has no space, yields `a` first. */
  lemma {:induction false} SplitCons(a: string, b: string)
    requires ' ' !in a
    ensures Split(a + " " + b) == [a] + Split(b)
  {
    var s := a + " " + b;
    if |a| == 0 {
      assert s == [' '] + b;
      assert s[1..] == b;
    } else {
      assert s[1..] == a[1..] + " " + b;
      SplitCons(a[1..], b);
      assert [a[0]] + a[1..] == a;
    }
  }

  /** A directive with one argument splits into keyword and argument. */
  lemma SplitTwo(k: string, x: string)
    requires ' ' !in k && ' ' !in x
    ensures Split(k + " " + x) == [k, x]
  {
    SplitCons(k, x);
    SplitNoSpace(x);
  }

  /** A directive with two arguments splits into keyword and arguments. */
  lemma SplitThree(k: string, x: string, y: string)
    requires ' ' !in k && ' ' !in x && ' ' !in y
    ensures Split(k + " " + x + " " + y) == [k, x, y]
  {
    AppendAssoc(k + " ", x, " ");
    AppendAssoc(k + " ", x + " ", y);
    SplitCons(k, x + " " + y);
    SplitTwo(x, y);
  }

  /* ---------------------------------------------------------------------- */
  /* remove(str)                                                            */
  /* ---------------------------------------------------------------------- */

  /** `QString::remove(const QString &)`: scans left to right and deletes
      every non-overlapping occurrence of `pat` it meets; an empty `pat`
      removes nothing. Text that comes together only after a deletion is
      not scanned again. */
  function RemoveAll(s: string, pat: string): (r: string)
    ensures |r| <= |s|
    decreases |s|
  {
    if |pat| == 0 || |s| < |pat| then s
    else if s[..|pat|] == pat then RemoveAll(s[|pat|..], pat)
    else [s[0]] + RemoveAll(s[1..], pat)
  }

  /** An occurrence of `pat` at the very start is removed, and the scan goes
      on after it. */
  lemma RemoveAllPrefix(pat: string, rest: string)
    requires |pat| > 0
    ensures RemoveAll(pat + rest, pat) == RemoveAll(rest, pat)
  {
    var s := pat + rest;
    assert s[..|pat|] == pat;
    assert s[|pat|..] == rest;
  }

  /** A character at which the pattern does not start is kept, and the scan
      goes on after it. */
  lemma RemoveAllCons(c: char, rest: string, pat: string)
    requires |pat| > 0 && !StartsWith([c] + rest, pat)
    ensures RemoveAll([c] + rest, pat) == [c] + RemoveAll(rest, pat)
  {
    var s := [c] + rest;
    assert s[0] == c && s[1..] == rest;
  }

  /** A prefix none of whose characters can start the pattern is kept whole. */
  lemma {:induction false} RemoveAllKeepsHead(head: string, rest: string, pat: string)
    requires |pat| > 0 && pat[0] !in head
    ensures RemoveAll(head + rest, pat) == head + RemoveAll(rest, pat)
  {
    if |head| > 0 {
      ConsAppend(head, rest);
      RemoveAllKeepsHead(head[1..], rest, pat);
      if StartsWith([head[0]] + (head[1..] + rest), pat) {
        StartsWithAt([head[0]] + (head[1..] + rest), pat, 0);
      }
      RemoveAllCons(head[0], head[1..] + rest, pat);
      AppendAssoc([head[0]], head[1..], RemoveAll(rest, pat));
    } else {
      AppendEmpty(head, rest);
      AppendEmpty(head, RemoveAll(rest, pat));
    }
  }

  /** An occurrence in `s` is either at its head or one in its tail. */
  lemma ContainsCons(s: string, pat: string)
    requires |s| > 0
    ensures Contains(s, pat) <==> OccursAt(s, pat, 0) || Contains(s[1..], pat)
  {
    forall i | 0 <= i && i + 1 + |pat| <= |s|
      ensures OccursAt(s[1..], pat, i) <==> OccursAt(s, pat, i + 1)
    {
      assert s[1..][i..i + |pat|] == s[i + 1..i + 1 + |pat|];
    }
    if Contains(s, pat) && !OccursAt(s, pat, 0) {
      var i :| 0 <= i <= |s| - |pat| && OccursAt(s, pat, i);
      assert OccursAt(s[1..], pat, i - 1);
    }
  }

  /** Removal changes the string exactly when the pattern occurs in it. */
  lemma {:induction false} RemoveAllUnchangedIff(s: string, pat: string)
    requires |pat| > 0
    ensures RemoveAll(s, pat) == s <==> !Contains(s, pat)
    decreases |s|
  {
    if |s| < |pat| {
    } else if s[..|pat|] == pat {
      assert OccursAt(s, pat, 0);
    } else {
      ContainsCons(s, pat);
      RemoveAllUnchangedIff(s[1..], pat);
      assert [s[0]] + s[1..] == s;
      assert forall x: string :: [s[0]] + x == s ==> x == s[1..];
    }
  }

  /* ---------------------------------------------------------------------- */
  /* replace("\\n", "\n")                                                   */
  /* ---------------------------------------------------------------------- */

  /** The two characters backslash and `n` written in a script. */
  const NewlineEscape: string := "\\n"

  /** `QString::replace("\\n", "\n")`: every non-overlapping occurrence of
      the two-character escape, found left to right, becomes a newline. */
  function UnescapeNewlines(s: string): (r: string)
    ensures |r| <= |s|
    ensures |r| == 0 <==> |s| == 0
    ensures |s| > 0 ==> r[0] == (if StartsWith(s, NewlineEscape) then '\n' else s[0])
  {
    if |s| == 0 then []
    else if StartsWith(s, NewlineEscape) then ['\n'] + UnescapeNewlines(s[2..])
    else [s[0]] + UnescapeNewlines(s[1..])
  }

  /** The escape as two characters at index `i`. */
  lemma EscapeAt(s: string, i: int)
    ensures OccursAt(s, NewlineEscape, i) <==> 0 <= i && i + 2 <= |s| && s[i] == '\\' && s[i + 1] == 'n'
    ensures i == 0 ==> (StartsWith(s, NewlineEscape) <==> OccursAt(s, NewlineEscape, 0))
  {
    if 0 <= i && i + 2 <= |s| {
      assert s[i..i + 2] == [s[i], s[i + 1]];
    }
  }

  /** No escape survives the expansion, even one like `\\n` whose backslash
      is itself preceded by a backslash. */
  lemma {:induction false} UnescapeLeavesNoEscape(s: string)
    ensures !Contains(UnescapeNewlines(s), NewlineEscape)
    decreases |s|
  {
    var r := UnescapeNewlines(s);
    if |s| > 0 {
      EscapeAt(s, 0);
      EscapeAt(r, 0);
      ContainsCons(r, NewlineEscape);
      if StartsWith(s, NewlineEscape) {
        UnescapeLeavesNoEscape(s[2..]);
        assert r[1..] == UnescapeNewlines(s[2..]);
      } else {
        var rt := UnescapeNewlines(s[1..]);
        UnescapeLeavesNoEscape(s[1..]);
        assert r[1..] == rt;
        if |r| >= 2 && r[0] == '\\' {
          EscapeAt(s[1..], 0);
          assert s[1] != 'n';
          assert rt[0] == r[1];
        }
      }
    }
  }

  /** The inverse of the expansion: each newline written back as `\n`, every
      other character kept. */
  function EscapeNewlines(t: string): (e: string)
    ensures |e| >= |t|
  {
    if |t| == 0 then []
    else (if t[0] == '\n' then NewlineEscape else [t[0]]) + EscapeNewlines(t[1..])
  }

  /** Expanding the written-back form of a text with no backslash gives the
      text again: every newline comes back and every other character stays,
      in order. */
  lemma {:induction false} UnescapeEscape(t: string)
    requires '\\' !in t
    ensures UnescapeNewlines(EscapeNewlines(t)) == t
  {
    if |t| > 0 {
      var e := EscapeNewlines(t);
      var tail := EscapeNewlines(t[1..]);
      assert '\\' !in t[1..] by {
        forall k | 0 <= k < |t[1..]| ensures t[1..][k] != '\\' {
          assert t[1..][k] == t[k + 1];
        }
      }
      UnescapeEscape(t[1..]);
      if t[0] == '\n' {
        assert e == NewlineEscape + tail;
        assert StartsWith(e, NewlineEscape);
        assert e[2..] == tail;
      } else {
        assert e == [t[0]] + tail;
        assert t[0] != '\\';
        assert !StartsWith(e, NewlineEscape) by { assert e[0] != '\\'; }
        assert e[1..] == tail;
      }
      assert [t[0]] + t[1..] == t;
    }
  }

  /** A text that does not start with a newline keeps its first character. */
  lemma EscapeFirst(t: string)
    requires |t| > 0 && t[0] != '\n'
    ensures |EscapeNewlines(t)| > 0 && EscapeNewlines(t)[0] == t[0]
  {
  }

  /** A text that does not end with a newline keeps its last character. */
  lemma {:induction false} EscapeLast(t: string)
    requires |t| > 0 && t[|t| - 1] != '\n'
    ensures var e := EscapeNewlines(t);
            |e| > 0 && e[|e| - 1] == t[|t| - 1]
  {
    var e := EscapeNewlines(t);
    var head := if t[0] == '\n' then NewlineEscape else [t[0]];
    var tail := EscapeNewlines(t[1..]);
    assert e == head + tail;
    if |t| > 1 {
      EscapeLast(t[1..]);
      assert e[|e| - 1] == tail[|tail| - 1];
    }
  }

  /** The expansion changes the string exactly when an escape occurs in it. */
  lemma {:induction false} UnescapeUnchangedIff(s: string)
    ensures UnescapeNewlines(s) == s <==> !Contains(s, NewlineEscape)
    decreases |s|
  {
    if |s| > 0 {
      EscapeAt(s, 0);
      if StartsWith(s, NewlineEscape) {
        assert |UnescapeNewlines(s)| < |s|;
      } else {
        ContainsCons(s, NewlineEscape);
        UnescapeUnchangedIff(s[1..]);
        assert [s[0]] + s[1..] == s;
        assert forall x: string :: [s[0]] + x == s ==> x == s[1..];
      }
    }
  }
}
