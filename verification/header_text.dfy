/**
  Text-level helpers for HTTP-shaped handshake messages: ECMAScript line terminators,
  the case-insensitive multiline header match that `getWSAccept` performs with the
  regular expression `^<name>: (.+)$` (flags `gmi`), and a line-by-line reference
  reading of the same search.

  The regular expression is modelled by what it can match: a multiline `^` matches at the
  start of the text or just after a line terminator, `.` matches anything but a line
  terminator, `.+` is greedy and `$` matches before a line terminator or at the end.
  With the `i` flag and no `u` flag, JavaScript folds characters with `toUpperCase` but
  never folds a non-ASCII character onto an ASCII one, so against a printable-ASCII
  pattern the comparison is exactly ASCII case folding.
*/
module HeaderText {
  import opened Wrappers

  /** LF, CR, LINE SEPARATOR and PARAGRAPH SEPARATOR: the characters `.` does not match. */
  predicate IsTerminator(c: char) {
    c == '\n' || c == '\r' || c == '\U{2028}' || c == '\U{2029}'
  }

  predicate NoTerminator(s: string) {
    forall k :: 0 <= k < |s| ==> !IsTerminator(s[k])
  }

  /** Upper-case folding of ASCII letters; every other character folds to itself. */
  function Fold(c: char): char {
    if 'a' <= c <= 'z' then (c as int - 32) as char else c
  }

  predicate SameIgnoringCase(c: char, d: char) {
    Fold(c) == Fold(d)
  }

  /** Every pattern the source matches with is printable ASCII. */
  predicate PrintableAscii(p: string) {
    forall k :: 0 <= k < |p| ==> ' ' <= p[k] <= '~'
  }

  /** `p` occurs at position `i` of `s`, ignoring case. */
  predicate PrefixAt(s: string, i: nat, p: string) {
    i + |p| <= |s| && forall k :: 0 <= k < |p| ==> SameIgnoringCase(s[i + k], p[k])
  }

  /** Positions where a multiline `^` matches. */
  predicate LineStart(s: string, i: nat)
    requires i <= |s|
  {
    i == 0 || IsTerminator(s[i - 1])
  }

  /** The first position at or after `i` where a multiline `$` matches. */
  function LineEnd(s: string, i: nat): (e: nat)
    requires i <= |s|
    ensures i <= e <= |s|
    ensures e < |s| ==> IsTerminator(s[e])
    ensures forall k :: i <= k < e ==> !IsTerminator(s[k])
    decreases |s| - i
  {
    if i == |s| || IsTerminator(s[i]) then i else LineEnd(s, i + 1)
  }

  /** The end of a line is determined by the three facts `LineEnd` promises. */
  lemma LineEndUnique(s: string, i: nat, e: nat)
    requires i <= e <= |s|
    requires e < |s| ==> IsTerminator(s[e])
    requires forall k :: i <= k < e ==> !IsTerminator(s[k])
    ensures LineEnd(s, i) == e
  {
  }

  /** A character that equals a printable-ASCII one ignoring case is not a line terminator. */
  lemma PrefixCharsAreNotTerminators(s: string, i: nat, p: string)
    requires PrintableAscii(p) && PrefixAt(s, i, p)
    ensures forall k :: i <= k < i + |p| ==> !IsTerminator(s[k])
  {
    forall k | i <= k < i + |p|
      ensures !IsTerminator(s[k])
    {
      assert SameIgnoringCase(s[i + (k - i)], p[k - i]);
    }
  }

  // ---------------------------------------------------------------------------
  // The regular expression, as `exec` runs it from `lastIndex` 0.
  // ---------------------------------------------------------------------------

  /** `^<p>(.+)$` with flags `mi` matches at position `i` of `s`. */
  predicate MatchAt(s: string, i: nat, p: string)
    requires i <= |s|
  {
    && LineStart(s, i)
    && PrefixAt(s, i, p)
    && i + |p| < |s|
    && !IsTerminator(s[i + |p|])
  }

  /** Group 1 of a match at `i`: the greedy `.+` runs to the end of the line. */
  function CaptureAt(s: string, i: nat, p: string): (v: string)
    requires i <= |s| && MatchAt(s, i, p)
    ensures |v| > 0 && NoTerminator(v)
  {
    s[i + |p| .. LineEnd(s, i + |p|)]
  }

  /** The leftmost position at or after `i` where the pattern matches. */
  function FirstMatchFrom(s: string, i: nat, p: string): (r: Option<nat>)
    requires i <= |s|
    ensures r.Some? ==> i <= r.value <= |s| && MatchAt(s, r.value, p)
    ensures r.Some? ==> forall k :: i <= k < r.value ==> !MatchAt(s, k, p)
    ensures r.None? ==> forall k :: i <= k <= |s| ==> !MatchAt(s, k, p)
    decreases |s| - i
  {
    if MatchAt(s, i, p) then Some(i)
    else if i == |s| then None
    else FirstMatchFrom(s, i + 1, p)
  }

  /** `new RegExp('^' + p + '(.+)$', 'gmi').exec(s)`, reduced to its group 1. */
  function RegexExec(s: string, p: string): (r: Option<string>)
    ensures r.None? <==> forall i :: 0 <= i <= |s| ==> !MatchAt(s, i, p)
    ensures r.Some? ==> |r.value| > 0 && NoTerminator(r.value)
  {
    match FirstMatchFrom(s, 0, p)
    case Some(i) => Some(CaptureAt(s, i, p))
    case None => None
  }

  /** The group 1 of `RegexExec` is taken from the leftmost match. */
  lemma RegexExecIsLeftmost(s: string, p: string, i: nat)
    requires i <= |s| && MatchAt(s, i, p)
    requires forall k :: 0 <= k < i ==> !MatchAt(s, k, p)
    ensures RegexExec(s, p) == Some(CaptureAt(s, i, p))
  {
    var j := FirstMatchFrom(s, 0, p).value;
    assert !(j < i) && !(i < j);
  }

  // ---------------------------------------------------------------------------
  // Reference reading: split into lines, take the first line carrying the header.
  // ---------------------------------------------------------------------------

  /** The lines of `s`, split at every line terminator. */
  function Lines(s: string): (ls: seq<string>)
    ensures |ls| > 0
    ensures forall k :: 0 <= k < |ls| ==> NoTerminator(ls[k])
    decreases |s|
  {
    var e := LineEnd(s, 0);
    if e == |s| then [s] else [s[..e]] + Lines(s[e + 1..])
  }

  /** A text with no terminator is one line. */
  lemma LinesOfOneLine(line: string)
    requires NoTerminator(line)
    ensures Lines(line) == [line]
  {
    LineEndUnique(line, 0, |line|);
  }

  /** Splitting a line followed by a terminator peels off exactly that line. */
  lemma LinesCons(line: string, t: char, rest: string)
    requires NoTerminator(line) && IsTerminator(t)
    ensures Lines(line + [t] + rest) == [line] + Lines(rest)
  {
    var s := line + [t] + rest;
    LineEndUnique(s, 0, |line|);
    assert s[..|line|] == line;
    assert s[|line| + 1..] == rest;
  }

  /** Text without a terminator extends the last line. */
  lemma {:induction false} LinesAppendText(s: string, t: string)
    requires NoTerminator(t)
    ensures Lines(s + t) == Lines(s)[..|Lines(s)| - 1] + [Lines(s)[|Lines(s)| - 1] + t]
    decreases |s|
  {
    var e := LineEnd(s, 0);
    if e == |s| {
      LinesOfOneLine(s);
      LinesOfOneLine(s + t);
    } else {
      var line, rest := s[..e], s[e + 1..];
      assert s == line + [s[e]] + rest;
      assert s + t == line + [s[e]] + (rest + t);
      LinesCons(line, s[e], rest);
      LinesCons(line, s[e], rest + t);
      LinesAppendText(rest, t);
    }
  }

  /** A terminator at the end starts a new, empty last line. */
  lemma {:induction false} LinesAppendBreak(s: string, t: char)
    requires IsTerminator(t)
    ensures Lines(s + [t]) == Lines(s) + [""]
    decreases |s|
  {
    var e := LineEnd(s, 0);
    LinesOfOneLine("");
    if e == |s| {
      LinesOfOneLine(s);
      assert s + [t] == s + [t] + "";
      LinesCons(s, t, "");
    } else {
      var line, rest := s[..e], s[e + 1..];
      assert s == line + [s[e]] + rest;
      assert s + [t] == line + [s[e]] + (rest + [t]);
      LinesCons(line, s[e], rest);
      LinesCons(line, s[e], rest + [t]);
      LinesAppendBreak(rest, t);
    }
  }

  /** The lines `ls` joined with LF, built from the left as a template literal is read. */
  function Unlines(ls: seq<string>): string
    requires |ls| > 0
    decreases |ls|
  {
    if |ls| == 1 then ls[0] else Unlines(ls[..|ls| - 1]) + "\n" + ls[|ls| - 1]
  }

  /** Splitting undoes joining, as long as no line holds a terminator of its own. */
  lemma {:induction false} LinesOfUnlines(ls: seq<string>)
    requires |ls| > 0
    requires forall k :: 0 <= k < |ls| ==> NoTerminator(ls[k])
    ensures Lines(Unlines(ls)) == ls
    decreases |ls|
  {
    if |ls| == 1 {
      LinesOfOneLine(ls[0]);
    } else {
      var init, last := ls[..|ls| - 1], ls[|ls| - 1];
      var u := Unlines(init);
      assert Unlines(ls) == u + "\n" + last;
      LinesOfUnlines(init);
      LinesAppendBreak(u, '\n');
      assert u + "\n" == u + ['\n'];
      assert Lines(u + "\n") == init + [""];
      LinesAppendText(u + "\n", last);
      assert (init + [""])[..|init|] == init;
      assert "" + last == last;
      assert Lines(u + "\n" + last) == init + [last];
      assert init + [last] == ls;
    }
  }

  /** The value one line carries for header prefix `p`: a non-empty remainder after `p`. */
  function LineHeader(line: string, p: string): Option<string> {
    if |line| > |p| && PrefixAt(line, 0, p) then Some(line[|p|..]) else None
  }

  function FirstHeaderLine(ls: seq<string>, p: string): Option<string>
    decreases |ls|
  {
    if |ls| == 0 then None
    else if LineHeader(ls[0], p).Some? then LineHeader(ls[0], p)
    else FirstHeaderLine(ls[1..], p)
  }

  /** The first line that carries `p` decides the search over a list of lines. */
  lemma {:induction false} FirstHeaderLineAt(ls: seq<string>, p: string, i: nat)
    requires i < |ls| && LineHeader(ls[i], p).Some?
    requires forall k :: 0 <= k < i ==> LineHeader(ls[k], p).None?
    ensures FirstHeaderLine(ls, p) == LineHeader(ls[i], p)
    decreases i
  {
    if i > 0 {
      FirstHeaderLineAt(ls[1..], p, i - 1);
    }
  }

  /** Reference definition: the value of the first line, in text order, that carries `p`. */
  function FirstHeader(s: string, p: string): Option<string> {
    FirstHeaderLine(Lines(s), p)
  }

  /** The first matching line decides; a line that does not carry `p` is skipped. */
  lemma FirstHeaderCons(line: string, t: char, rest: string, p: string)
    requires NoTerminator(line) && IsTerminator(t)
    ensures LineHeader(line, p).Some? ==> FirstHeader(line + [t] + rest, p) == LineHeader(line, p)
    ensures LineHeader(line, p).None? ==> FirstHeader(line + [t] + rest, p) == FirstHeader(rest, p)
  {
    LinesCons(line, t, rest);
    assert ([line] + Lines(rest))[1..] == Lines(rest);
  }

  /** The final line of a text: it carries `p` or nothing is found. */
  lemma FirstHeaderLastLine(line: string, p: string)
    requires NoTerminator(line)
    ensures FirstHeader(line, p) == LineHeader(line, p)
  {
    LinesOfOneLine(line);
    assert [line][1..] == [];
    assert FirstHeaderLine([], p) == None;
  }

  // ---------------------------------------------------------------------------
  // The regular expression agrees with the line-by-line reading.
  // ---------------------------------------------------------------------------

  /** Inside the first line only position 0 is a line start; there the pattern matches
      exactly when the line carries the header, and captures its value. */
  lemma MatchInFirstLine(s: string, p: string)
    requires PrintableAscii(p)
    ensures forall i :: 0 < i <= LineEnd(s, 0) ==> !MatchAt(s, i, p)
    ensures MatchAt(s, 0, p) <==> LineHeader(s[..LineEnd(s, 0)], p).Some?
    ensures MatchAt(s, 0, p) ==> CaptureAt(s, 0, p) == LineHeader(s[..LineEnd(s, 0)], p).value
  {
    var e := LineEnd(s, 0);
    var line := s[..e];
    forall i | 0 < i <= e
      ensures !MatchAt(s, i, p)
    {
      assert !IsTerminator(s[i - 1]);
    }
    if MatchAt(s, 0, p) {
      PrefixCharsAreNotTerminators(s, 0, p);
      assert |p| < e;
      assert PrefixAt(line, 0, p);
      LineEndUnique(s, |p|, e);
    }
    if LineHeader(line, p).Some? {
      assert PrefixAt(s, 0, p);
    }
  }

  /** Past a terminator at `e`, matching in `s` is matching in the text that follows. */
  lemma MatchShift(s: string, e: nat, j: nat, p: string)
    requires e < |s| && IsTerminator(s[e]) && j <= |s| - e - 1
    ensures MatchAt(s, e + 1 + j, p) <==> MatchAt(s[e + 1..], j, p)
    ensures MatchAt(s, e + 1 + j, p) ==> CaptureAt(s, e + 1 + j, p) == CaptureAt(s[e + 1..], j, p)
  {
    var rest := s[e + 1..];
    var i := e + 1 + j;
    assert LineStart(s, i) <==> LineStart(rest, j);
    assert PrefixAt(s, i, p) <==> PrefixAt(rest, j, p) by {
      if i + |p| <= |s| {
        forall k | 0 <= k < |p|
          ensures SameIgnoringCase(s[i + k], p[k]) <==> SameIgnoringCase(rest[j + k], p[k])
        {
          assert s[i + k] == rest[j + k];
        }
      }
    }
    if MatchAt(s, i, p) {
      var end := LineEnd(rest, j + |p|);
      forall k | i + |p| <= k < e + 1 + end
        ensures !IsTerminator(s[k])
      {
        assert s[k] == rest[k - e - 1];
      }
      LineEndUnique(s, i + |p|, e + 1 + end);
      assert s[i + |p| .. e + 1 + end] == rest[j + |p| .. end];
    }
  }

  /** `i` is the leftmost position where the pattern matches. */
  predicate Leftmost(s: string, i: nat, p: string) {
    i <= |s| && MatchAt(s, i, p) && forall k :: 0 <= k < i ==> !MatchAt(s, k, p)
  }

  /** The pattern matches nowhere. */
  predicate NoMatch(s: string, p: string) {
    forall i :: 0 <= i <= |s| ==> !MatchAt(s, i, p)
  }

  /** With no match up to a terminator at `e`, a text matches nowhere when what follows
      the terminator matches nowhere. */
  lemma NoMatchShift(s: string, e: nat, p: string)
    requires e < |s| && IsTerminator(s[e])
    requires forall i :: 0 <= i <= e ==> !MatchAt(s, i, p)
    requires NoMatch(s[e + 1..], p)
    ensures NoMatch(s, p)
  {
    forall i | e < i <= |s|
      ensures !MatchAt(s, i, p)
    {
      MatchShift(s, e, i - e - 1, p);
    }
  }

  /** With no match up to a terminator at `e`, the leftmost match of what follows is the
      leftmost match of the whole text, with the same capture. */
  lemma LeftmostShift(s: string, e: nat, j: nat, p: string)
    requires e < |s| && IsTerminator(s[e])
    requires forall i :: 0 <= i <= e ==> !MatchAt(s, i, p)
    requires Leftmost(s[e + 1..], j, p)
    ensures Leftmost(s, e + 1 + j, p)
    ensures CaptureAt(s, e + 1 + j, p) == CaptureAt(s[e + 1..], j, p)
  {
    MatchShift(s, e, j, p);
    forall k | e < k < e + 1 + j
      ensures !MatchAt(s, k, p)
    {
      MatchShift(s, e, k - e - 1, p);
    }
  }

  /** The leftmost regex match lies on the first line that carries the header, and
      nothing matches when no line carries it. */
  lemma {:induction false} LeftmostMatchIsFirstHeaderLine(s: string, p: string)
    requires PrintableAscii(p)
    ensures FirstHeader(s, p).None? ==> NoMatch(s, p)
    ensures FirstHeader(s, p).Some? ==>
      exists i :: Leftmost(s, i, p) && CaptureAt(s, i, p) == FirstHeader(s, p).value
    decreases |s|
  {
    var e := LineEnd(s, 0);
    var line := s[..e];
    MatchInFirstLine(s, p);
    if e == |s| {
      assert line == s;
      FirstHeaderLastLine(s, p);
      if FirstHeader(s, p).Some? {
        assert Leftmost(s, 0, p);
      }
    } else {
      var rest := s[e + 1..];
      assert s == line + [s[e]] + rest;
      FirstHeaderCons(line, s[e], rest, p);
      if LineHeader(line, p).Some? {
        assert Leftmost(s, 0, p);
      } else {
        assert forall i :: 0 <= i <= e ==> !MatchAt(s, i, p);
        LeftmostMatchIsFirstHeaderLine(rest, p);
        if FirstHeader(rest, p).None? {
          NoMatchShift(s, e, p);
        } else {
          var j :| Leftmost(rest, j, p) && CaptureAt(rest, j, p) == FirstHeader(rest, p).value;
          LeftmostShift(s, e, j, p);
        }
      }
    }
  }

  /** The source's regular expression finds exactly what the line-by-line reading finds. */
  lemma RegexAgreesWithLines(s: string, p: string)
    requires PrintableAscii(p)
    ensures RegexExec(s, p) == FirstHeader(s, p)
  {
    LeftmostMatchIsFirstHeaderLine(s, p);
    if FirstHeader(s, p).Some? {
      var i :| Leftmost(s, i, p) && CaptureAt(s, i, p) == FirstHeader(s, p).value;
      RegexExecIsLeftmost(s, p, i);
    }
  }
}
