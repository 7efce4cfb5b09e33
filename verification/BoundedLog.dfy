/**
 The bounded log of a managed server: text arrives in chunks of any size and is
 kept as the last 500 complete lines and an unfinished one. No redactions are set.
 */
module BoundedLog {
  import opened Prelude

  const MaxLines := 500

  /** The characters at which Python's `splitlines` breaks a line. */
  predicate IsBreak(c: char) {
    c == '\n' || c == '\r' || c == '\U{0B}' || c == '\U{0C}' || c == '\U{1C}' || c == '\U{1D}' || c == '\U{1E}'
    || c == '\U{85}' || c == '\U{2028}' || c == '\U{2029}'
  }

  /** Length of the first line of `s`, its break included; `\r\n` is one break. */
  function FirstLength(s: string): (n: nat)
    requires s != []
    ensures 1 <= n <= |s|
  {
    if IsBreak(s[0]) then (if s[0] == '\r' && |s| > 1 && s[1] == '\n' then 2 else 1)
    else if |s| == 1 then 1
    else 1 + FirstLength(s[1..])
  }

  /** `s.splitlines(keepends=True)` */
  function SplitLines(s: string): seq<string> {
    if s == [] then [] else [s[..FirstLength(s)]] + SplitLines(s[FirstLength(s)..])
  }

  /** `part.endswith(('\n', '\r'))` */
  predicate EndsLine(part: string) {
    part != [] && (part[|part| - 1] == '\n' || part[|part| - 1] == '\r')
  }

  /** `part.rstrip('\r\n')` */
  function Stripped(part: string): string {
    if EndsLine(part) then Stripped(part[..|part| - 1]) else part
  }

  /** `s[-n:]` for n > 0. */
  function Last<T>(s: seq<T>, n: nat): seq<T> {
    if |s| <= n then s else s[|s| - n..]
  }

  datatype LogState = LogState(lines: seq<string>, partial: string)

  /** One part of a split: a finished line goes to the deque, the rest is kept. */
  function Absorb(l: LogState, part: string): LogState {
    if EndsLine(part) then l.(lines := Last(l.lines + [Stripped(part)], MaxLines)) else l.(partial := part)
  }

  function AbsorbAll(l: LogState, parts: seq<string>): LogState
    decreases |parts|
  {
    if parts == [] then l else AbsorbAll(Absorb(l, parts[0]), parts[1..])
  }

  /** `_append` */
  function Appended(l: LogState, value: string): LogState {
    AbsorbAll(l.(partial := ""), SplitLines(l.partial + value))
  }

  function AppendedAll(l: LogState, chunks: seq<string>): LogState
    decreases |chunks|
  {
    if chunks == [] then l else AppendedAll(Appended(l, chunks[0]), chunks[1..])
  }

  /** `values[-max(0, min(limit, 500)):]`; a slice from `-0` is the whole list. */
  function LinesOf(l: LogState, limit: int): seq<string> {
    var values := if l.partial != "" then l.lines + [l.partial] else l.lines;
    var n := if limit < 500 then limit else 500;
    if n <= 0 then values else Last(values, n)
  }

  class Log {
    var lines: seq<string>
    var partial: string

    ghost function View(): LogState
      reads this
    {
      LogState(lines, partial)
    }

    constructor ()
      ensures View() == LogState([], "")
    {
      lines, partial := [], "";
    }

    method Append(value: string)
      modifies this
      ensures View() == Appended(old(View()), value)
    {
      var parts := SplitLines(partial + value);
      partial := "";
      for k := 0 to |parts|
        invariant AbsorbAll(View(), parts[k..]) == Appended(old(View()), value)
      {
        assert parts[k..][0] == parts[k] && parts[k..][1..] == parts[k + 1..];
        if EndsLine(parts[k]) {
          lines := Last(lines + [Stripped(parts[k])], MaxLines);
        } else {
          partial := parts[k];
        }
      }
      assert parts[|parts|..] == [];
    }
  }

  // ---------------------------------------------------------------- what the log should hold

  /** Text whose only line break is `\n`. */
  ghost predicate Plain(s: string) {
    forall i :: 0 <= i < |s| && IsBreak(s[i]) ==> s[i] == '\n'
  }

  /** The finished lines of a text, without their breaks. */
  function Finished(s: string): seq<string>
    decreases |s|
  {
    if s == [] then []
    else
      var rest := Finished(s[..|s| - 1]);
      if s[|s| - 1] == '\n' then rest + [Unfinished(s[..|s| - 1])] else rest
  }

  /** What follows the last `\n`. */
  function Unfinished(s: string): (r: string)
    ensures |r| <= |s|
    decreases |s|
  {
    if s == [] then [] else if s[|s| - 1] == '\n' then [] else Unfinished(s[..|s| - 1]) + [s[|s| - 1]]
  }

  /** The log that a whole text should leave. */
  function LogOf(text: string): LogState {
    LogState(Last(Finished(text), MaxLines), Unfinished(text))
  }

  lemma {:induction false} LastOfLast<T>(a: seq<T>, b: seq<T>, n: nat)
    ensures Last(Last(a, n) + b, n) == Last(a + b, n)
  {
  }

  /** What one more character does to the lines. */
  lemma {:induction false} OneMore(s: string, c: char)
    ensures Finished(s + [c]) == if c == '\n' then Finished(s) + [Unfinished(s)] else Finished(s)
    ensures Unfinished(s + [c]) == if c == '\n' then [] else Unfinished(s) + [c]
  {
    assert (s + [c])[..|s|] == s;
  }

  lemma {:induction false} Snoc(a: string, b: string)
    requires b != []
    ensures a + b == (a + b[..|b| - 1]) + [b[|b| - 1]]
  {
  }

  lemma {:induction false} ResumeOneMore(lines: seq<string>, whole: string, resumed: string, c: char)
    requires Finished(whole) == lines + Finished(resumed) && Unfinished(whole) == Unfinished(resumed)
    ensures Finished(whole + [c]) == lines + Finished(resumed + [c])
    ensures Unfinished(whole + [c]) == Unfinished(resumed + [c])
  {
    OneMore(whole, c);
    OneMore(resumed, c);
  }

  /** Splitting a text can be resumed at the last unfinished line. */
  lemma {:induction false} FinishedConcat(a: string, b: string)
    ensures Finished(a + b) == Finished(a) + Finished(Unfinished(a) + b)
    ensures Unfinished(a + b) == Unfinished(Unfinished(a) + b)
    decreases |b|
  {
    var u := Unfinished(a);
    if b == [] {
      assert a + b == a && u + b == u;
      UnfinishedHasNoBreak(a);
    } else {
      var front := b[..|b| - 1];
      FinishedConcat(a, front);
      ResumeOneMore(Finished(a), a + front, u + front, b[|b| - 1]);
      Snoc(a, b);
      Snoc(u, b);
    }
  }

  lemma {:induction false} UnfinishedHasNoBreak(a: string)
    ensures '\n' !in Unfinished(a)
    ensures Finished(Unfinished(a)) == [] && Unfinished(Unfinished(a)) == Unfinished(a)
    decreases |a|
  {
    if a != [] && a[|a| - 1] != '\n' {
      var u := Unfinished(a);
      UnfinishedHasNoBreak(a[..|a| - 1]);
      assert u[..|u| - 1] == Unfinished(a[..|a| - 1]);
    }
  }

  lemma {:induction false} NoNewlineNoLines(s: string)
    requires '\n' !in s
    ensures Finished(s) == [] && Unfinished(s) == s
    decreases |s|
  {
    if s != [] {
      NoNewlineNoLines(s[..|s| - 1]);
      assert s[..|s| - 1] + [s[|s| - 1]] == s;
    }
  }

  lemma {:induction false} LineThenRest(line: string, rest: string)
    requires '\n' !in line
    ensures Finished(line + ['\n'] + rest) == [line] + Finished(rest)
    ensures Unfinished(line + ['\n'] + rest) == Unfinished(rest)
  {
    var first := line + ['\n'];
    assert first[..|first| - 1] == line;
    NoNewlineNoLines(line);
    FinishedConcat(first, rest);
    assert Unfinished(first) + rest == rest;
  }

  // ---------------------------------------------------------------- the split of plain text

  lemma {:induction false} FirstLineOfPlain(s: string)
    requires s != [] && Plain(s)
    ensures
      var n := FirstLength(s);
      && '\n' !in s[..n - 1]
      && (n < |s| ==> s[n - 1] == '\n')
    decreases |s|
  {
    if !IsBreak(s[0]) && |s| > 1 {
      FirstLineOfPlain(s[1..]);
      var n := FirstLength(s);
      assert s[..n - 1] == [s[0]] + s[1..][..n - 2];
    }
  }

  lemma {:induction false} StrippedLine(line: string)
    requires Plain(line) && '\n' !in line
    ensures Stripped(line + ['\n']) == line
  {
    assert (line + ['\n'])[..|line|] == line;
    if line != [] {
      assert line[|line| - 1] in line;
      assert line[|line| - 1] == '\r' ==> IsBreak('\r');
    }
  }

  lemma {:induction false} SplitWhole(s: string)
    requires s != [] && FirstLength(s) == |s|
    ensures SplitLines(s) == [s]
  {
    assert s[..|s|] == s && s[|s|..] == [];
    assert SplitLines(s[|s|..]) == [];
  }

  lemma {:induction false} AbsorbOne(l: LogState, part: string)
    ensures AbsorbAll(l, [part]) == Absorb(l, part)
  {
    assert [part][1..] == [];
  }

  lemma {:induction false} KeptAsPartial(l: LogState, s: string, finished: seq<string>)
    requires !EndsLine(s) && |l.lines| <= MaxLines && finished == []
    ensures Absorb(l, s) == LogState(Last(l.lines + finished, MaxLines), s)
  {
    assert l.lines + finished == l.lines;
  }

  lemma {:induction false} LastPart(l: LogState, s: string)
    requires s != [] && Plain(s) && l.partial == "" && |l.lines| <= MaxLines
    requires FirstLength(s) == |s| && s[|s| - 1] != '\n'
    ensures AbsorbAll(l, SplitLines(s)) == LogState(Last(l.lines + Finished(s), MaxLines), Unfinished(s))
  {
    PlainEnd(s);
    NoNewlineAtAll(s);
    NoNewlineNoLines(s);
    KeptAsPartial(l, s, Finished(s));
    SplitWhole(s);
    AbsorbOne(l, s);
  }

  lemma {:induction false} PlainEnd(s: string)
    requires s != [] && Plain(s) && s[|s| - 1] != '\n'
    ensures !EndsLine(s)
  {
    assert !IsBreak(s[|s| - 1]);
  }

  lemma {:induction false} NoNewlineAtAll(s: string)
    requires s != [] && Plain(s) && FirstLength(s) == |s| && s[|s| - 1] != '\n'
    ensures '\n' !in s
  {
    FirstLineOfPlain(s);
    assert s == s[..|s| - 1] + [s[|s| - 1]];
  }

  /** The loop over the parts leaves the text's finished and unfinished lines. */
  lemma {:induction false} PlainIsAbsorbed(l: LogState, s: string)
    requires Plain(s) && l.partial == "" && |l.lines| <= MaxLines
    ensures AbsorbAll(l, SplitLines(s)) == LogState(Last(l.lines + Finished(s), MaxLines), Unfinished(s))
    decreases |s|
  {
    if s == [] {
      assert l.lines + [] == l.lines;
    } else {
      var n := FirstLength(s);
      FirstLineOfPlain(s);
      if s[n - 1] == '\n' {
        var line, rest := s[..n - 1], s[n..];
        assert s == line + ['\n'] + rest;
        var next := l.(lines := Last(l.lines + [line], MaxLines));
        FirstPart(l, s, line, rest);
        PlainIsAbsorbed(next, rest);
        LineJoins(l.lines, line, rest);
      } else {
        LastPart(l, s);
      }
    }
  }

  lemma {:induction false} LineJoins(lines: seq<string>, line: string, rest: string)
    requires '\n' !in line
    ensures Last(Last(lines + [line], MaxLines) + Finished(rest), MaxLines) ==
      Last(lines + Finished(line + ['\n'] + rest), MaxLines)
    ensures Unfinished(line + ['\n'] + rest) == Unfinished(rest)
  {
    LineThenRest(line, rest);
    assert lines + ([line] + Finished(rest)) == (lines + [line]) + Finished(rest);
    LastOfLast(lines + [line], Finished(rest), MaxLines);
  }

  lemma {:induction false} FirstPart(l: LogState, s: string, line: string, rest: string)
    requires s != [] && Plain(s) && '\n' !in line
    requires FirstLength(s) == |line| + 1 && s == line + ['\n'] + rest
    ensures AbsorbAll(l, SplitLines(s)) == AbsorbAll(l.(lines := Last(l.lines + [line], MaxLines)), SplitLines(rest))
  {
    var n := FirstLength(s);
    assert s[..n] == line + ['\n'] && s[n..] == rest;
    assert SplitLines(s)[0] == s[..n] && SplitLines(s)[1..] == SplitLines(rest);
    assert forall i :: 0 <= i < |line| ==> line[i] == s[i];
    StrippedLine(line);
  }

  lemma {:induction false} UnfinishedIsPlain(s: string)
    requires Plain(s)
    ensures Plain(Unfinished(s))
    decreases |s|
  {
    if s != [] && s[|s| - 1] != '\n' {
      UnfinishedIsPlain(s[..|s| - 1]);
    }
  }

  /** Appending a chunk to the log of a text gives the log of the longer text. */
  lemma {:induction false} AppendContinues(text: string, chunk: string)
    requires Plain(text) && Plain(chunk)
    ensures Appended(LogOf(text), chunk) == LogOf(text + chunk)
  {
    var l := LogOf(text);
    UnfinishedIsPlain(text);
    PlainIsAbsorbed(l.(partial := ""), l.partial + chunk);
    FinishedConcat(text, chunk);
    LastOfLast(Finished(text), Finished(l.partial + chunk), MaxLines);
  }

  function Joined(chunks: seq<string>): string {
    if chunks == [] then "" else chunks[0] + Joined(chunks[1..])
  }

  ghost predicate AllPlain(chunks: seq<string>) {
    forall c :: c in chunks ==> Plain(c)
  }

  lemma {:induction false} JoinStep(text: string, chunks: seq<string>)
    requires chunks != []
    ensures text + Joined(chunks) == (text + chunks[0]) + Joined(chunks[1..])
  {
  }

  lemma {:induction false} ChunksContinue(text: string, chunks: seq<string>)
    requires Plain(text) && AllPlain(chunks)
    ensures AppendedAll(LogOf(text), chunks) == LogOf(text + Joined(chunks))
    decreases |chunks|
  {
    if chunks == [] {
      assert text + Joined(chunks) == text;
    } else {
      AppendContinues(text, chunks[0]);
      PlainConcat(text, chunks[0]);
      ChunksContinue(text + chunks[0], chunks[1..]);
      JoinStep(text, chunks);
    }
  }

  lemma {:induction false} PlainConcat(a: string, b: string)
    requires Plain(a) && Plain(b)
    ensures Plain(a + b)
  {
  }

  /** However a plain text is cut into chunks, the log holds its last 500 finished
      lines and its unfinished one. */
  lemma {:induction false} ChunkingDoesNotMatter(chunks: seq<string>, chunks': seq<string>)
    requires AllPlain(chunks) && AllPlain(chunks')
    requires Joined(chunks) == Joined(chunks')
    ensures AppendedAll(LogState([], ""), chunks) == LogOf(Joined(chunks))
    ensures AppendedAll(LogState([], ""), chunks) == AppendedAll(LogState([], ""), chunks')
  {
    assert LogOf("") == LogState([], "");
    ChunksContinue("", chunks);
    ChunksContinue("", chunks');
    assert "" + Joined(chunks) == Joined(chunks);
    assert "" + Joined(chunks') == Joined(chunks');
  }

  lemma {:induction false} LastOfCapped(f: seq<string>, u: string, k: nat)
    requires 0 < k <= MaxLines
    ensures Last(Last(f, MaxLines) + [u], k) == Last(f + [u], k)
  {
  }

  /** `lines(k)` gives the last k of the lines written, the unfinished one included,
      and no more than 500; a limit of 0 or below gives all that is kept. */
  lemma {:induction false} LinesAreLast(text: string, k: int)
    ensures
      var open := if Unfinished(text) != "" then [Unfinished(text)] else [];
      LinesOf(LogOf(text), k) ==
        if k > 0 then Last(Finished(text) + open, if k < MaxLines then k else MaxLines)
        else Last(Finished(text), MaxLines) + open
  {
    var f, u := Finished(text), Unfinished(text);
    var n := if k < MaxLines then k else MaxLines;
    if k > 0 && u != "" {
      LastOfCapped(f, u, n);
    } else {
      assert f + [] == f && Last(f, MaxLines) + [] == Last(f, MaxLines);
      if k > 0 {
        LastOfLarger(f, n);
      }
    }
  }

  lemma {:induction false} LastOfLarger(f: seq<string>, n: nat)
    requires n <= MaxLines
    ensures Last(Last(f, MaxLines), n) == Last(f, n)
  {
  }

  // ---------------------------------------------------------------- other line breaks

  /** A break that ends a part of the split but not a line of the log. */
  predicate IsOdd(c: char) {
    IsBreak(c) && c != '\n' && c != '\r'
  }

  ghost predicate HasOdd(s: string) {
    exists i :: 0 <= i < |s| && IsOdd(s[i])
  }

  /** The text does not end with a break. */
  predicate Dangles(s: string) {
    s != [] && !IsBreak(s[|s| - 1])
  }

  /** The lines that the parts of a split add. */
  function Ended(parts: seq<string>): seq<string>
    decreases |parts|
  {
    if parts == [] then []
    else (if EndsLine(parts[0]) then [Stripped(parts[0])] else []) + Ended(parts[1..])
  }

  /** The last part that is not a line, or `old_`. */
  function LastOpen(parts: seq<string>, old_: string): string
    decreases |parts|
  {
    if parts == [] then old_ else LastOpen(parts[1..], if EndsLine(parts[0]) then old_ else parts[0])
  }

  lemma {:induction false} EndedConcat(a: seq<string>, b: seq<string>, old_: string)
    ensures Ended(a + b) == Ended(a) + Ended(b)
    ensures LastOpen(a + b, old_) == LastOpen(b, LastOpen(a, old_))
    decreases |a|
  {
    if a == [] {
      assert a + b == b;
    } else {
      assert (a + b)[1..] == a[1..] + b;
      EndedConcat(a[1..], b, if EndsLine(a[0]) then old_ else a[0]);
    }
  }

  lemma {:induction false} EndedOne(part: string, old_: string)
    ensures Ended([part]) == if EndsLine(part) then [Stripped(part)] else []
    ensures LastOpen([part], old_) == if EndsLine(part) then old_ else part
  {
    assert [part][1..] == [];
  }

  lemma {:induction false} EndedFirst(part: string, rest: seq<string>, old_: string)
    ensures Ended([part] + rest) == (if EndsLine(part) then [Stripped(part)] else []) + Ended(rest)
    ensures LastOpen([part] + rest, old_) == LastOpen(rest, if EndsLine(part) then old_ else part)
  {
    assert ([part] + rest)[1..] == rest;
  }

  lemma {:induction false} EndedLast(init: seq<string>, part: string, old_: string)
    ensures Ended(init + [part]) == Ended(init) + if EndsLine(part) then [Stripped(part)] else []
    ensures LastOpen(init + [part], old_) == if EndsLine(part) then LastOpen(init, old_) else part
  {
    EndedConcat(init, [part], old_);
    EndedOne(part, LastOpen(init, old_));
  }

  lemma {:induction false} LastTwice(lines: seq<string>, a: seq<string>, b: seq<string>)
    ensures Last(Last(lines + a, MaxLines) + b, MaxLines) == Last(lines + (a + b), MaxLines)
  {
    LastOfLast(lines + a, b, MaxLines);
    assert lines + (a + b) == (lines + a) + b;
  }

  lemma {:induction false} AbsorbAllIs(l: LogState, parts: seq<string>)
    requires |l.lines| <= MaxLines
    ensures AbsorbAll(l, parts) == LogState(Last(l.lines + Ended(parts), MaxLines), LastOpen(parts, l.partial))
    decreases |parts|
  {
    if parts == [] {
      assert l.lines + [] == l.lines;
    } else {
      var added := if EndsLine(parts[0]) then [Stripped(parts[0])] else [];
      assert l.lines + [] == l.lines;
      assert Absorb(l, parts[0]).lines == Last(l.lines + added, MaxLines);
      AbsorbAllIs(Absorb(l, parts[0]), parts[1..]);
      LastTwice(l.lines, added, Ended(parts[1..]));
    }
  }

  /** What one append does, in terms of the parts of the text it splits. */
  lemma {:induction false} AppendedIs(l: LogState, value: string)
    requires |l.lines| <= MaxLines
    ensures
      var parts := SplitLines(l.partial + value);
      Appended(l, value) == LogState(Last(l.lines + Ended(parts), MaxLines), LastOpen(parts, ""))
  {
    AbsorbAllIs(l.(partial := ""), SplitLines(l.partial + value));
  }

  lemma {:induction false} AppendedTwiceIs(l: LogState, a: string, b: string)
    requires |l.lines| <= MaxLines
    ensures
      var parts := SplitLines(l.partial + a);
      var more := SplitLines(LastOpen(parts, "") + b);
      Appended(Appended(l, a), b) == LogState(Last(l.lines + (Ended(parts) + Ended(more)), MaxLines), LastOpen(more, ""))
  {
    AppendedIs(l, a);
    AppendedIs(Appended(l, a), b);
    var parts := SplitLines(l.partial + a);
    LastTwice(l.lines, Ended(parts), Ended(SplitLines(LastOpen(parts, "") + b)));
  }

  lemma {:induction false} AppendedWholeIs(l: LogState, a: string, b: string)
    requires |l.lines| <= MaxLines
    ensures
      var parts := SplitLines((l.partial + a) + b);
      Appended(l, a + b) == LogState(Last(l.lines + Ended(parts), MaxLines), LastOpen(parts, ""))
  {
    AppendedIs(l, a + b);
    assert l.partial + (a + b) == (l.partial + a) + b;
  }

  // ---- the split of any text

  /** A text that is one part. */
  predicate IsPart(t: string) {
    t != [] && FirstLength(t) == |t|
  }

  /** The first part holds no break but at its end; it has none only if it is the
      whole text. */
  lemma {:induction false} FirstPartBreaks(s: string)
    requires s != []
    ensures
      var n := FirstLength(s);
      && IsPart(s[..n])
      && (n < |s| ==> IsBreak(s[n - 1]) && !(s[n - 1] == '\r' && s[n] == '\n'))
      && (forall i :: 0 <= i < n - 1 && IsBreak(s[i]) ==> i == n - 2 && s[i] == '\r' && s[i + 1] == '\n')
    decreases |s|
  {
    if !IsBreak(s[0]) && |s| > 1 {
      FirstPartBreaks(s[1..]);
      var n := FirstLength(s);
      assert s[..n][1..] == s[1..][..n - 1];
      forall i | 0 <= i < n - 1 && IsBreak(s[i]) ensures i == n - 2 && s[i] == '\r' && s[i + 1] == '\n' {
        assert s[i] == s[1..][i - 1];
      }
    }
  }

  /** More text after a finished first part does not move its end. */
  lemma {:induction false} FirstLengthExtends(s: string, b: string)
    requires s != []
    requires FirstLength(s) < |s| || (IsBreak(s[|s| - 1]) && !(s[|s| - 1] == '\r' && b != [] && b[0] == '\n'))
    ensures FirstLength(s + b) == FirstLength(s)
    decreases |s|
  {
    if !IsBreak(s[0]) && |s| > 1 {
      assert (s + b)[1..] == s[1..] + b;
      FirstLengthExtends(s[1..], b);
    }
  }

  function Init<T>(s: seq<T>): seq<T>
    requires s != []
  {
    s[..|s| - 1]
  }

  function End<T>(s: seq<T>): T
    requires s != []
  {
    s[|s| - 1]
  }

  /** A split can be resumed at its last part, whatever that ends with. */
  lemma {:induction false} SplitResumes(s: string, b: string)
    requires s != []
    ensures
      var parts := SplitLines(s);
      && parts != [] && IsPart(End(parts)) && |End(parts)| <= |s| && s[|s| - |End(parts)|..] == End(parts)
      && SplitLines(s + b) == Init(parts) + SplitLines(End(parts) + b)
    decreases |s|
  {
    var n := FirstLength(s);
    FirstPartBreaks(s);
    if n == |s| {
      SplitWhole(s);
      assert Init([s]) == [];
      assert [] + SplitLines(s + b) == SplitLines(s + b);
    } else {
      var rest := SplitLines(s[n..]);
      SplitResumes(s[n..], b);
      SplitStep(s, b);
      SplitJoins(s[..n], rest, SplitLines(s[n..] + b), SplitLines(End(rest) + b));
      SuffixOfRest(s, n, |End(rest)|);
    }
  }

  lemma {:induction false} SplitJoins<T>(x: T, rest: seq<T>, whole: seq<T>, more: seq<T>)
    requires rest != [] && whole == Init(rest) + more
    ensures [x] + whole == Init([x] + rest) + more && End([x] + rest) == End(rest)
  {
    InitOfCons(x, rest);
    assert [x] + (Init(rest) + more) == ([x] + Init(rest)) + more;
  }

  lemma {:induction false} SuffixOfRest(s: string, n: nat, k: nat)
    requires n + k <= |s|
    ensures s[|s| - k..] == s[n..][|s[n..]| - k..]
  {
  }

  lemma {:induction false} SplitStep(s: string, b: string)
    requires s != [] && FirstLength(s) < |s|
    ensures
      var n := FirstLength(s);
      SplitLines(s) == [s[..n]] + SplitLines(s[n..]) && SplitLines(s + b) == [s[..n]] + SplitLines(s[n..] + b)
  {
    var n := FirstLength(s);
    FirstLengthExtends(s, b);
    assert (s + b)[..n] == s[..n] && (s + b)[n..] == s[n..] + b;
  }

  lemma {:induction false} InitOfCons<T>(x: T, rest: seq<T>)
    requires rest != []
    ensures Init([x] + rest) == [x] + Init(rest) && End([x] + rest) == End(rest)
  {
  }

  /** `b` begins with the second half of a break that `s` has begun. */
  predicate CutsCrLf(s: string, b: string) {
    s != [] && b != [] && s[|s| - 1] == '\r' && b[0] == '\n'
  }

  lemma {:induction false} SplitAfterBreak(t: string, b: string)
    requires IsPart(t) && IsBreak(End(t)) && !CutsCrLf(t, b)
    ensures SplitLines(t + b) == [t] + SplitLines(b)
  {
    FirstLengthExtends(t, b);
    assert (t + b)[..|t|] == t && (t + b)[|t|..] == b;
  }

  lemma {:induction false} SplitInsideCrLf(t: string, b: string)
    requires IsPart(t) && CutsCrLf(t, b)
    ensures SplitLines(t + b) == [t + ['\n']] + SplitLines(b[1..])
    ensures SplitLines(b) == [['\n']] + SplitLines(b[1..])
    ensures Stripped(t + ['\n']) == Stripped(t) && Stripped(['\n']) == ""
  {
    var two := t + ['\n'];
    CrLfPart(t);
    assert t + b == two + b[1..];
    SplitAfterBreak(two, b[1..]);
    assert two[..|two| - 1] == t;
    assert ['\n'][..0] == "" && Stripped("") == "";
    assert b == ['\n'] + b[1..];
    SplitAfterBreak(['\n'], b[1..]);
  }

  lemma {:induction false} CrLfPart(t: string)
    requires IsPart(t) && End(t) == '\r'
    ensures IsPart(t + ['\n'])
    decreases |t|
  {
    if |t| > 1 {
      FirstPartBreaks(t);
      assert !IsBreak(t[0]);
      assert (t + ['\n'])[1..] == t[1..] + ['\n'];
      CrLfPart(t[1..]);
    }
  }

  // ---- open parts

  ghost predicate HasOpen(parts: seq<string>) {
    exists k :: 0 <= k < |parts| && !EndsLine(parts[k])
  }

  lemma {:induction false} LastOpenIs(parts: seq<string>, old_: string)
    ensures HasOpen(parts) ==> LastOpen(parts, old_) in parts && !EndsLine(LastOpen(parts, old_))
    ensures !HasOpen(parts) ==> LastOpen(parts, old_) == old_
    decreases |parts|
  {
    if parts != [] {
      HasOpenSplit(parts[0], parts[1..]);
      assert parts == [parts[0]] + parts[1..];
      LastOpenIs(parts[1..], if EndsLine(parts[0]) then old_ else parts[0]);
    }
  }

  /** What was open before does not matter once there is an open part. */
  lemma {:induction false} LastOpenForgets(parts: seq<string>, x: string, y: string)
    ensures HasOpen(parts) ==> LastOpen(parts, x) == LastOpen(parts, y)
    decreases |parts|
  {
    if parts != [] && EndsLine(parts[0]) {
      HasOpenSplit(parts[0], parts[1..]);
      assert parts == [parts[0]] + parts[1..];
      LastOpenForgets(parts[1..], x, y);
    }
  }

  /** Every part but the last ends with a break, and the last one does unless the
      text dangles. */
  lemma {:induction false} PartsEnd(s: string)
    requires s != []
    ensures
      var parts := SplitLines(s);
      && parts != []
      && (forall p :: p in parts ==> IsPart(p))
      && (forall p :: p in Init(parts) ==> IsPart(p) && IsBreak(End(p)))
      && IsPart(End(parts)) && (Dangles(s) <==> !IsBreak(End(End(parts))))
    decreases |s|
  {
    var n := FirstLength(s);
    FirstPartBreaks(s);
    if n == |s| {
      SplitWhole(s);
    } else {
      PartsEnd(s[n..]);
      SplitStep(s, "");
      InitOfCons(s[..n], SplitLines(s[n..]));
    }
  }

  /** Among finished parts, those that are not lines are those with an odd break. */
  lemma {:induction false} OpenPartsAreOdd(s: string)
    requires s != []
    ensures HasOpen(SplitLines(s)) <==> HasOdd(s) || Dangles(s)
    ensures Dangles(s) ==> (HasOpen(Init(SplitLines(s))) <==> HasOdd(s))
    decreases |s|
  {
    var n := FirstLength(s);
    FirstPartBreaks(s);
    if n == |s| {
      SplitWhole(s);
      assert [s][0] == s;
    } else {
      OpenPartsAreOdd(s[n..]);
      PartsEnd(s[n..]);
      SplitStep(s, "");
      OneMorePart(s[..n], s[n..], SplitLines(s[n..]));
      assert s == s[..n] + s[n..];
    }
  }

  lemma {:induction false} OneMorePart(first: string, rest: string, parts: seq<string>)
    requires IsPart(first) && IsBreak(End(first)) && rest != [] && parts != []
    ensures HasOpen([first] + parts) <==> HasOdd(first) || HasOpen(parts)
    ensures HasOpen(Init([first] + parts)) <==> HasOdd(first) || HasOpen(Init(parts))
    ensures HasOdd(first + rest) <==> HasOdd(first) || HasOdd(rest)
    ensures Dangles(first + rest) <==> Dangles(rest)
  {
    PartHasOdd(first);
    HasOpenSplit(first, parts);
    HasOpenSplit(first, Init(parts));
    InitOfCons(first, parts);
    HasOddConcat(first, rest);
  }

  lemma {:induction false} PartHasOdd(t: string)
    requires IsPart(t) && IsBreak(End(t))
    ensures HasOdd(t) <==> !EndsLine(t)
  {
    FirstPartBreaks(t);
    if !EndsLine(t) {
      assert IsOdd(t[|t| - 1]);
    }
  }

  lemma {:induction false} HasOpenSplit(first: string, rest: seq<string>)
    ensures HasOpen([first] + rest) <==> !EndsLine(first) || HasOpen(rest)
  {
    var all := [first] + rest;
    assert all[0] == first;
    if k :| 0 <= k < |rest| && !EndsLine(rest[k]) {
      assert all[k + 1] == rest[k];
    }
  }

  lemma {:induction false} HasOddConcat(a: string, b: string)
    ensures HasOdd(a + b) <==> HasOdd(a) || HasOdd(b)
  {
    var all := a + b;
    if i :| 0 <= i < |a| && IsOdd(a[i]) {
      assert all[i] == a[i];
    }
    if i :| 0 <= i < |b| && IsOdd(b[i]) {
      assert all[|a| + i] == b[i];
    }
  }

  // ---- one cut

  /** A finished part that is no line was put aside, a line has begun after it, and `b`
      finishes that line and all that follows: the old part comes back. */
  ghost predicate BringsBack(s: string, b: string) {
    HasOdd(s) && Dangles(s) && !HasOdd(b) && EndsLine(b)
  }

  lemma {:induction false} EmptyCut(l: LogState, a: string, b: string)
    requires |l.lines| <= MaxLines && l.partial + a == []
    ensures Appended(Appended(l, a), b) == Appended(l, a + b)
  {
    assert l.lines + [] == l.lines;
    assert a == [] && l.partial == [] && a + b == b;
    AppendedIs(l, a);
    assert Appended(l, a) == l;
  }

  /** Cut inside a line: only the part put aside can differ. */
  lemma {:induction false} DanglingCut(l: LogState, a: string, b: string)
    requires |l.lines| <= MaxLines && Dangles(l.partial + a)
    ensures Appended(Appended(l, a), b) == Appended(l, a + b) <==> !BringsBack(l.partial + a, b)
  {
    var s := l.partial + a;
    SplitResumes(s, b);
    PartsEnd(s);
    var init, t := Init(SplitLines(s)), End(SplitLines(s));
    var more := SplitLines(t + b);
    assert SplitLines(s) == init + [t];
    AppendedTwiceIs(l, a, b);
    AppendedWholeIs(l, a, b);
    EndedLast(init, t, "");
    EndedConcat(init, more, "");
    assert Ended(init) + [] == Ended(init);
    OpenPartsAreOdd(s);
    OpenPartsAreOdd(t + b);
    DanglingPart(t, b);
    OldPartComesBack(init, more);
  }

  /** A part put aside in `init` is seen after `more` exactly if all of that is lines. */
  lemma {:induction false} OldPartComesBack(init: seq<string>, more: seq<string>)
    requires forall p :: p in init ==> p != ""
    ensures LastOpen(more, "") == LastOpen(more, LastOpen(init, "")) <==> !HasOpen(init) || HasOpen(more)
  {
    LastOpenIs(init, "");
    LastOpenIs(more, "");
    LastOpenIs(more, LastOpen(init, ""));
    LastOpenForgets(more, "", LastOpen(init, ""));
  }

  lemma {:induction false} DanglingPart(t: string, b: string)
    requires IsPart(t) && !IsBreak(End(t))
    ensures HasOdd(t + b) || Dangles(t + b) <==> HasOdd(b) || !EndsLine(b)
  {
    FirstPartBreaks(t);
    HasOddConcat(t, b);
    if b != [] {
      assert End(t + b) == End(b);
    }
    if b != [] && !EndsLine(b) && !Dangles(t + b) {
      assert IsOdd(b[|b| - 1]);
    }
  }

  /** After a break the part put aside is taken up again as it is. */
  lemma {:induction false} TakenUpAgain(s: string, b: string)
    requires s != [] && !Dangles(s)
    ensures
      var q := LastOpen(SplitLines(s), "");
      && Ended(SplitLines(q + b)) == Ended(SplitLines(b))
      && LastOpen(SplitLines(q + b), "") == LastOpen(SplitLines(b), q)
  {
    var q := LastOpen(SplitLines(s), "");
    OpenPartIsFinished(s);
    if q == "" {
      assert q + b == b;
    } else {
      SplitAfterBreak(q, b);
      EndedFirst(q, SplitLines(b), "");
      assert [] + Ended(SplitLines(b)) == Ended(SplitLines(b));
    }
  }

  lemma {:induction false} OpenPartIsFinished(s: string)
    requires s != [] && !Dangles(s)
    ensures
      var q := LastOpen(SplitLines(s), "");
      q == "" || (IsPart(q) && IsBreak(End(q)) && !EndsLine(q))
  {
    var parts := SplitLines(s);
    PartsEnd(s);
    LastOpenIs(parts, "");
    if HasOpen(parts) {
      var q := LastOpen(parts, "");
      assert q in Init(parts) || q == End(parts);
    }
  }

  lemma {:induction false} SplitAtBreak(s: string, b: string)
    requires s != [] && !Dangles(s) && !CutsCrLf(s, b)
    ensures SplitLines(s + b) == SplitLines(s) + SplitLines(b)
  {
    var parts := SplitLines(s);
    SplitResumes(s, b);
    PartsEnd(s);
    SplitAfterBreak(End(parts), b);
    assert Init(parts) + ([End(parts)] + SplitLines(b)) == parts + SplitLines(b);
  }

  /** Cut after a break: nothing changes. */
  lemma {:induction false} CutAfterBreak(l: LogState, a: string, b: string)
    requires |l.lines| <= MaxLines
    requires l.partial + a != [] && !Dangles(l.partial + a) && !CutsCrLf(l.partial + a, b)
    ensures Appended(Appended(l, a), b) == Appended(l, a + b)
  {
    var s := l.partial + a;
    AppendedTwiceIs(l, a, b);
    AppendedWholeIs(l, a, b);
    SplitAtBreak(s, b);
    TakenUpAgain(s, b);
    EndedConcat(SplitLines(s), SplitLines(b), "");
  }

  /** Cut between `\r` and `\n`: exactly one blank line more. */
  lemma {:induction false} CutCarriageReturn(l: LogState, a: string, b: string)
    requires |l.lines| <= MaxLines && CutsCrLf(l.partial + a, b)
    ensures
      var before, after := Ended(SplitLines(l.partial + a)), Ended(SplitLines(b[1..]));
      && Appended(l, a + b).lines == Last(l.lines + (before + after), MaxLines)
      && Appended(Appended(l, a), b).lines == Last(l.lines + (before + ([""] + after)), MaxLines)
      && Appended(Appended(l, a), b).partial == Appended(l, a + b).partial
  {
    var s := l.partial + a;
    AppendedTwiceIs(l, a, b);
    AppendedWholeIs(l, a, b);
    TakenUpAgain(s, b);
    CrLfParts(s, b);
  }

  /** What the second half of the break does to the parts: joined to the first half it
      ends the same line, alone it is a blank one. */
  lemma {:induction false} CrLfParts(s: string, b: string)
    requires CutsCrLf(s, b)
    ensures
      var parts, rest := SplitLines(s), SplitLines(b[1..]);
      && Ended(SplitLines(s + b)) == Ended(parts) + Ended(rest)
      && LastOpen(SplitLines(s + b), "") == LastOpen(rest, LastOpen(parts, ""))
      && Ended(SplitLines(b)) == [""] + Ended(rest)
      && LastOpen(SplitLines(b), LastOpen(parts, "")) == LastOpen(rest, LastOpen(parts, ""))
  {
    SplitResumes(s, b);
    PartsEnd(s);
    var init, t := Init(SplitLines(s)), End(SplitLines(s));
    SplitInsideCrLf(t, b);
    assert SplitLines(s) == init + [t];
    LongerBreak(init, t, t + ['\n'], SplitLines(b[1..]));
    EndedFirst(['\n'], SplitLines(b[1..]), LastOpen(SplitLines(s), ""));
  }

  /** A part may be exchanged for another that ends the same line. */
  lemma {:induction false} LongerBreak(init: seq<string>, t: string, t': string, rest: seq<string>)
    requires EndsLine(t) && EndsLine(t') && Stripped(t') == Stripped(t)
    ensures Ended(init + ([t'] + rest)) == Ended(init + [t]) + Ended(rest)
    ensures LastOpen(init + ([t'] + rest), "") == LastOpen(rest, LastOpen(init + [t], ""))
  {
    EndedLast(init, t, "");
    EndedConcat(init, [t'] + rest, "");
    EndedFirst(t', rest, LastOpen(init, ""));
  }

  // ---- at the cap

  /** The last `n` lines are there and blank. */
  predicate EndsBlank(lines: seq<string>, n: nat) {
    n <= |lines| && forall i :: |lines| - n <= i < |lines| ==> lines[i] == ""
  }

  lemma {:induction false} ShiftedIsBlank(lines: seq<string>, n: nat, i: nat)
    requires |lines| - n <= i < |lines| && n <= |lines|
    requires lines[|lines| - n..] == (lines + [""])[|lines| + 1 - n..]
    ensures lines[i] == ""
    decreases |lines| - i
  {
    var j := i - (|lines| - n);
    assert lines[|lines| - n..][j] == lines[i];
    assert (lines + [""])[|lines| + 1 - n..][j] == (lines + [""])[i + 1];
    if i + 1 < |lines| {
      ShiftedIsBlank(lines, n, i + 1);
    }
  }

  lemma {:induction false} LastOfConcat(a: seq<string>, b: seq<string>)
    ensures |b| >= MaxLines ==> Last(a + b, MaxLines) == Last(b, MaxLines)
    ensures |b| < MaxLines <= |a| + |b| ==> Last(a + b, MaxLines) == a[|a| + |b| - MaxLines..] + b
  {
  }

  /** A blank line in the middle does not show exactly when it is cut off, or when
      everything kept before it is blank too. */
  lemma {:induction false} BlankIsHiddenIff(before: seq<string>, after: seq<string>)
    ensures Last(before + ([""] + after), MaxLines) == Last(before + after, MaxLines) <==>
      |after| >= MaxLines || EndsBlank(before, MaxLines - |after|)
  {
    assert before + ([""] + after) == (before + [""]) + after;
    LastOfConcat(before, after);
    LastOfConcat(before + [""], after);
    if |after| < MaxLines {
      var n := MaxLines - |after|;
      if n <= |before| {
        KeptBeforeIff(before, after, n);
      } else {
        assert |Last(before + after, MaxLines)| == |before| + |after|;
      }
    }
  }

  lemma {:induction false} KeptBeforeIff(before: seq<string>, after: seq<string>, n: nat)
    requires 0 < n <= |before|
    ensures (before + [""])[|before| + 1 - n..] + after == before[|before| - n..] + after <==> EndsBlank(before, n)
  {
    var shifted, kept := (before + [""])[|before| + 1 - n..], before[|before| - n..];
    if shifted + after == kept + after {
      assert (shifted + after)[..n] == shifted && (kept + after)[..n] == kept;
      forall i | |before| - n <= i < |before| ensures before[i] == "" {
        ShiftedIsBlank(before, n, i);
      }
    }
  }

  /** The blank line that a cut inside `\r\n` adds does not show: 500 lines follow, or
      everything kept before it is blank. */
  predicate CutIsHidden(before: seq<string>, after: seq<string>) {
    |after| >= MaxLines || EndsBlank(before, MaxLines - |after|)
  }

  lemma {:induction false} CutIsHiddenIff(l: LogState, a: string, b: string)
    requires |l.lines| <= MaxLines && CutsCrLf(l.partial + a, b)
    ensures Appended(Appended(l, a), b) == Appended(l, a + b) <==>
      CutIsHidden(l.lines + Ended(SplitLines(l.partial + a)), Ended(SplitLines(b[1..])))
  {
    var before, after := Ended(SplitLines(l.partial + a)), Ended(SplitLines(b[1..]));
    CutCarriageReturn(l, a, b);
    BlankIsHiddenIff(l.lines + before, after);
    Regrouped(l.lines, before, [""] + after);
    Regrouped(l.lines, before, after);
  }

  lemma {:induction false} Regrouped(x: seq<string>, y: seq<string>, z: seq<string>)
    ensures x + (y + z) == (x + y) + z
  {
  }

  lemma {:induction false} SeenBelowCap(l: LogState, a: string, b: string)
    requires |l.lines| <= MaxLines && CutsCrLf(l.partial + a, b) && |Appended(l, a + b).lines| < MaxLines
    ensures !CutIsHidden(l.lines + Ended(SplitLines(l.partial + a)), Ended(SplitLines(b[1..])))
  {
    CutCarriageReturn(l, a, b);
  }

  /** For any log and any text: appending in two chunks is appending the whole exactly
      when the second chunk brings no part back that the first had put aside, and the
      cut does not fall inside `\r\n`, or falls there unseen. */
  lemma {:induction false} TwoChunksIff(l: LogState, a: string, b: string)
    requires |l.lines| <= MaxLines
    ensures
      var s := l.partial + a;
      Appended(Appended(l, a), b) == Appended(l, a + b) <==>
        && !BringsBack(s, b)
        && (CutsCrLf(s, b) ==> CutIsHidden(l.lines + Ended(SplitLines(s)), Ended(SplitLines(b[1..]))))
  {
    var s := l.partial + a;
    if s == [] {
      EmptyCut(l, a, b);
    } else if Dangles(s) {
      DanglingCut(l, a, b);
    } else if CutsCrLf(s, b) {
      CutIsHiddenIff(l, a, b);
    } else {
      CutAfterBreak(l, a, b);
    }
  }

  /** Below the cap every cut inside `\r\n` is seen. */
  lemma {:induction false} TwoChunksBelowCapIff(l: LogState, a: string, b: string)
    requires |l.lines| <= MaxLines && |Appended(l, a + b).lines| < MaxLines
    ensures
      var s := l.partial + a;
      Appended(Appended(l, a), b) == Appended(l, a + b) <==> !CutsCrLf(s, b) && !BringsBack(s, b)
  {
    TwoChunksIff(l, a, b);
    if CutsCrLf(l.partial + a, b) {
      SeenBelowCap(l, a, b);
    }
  }

  // ---- many cuts

  /** No cut of the chunks falls inside `\r\n`, `text` having come before them. */
  ghost predicate CleanCuts(text: string, chunks: seq<string>)
    decreases |chunks|
  {
    chunks != [] ==> !CutsCrLf(text + chunks[0], Joined(chunks[1..])) && CleanCuts(text + chunks[0], chunks[1..])
  }

  predicate EndsWith(s: string, end: string) {
    |end| <= |s| && s[|s| - |end|..] == end
  }

  /** A text that ends within a line ends with its open part. */
  lemma {:induction false} DanglingIsOpen(s: string)
    requires Dangles(s)
    ensures LastOpen(SplitLines(s), "") == End(SplitLines(s)) && EndsWith(s, LastOpen(SplitLines(s), ""))
  {
    var parts := SplitLines(s);
    SplitResumes(s, "");
    PartsEnd(s);
    assert parts == Init(parts) + [End(parts)];
    EndedLast(Init(parts), End(parts), "");
  }

  /** Where `\n` and `\r` are the only breaks, what is not finished is what the text ends with. */
  lemma {:induction false} PartialIsSuffix(s: string)
    requires !HasOdd(s)
    ensures EndsWith(s, LastOpen(SplitLines(s), ""))
  {
    if Dangles(s) {
      DanglingIsOpen(s);
    } else if s != [] {
      OpenPartsAreOdd(s);
      LastOpenIs(SplitLines(s), "");
    }
  }

  lemma {:induction false} SuffixHasNoOdd(s: string, end: string)
    requires !HasOdd(s) && EndsWith(s, end)
    ensures !HasOdd(end)
  {
    HasOddConcat(s[..|s| - |end|], end);
    assert s == s[..|s| - |end|] + end;
  }

  /** Text whose breaks are `\n`, `\r` and `\r\n` may be cut anywhere but inside
      `\r\n`: the log is that of the whole. */
  lemma {:induction false} CleanChunksAreWhole(l: LogState, text: string, chunks: seq<string>)
    requires |l.lines| <= MaxLines && EndsWith(text, l.partial) && chunks != []
    requires !HasOdd(text + Joined(chunks)) && CleanCuts(text, chunks)
    ensures AppendedAll(l, chunks) == Appended(l, Joined(chunks))
    decreases |chunks|
  {
    var a, rest := chunks[0], Joined(chunks[1..]);
    JoinStep(text, chunks);
    HasOddConcat(text + a, rest);
    assert EndsWith(text + a, l.partial + a);
    SuffixHasNoOdd(text + a, l.partial + a);
    if |chunks| == 1 {
      assert chunks[1..] == [];
      assert AppendedAll(Appended(l, a), chunks[1..]) == Appended(l, a);
      assert a + rest == a;
    } else {
      var next := Appended(l, a);
      AppendedIs(l, a);
      PartialIsSuffix(l.partial + a);
      CleanChunksAreWhole(next, text + a, chunks[1..]);
      TwoChunksIff(l, a, rest);
    }
  }

  // ---- what an append loses

  function OddCount(s: string): nat {
    if s == [] then 0 else (if IsOdd(s[0]) then 1 else 0) + OddCount(s[1..])
  }

  function Total(parts: seq<string>): nat {
    if parts == [] then 0 else |parts[0]| + Total(parts[1..])
  }

  function OpenCount(parts: seq<string>): nat {
    if parts == [] then 0 else (if EndsLine(parts[0]) then 0 else 1) + OpenCount(parts[1..])
  }

  /** How much of the parts an append puts into lines, their breaks included. */
  function InLines(parts: seq<string>): nat {
    if parts == [] then 0 else (if EndsLine(parts[0]) then |parts[0]| else 0) + InLines(parts[1..])
  }

  lemma {:induction false} OddCountConcat(a: string, b: string)
    ensures OddCount(a + b) == OddCount(a) + OddCount(b)
    decreases |a|
  {
    if a == [] {
      assert a + b == b;
    } else {
      assert (a + b)[1..] == a[1..] + b;
      OddCountConcat(a[1..], b);
    }
  }

  lemma {:induction false} NoOddCount(s: string)
    requires forall c :: c in s ==> !IsOdd(c)
    ensures OddCount(s) == 0
    decreases |s|
  {
    if s != [] {
      NoOddCount(s[1..]);
    }
  }

  lemma {:induction false} PartOddCount(t: string)
    requires IsPart(t)
    ensures OddCount(t) == if IsOdd(End(t)) then 1 else 0
  {
    FirstPartBreaks(t);
    assert t == Init(t) + [End(t)];
    OddCountConcat(Init(t), [End(t)]);
    NoOddCount(Init(t));
    assert [End(t)][1..] == [];
  }

  lemma {:induction false} PartsOf(s: string)
    ensures Total(SplitLines(s)) == |s|
    ensures OpenCount(SplitLines(s)) == OddCount(s) + if Dangles(s) then 1 else 0
    decreases |s|
  {
    if s != [] {
      var n := FirstLength(s);
      PartsOf(s[n..]);
      FirstPartCounts(s);
      assert SplitLines(s)[0] == s[..n] && SplitLines(s)[1..] == SplitLines(s[n..]);
    }
  }

  lemma {:induction false} FirstPartCounts(s: string)
    requires s != []
    ensures
      var n := FirstLength(s);
      && (OddCount(s) + if Dangles(s) then 1 else 0) ==
         (if EndsLine(s[..n]) then 0 else 1) + (OddCount(s[n..]) + if Dangles(s[n..]) then 1 else 0)
  {
    var n := FirstLength(s);
    FirstPartBreaks(s);
    PartOddCount(s[..n]);
    assert s == s[..n] + s[n..];
    OddCountConcat(s[..n], s[n..]);
    if n == |s| {
      assert s[..n] == s && s[n..] == [];
    } else {
      assert End(s[..n]) == s[n - 1] && End(s[n..]) == End(s);
    }
  }

  lemma {:induction false} KeptParts(parts: seq<string>, old_: string)
    requires forall k :: 0 <= k < |parts| ==> |parts[k]| > 0
    ensures InLines(parts) + |LastOpen(parts, old_)| <= Total(parts) + |old_|
    ensures InLines(parts) + |LastOpen(parts, old_)| == Total(parts) + |old_| <==>
      OpenCount(parts) == 0 || (OpenCount(parts) == 1 && old_ == "")
    decreases |parts|
  {
    if parts != [] {
      KeptParts(parts[1..], if EndsLine(parts[0]) then old_ else parts[0]);
    }
  }

  /** An append keeps all of the text it splits, in lines or as the partial, exactly
      when at most one part of it is no line: counting every odd break, and the end if
      that dangles. All such parts but the last are lost. */
  lemma {:induction false} NothingIsLostIff(l: LogState, value: string)
    requires |l.lines| <= MaxLines
    ensures
      var text := l.partial + value;
      var kept := InLines(SplitLines(text)) + |Appended(l, value).partial|;
      && kept <= |text|
      && (kept == |text| <==> OddCount(text) + (if Dangles(text) then 1 else 0) <= 1)
  {
    var text := l.partial + value;
    AppendedIs(l, value);
    PartsOf(text);
    if text != [] {
      PartsEnd(text);
      assert forall k :: 0 <= k < |SplitLines(text)| ==> IsPart(SplitLines(text)[k]);
    }
    KeptParts(SplitLines(text), "");
  }
}
