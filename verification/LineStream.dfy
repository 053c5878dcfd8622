/** A body rewritten line by line while it is streamed, as a `bufio.Scanner` cuts it, and how that
    compares with rewriting the body as a whole. */
module LineStream {
  import opened Replacement

  /** `bufio.MaxScanTokenSize`: a line this long or longer does not fit the scanner's buffer. */
  const LIMIT := 64 * 1024

  predicate Lacks(s: string, c: char) {
    forall i | 0 <= i < |s| :: s[i] != c
  }

  function LineEnd(s: string): (n: nat)
    ensures n <= |s|
  {
    if s == "" || s[0] == '\n' then 0 else 1 + LineEnd(s[1..])
  }

  function DropCR(line: string): string {
    if line != "" && line[|line| - 1] == '\r' then line[..|line| - 1] else line
  }

  /** The first line of a body, without its ending, as `bufio.ScanLines` cuts it. */
  function FirstLine(body: string): string {
    DropCR(body[..LineEnd(body)])
  }

  function AfterFirstLine(body: string): (rest: string)
    ensures body != "" ==> |rest| < |body|
  {
    if LineEnd(body) < |body| then body[LineEnd(body) + 1..] else ""
  }

  function Lines(body: string): seq<string>
    decreases |body|
  {
    if body == "" then [] else [FirstLine(body)] + Lines(AfterFirstLine(body))
  }

  predicate WithinLimit(body: string)
    decreases |body|
  {
    body != "" ==> LineEnd(body) < LIMIT && WithinLimit(AfterFirstLine(body))
  }

  function Concat(lines: seq<string>): string {
    if lines == [] then "" else lines[0] + Concat(lines[1..])
  }

  /** What the rewriting goroutine writes into the pipe: scanning stops for good at the first
      line that does not fit the buffer. */
  function Streamed(body: string, p: string, r: string): string
    requires p != ""
    decreases |body|
  {
    if body == "" || LineEnd(body) >= LIMIT then ""
    else ReplaceAll(FirstLine(body), p, r) + Streamed(AfterFirstLine(body), p, r)
  }

  /** A pattern and a replacement that hold no line ending; the replacement is no shorter. */
  predicate OneLiners(p: string, r: string) {
    && p != "" && |p| <= |r|
    && Lacks(p, '\n') && Lacks(r, '\n') && Lacks(p, '\r') && Lacks(r, '\r')
  }

  // ---------------------------------------------------------------------------------------
  // Cutting at the first line end
  // ---------------------------------------------------------------------------------------

  lemma {:induction false} LineEndSplits(first: string, rest: string)
    requires Lacks(first, '\n')
    ensures
      var s := first + (['\n'] + rest);
      && LineEnd(s) == |first| && s[..LineEnd(s)] == first
      && FirstLine(s) == DropCR(first) && AfterFirstLine(s) == rest
  {
    var s := first + (['\n'] + rest);
    if first != "" {
      assert s[1..] == first[1..] + (['\n'] + rest);
      LineEndSplits(first[1..], rest);
    }
    assert s[..|first|] == first;
    assert s[|first| + 1..] == rest;
  }

  lemma {:induction false} NoLineEnd(s: string)
    requires Lacks(s, '\n')
    ensures LineEnd(s) == |s| && FirstLine(s) == DropCR(s) && AfterFirstLine(s) == ""
  {
    if s != "" {
      NoLineEnd(s[1..]);
    }
    assert s[..|s|] == s;
  }

  lemma {:induction false} CutFirstLine(s: string) returns (first: string, rest: string)
    requires !Lacks(s, '\n')
    ensures Lacks(first, '\n') && s == first + (['\n'] + rest)
  {
    if s[0] == '\n' {
      first, rest := "", s[1..];
    } else {
      first, rest := CutFirstLine(s[1..]);
      first := [s[0]] + first;
    }
  }

  /** A line feed ends a line, with the carriage return before it, if there is one; what follows the last line
      feed is a line if it is not empty. */
  lemma LinesExactly(line: string, rest: string)
    requires Lacks(line, '\n') && (line == "" || line[|line| - 1] != '\r')
    ensures Lines("") == []
    ensures Lines(line + (['\n'] + rest)) == [line] + Lines(rest)
    ensures Lines((line + ['\r']) + (['\n'] + rest)) == [line] + Lines(rest)
    ensures Lines(line) == (if line == "" then [] else [line]) && Lines(line + ['\r']) == [line]
  {
    LineEndSplits(line, rest);
    LineEndSplits(line + ['\r'], rest);
    NoLineEnd(line);
    NoLineEnd(line + ['\r']);
    assert (line + ['\r'])[..|line|] == line;
  }

  /** A line of less than 64 Ki characters, its carriage return counted, is rewritten and passed on without its
      ending; a longer one ends the stream. */
  lemma StreamExactly(line: string, rest: string, p: string, r: string)
    requires Lacks(line, '\n') && (line == "" || line[|line| - 1] != '\r') && p != ""
    ensures Streamed(line + (['\n'] + rest), p, r)
         == if |line| < 65536 then ReplaceAll(line, p, r) + Streamed(rest, p, r) else ""
    ensures Streamed((line + ['\r']) + (['\n'] + rest), p, r)
         == if |line| < 65535 then ReplaceAll(line, p, r) + Streamed(rest, p, r) else ""
    ensures Streamed(line, p, r) == if |line| < 65536 then ReplaceAll(line, p, r) else ""
  {
    LineEndSplits(line, rest);
    LineEndSplits(line + ['\r'], rest);
    NoLineEnd(line);
    assert (line + ['\r'])[..|line|] == line;
  }

  // ---------------------------------------------------------------------------------------
  // Replacement and single characters
  // ---------------------------------------------------------------------------------------

  /** A pattern cannot match across a character it lacks. */
  lemma PrefixStopsAt(u: string, w: string, p: string)
    requires w != "" && Lacks(p, w[0])
    ensures p <= u + w <==> p <= u
  {
    var s := u + w;
    assert s[|u|] == w[0];
    if |p| <= |u| {
      assert s[..|p|] == u[..|p|];
    } else {
      assert p[|u|] != s[|u|];
    }
  }

  lemma {:induction false} ReplaceUpTo(u: string, w: string, p: string, r: string)
    requires p != "" && w != "" && Lacks(p, w[0])
    ensures ReplaceAll(u + w, p, r) == ReplaceAll(u, p, r) + ReplaceAll(w, p, r)
  {
    PrefixStopsAt(u, w, p);
    if u == "" {
      assert u + w == w;
    } else {
      var n, front := if p <= u then |p| else 1, if p <= u then r else [u[0]];
      var x, y := ReplaceAll(u[n..], p, r), ReplaceAll(w, p, r);
      assert ReplaceAll(u + w, p, r) == front + (x + y) by {
        assert (u + w)[n..] == u[n..] + w;
        ReplaceUpTo(u[n..], w, p, r);
      }
      Associate(front, x, y);
    }
  }

  lemma ReplaceAcross(u: string, c: char, v: string, p: string, r: string)
    requires p != "" && Lacks(p, c)
    ensures ReplaceAll(u + ([c] + v), p, r) == ReplaceAll(u, p, r) + ([c] + ReplaceAll(v, p, r))
  {
    ReplaceUpTo(u, [c] + v, p, r);
    assert p[0] != c && ([c] + v)[1..] == v;
  }

  /** Characters of the result come from the text or from the replacement. */
  lemma {:induction false} ReplaceAddsNone(s: string, c: char, p: string, r: string)
    requires p != "" && Lacks(r, c) && Lacks(s, c)
    ensures Lacks(ReplaceAll(s, p, r), c)
  {
    if s == "" {
    } else if p <= s {
      ReplaceAddsNone(s[|p|..], c, p, r);
    } else {
      ReplaceAddsNone(s[1..], c, p, r);
    }
  }

  lemma {:induction false} ReplaceKeepsLast(s: string, c: char, p: string, r: string)
    requires p != "" && r != "" && Lacks(r, c)
    requires s != "" && s[|s| - 1] != c
    ensures var t := ReplaceAll(s, p, r); t != "" && t[|t| - 1] != c
  {
    if p <= s {
      if s[|p|..] != "" {
        ReplaceKeepsLast(s[|p|..], c, p, r);
      }
    } else if |s| > 1 {
      ReplaceKeepsLast(s[1..], c, p, r);
    }
  }

  lemma {:induction false} NoShorter(s: string, p: string, r: string)
    requires p != "" && |p| <= |r|
    ensures |ReplaceAll(s, p, r)| >= |s|
  {
    if s == "" {
    } else if p <= s {
      NoShorter(s[|p|..], p, r);
    } else {
      NoShorter(s[1..], p, r);
    }
  }

  // ---------------------------------------------------------------------------------------
  // Lines rewritten one by one against the body rewritten as a whole
  // ---------------------------------------------------------------------------------------

  /** Rewriting a line and cutting off its carriage return can be done in either order. */
  lemma RewriteDropCR(line: string, p: string, r: string)
    requires OneLiners(p, r)
    ensures DropCR(ReplaceAll(line, p, r)) == ReplaceAll(DropCR(line), p, r)
    ensures DropCR(line) != line ==> |ReplaceAll(DropCR(line), p, r)| < |ReplaceAll(line, p, r)|
  {
    if line != "" {
      var last := |line| - 1;
      if line[last] == '\r' {
        ReplaceAcross(line[..last], '\r', "", p, r);
        assert line == line[..last] + (['\r'] + "");
      } else {
        ReplaceKeepsLast(line, '\r', p, r);
      }
    }
  }

  /** Cutting off the first line commutes with rewriting the whole text, and what is cut off
      beyond the line itself is lost. */
  lemma RewriteFirstLine(body: string, p: string, r: string)
    requires OneLiners(p, r)
    ensures
      var t := ReplaceAll(body, p, r);
      && FirstLine(t) == ReplaceAll(FirstLine(body), p, r)
      && AfterFirstLine(t) == ReplaceAll(AfterFirstLine(body), p, r)
      && |FirstLine(t)| + |AfterFirstLine(t)| <= |t|
      && (!Lacks(body, '\n') ==> |FirstLine(t)| + |AfterFirstLine(t)| < |t|)
  {
    var t := ReplaceAll(body, p, r);
    if Lacks(body, '\n') {
      NoLineEnd(body);
      ReplaceAddsNone(body, '\n', p, r);
      NoLineEnd(t);
      RewriteDropCR(body, p, r);
    } else {
      var first, rest := CutFirstLine(body);
      LineEndSplits(first, rest);
      ReplaceAcross(first, '\n', rest, p, r);
      ReplaceAddsNone(first, '\n', p, r);
      LineEndSplits(ReplaceAll(first, p, r), ReplaceAll(rest, p, r));
      RewriteDropCR(first, p, r);
    }
  }

  /** If every line fits, the stream carries the whole-body rewrite without its line endings. */
  lemma {:induction false} StreamRefinesWhole(body: string, p: string, r: string)
    requires OneLiners(p, r)
    requires WithinLimit(body)
    ensures Streamed(body, p, r) == Concat(Lines(ReplaceAll(body, p, r)))
    decreases |body|
  {
    if body != "" {
      var t := ReplaceAll(body, p, r);
      NoShorter(body, p, r);
      RewriteFirstLine(body, p, r);
      StreamRefinesWhole(AfterFirstLine(body), p, r);
      assert Lines(t)[1..] == Lines(AfterFirstLine(t));
    }
  }

  /** The stream never carries more than the whole-body rewrite, and loses every line end. */
  lemma {:induction false} StreamLosesLineEnds(body: string, p: string, r: string)
    requires OneLiners(p, r)
    ensures |Streamed(body, p, r)| <= |ReplaceAll(body, p, r)|
    ensures !Lacks(body, '\n') ==> |Streamed(body, p, r)| < |ReplaceAll(body, p, r)|
    decreases |body|
  {
    NoShorter(body, p, r);
    if body != "" && LineEnd(body) < LIMIT {
      RewriteFirstLine(body, p, r);
      StreamLosesLineEnds(AfterFirstLine(body), p, r);
    }
  }

  /** The streamed body is the rewritten body exactly when that is one line that fits. */
  lemma StreamIsWholeExactly(body: string, p: string, r: string)
    requires OneLiners(p, r)
    ensures Streamed(body, p, r) == ReplaceAll(body, p, r)
       <==> Lacks(body, '\n') && |body| < LIMIT && DropCR(body) == body
  {
    if Lacks(body, '\n') {
      NoLineEnd(body);
      NoShorter(body, p, r);
      RewriteDropCR(body, p, r);
    } else {
      StreamLosesLineEnds(body, p, r);
    }
  }

  /** Complete lines that fit are passed on whatever follows them; from the first line that
      does not fit nothing is. */
  lemma {:induction false} StreamStopsAtLongLine(head: string, tail: string, p: string, r: string)
    requires p != ""
    requires head == "" || head[|head| - 1] == '\n'
    requires WithinLimit(head)
    ensures Streamed(head + tail, p, r) == Streamed(head, p, r) + Streamed(tail, p, r)
    ensures LineEnd(tail) >= LIMIT ==> Streamed(tail, p, r) == ""
    decreases |head|
  {
    hide LineEnd, FirstLine, AfterFirstLine, ReplaceAll;
    if head == "" {
      assert head + tail == tail;
    } else {
      var line, rest := ReplaceAll(FirstLine(head), p, r), AfterFirstLine(head);
      FirstLineOfFront(head, tail);
      StreamStopsAtLongLine(rest, tail, p, r);
      Associate(line, Streamed(rest, p, r), Streamed(tail, p, r));
    }
  }

  lemma FirstLineOfFront(head: string, tail: string)
    requires head != "" && head[|head| - 1] == '\n'
    ensures LineEnd(head + tail) == LineEnd(head)
    ensures FirstLine(head + tail) == FirstLine(head)
    ensures AfterFirstLine(head + tail) == AfterFirstLine(head) + tail
    ensures var rest := AfterFirstLine(head); rest == "" || rest[|rest| - 1] == '\n'
  {
    var n := LineEnd(head);
    LineEndOfFront(head, tail);
    assert (head + tail)[..n] == head[..n];
    assert (head + tail)[n + 1..] == head[n + 1..] + tail;
  }

  lemma {:induction false} LineEndOfFront(head: string, tail: string)
    requires !Lacks(head, '\n')
    ensures LineEnd(head + tail) == LineEnd(head) < |head|
  {
    if head[0] != '\n' {
      assert (head + tail)[1..] == head[1..] + tail;
      LineEndOfFront(head[1..], tail);
    }
  }

  /** The goroutine that feeds the pipe. */
  method StreamBody(body: string, p: string, r: string) returns (written: string)
    requires p != ""
    ensures written == Streamed(body, p, r)
  {
    written := "";
    var rest := body;
    while rest != "" && LineEnd(rest) < LIMIT
      invariant Streamed(body, p, r) == written + Streamed(rest, p, r)
      decreases |rest|
    {
      var line := ReplaceAll(FirstLine(rest), p, r);
      Associate(written, line, Streamed(AfterFirstLine(rest), p, r));
      written := written + line;
      rest := AfterFirstLine(rest);
    }
  }
}
