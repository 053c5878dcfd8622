/** Leftmost, non-overlapping substring replacement: what `strings.ReplaceAll` and
    `bytes.ReplaceAll` compute for a non-empty pattern, and when one replacement undoes another. */
module Replacement {

  predicate Contains(s: string, p: string) {
    exists i | 0 <= i <= |s| :: p <= s[i..]
  }

  function ReplaceAll(s: string, p: string, r: string): string
    requires p != ""
  {
    if s == "" then ""
    else if p <= s then r + ReplaceAll(s[|p|..], p, r)
    else [s[0]] + ReplaceAll(s[1..], p, r)
  }

  /** The stretches of text left between the replaced occurrences of `p`. */
  function Segments(s: string, p: string): (segments: seq<string>)
    requires p != ""
    ensures |segments| >= 1
  {
    if s == "" then [""]
    else if p <= s then [""] + Segments(s[|p|..], p)
    else
      var rest := Segments(s[1..], p);
      [[s[0]] + rest[0]] + rest[1..]
  }

  function Join(segments: seq<string>, separator: string): string {
    if segments == [] then ""
    else if |segments| == 1 then segments[0]
    else segments[0] + separator + Join(segments[1..], separator)
  }

  /** The reference definition: cutting `s` at the occurrences of `p` and joining the pieces with
      `r` is the replacement, and joining them with `p` gives `s` back. */
  lemma ReplaceAllIsJoin(s: string, p: string, r: string)
    requires p != ""
    ensures Join(Segments(s, p), p) == s
    ensures Join(Segments(s, p), r) == ReplaceAll(s, p, r)
  {
    hide Join, ReplaceAll;
    JoinSegments(s, p, r);
    JoinSegments(s, p, p);
    ReplaceWithItself(s, p);
  }

  lemma {:induction false} ReplaceWithItself(s: string, p: string)
    requires p != ""
    ensures ReplaceAll(s, p, p) == s
  {
    if s == "" {
    } else if p <= s {
      ReplaceWithItself(s[|p|..], p);
    } else {
      ReplaceWithItself(s[1..], p);
    }
  }

  lemma {:induction false} JoinSegments(s: string, p: string, r: string)
    requires p != ""
    ensures Join(Segments(s, p), r) == ReplaceAll(s, p, r)
  {
    hide Join;
    if s == "" {
      SingleJoin([""], r);
    } else if p <= s {
      JoinSegments(s[|p|..], p, r);
      JoinCons("", Segments(s[|p|..], p), r);
    } else {
      JoinSegments(s[1..], p, r);
      JoinPrepend(s[0], Segments(s[1..], p), r);
    }
  }

  lemma JoinCons(first: string, rest: seq<string>, separator: string)
    requires rest != []
    ensures Join([first] + rest, separator) == first + (separator + Join(rest, separator))
  {
    assert ([first] + rest)[1..] == rest;
    Associate(first, separator, Join(rest, separator));
  }

  lemma JoinPrepend(c: char, segments: seq<string>, separator: string)
    requires segments != []
    ensures Join([[c] + segments[0]] + segments[1..], separator) == [c] + Join(segments, separator)
  {
    var first, rest := segments[0], segments[1..];
    if rest == [] {
      assert [[c] + first] + rest == [[c] + first];
    } else {
      JoinCons([c] + first, rest, separator);
      JoinCons(first, rest, separator);
      assert [first] + rest == segments;
      Associate([c], first, separator + Join(rest, separator));
    }
  }

  lemma Associate(u: string, v: string, w: string)
    ensures u + (v + w) == (u + v) + w
  {
  }

  /** The pattern occurs in the joined text at no place inside the first piece. */
  ghost predicate CutsFirst(segments: seq<string>, p: string)
    requires segments != []
  {
    var s := Join(segments, p);
    forall i | 0 <= i < |segments[0]| && i <= |s| :: !(p <= s[i..])
  }

  /** Each cut is at the first place where `p` occurs in what is left of the text. */
  ghost predicate LeftmostCuts(segments: seq<string>, p: string) {
    segments != [] ==> CutsFirst(segments, p) && LeftmostCuts(segments[1..], p)
  }

  lemma {:induction false} SegmentsAreLeftmost(s: string, p: string)
    requires p != ""
    ensures LeftmostCuts(Segments(s, p), p)
  {
    var all := Segments(s, p);
    ReplaceAllIsJoin(s, p, p);
    if s == "" {
    } else if p <= s {
      SegmentsAreLeftmost(s[|p|..], p);
      assert all[1..] == Segments(s[|p|..], p);
    } else {
      var rest := Segments(s[1..], p);
      SegmentsAreLeftmost(s[1..], p);
      ReplaceAllIsJoin(s[1..], p, p);
      assert all[1..] == rest[1..];
      CutsFirstExtends(s, all, rest, p);
    }
  }

  lemma CutsFirstExtends(s: string, all: seq<string>, rest: seq<string>, p: string)
    requires s != "" && !(p <= s) && rest != [] && all == [[s[0]] + rest[0]] + rest[1..]
    requires Join(all, p) == s && Join(rest, p) == s[1..]
    ensures CutsFirst(all, p) <==> CutsFirst(rest, p)
  {
    hide Join;
    assert s[0..] == s;
    assert forall i | 1 <= i <= |s| :: s[i..] == s[1..][i - 1..];
    if CutsFirst(all, p) {
      forall i | 0 <= i < |rest[0]| && i <= |s[1..]| ensures !(p <= s[1..][i..]) {
        assert !(p <= s[i + 1..]);
      }
    }
  }

  /** A text has one leftmost cutting only, so the two lemmas above leave no other replacement. */
  lemma {:induction false} LeftmostCutsAreUnique(segments: seq<string>, p: string)
    requires p != "" && segments != [] && LeftmostCuts(segments, p)
    ensures segments == Segments(Join(segments, p), p)
    decreases |segments|, |segments[0]|
  {
    hide Join, LeftmostCuts, CutsFirst;
    if segments[0] != "" {
      var shorter := ShortenFirst(segments, p);
      LeftmostCutsAreUnique(shorter, p);
      assert segments[0] == [segments[0][0]] + shorter[0];
      assert segments == [segments[0]] + shorter[1..];
    } else if |segments| > 1 {
      DropEmptyFirst(segments, p);
      LeftmostCutsAreUnique(segments[1..], p);
    } else {
      SingleJoin(segments, p);
    }
  }

  lemma SingleJoin(segments: seq<string>, separator: string)
    requires |segments| == 1
    ensures Join(segments, separator) == segments[0]
  {
  }

  lemma DropEmptyFirst(segments: seq<string>, p: string)
    requires p != "" && |segments| > 1 && segments[0] == "" && LeftmostCuts(segments, p)
    ensures LeftmostCuts(segments[1..], p)
    ensures var s := Join(segments, p); p <= s && s[|p|..] == Join(segments[1..], p)
  {
    hide CutsFirst;
    var rest := Join(segments[1..], p);
    assert Join(segments, p) == "" + p + rest;
    assert (p + rest)[|p|..] == rest;
  }

  /** Without the first character of the text a leftmost cutting is still one. */
  lemma ShortenFirst(segments: seq<string>, p: string) returns (shorter: seq<string>)
    requires p != "" && segments != [] && segments[0] != "" && LeftmostCuts(segments, p)
    ensures shorter == [segments[0][1..]] + segments[1..] && LeftmostCuts(shorter, p)
    ensures
      var s := Join(segments, p);
      s != "" && s[0] == segments[0][0] && s[1..] == Join(shorter, p) && !(p <= s)
  {
    var s := Join(segments, p);
    shorter := [segments[0][1..]] + segments[1..];
    assert shorter[1..] == segments[1..];
    assert [segments[0][0]] + shorter[0] == segments[0];
    assert [segments[0]] + shorter[1..] == segments;
    JoinPrepend(segments[0][0], shorter, p);
    assert s[0..] == s;
    CutsFirstExtends(s, segments, shorter, p);
  }

  /** `n` times `d`. */
  function Times(n: nat, d: int): int {
    if n == 0 then 0 else d + Times(n - 1, d)
  }

  /** Each occurrence replaced changes the length by the difference between the two strings. */
  lemma {:induction false} ReplaceAllLength(s: string, p: string, r: string)
    requires p != ""
    ensures |ReplaceAll(s, p, r)| == |s| + Times(|Segments(s, p)| - 1, |r| - |p|)
  {
    if s == "" {
    } else if p <= s {
      ReplaceAllLength(s[|p|..], p, r);
    } else {
      ReplaceAllLength(s[1..], p, r);
    }
  }

  /** Nothing to replace changes nothing; anything to replace leaves the replacement behind. */
  lemma {:induction false} ReplaceAllActs(s: string, p: string, r: string)
    requires p != ""
    ensures !Contains(s, p) ==> ReplaceAll(s, p, r) == s
    ensures Contains(s, p) ==> Contains(ReplaceAll(s, p, r), r)
  {
    var t := ReplaceAll(s, p, r);
    if s == "" {
    } else if p <= s {
      assert s[0..] == s && t[0..] == t;
    } else {
      var rest := ReplaceAll(s[1..], p, r);
      ReplaceAllActs(s[1..], p, r);
      ContainsTail(s, p);
      if Contains(rest, r) {
        var i :| 0 <= i <= |rest| && r <= rest[i..];
        assert t[i + 1..] == rest[i..];
      }
    }
  }

  lemma ContainsTail(s: string, p: string)
    requires s != "" && p != ""
    ensures Contains(s, p) <==> p <= s || Contains(s[1..], p)
  {
    assert s[0..] == s;
    assert forall i | 1 <= i <= |s| :: s[i..] == s[1..][i - 1..];
    if Contains(s[1..], p) {
      var i :| 0 <= i <= |s[1..]| && p <= s[1..][i..];
      assert p <= s[i + 1..];
    }
  }

  /** Laid over `x` at offset `j`, `y` agrees with `x` wherever the two overlap. */
  ghost predicate Overlay(x: string, y: string, j: nat) {
    forall i | 0 <= i < |y| && j + i < |x| :: x[j + i] == y[i]
  }

  /** `y` can be laid over `x` at no offset from `first` on. */
  ghost predicate NoOverlay(x: string, y: string, first: nat) {
    forall j | first <= j < |x| :: !Overlay(x, y, j)
  }

  /** Where the replacement first acts: up to there the text is the original, there stands `r`. */
  lemma {:induction false} FirstSite(s: string, p: string, r: string) returns (j: nat)
    requires p != ""
    ensures
      var t := ReplaceAll(s, p, r);
      j <= |s| && j <= |t| && s[..j] == t[..j] && (t == s || r <= t[j..])
    ensures !(p <= s) && ReplaceAll(s, p, r) != s ==> j > 0
  {
    if s == "" || p <= s {
      j := 0;
    } else {
      var i := FirstSite(s[1..], p, r);
      j := i + 1;
      var t := ReplaceAll(s, p, r);
      assert t[1..] == ReplaceAll(s[1..], p, r);
      assert t[j..] == t[1..][i..];
      assert s[..j] == [s[0]] + s[1..][..i] && t[..j] == [s[0]] + t[1..][..i];
    }
  }

  /** A word that the result starts with but the original does not meets the replacement at
      some offset past its own first letter. */
  lemma NewStart(s: string, p: string, r: string, w: string) returns (j: nat)
    requires p != "" && !(p <= s) && !(w <= s)
    requires w <= ReplaceAll(s, p, r)
    ensures 1 <= j < |w| && Overlay(w, r, j)
  {
    var t := ReplaceAll(s, p, r);
    j := FirstSite(s, p, r);
    assert w <= t[..j] ==> w <= s;
    forall i | 0 <= i < |r| && j + i < |w| ensures w[j + i] == r[i] {
      assert t[j..][i] == r[i];
    }
  }

  /** After the replacement no occurrence of the pattern remains. */
  lemma {:induction false} NoneLeft(s: string, p: string, r: string)
    requires p != ""
    requires NoOverlay(p, r, 1) && NoOverlay(r, p, 0)
    ensures !Contains(ReplaceAll(s, p, r), p)
  {
    var t := ReplaceAll(s, p, r);
    if s == "" {
    } else if p <= s {
      var rest := ReplaceAll(s[|p|..], p, r);
      NoneLeft(s[|p|..], p, r);
      forall i | 0 <= i <= |t| ensures !(p <= t[i..]) {
        if i >= |r| {
          assert t[i..] == rest[i - |r|..];
        } else {
          assert !Overlay(r, p, i);
          var m :| 0 <= m < |p| && i + m < |r| && r[i + m] != p[m];
          assert t[i..][m] == r[i + m];
        }
      }
    } else {
      NoneLeft(s[1..], p, r);
      ContainsTail(t, p);
      assert t[1..] == ReplaceAll(s[1..], p, r);
      if p <= t {
        var j := NewStart(s, p, r, p);
      }
    }
  }

  /** Replacing back restores the text, if it did not hold the replacement to begin with. */
  lemma {:induction false} ReplacingBack(s: string, p: string, r: string)
    requires p != "" && r != ""
    requires NoOverlay(r, r, 1)
    requires !Contains(s, r)
    ensures ReplaceAll(ReplaceAll(s, p, r), r, p) == s
  {
    var t := ReplaceAll(s, p, r);
    if s == "" {
    } else if p <= s {
      var rest := s[|p|..];
      assert forall i | 0 <= i <= |rest| :: rest[i..] == s[|p| + i..];
      ReplacingBack(rest, p, r);
      assert t[|r|..] == ReplaceAll(rest, p, r);
    } else {
      ContainsTail(s, r);
      ReplacingBack(s[1..], p, r);
      assert t[1..] == ReplaceAll(s[1..], p, r);
      if r <= t {
        var j := NewStart(s, p, r, r);
      }
    }
  }
}
