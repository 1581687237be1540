/**
  Models of the pieces of Rust's standard `str` and `char` API that the report
  scanner relies on: `char::is_whitespace`, `str::starts_with`,
  `str::split_whitespace` and `str::lines`. Strings are sequences of Unicode
  scalar values, as a Rust `&str` is once decoded.
 */
module RustStr {

  /** `char::is_whitespace`: the characters with the Unicode White_Space property. */
  predicate IsWhitespace(c: char)
    ensures c < '\U{80}' ==> (IsWhitespace(c) <==> c in " \t\n\U{B}\U{C}\r")
    ensures IsWhitespace(c) ==> !('0' <= c <= '9') && !('A' <= c <= 'Z') && !('a' <= c <= 'z')
  {
    ('\t' <= c <= '\r') || c == ' ' || c == '\U{85}' || c == '\U{A0}' || c == '\U{1680}'
    || ('\U{2000}' <= c <= '\U{200A}') || c == '\U{2028}' || c == '\U{2029}'
    || c == '\U{202F}' || c == '\U{205F}' || c == '\U{3000}'
  }

  predicate AllWhitespace(s: string) {
    forall i :: 0 <= i < |s| ==> IsWhitespace(s[i])
  }

  /** What `split_whitespace` can yield: a non-empty run of non-whitespace characters. */
  predicate IsToken(s: string) {
    |s| > 0 && forall i :: 0 <= i < |s| ==> !IsWhitespace(s[i])
  }

  /** `str::starts_with` with a string pattern. */
  predicate StartsWith(s: string, prefix: string)
  {
    |prefix| <= |s| && s[..|prefix|] == prefix
  }

  /** `starts_with` compares character by character: `s` is at least as long and agrees with `prefix` at every index of it. */
  lemma StartsWithIndexwise(s: string, prefix: string)
    ensures StartsWith(s, prefix) <==>
      |prefix| <= |s| && forall i :: 0 <= i < |prefix| ==> s[i] == prefix[i]
  {
  }

  // ---------------------------------------------------------------------------
  // split_whitespace

  /** Length of the longest whitespace-free prefix of `s`. */
  function WordLength(s: string): (n: nat)
    ensures n <= |s|
    ensures forall i :: 0 <= i < n ==> !IsWhitespace(s[i])
    ensures n < |s| ==> IsWhitespace(s[n])
  {
    if s == [] || IsWhitespace(s[0]) then 0 else 1 + WordLength(s[1..])
  }

  /** The characters of `s` that are not whitespace, in order. */
  function NonWhitespace(s: string): string {
    if s == [] then []
    else (if IsWhitespace(s[0]) then [] else [s[0]]) + NonWhitespace(s[1..])
  }

  function Concat(ts: seq<string>): string {
    if ts == [] then [] else ts[0] + Concat(ts[1..])
  }

  /**
    `s.split_whitespace().collect::<Vec<&str>>()`: the maximal whitespace-free
    runs of `s`, in order. Every token is non-empty and whitespace-free, and
    together they hold exactly the non-whitespace characters of `s`.
   */
  function SplitWhitespace(s: string): (ts: seq<string>)
    ensures forall i :: 0 <= i < |ts| ==> IsToken(ts[i])
    ensures Concat(ts) == NonWhitespace(s)
    decreases |s|
  {
    if s == [] then []
    else if IsWhitespace(s[0]) then SplitWhitespace(s[1..])
    else
      var n := WordLength(s);
      NonWhitespaceOfWord(s, n);
      [s[..n]] + SplitWhitespace(s[n..])
  }

  lemma {:induction false} NonWhitespaceOfWord(s: string, n: nat)
    requires n <= |s|
    requires forall i :: 0 <= i < n ==> !IsWhitespace(s[i])
    ensures NonWhitespace(s) == s[..n] + NonWhitespace(s[n..])
  {
    if n > 0 {
      NonWhitespaceOfWord(s[1..], n - 1);
      assert s[1..][n - 1..] == s[n..];
      assert s[..n] == [s[0]] + s[1..][..n - 1];
    }
  }

  /**
    A line laid out as tokens with a gap after each one:
    `ts[0] + gaps[0] + ts[1] + gaps[1] + ...`.
   */
  function Spaced(ts: seq<string>, gaps: seq<string>): string
    requires |gaps| == |ts|
  {
    if ts == [] then [] else ts[0] + gaps[0] + Spaced(ts[1..], gaps[1..])
  }

  lemma SpacedCons(t: string, g: string, ts: seq<string>, gaps: seq<string>)
    requires |gaps| == |ts|
    ensures Spaced([t] + ts, [g] + gaps) == t + g + Spaced(ts, gaps)
  {
  }

  /** Every gap is whitespace, and every gap with a token after it is non-empty. */
  predicate ValidGaps(gaps: seq<string>) {
    (forall i :: 0 <= i < |gaps| ==> AllWhitespace(gaps[i])) &&
    (forall i :: 0 <= i < |gaps| - 1 ==> |gaps[i]| > 0)
  }

  /** The single-spaced layout: one space between tokens and nothing after the last. */
  function SingleGaps(n: nat): (gaps: seq<string>)
    ensures |gaps| == n && ValidGaps(gaps)
  {
    seq(n, i => if i < n - 1 then " " else "")
  }

  lemma {:induction false} SplitSkipsWhitespace(lead: string, s: string)
    requires AllWhitespace(lead)
    ensures SplitWhitespace(lead + s) == SplitWhitespace(s)
  {
    if lead != [] {
      assert (lead + s)[0] == lead[0];
      assert (lead + s)[1..] == lead[1..] + s;
      SplitSkipsWhitespace(lead[1..], s);
    } else {
      assert lead + s == s;
    }
  }

  lemma {:induction false} WordLengthOfToken(t: string, rest: string)
    requires IsToken(t)
    requires rest == [] || IsWhitespace(rest[0])
    ensures WordLength(t + rest) == |t|
  {
    if |t| > 1 {
      assert (t + rest)[1..] == t[1..] + rest;
      WordLengthOfToken(t[1..], rest);
    } else {
      assert (t + rest)[1..] == rest;
    }
  }

  /**
    Whitespace-run tolerance, as a round trip: laying out tokens with any
    non-empty whitespace runs between them (and any whitespace before and after)
    and splitting again gives back exactly those tokens.
   */
  lemma {:induction false} SplitSpaced(lead: string, ts: seq<string>, gaps: seq<string>)
    requires AllWhitespace(lead)
    requires |gaps| == |ts| && ValidGaps(gaps)
    requires forall i :: 0 <= i < |ts| ==> IsToken(ts[i])
    ensures SplitWhitespace(lead + Spaced(ts, gaps)) == ts
    decreases |ts|
  {
    SplitSkipsWhitespace(lead, Spaced(ts, gaps));
    if ts != [] {
      var t, g, rest := ts[0], gaps[0], Spaced(ts[1..], gaps[1..]);
      SpacedStep(ts, gaps);
      assert SplitWhitespace(g + rest) == ts[1..] by {
        SplitSpaced(g, ts[1..], gaps[1..]);
      }
      assert SplitWhitespace(t + (g + rest)) == ts by {
        SplitWord(t, g + rest);
        assert [t] + ts[1..] == ts;
      }
    }
  }

  /** Peeling the first token off a layout leaves a layout, headed by its whitespace gap. */
  lemma SpacedStep(ts: seq<string>, gaps: seq<string>)
    requires |gaps| == |ts| > 0 && ValidGaps(gaps)
    requires forall i :: 0 <= i < |ts| ==> IsToken(ts[i])
    ensures ValidGaps(gaps[1..]) && forall i :: 0 <= i < |ts| - 1 ==> IsToken(ts[1..][i])
    ensures var tail := gaps[0] + Spaced(ts[1..], gaps[1..]);
            Spaced(ts, gaps) == ts[0] + tail && (tail == [] || IsWhitespace(tail[0]))
  {
    ValidGapsTail(gaps);
    assert forall i :: 0 <= i < |ts| - 1 ==> ts[1..][i] == ts[i + 1];
    var g, rest := gaps[0], Spaced(ts[1..], gaps[1..]);
    assert g + rest == [] || IsWhitespace((g + rest)[0]) by {
      if |ts| > 1 {
        assert IsToken(ts[1]) && |g| > 0 && AllWhitespace(g);
        assert (g + rest)[0] == g[0];
      }
    }
    assert Spaced(ts, gaps) == ts[0] + (g + rest);
  }

  lemma ValidGapsTail(gaps: seq<string>)
    requires gaps != [] && ValidGaps(gaps)
    ensures ValidGaps(gaps[1..])
  {
    assert forall i :: 0 <= i < |gaps| - 1 ==> gaps[1..][i] == gaps[i + 1];
  }

  /** A token followed by whitespace (or nothing) is split off as the first token. */
  lemma SplitWord(t: string, tail: string)
    requires IsToken(t)
    requires tail == [] || IsWhitespace(tail[0])
    ensures SplitWhitespace(t + tail) == [t] + SplitWhitespace(tail)
  {
    var s := t + tail;
    WordLengthOfToken(t, tail);
    assert s[0] == t[0];
    assert s[..|t|] == t && s[|t|..] == tail;
  }

  // ---------------------------------------------------------------------------
  // lines

  /** Index of the first '\n' in `s`, or `|s|` when there is none. */
  function LineEnd(s: string): (n: nat)
    ensures n <= |s|
    ensures forall i :: 0 <= i < n ==> s[i] != '\n'
    ensures n < |s| ==> s[n] == '\n'
  {
    if s == [] || s[0] == '\n' then 0 else 1 + LineEnd(s[1..])
  }

  predicate EndsWithCr(line: string) {
    |line| > 0 && line[|line| - 1] == '\r'
  }

  /** Drops one '\r' that stood just before a '\n' terminator. */
  function StripCr(line: string): string {
    if EndsWithCr(line) then line[..|line| - 1] else line
  }

  /**
    `str::lines()`: pieces separated by '\n'; a '\r' just before a '\n' is
    part of the terminator; the final terminator is optional, so a trailing
    '\n' does not produce an empty last line. No line contains '\n'.
   */
  function Lines(s: string): (ls: seq<string>)
    ensures forall i :: 0 <= i < |ls| ==> '\n' !in ls[i]
    decreases |s|
  {
    if s == [] then []
    else
      var n := LineEnd(s);
      if n == |s| then [s]
      else
        assert '\n' !in s[..n] by {
          forall i | 0 <= i < n ensures s[..n][i] != '\n' { }
        }
        [StripCr(s[..n])] + Lines(s[n + 1..])
  }

  /** Each line followed by its '\n' terminator. */
  function Unlines(ls: seq<string>): string {
    if ls == [] then [] else ls[0] + "\n" + Unlines(ls[1..])
  }

  lemma {:induction false} LineEndOf(line: string, rest: string)
    requires '\n' !in line
    ensures LineEnd(line + "\n" + rest) == |line|
  {
    if line != [] {
      assert (line + "\n" + rest)[1..] == line[1..] + "\n" + rest;
      LineEndOf(line[1..], rest);
    }
  }

  /** A first line and its terminator come off the front of the text. */
  lemma LinesCons(line: string, rest: string)
    requires '\n' !in line && !EndsWithCr(line)
    ensures Lines(line + "\n" + rest) == [line] + Lines(rest)
  {
    var s := line + "\n" + rest;
    LineEndOf(line, rest);
    assert s[..|line|] == line;
    assert s[|line| + 1..] == rest;
  }

  /** A '\r' just before the '\n' belongs to the terminator, not to the line. */
  lemma LinesCrLf(line: string, rest: string)
    requires '\n' !in line && !EndsWithCr(line)
    ensures Lines(line + "\r\n" + rest) == [line] + Lines(rest)
  {
    var s := line + "\r\n" + rest;
    assert s == (line + "\r") + "\n" + rest;
    LineEndOf(line + "\r", rest);
    assert s[..|line| + 1] == line + "\r";
    assert s[|line| + 2..] == rest;
  }

  /**
    Round trip of `lines`: text written as terminated lines (none holding '\n'
    or ending in '\r') is split back into exactly those lines.
   */
  lemma {:induction false} LinesUnlines(ls: seq<string>)
    requires forall i :: 0 <= i < |ls| ==> '\n' !in ls[i] && !EndsWithCr(ls[i])
    ensures Lines(Unlines(ls)) == ls
  {
    if ls != [] {
      LinesCons(ls[0], Unlines(ls[1..]));
      LinesUnlines(ls[1..]);
    }
  }

  /**
    The last terminator is optional: text whose last line has no '\n' after
    it splits into the same lines as if it had one.
   */
  lemma {:induction false} LinesUnterminatedLast(ls: seq<string>, last: string)
    requires forall i :: 0 <= i < |ls| ==> '\n' !in ls[i] && !EndsWithCr(ls[i])
    requires last != [] && '\n' !in last
    ensures Lines(Unlines(ls) + last) == ls + [last]
  {
    if ls == [] {
      assert Unlines(ls) + last == last;
      assert LineEnd(last) == |last|;
    } else {
      assert Unlines(ls) + last == ls[0] + "\n" + (Unlines(ls[1..]) + last);
      LinesCons(ls[0], Unlines(ls[1..]) + last);
      LinesUnterminatedLast(ls[1..], last);
      assert [ls[0]] + (ls[1..] + [last]) == ls + [last];
    }
  }
}
