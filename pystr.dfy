/** The handful of Python `str` operations the dashboard applies to command
    output: `isspace`, `strip()`, `split(sep)`, `split()`, `splitlines()` and
    `replace(old, "")`, each defined on `seq<char>` with the behaviour of
    CPython 3 and characterised by lemmas. */
module PyStr {

  import Options

  /** `c.isspace()` in CPython: the characters Python treats as whitespace
      when splitting and stripping. Within ASCII they are tab, line feed,
      vertical tab, form feed, carriage return, the four separators
      `\x1c`-`\x1f` and the space. */
  predicate IsSpace(c: char)
    ensures c as int < 0x80 ==> (IsSpace(c) <==> c as int in {0x09, 0x0A, 0x0B, 0x0C, 0x0D, 0x1C, 0x1D, 0x1E, 0x1F, 0x20})
  {
    var n := c as int;
    (0x09 <= n <= 0x0D) || (0x1C <= n <= 0x20) || n == 0x85 || n == 0xA0
    || n == 0x1680 || (0x2000 <= n <= 0x200A) || n == 0x2028 || n == 0x2029
    || n == 0x202F || n == 0x205F || n == 0x3000
  }

  predicate NotSpace(c: char)
  {
    !IsSpace(c)
  }

  /** The line boundaries recognised by `str.splitlines()`. */
  predicate IsLineBreak(c: char)
    ensures IsLineBreak(c) ==> IsSpace(c)
  {
    var n := c as int;
    (0x0A <= n <= 0x0D) || (0x1C <= n <= 0x1E) || n == 0x85 || n == 0x2028 || n == 0x2029
  }

  predicate NotLineBreak(c: char)
  {
    !IsLineBreak(c)
  }

  predicate AllSpace(s: string)
  {
    forall k :: 0 <= k < |s| ==> IsSpace(s[k])
  }

  predicate NoSpace(s: string)
  {
    forall k :: 0 <= k < |s| ==> !IsSpace(s[k])
  }

  predicate NoLineBreak(s: string)
  {
    forall k :: 0 <= k < |s| ==> !IsLineBreak(s[k])
  }

  /** A string that `strip()` leaves alone: no whitespace at either end. */
  predicate Stripped(s: string)
  {
    s == [] || (!IsSpace(s[0]) && !IsSpace(s[|s| - 1]))
  }

  // ---------------------------------------------------------------------
  // Runs of characters

  /** Length of the longest prefix of `s` whose characters all satisfy `p`. */
  function Span(s: string, p: char -> bool): (n: nat)
    ensures n <= |s|
    ensures forall k :: 0 <= k < n ==> p(s[k])
    ensures n < |s| ==> !p(s[n])
  {
    if s == [] || !p(s[0]) then 0 else 1 + Span(s[1..], p)
  }

  /** Length of the longest suffix of `s` whose characters all satisfy `p`. */
  function SpanBack(s: string, p: char -> bool): (n: nat)
    ensures n <= |s|
    ensures forall k :: |s| - n <= k < |s| ==> p(s[k])
    ensures n < |s| ==> !p(s[|s| - 1 - n])
  {
    if s == [] || !p(s[|s| - 1]) then 0 else 1 + SpanBack(s[..|s| - 1], p)
  }

  // ---------------------------------------------------------------------
  // strip()

  /** `s.strip()`: drop leading and trailing whitespace. */
  function Strip(s: string): (r: string)
    ensures Stripped(r)
    ensures |r| <= |s|
  {
    var t := s[Span(s, IsSpace)..];
    t[..|t| - SpanBack(t, IsSpace)]
  }

  /** `strip()` removes exactly the whitespace padding around a stripped core. */
  lemma StripOf(pre: string, m: string, post: string)
    requires AllSpace(pre) && AllSpace(post) && Stripped(m)
    ensures Strip(pre + m + post) == m
  {
    var s := pre + m + post;
    if m == [] {
      assert AllSpace(s);
      assert Span(s, IsSpace) == |s|;
    } else {
      assert s[|pre|] == m[0];
      assert Span(s, IsSpace) == |pre|;
      var t := s[|pre|..];
      assert t == m + post;
      assert t[|m| - 1] == m[|m| - 1];
      assert SpanBack(t, IsSpace) == |post|;
      assert t[..|m|] == m;
    }
  }

  /** Stripping twice is stripping once. */
  lemma StripIdempotent(s: string)
    ensures Strip(Strip(s)) == Strip(s)
  {
    var r := Strip(s);
    StripOf([], r, []);
    assert [] + r + [] == r;
  }

  // ---------------------------------------------------------------------
  // split(sep)

  /** `s.split(sep)` for a one-character separator: always at least one
      piece; `n` separators give `n + 1` pieces, empty ones included. */
  function Split(s: string, sep: char): (ps: seq<string>)
    ensures |ps| >= 1
    ensures forall i :: 0 <= i < |ps| ==> sep !in ps[i]
    ensures |ps| >= 2 <==> sep in s
    decreases |s|
  {
    if s == [] then [""]
    else
      var rest := Split(s[1..], sep);
      if s[0] == sep then [""] + rest
      else [[s[0]] + rest[0]] + rest[1..]
  }

  /** `sep.join(ps)`. */
  function Join(ps: seq<string>, sep: char): string
    requires |ps| >= 1
  {
    if |ps| == 1 then ps[0] else ps[0] + [sep] + Join(ps[1..], sep)
  }

  lemma {:induction false} JoinConsHead(x: char, ps: seq<string>, sep: char)
    requires |ps| >= 1
    ensures Join([[x] + ps[0]] + ps[1..], sep) == [x] + Join(ps, sep)
  {
    var qs := [[x] + ps[0]] + ps[1..];
    assert qs[1..] == ps[1..];
  }

  /** Joining the pieces of a split with the same separator gives back the
      original text. */
  lemma {:induction false} SplitJoin(s: string, sep: char)
    ensures Join(Split(s, sep), sep) == s
    decreases |s|
  {
    if s != [] {
      var rest := Split(s[1..], sep);
      SplitJoin(s[1..], sep);
      if s[0] == sep {
        assert ([""] + rest)[1..] == rest;
        assert s == [sep] + s[1..];
      } else {
        JoinConsHead(s[0], rest, sep);
        assert s == [s[0]] + s[1..];
      }
    }
  }

  /** Text without the separator is a single piece. */
  lemma {:induction false} SplitNoSep(a: string, sep: char)
    requires sep !in a
    ensures Split(a, sep) == [a]
    decreases |a|
  {
    if a != [] {
      assert sep !in a[1..] by {
        forall k | 0 <= k < |a[1..]| ensures a[1..][k] != sep {
          assert a[1..][k] == a[k + 1];
        }
      }
      SplitNoSep(a[1..], sep);
      assert a == [a[0]] + a[1..];
    }
  }

  /** The first piece of a split ends at the first separator. */
  lemma {:induction false} SplitFirst(a: string, sep: char, b: string)
    requires sep !in a
    ensures Split(a + [sep] + b, sep) == [a] + Split(b, sep)
    decreases |a|
  {
    if a == [] {
      assert a + [sep] + b == [sep] + b;
      assert ([sep] + b)[1..] == b;
    } else {
      var s := a + [sep] + b;
      assert s[1..] == a[1..] + [sep] + b;
      assert sep !in a[1..] by {
        forall k | 0 <= k < |a[1..]| ensures a[1..][k] != sep {
          assert a[1..][k] == a[k + 1];
        }
      }
      SplitFirst(a[1..], sep, b);
      var r := Split(s[1..], sep);
      assert r[0] == a[1..] && r[1..] == Split(b, sep);
      assert s[0] == a[0] != sep;
      assert Split(s, sep) == [[a[0]] + r[0]] + r[1..];
      assert [a[0]] + a[1..] == a;
    }
  }

  /** Splitting a join of separator-free pieces recovers the pieces. */
  lemma {:induction false} JoinSplit(ps: seq<string>, sep: char)
    requires |ps| >= 1
    requires forall i :: 0 <= i < |ps| ==> sep !in ps[i]
    ensures Split(Join(ps, sep), sep) == ps
    decreases |ps|
  {
    if |ps| == 1 {
      SplitNoSep(ps[0], sep);
    } else {
      JoinSplit(ps[1..], sep);
      SplitFirst(ps[0], sep, Join(ps[1..], sep));
      assert ps == [ps[0]] + ps[1..];
    }
  }

  /** `s.split(sep)[1]`: the text between the first and the second
      separator (or the end); absent when `s` has no separator, where
      Python raises `IndexError`. */
  function SecondField(s: string, sep: char): (r: Options.Option<string>)
    ensures r.Some? <==> sep in s
    ensures r.Some? ==> sep !in r.value
  {
    var ps := Split(s, sep);
    if |ps| >= 2 then Options.Some(ps[1]) else Options.None
  }

  /** Every text with a separator decomposes as `pre sep v rest` with `pre`
      and `v` separator-free and `rest` empty or starting at the next
      separator; `SecondField` returns exactly that `v`. */
  lemma SecondFieldOf(pre: string, sep: char, v: string, rest: string)
    requires sep !in pre && sep !in v
    requires rest == [] || rest[0] == sep
    ensures SecondField(pre + [sep] + v + rest, sep) == Options.Some(v)
  {
    assert pre + [sep] + v + rest == pre + [sep] + (v + rest);
    SplitFirst(pre, sep, v + rest);
    if rest == [] {
      assert v + rest == v;
      SplitNoSep(v, sep);
    } else {
      assert v + rest == v + [sep] + rest[1..];
      SplitFirst(v, sep, rest[1..]);
    }
  }

  // ---------------------------------------------------------------------
  // replace(old, "")

  /** `s.replace(pat, "")`: scan left to right and delete every
      non-overlapping occurrence of `pat`. */
  function RemoveAll(s: string, pat: string): (r: string)
    requires pat != []
    ensures |r| <= |s|
    ensures forall c :: c in r ==> c in s
    ensures |pat| == 1 ==> pat[0] !in r
    decreases |s|
  {
    if |s| < |pat| then s
    else if s[..|pat|] == pat then RemoveAll(s[|pat|..], pat)
    else [s[0]] + RemoveAll(s[1..], pat)
  }

  /** Text before the first character of `pat` is kept as it is. */
  lemma {:induction false} RemoveAllKeeps(a: string, b: string, pat: string)
    requires pat != [] && pat[0] !in a
    ensures RemoveAll(a + b, pat) == a + RemoveAll(b, pat)
    decreases |a|
  {
    if a != [] {
      var s := a + b;
      assert s[0] == a[0] != pat[0];
      assert pat[0] !in a[1..] by {
        forall k | 0 <= k < |a[1..]| ensures a[1..][k] != pat[0] {
          assert a[1..][k] == a[k + 1];
        }
      }
      RemoveAllKeeps(a[1..], b, pat);
      assert s[1..] == a[1..] + b;
      assert a == [a[0]] + a[1..];
      if |s| < |pat| {
        assert RemoveAll(b, pat) == b;
        assert RemoveAll(s, pat) == s;
      } else {
        assert s[..|pat|][0] == s[0];
        assert s[..|pat|] != pat;
        assert RemoveAll(s, pat) == [s[0]] + RemoveAll(s[1..], pat);
      }
    } else {
      assert a + b == b;
    }
  }

  /** An occurrence of `pat` at the front is deleted. */
  lemma RemoveAllDrops(pat: string, b: string)
    requires pat != []
    ensures RemoveAll(pat + b, pat) == RemoveAll(b, pat)
  {
    var s := pat + b;
    assert s[..|pat|] == pat;
    assert s[|pat|..] == b;
  }

  /** The first occurrence of `pat` after text that cannot start it is
      removed, and the scan goes on after it. */
  lemma RemoveAllFirst(a: string, pat: string, b: string)
    requires pat != [] && pat[0] !in a
    ensures RemoveAll(a + pat + b, pat) == a + RemoveAll(b, pat)
  {
    assert a + pat + b == a + (pat + b);
    RemoveAllKeeps(a, pat + b, pat);
    RemoveAllDrops(pat, b);
  }

  /** Deleting one character distributes over concatenation. */
  lemma {:induction false} RemoveCharConcat(a: string, b: string, c: char)
    ensures RemoveAll(a + b, [c]) == RemoveAll(a, [c]) + RemoveAll(b, [c])
    decreases |a|
  {
    if a != [] {
      var s := a + b;
      assert s[1..] == a[1..] + b;
      assert s[..1] == [a[0]] && a[..1] == [a[0]];
      RemoveCharConcat(a[1..], b, c);
      if a[0] == c {
        assert RemoveAll(s, [c]) == RemoveAll(s[1..], [c]);
        assert RemoveAll(a, [c]) == RemoveAll(a[1..], [c]);
      } else {
        assert RemoveAll(s, [c]) == [a[0]] + RemoveAll(s[1..], [c]);
        assert RemoveAll(a, [c]) == [a[0]] + RemoveAll(a[1..], [c]);
      }
    } else {
      assert a + b == b;
    }
  }

  // ---------------------------------------------------------------------
  // split()

  /** `s.split()` with no argument: the maximal runs of non-whitespace,
      in order, with no empty tokens (see `WordsAreTokens`). */
  function Words(s: string): (ws: seq<string>)
    ensures |ws| <= |s|
    decreases |s|, 1
  {
    Tokens(s[Span(s, IsSpace)..])
  }

  /** The tokens of a text that does not start with whitespace. */
  function Tokens(t: string): (ws: seq<string>)
    requires t == [] || !IsSpace(t[0])
    ensures ws == [] <==> t == []
    ensures |ws| <= |t|
    decreases |t|, 0
  {
    if t == [] then []
    else
      var m := Span(t, NotSpace);
      [t[..m]] + Words(t[m..])
  }

  /** Every token `split()` returns is non-empty and free of whitespace. */
  lemma {:induction false} WordsAreTokens(s: string)
    ensures forall i :: 0 <= i < |Words(s)| ==> Words(s)[i] != [] && NoSpace(Words(s)[i])
    decreases |s|
  {
    var t := s[Span(s, IsSpace)..];
    if t != [] {
      var m := Span(t, NotSpace);
      WordsAreTokens(t[m..]);
      assert Words(s) == [t[..m]] + Words(t[m..]);
      assert NoSpace(t[..m]) by {
        forall k | 0 <= k < m ensures !IsSpace(t[..m][k]) {
          assert NotSpace(t[k]);
        }
      }
    }
  }

  /** `split()` finds no token exactly in a blank text. */
  lemma WordsBlank(s: string)
    ensures Words(s) == [] <==> AllSpace(s)
  {
    var n := Span(s, IsSpace);
    if n < |s| {
      assert !IsSpace(s[n]);
      assert Words(s) == Tokens(s[n..]);
    }
  }

  /** A word followed by whitespace (or the end) is the first token. */
  lemma WordsCons(w: string, rest: string)
    requires w != [] && NoSpace(w)
    requires rest == [] || IsSpace(rest[0])
    ensures Words(w + rest) == [w] + Words(rest)
  {
    var s := w + rest;
    assert s[0] == w[0];
    assert Span(s, IsSpace) == 0;
    assert s[0..] == s;
    if rest != [] {
      assert s[|w|] == rest[0];
    }
    assert Span(s, NotSpace) == |w|;
    assert s[..|w|] == w && s[|w|..] == rest;
    assert Words(s) == Tokens(s);
  }

  /** A prefix of characters satisfying `p` lengthens the run by its length. */
  lemma {:induction false} SpanAppend(pre: string, s: string, p: char -> bool)
    requires forall k :: 0 <= k < |pre| ==> p(pre[k])
    ensures Span(pre + s, p) == |pre| + Span(s, p)
    decreases |pre|
  {
    if pre != [] {
      assert (pre + s)[1..] == pre[1..] + s;
      assert (pre + s)[0] == pre[0];
      assert forall k :: 0 <= k < |pre[1..]| ==> p(pre[1..][k]) by {
        forall k | 0 <= k < |pre[1..]| ensures p(pre[1..][k]) {
          assert pre[1..][k] == pre[k + 1];
        }
      }
      SpanAppend(pre[1..], s, p);
    } else {
      assert pre + s == s;
    }
  }

  /** Leading whitespace does not change the tokens. */
  lemma WordsSkipsSpace(pre: string, s: string)
    requires AllSpace(pre)
    ensures Words(pre + s) == Words(s)
  {
    var n := Span(s, IsSpace);
    assert forall k :: 0 <= k < |pre| ==> IsSpace(pre[k]);
    SpanAppend(pre, s, IsSpace);
    assert (pre + s)[|pre| + n..] == s[n..];
  }

  /** Words separated by single spaces. */
  function Spaced(ws: seq<string>): string
  {
    if ws == [] then "" else if |ws| == 1 then ws[0] else ws[0] + (" " + Spaced(ws[1..]))
  }

  /** `split()` recovers the words of a single-space join. */
  lemma {:induction false} WordsSpaced(ws: seq<string>)
    requires forall i :: 0 <= i < |ws| ==> ws[i] != [] && NoSpace(ws[i])
    ensures Words(Spaced(ws)) == ws
    decreases |ws|
  {
    if |ws| == 1 {
      WordsCons(ws[0], []);
      assert ws[0] + [] == ws[0];
    } else if |ws| > 1 {
      WordsSpaced(ws[1..]);
      WordsTokenGap(ws[0], " ", Spaced(ws[1..]));
      assert ws == [ws[0]] + ws[1..];
    }
  }

  // ---------------------------------------------------------------------
  // splitlines()

  /** Where the line after the boundary at `s[n]` begins: `\r\n` is one
      terminator, every other boundary is one character. */
  function NextLine(s: string, n: nat): (next: nat)
    requires n < |s|
    ensures n < next <= |s|
  {
    if s[n] == '\r' && n + 1 < |s| && s[n + 1] == '\n' then n + 2 else n + 1
  }

  /** `s.splitlines()`: the lines of `s` without their terminators; a final
      terminator does not open an empty last line. */
  function Lines(s: string): (ls: seq<string>)
    ensures ls == [] <==> s == []
    decreases |s|
  {
    if s == [] then []
    else
      var n := Span(s, NotLineBreak);
      if n == |s| then [s] else [s[..n]] + Lines(s[NextLine(s, n)..])
  }

  /** No line keeps a terminator. */
  lemma {:induction false} LinesHaveNoBreaks(s: string)
    ensures forall i :: 0 <= i < |Lines(s)| ==> NoLineBreak(Lines(s)[i])
    decreases |s|
  {
    if s != [] {
      var n := Span(s, NotLineBreak);
      assert NoLineBreak(s[..n]) by {
        forall k | 0 <= k < n ensures !IsLineBreak(s[..n][k]) {
          assert NotLineBreak(s[k]);
        }
      }
      if n < |s| {
        LinesHaveNoBreaks(s[NextLine(s, n)..]);
      } else {
        assert s[..n] == s;
      }
    }
  }

  /** A line ended by `\n` is the first line. */
  lemma LinesNewline(l: string, rest: string)
    requires NoLineBreak(l)
    ensures Lines(l + ("\n" + rest)) == [l] + Lines(rest)
  {
    var s := l + ("\n" + rest);
    assert s[|l|] == '\n';
    assert Span(s, NotLineBreak) == |l|;
    assert NextLine(s, |l|) == |l| + 1;
    assert s[..|l|] == l && s[|l| + 1..] == rest;
  }

  /** A line ended by `\r\n` is the first line: the pair is one terminator. */
  lemma LinesCrLf(l: string, rest: string)
    requires NoLineBreak(l)
    ensures Lines(l + ("\r\n" + rest)) == [l] + Lines(rest)
  {
    var s := l + ("\r\n" + rest);
    assert s[|l|] == '\r' && s[|l| + 1] == '\n';
    assert Span(s, NotLineBreak) == |l|;
    assert NextLine(s, |l|) == |l| + 2;
    assert s[..|l|] == l && s[|l| + 2..] == rest;
  }

  /** A non-empty text without terminators is a single line. */
  lemma LinesSingle(l: string)
    requires l != [] && NoLineBreak(l)
    ensures Lines(l) == [l]
  {
    assert Span(l, NotLineBreak) == |l|;
  }

  /** A line followed by a `\n` or the end is the first line. */
  lemma FirstLine(line: string, more: string)
    requires NoLineBreak(line) && line != []
    requires more == [] || more[0] == '\n'
    ensures Lines(line + more) != [] && Lines(line + more)[0] == line
  {
    if more == [] {
      assert line + more == line;
      LinesSingle(line);
    } else {
      assert more == [more[0]] + more[1..];
      LinesNewline(line, more[1..]);
    }
  }

  /** The line after a `\n`-terminated first line is the second line. */
  lemma SecondLine(first: string, line: string, more: string)
    requires NoLineBreak(first) && NoLineBreak(line) && line != []
    requires more == [] || more[0] == '\n'
    ensures |Lines(first + ("\n" + (line + more)))| >= 2
    ensures Lines(first + ("\n" + (line + more)))[1] == line
  {
    LinesNewline(first, line + more);
    FirstLine(line, more);
  }

  /** Every line boundary is whitespace, so a token never spans lines. */
  lemma NoSpaceNoLineBreak(w: string)
    requires NoSpace(w)
    ensures NoLineBreak(w)
  {
  }

  lemma NoLineBreakConcat(a: string, b: string)
    requires NoLineBreak(a) && NoLineBreak(b)
    ensures NoLineBreak(a + b)
  {
    forall k | 0 <= k < |a + b| ensures !IsLineBreak((a + b)[k]) {
      if k < |a| { assert (a + b)[k] == a[k]; } else { assert (a + b)[k] == b[k - |a|]; }
    }
  }

  /** A token and a whitespace run in front of a text add one token. */
  lemma WordsTokenGap(w: string, gap: string, rest: string)
    requires w != [] && NoSpace(w) && gap != [] && AllSpace(gap)
    ensures Words(w + (gap + rest)) == [w] + Words(rest)
  {
    assert (gap + rest)[0] == gap[0];
    WordsCons(w, gap + rest);
    WordsSkipsSpace(gap, rest);
  }

  /** Three tokens separated by whitespace runs, then whitespace or the end:
      `split()[2]` is the third. */
  lemma ThirdWord(a: string, gap1: string, b: string, gap2: string, c: string, tail: string)
    requires a != [] && NoSpace(a) && b != [] && NoSpace(b) && c != [] && NoSpace(c)
    requires gap1 != [] && AllSpace(gap1) && gap2 != [] && AllSpace(gap2)
    requires tail == [] || IsSpace(tail[0])
    ensures Words(a + (gap1 + (b + (gap2 + (c + tail))))) == [a, b, c] + Words(tail)
  {
    WordsCons(c, tail);
    WordsTokenGap(b, gap2, c + tail);
    WordsTokenGap(a, gap1, b + (gap2 + (c + tail)));
    ConsThree(Words(a + (gap1 + (b + (gap2 + (c + tail))))), Words(b + (gap2 + (c + tail))),
              Words(c + tail), Words(tail), a, b, c);
  }

  lemma ConsThree<T>(x: seq<T>, y: seq<T>, z: seq<T>, w: seq<T>, a: T, b: T, c: T)
    requires x == [a] + y && y == [b] + z && z == [c] + w
    ensures x == [a, b, c] + w
  {
    assert [a] + ([b] + ([c] + w)) == [a, b, c] + w;
  }

  /** Lines each ended by `\n`. */
  function Terminated(ls: seq<string>): string
  {
    if ls == [] then "" else ls[0] + ("\n" + Terminated(ls[1..]))
  }

  /** `splitlines()` recovers the lines of a `\n`-terminated text. */
  lemma {:induction false} LinesTerminated(ls: seq<string>)
    requires forall i :: 0 <= i < |ls| ==> NoLineBreak(ls[i])
    ensures Lines(Terminated(ls)) == ls
    decreases |ls|
  {
    if ls != [] {
      LinesTerminated(ls[1..]);
      LinesNewline(ls[0], Terminated(ls[1..]));
      assert ls == [ls[0]] + ls[1..];
    }
  }
}
