/** The Python `str` operations the core relies on, over `string` (a sequence
    of characters): prefix, suffix and substring tests, ASCII lower-casing,
    `strip()`, `split(c)`, `sep.join(parts)` and the division of a text into
    lines that iterating over a file performs. */
module Text {

  /** `s.startswith(p)` */
  predicate StartsWith(s: string, p: string) {
    |p| <= |s| && s[..|p|] == p
  }

  /** `s.endswith(p)` */
  predicate EndsWith(s: string, p: string) {
    |p| <= |s| && s[|s| - |p|..] == p
  }

  /** `p in s`: `p` occurs in `s` at some position (the empty string occurs everywhere). */
  predicate Contains(s: string, p: string)
    decreases |s|
  {
    StartsWith(s, p) || (|s| > 0 && Contains(s[1..], p))
  }

  /** An occurrence at a known position is an occurrence. */
  lemma {:induction false} ContainsAt(s: string, p: string, i: nat)
    requires OccursAt(s, p, i)
    ensures Contains(s, p)
    decreases i
  {
    if i > 0 {
      assert s[1..][i - 1..i - 1 + |p|] == s[i..i + |p|];
      ContainsAt(s[1..], p, i - 1);
    } else {
      assert s[..|p|] == p;
    }
  }

  /** `p` occurs in `s` starting at position `i`. */
  predicate OccursAt(s: string, p: string, i: nat) {
    i + |p| <= |s| && s[i..i + |p|] == p
  }

  /** A substring test finds exactly the occurrences at some position. */
  lemma {:induction false} ContainsHasPosition(s: string, p: string)
    requires Contains(s, p)
    ensures exists i: nat :: OccursAt(s, p, i)
    decreases |s|
  {
    if StartsWith(s, p) {
      assert s[0..0 + |p|] == p;
      assert OccursAt(s, p, 0);
    } else {
      ContainsHasPosition(s[1..], p);
      var i: nat :| OccursAt(s[1..], p, i);
      assert s[i + 1..i + 1 + |p|] == s[1..][i..i + |p|];
      assert OccursAt(s, p, i + 1);
    }
  }

  // ----- case -----

  /** `c.lower()` on the ASCII letters; every other character is left alone. */
  function LowerChar(c: char): char {
    if 'A' <= c <= 'Z' then (c as int - 'A' as int + 'a' as int) as char else c
  }

  /** `s.lower()`, character by character. */
  function Lower(s: string): string {
    seq(|s|, i requires 0 <= i < |s| => LowerChar(s[i]))
  }

  /** Lower-casing commutes with taking a suffix, so a suffix test after
      `lower()` looks only at the last characters. */
  lemma LowerSuffix(s: string, k: nat)
    requires k <= |s|
    ensures Lower(s)[k..] == Lower(s[k..])
  {
  }

  // ----- whitespace and strip() -----

  /** Python's `str.isspace()` for one character. */
  predicate IsSpace(c: char) {
    || c == ' '
    || '\t' <= c <= '\r'
    || '\U{1C}' <= c <= '\U{1F}'
    || c == '\U{85}' || c == '\U{A0}' || c == '\U{1680}'
    || '\U{2000}' <= c <= '\U{200A}'
    || c == '\U{2028}' || c == '\U{2029}' || c == '\U{202F}' || c == '\U{205F}'
    || c == '\U{3000}'
  }

  predicate AllSpace(s: string) {
    forall i :: 0 <= i < |s| ==> IsSpace(s[i])
  }

  /** Neither end of `s` is whitespace. */
  predicate Trimmed(s: string) {
    s == [] || (!IsSpace(s[0]) && !IsSpace(s[|s| - 1]))
  }

  /** `s` is `t` with only whitespace before (the first `k` characters) and after it. */
  predicate Surrounds(s: string, t: string, k: nat) {
    && k + |t| <= |s|
    && s[k..k + |t|] == t
    && AllSpace(s[..k])
    && AllSpace(s[k + |t|..])
  }

  /** Where the text of `s` starts: the number of leading whitespace characters. */
  function StripStart(s: string): (n: nat)
    ensures n <= |s|
    ensures forall i :: 0 <= i < n ==> IsSpace(s[i])
    ensures n == |s| || !IsSpace(s[n])
    decreases |s|
  {
    if |s| > 0 && IsSpace(s[0]) then
      var n := StripStart(s[1..]);
      assert forall i :: 1 <= i < n + 1 ==> s[i] == s[1..][i - 1];
      n + 1
    else 0
  }

  /** Where the text of `s` ends: its length without the trailing whitespace. */
  function StripEnd(s: string): (m: nat)
    ensures m <= |s|
    ensures forall i :: m <= i < |s| ==> IsSpace(s[i])
    ensures m == 0 || !IsSpace(s[m - 1])
    decreases |s|
  {
    if |s| > 0 && IsSpace(s[|s| - 1]) then
      var m := StripEnd(s[..|s| - 1]);
      assert forall i :: m <= i < |s| - 1 ==> s[i] == s[..|s| - 1][i];
      m
    else |s|
  }

  /** `s.strip()`: `s` without its leading and trailing whitespace. */
  function Strip(s: string): (r: string)
    ensures Trimmed(r)
    ensures Surrounds(s, r, StripStart(s))
  {
    var n := StripStart(s);
    var m := StripEnd(s);
    if n < m then
      StripText(s);
      s[n..m]
    else
      StripBlank(s);
      []
  }

  /** When text remains, it is the part between the two whitespace runs. */
  lemma StripText(s: string)
    requires StripStart(s) < StripEnd(s)
    ensures Trimmed(s[StripStart(s)..StripEnd(s)])
    ensures Surrounds(s, s[StripStart(s)..StripEnd(s)], StripStart(s))
  {
    var n := StripStart(s);
    var m := StripEnd(s);
    EndsNotSpace(s, n, m);
    SpacesBefore(s, n);
    SpacesAfter(s, m);
  }

  lemma EndsNotSpace(s: string, n: nat, m: nat)
    requires n < m <= |s| && !IsSpace(s[n]) && !IsSpace(s[m - 1])
    ensures Trimmed(s[n..m])
  {
    assert s[n..m][0] == s[n] && s[n..m][m - n - 1] == s[m - 1];
  }

  /** When no text remains, `s` is all whitespace. */
  lemma StripBlank(s: string)
    requires StripStart(s) >= StripEnd(s)
    ensures StripStart(s) == |s|
    ensures Surrounds(s, [], StripStart(s))
  {
    StartBeforeEnd(s);
    SpacesBefore(s, |s|);
    assert s[|s|..] == [];
  }

  /** Text that starts before the end of `s` also ends after it starts. */
  lemma StartBeforeEnd(s: string)
    ensures StripStart(s) < |s| ==> StripStart(s) < StripEnd(s)
  {
  }

  lemma SpacesBefore(s: string, n: nat)
    requires n <= |s| && forall i :: 0 <= i < n ==> IsSpace(s[i])
    ensures AllSpace(s[..n])
  {
    assert forall i :: 0 <= i < n ==> s[..n][i] == s[i];
  }

  lemma SpacesAfter(s: string, m: nat)
    requires m <= |s| && forall i :: m <= i < |s| ==> IsSpace(s[i])
    ensures AllSpace(s[m..])
  {
    assert forall i :: 0 <= i < |s| - m ==> s[m..][i] == s[m + i];
  }

  /** The leading whitespace run of `s` is `k` characters long when `s` has
      `k` whitespace characters and then a non-space or its end. */
  lemma StartIs(s: string, k: nat)
    requires k <= |s| && (forall i :: 0 <= i < k ==> IsSpace(s[i])) && (k == |s| || !IsSpace(s[k]))
    ensures StripStart(s) == k
  {
    var n := StripStart(s);
    assert n < |s| ==> !IsSpace(s[n]);
    assert k < |s| ==> !IsSpace(s[k]);
  }

  /** The text of `s` ends at `m` when only whitespace follows and position
      `m - 1` is not whitespace (or `m` is 0). */
  lemma EndIs(s: string, m: nat)
    requires m <= |s| && (forall i :: m <= i < |s| ==> IsSpace(s[i])) && (m == 0 || !IsSpace(s[m - 1]))
    ensures StripEnd(s) == m
  {
    var e := StripEnd(s);
    assert 0 < e ==> !IsSpace(s[e - 1]);
    assert 0 < m ==> !IsSpace(s[m - 1]);
  }

  /** `strip()` is the only trimming: whatever `t` has no whitespace at its
      ends and is surrounded in `s` by whitespace only, `s.strip()` is `t`. */
  lemma StripUnique(s: string, t: string, k: nat)
    requires Trimmed(t) && Surrounds(s, t, k)
    ensures Strip(s) == t
  {
    SpacePrefix(s, k);
    SpaceSuffix(s, k + |t|);
    if t == [] {
      StartIs(s, |s|);
    } else {
      assert s[k] == t[0] && s[k + |t| - 1] == t[|t| - 1];
      StartIs(s, k);
      EndIs(s, k + |t|);
    }
  }

  lemma SpacePrefix(s: string, n: nat)
    requires n <= |s| && AllSpace(s[..n])
    ensures forall i :: 0 <= i < n ==> IsSpace(s[i])
  {
    assert forall i :: 0 <= i < n ==> s[..n][i] == s[i];
  }

  lemma SpaceSuffix(s: string, n: nat)
    requires n <= |s| && AllSpace(s[n..])
    ensures forall i :: n <= i < |s| ==> IsSpace(s[i])
  {
    assert forall i :: n <= i < |s| ==> s[n..][i - n] == s[i];
  }

  /** Stripping twice strips nothing more. */
  lemma StripIdempotent(s: string)
    ensures Strip(Strip(s)) == Strip(s)
  {
    var t := Strip(s);
    assert t[..0] == [] && t[|t|..] == [] && t[0..|t|] == t;
    StripUnique(t, t, 0);
  }

  /** A line strips to the empty string exactly when it is all whitespace. */
  lemma StripEmpty(s: string)
    ensures Strip(s) == [] <==> AllSpace(s)
  {
    if AllSpace(s) {
      assert s[..0] == [] && s[0..] == s;
      assert Surrounds(s, [], 0);
      StripUnique(s, [], 0);
    }
    if Strip(s) == [] {
      var k := StripStart(s);
      SpacePrefix(s, k);
      SpaceSuffix(s, k);
    }
  }

  // ----- split and join -----

  /** `sep.join(parts)` */
  function Join(parts: seq<string>, sep: string): string
    decreases |parts|
  {
    if |parts| == 0 then ""
    else if |parts| == 1 then parts[0]
    else parts[0] + sep + Join(parts[1..], sep)
  }

  /** `s.split(c)` for a one-character separator `c`: the pieces between the
      occurrences of `c`, empty pieces included, never an empty list. */
  function Split(s: string, c: char): (r: seq<string>)
    ensures |r| >= 1
    ensures forall i :: 0 <= i < |r| ==> c !in r[i]
    decreases |s|
  {
    if |s| == 0 then [""]
    else
      var rest := Split(s[1..], c);
      if s[0] == c then [""] + rest
      else
        var r := [[s[0]] + rest[0]] + rest[1..];
        assert c !in r[0];
        r
  }

  /** Joining the pieces with the separator gives back the text. */
  lemma {:induction false} SplitJoinsBack(s: string, c: char)
    ensures Join(Split(s, c), [c]) == s
    decreases |s|
  {
    if |s| > 0 {
      SplitJoinsBack(s[1..], c);
      var rest := Split(s[1..], c);
      if s[0] == c {
        assert Join([""] + rest, [c]) == [c] + Join(rest, [c]);
      } else {
        JoinConsPiece(s[0], rest, [c]);
      }
      assert s == [s[0]] + s[1..];
    }
  }

  /** Gluing a character to the first part glues it to the joined text. */
  lemma JoinConsPiece(ch: char, rest: seq<string>, sep: string)
    requires |rest| >= 1
    ensures Join([[ch] + rest[0]] + rest[1..], sep) == [ch] + Join(rest, sep)
  {
    var r := [[ch] + rest[0]] + rest[1..];
    if |rest| > 1 {
      assert r[1..] == rest[1..];
      assert Join(rest, sep) == rest[0] + sep + Join(rest[1..], sep);
    }
  }

  /** A piece without the separator, the separator and the rest split into
      that piece followed by the pieces of the rest. */
  lemma {:induction false} SplitPrefix(p: string, c: char, t: string)
    requires c !in p
    ensures Split(p + [c] + t, c) == [p] + Split(t, c)
    decreases |p|
  {
    if |p| > 0 {
      assert (p + [c] + t)[1..] == p[1..] + [c] + t;
      SplitPrefix(p[1..], c, t);
      assert [p[0]] + p[1..] == p;
    } else {
      assert p + [c] + t == [c] + t;
    }
  }

  /** A piece without the separator in front of a text that starts with the
      separator: that piece, then the pieces after the separator. */
  lemma {:induction false} SplitBefore(p: string, c: char, rest: string)
    requires c !in p && |rest| > 0 && rest[0] == c
    ensures Split(p + rest, c) == [p] + Split(rest[1..], c)
    decreases |p|
  {
    if |p| > 0 {
      assert (p + rest)[1..] == p[1..] + rest;
      SplitBefore(p[1..], c, rest);
      assert [p[0]] + p[1..] == p;
    } else {
      assert p + rest == rest;
    }
  }

  /** Splitting at one separator between two texts gives the pieces of the
      first followed by the pieces of the second. */
  lemma {:induction false} SplitConcat(a: string, c: char, b: string)
    ensures Split(a + [c] + b, c) == Split(a, c) + Split(b, c)
    decreases |a|
  {
    var t := a + [c] + b;
    if |a| == 0 {
      assert t == [c] + b;
      assert t[1..] == b;
    } else {
      assert t[0] == a[0] && t[1..] == a[1..] + [c] + b;
      SplitConcat(a[1..], c, b);
      var x := Split(a[1..], c);
      var y := Split(b, c);
      if a[0] != c {
        ConsPiece(a[0], x, y);
      }
    }
  }

  /** Gluing a character to the first piece commutes with appending pieces. */
  lemma ConsPiece(ch: char, x: seq<string>, y: seq<string>)
    requires |x| >= 1
    ensures [[ch] + (x + y)[0]] + (x + y)[1..] == ([[ch] + x[0]] + x[1..]) + y
  {
    assert (x + y)[0] == x[0];
    assert (x + y)[1..] == x[1..] + y;
  }

  /** A text without the separator is a single piece. */
  lemma {:induction false} SplitNone(p: string, c: char)
    requires c !in p
    ensures Split(p, c) == [p]
    decreases |p|
  {
    if |p| > 0 {
      SplitNone(p[1..], c);
      assert [p[0]] + p[1..] == p;
    }
  }

  /** Splitting a longer text never yields fewer pieces. */
  lemma {:induction false} SplitGrows(s: string, c: char, t: string)
    ensures |Split(t + s, c)| >= |Split(s, c)|
    decreases |t|
  {
    if |t| > 0 {
      assert (t + s)[1..] == t[1..] + s;
      SplitGrows(s, c, t[1..]);
    } else {
      assert t + s == s;
    }
  }

  /** The last piece of `s.split(c)`, `s.split(c)[-1]`. */
  function LastPiece(s: string, c: char): string {
    var parts := Split(s, c);
    parts[|parts| - 1]
  }

  /** `sep.join(parts)` ends with the last part, preceded by the separator
      when there is more than one part. */
  lemma {:induction false} JoinEndsWithLast(parts: seq<string>, sep: string)
    requires |parts| >= 1
    ensures EndsWith(Join(parts, sep), parts[|parts| - 1])
    ensures |parts| > 1 ==> EndsWith(Join(parts, sep), sep + parts[|parts| - 1])
    decreases |parts|
  {
    if |parts| > 1 {
      JoinEndsWithLast(parts[1..], sep);
      var j := Join(parts, sep);
      var rest := Join(parts[1..], sep);
      var last := parts[|parts| - 1];
      assert j == parts[0] + sep + rest;
      if |parts| > 2 {
        assert EndsWith(rest, sep + last);
      } else {
        assert rest == last;
      }
      assert j[|j| - |sep + last|..] == (sep + rest)[|sep + rest| - |sep + last|..];
    }
  }

  /** `s.split(c)[-1]` is the text after the last `c` of `s`, or all of `s`
      when `s` has no `c`. */
  lemma LastPieceIsTail(s: string, c: char)
    ensures c !in LastPiece(s, c)
    ensures EndsWith(s, LastPiece(s, c))
    ensures LastPiece(s, c) == s || (|LastPiece(s, c)| < |s| && s[|s| - |LastPiece(s, c)| - 1] == c)
    ensures c !in s ==> LastPiece(s, c) == s
  {
    var last := LastPiece(s, c);
    LastPieceEnds(s, c);
    if |Split(s, c)| > 1 {
      SeparatorBefore(s, [c] + last);
    }
    if c !in s {
      SplitNone(s, c);
    }
  }

  /** `s` ends with its last piece, and with the separator and its last
      piece when it has more than one piece. */
  lemma LastPieceEnds(s: string, c: char)
    ensures EndsWith(s, LastPiece(s, c))
    ensures |Split(s, c)| > 1 ==> EndsWith(s, [c] + LastPiece(s, c))
    ensures |Split(s, c)| == 1 ==> LastPiece(s, c) == s
  {
    SplitJoinsBack(s, c);
    JoinEndsWithLast(Split(s, c), [c]);
  }

  lemma SeparatorBefore(s: string, t: string)
    requires |t| > 0 && EndsWith(s, t)
    ensures |t| - 1 < |s| && s[|s| - |t|] == t[0]
  {
    assert s[|s| - |t|..][0] == s[|s| - |t|];
  }

  // ----- lines -----

  /** Concatenation of a sequence of strings. */
  function Concat(ss: seq<string>): string
    decreases |ss|
  {
    if ss == [] then "" else ss[0] + Concat(ss[1..])
  }

  /** Concatenating two runs of strings one after the other. */
  lemma {:induction false} ConcatAppend(a: seq<string>, b: seq<string>)
    ensures Concat(a + b) == Concat(a) + Concat(b)
    decreases |a|
  {
    if a == [] {
      assert a + b == b;
    } else {
      assert (a + b)[1..] == a[1..] + b;
      ConcatAppend(a[1..], b);
    }
  }

  /** Position just past the first newline of `s`, or `|s|` when there is none. */
  function LineEnd(s: string): (k: nat)
    ensures k <= |s|
    ensures s != [] ==> k > 0
    ensures forall j :: 0 <= j < k - 1 ==> s[j] != '\n'
    ensures k < |s| ==> s[k - 1] == '\n'
    ensures k == |s| && s != [] ==> s[k - 1] == '\n' || '\n' !in s
    decreases |s|
  {
    if s == [] then 0
    else if s[0] == '\n' then 1
    else 1 + LineEnd(s[1..])
  }

  /** `r` cuts `s` into lines: they concatenate to `s`, none is empty, each
      but the last ends in a newline, and no line holds a newline before its
      last character. */
  predicate LinesOf(r: seq<string>, s: string) {
    && Concat(r) == s
    && (forall i :: 0 <= i < |r| ==> r[i] != [])
    && (forall i :: 0 <= i < |r| - 1 ==> r[i][|r[i]| - 1] == '\n')
    && (forall i, j :: 0 <= i < |r| && 0 <= j < |r[i]| - 1 ==> r[i][j] != '\n')
  }

  /** The lines a text file yields when iterated (`for line in f`, `f.readlines()`):
      each keeps its terminating newline, the last may lack one, and an empty
      text has no lines. */
  function Lines(s: string): (r: seq<string>)
    ensures LinesOf(r, s)
    decreases |s|
  {
    if s == [] then []
    else
      var k := LineEnd(s);
      var rest := Lines(s[k..]);
      LinesStep(s, rest);
      [s[..k]] + rest
  }

  /** The first line in front of the lines of the rest. */
  lemma LinesStep(s: string, rest: seq<string>)
    requires s != [] && LinesOf(rest, s[LineEnd(s)..])
    ensures LinesOf([s[..LineEnd(s)]] + rest, s)
  {
    var k := LineEnd(s);
    var r := [s[..k]] + rest;
    assert r[1..] == rest;
    assert s[..k] + s[k..] == s;
    StepEnds(s[..k], rest);
    StepInner(s[..k], rest);
  }

  /** Each line but the last of `[line] + rest` ends in a newline. */
  lemma StepEnds(line: string, rest: seq<string>)
    requires line != [] && (rest != [] ==> line[|line| - 1] == '\n')
    requires forall i :: 0 <= i < |rest| ==> rest[i] != []
    requires forall i :: 0 <= i < |rest| - 1 ==> rest[i][|rest[i]| - 1] == '\n'
    ensures forall i :: 0 <= i < |[line] + rest| - 1 ==> ([line] + rest)[i][|([line] + rest)[i]| - 1] == '\n'
  {
    var r := [line] + rest;
    forall i | 0 <= i < |r| - 1
      ensures r[i][|r[i]| - 1] == '\n'
    {
      if i > 0 {
        assert r[i] == rest[i - 1];
      }
    }
  }

  /** No line of `[line] + rest` holds a newline before its last character. */
  lemma StepInner(line: string, rest: seq<string>)
    requires forall j :: 0 <= j < |line| - 1 ==> line[j] != '\n'
    requires forall i, j :: 0 <= i < |rest| && 0 <= j < |rest[i]| - 1 ==> rest[i][j] != '\n'
    ensures forall i, j :: 0 <= i < |[line] + rest| && 0 <= j < |([line] + rest)[i]| - 1 ==> ([line] + rest)[i][j] != '\n'
  {
    var r := [line] + rest;
    forall i, j | 0 <= i < |r| && 0 <= j < |r[i]| - 1
      ensures r[i][j] != '\n'
    {
      if i > 0 {
        assert r[i] == rest[i - 1];
      }
    }
  }

  /** A line without a newline, then a newline: the first line ends there. */
  lemma {:induction false} LineEndAfter(x: string, rest: string)
    requires '\n' !in x
    ensures LineEnd(x + "\n" + rest) == |x| + 1
    decreases |x|
  {
    if |x| > 0 {
      assert (x + "\n" + rest)[1..] == x[1..] + "\n" + rest;
      LineEndAfter(x[1..], rest);
    }
  }

  /** A newline-terminated line in front of a text is its first line. */
  lemma LinesPrefix(x: string, rest: string)
    requires '\n' !in x
    ensures Lines(x + "\n" + rest) == [x + "\n"] + Lines(rest)
  {
    var s := x + "\n" + rest;
    LineEndAfter(x, rest);
    assert s[..|x| + 1] == x + "\n";
    assert s[|x| + 1..] == rest;
  }

  /** Number of occurrences of `c` in `s`. */
  function Count(s: string, c: char): nat
    decreases |s|
  {
    if s == [] then 0 else (if s[0] == c then 1 else 0) + Count(s[1..], c)
  }

  lemma {:induction false} CountAppend(a: string, b: string, c: char)
    ensures Count(a + b, c) == Count(a, c) + Count(b, c)
    decreases |a|
  {
    if a != [] {
      assert (a + b)[1..] == a[1..] + b;
      CountAppend(a[1..], b, c);
    } else {
      assert a + b == b;
    }
  }

  /** The first line holds a newline exactly when it is terminated by one. */
  lemma {:induction false} FirstLineCount(s: string)
    requires s != []
    ensures Count(s[..LineEnd(s)], '\n') == (if s[LineEnd(s) - 1] == '\n' then 1 else 0)
    decreases |s|
  {
    var k := LineEnd(s);
    if s[0] != '\n' {
      assert s[..k][1..] == s[1..][..k - 1];
      if |s| > 1 {
        FirstLineCount(s[1..]);
      }
    }
  }

  /** A text has one line per newline, plus one for an unterminated last line. */
  lemma {:induction false} LinesCount(s: string)
    ensures |Lines(s)| == Count(s, '\n') + (if s != [] && s[|s| - 1] != '\n' then 1 else 0)
    decreases |s|
  {
    if s != [] {
      var k := LineEnd(s);
      LinesCount(s[k..]);
      assert s == s[..k] + s[k..];
      CountAppend(s[..k], s[k..], '\n');
      FirstLineCount(s);
      assert k < |s| ==> s[k..][|s[k..]| - 1] == s[|s| - 1];
    }
  }
}
