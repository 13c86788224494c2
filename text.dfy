/** String operations of Python's `str` that the command router relies on:
    `strip()`, `lower()`, `startswith`, `replace` and `split(sep, 1)`, each
    modelled on `seq<char>` with a contract that says what it computes. */
module Text {

  datatype Option<T> = None | Some(value: T)

  /** Python 3's whitespace (what `str.isspace()` and `str.strip()` use):
      the ASCII controls 9-13 and 28-31, the space, NEL, NBSP, and the
      Unicode separators. */
  predicate IsSpace(c: char) {
    || c == ' '
    || ('\t' <= c <= '\r')
    || ('\U{1C}' <= c <= '\U{1F}')
    || c == '\U{85}' || c == '\U{A0}' || c == '\U{1680}'
    || ('\U{2000}' <= c <= '\U{200A}')
    || c == '\U{2028}' || c == '\U{2029}' || c == '\U{202F}'
    || c == '\U{205F}' || c == '\U{3000}'
  }

  predicate AllSpace(s: string) {
    forall i :: 0 <= i < |s| ==> IsSpace(s[i])
  }

  /** Neither begins nor ends with whitespace: what `strip()` leaves. */
  predicate IsStripped(s: string) {
    s == [] || (!IsSpace(s[0]) && !IsSpace(s[|s| - 1]))
  }

  /** `lower()` restricted to ASCII letters. */
  function LowerChar(c: char): (r: char)
    ensures 'A' <= c <= 'Z' ==> 'a' <= r <= 'z'
    ensures 'A' <= c <= 'Z' ==> r as int - 'a' as int == c as int - 'A' as int
    ensures !('A' <= c <= 'Z') ==> r == c
  {
    if 'A' <= c <= 'Z' then (c as int - 'A' as int + 'a' as int) as char else c
  }

  function Lower(s: string): (r: string)
    ensures |r| == |s|
    ensures forall i :: 0 <= i < |s| ==> r[i] == LowerChar(s[i])
  {
    seq(|s|, i requires 0 <= i < |s| => LowerChar(s[i]))
  }

  /** Lowering never turns a non-space character into a space or back. */
  lemma LowerKeepsSpace(c: char)
    ensures IsSpace(LowerChar(c)) == IsSpace(c)
  {
  }

  /** `s.startswith(p)`. */
  predicate StartsWith(s: string, p: string) {
    |p| <= |s| && s[..|p|] == p
  }

  /** `p in s`: `p` occurs somewhere in `s`. */
  predicate HasInfix(s: string, p: string)
    decreases |s|
  {
    StartsWith(s, p) || (s != [] && HasInfix(s[1..], p))
  }

  /** Removes leading whitespace (`lstrip()`). */
  function TrimStart(s: string): (r: string)
    ensures |r| <= |s| && r == s[|s| - |r|..]
    ensures AllSpace(s[..|s| - |r|])
    ensures r == [] || !IsSpace(r[0])
    decreases |s|
  {
    if s != [] && IsSpace(s[0]) then
      var r := TrimStart(s[1..]);
      AfterFirst(s, |r|);
      r
    else s
  }

  /** Removes trailing whitespace (`rstrip()`). */
  function TrimEnd(s: string): (r: string)
    ensures |r| <= |s| && r == s[..|r|]
    ensures AllSpace(s[|r|..])
    ensures r == [] || !IsSpace(r[|r| - 1])
    decreases |s|
  {
    if s != [] && IsSpace(s[|s| - 1]) then
      var r := TrimEnd(s[..|s| - 1]);
      BeforeLast(s, |r|);
      r
    else s
  }

  lemma AfterFirst(s: string, n: nat)
    requires n < |s|
    ensures s[1..][|s| - 1 - n..] == s[|s| - n..]
    ensures s[..|s| - n] == [s[0]] + s[1..][..|s| - 1 - n]
  {
  }

  lemma BeforeLast(s: string, n: nat)
    requires n < |s|
    ensures s[..|s| - 1][..n] == s[..n]
    ensures s[n..] == s[..|s| - 1][n..] + [s[|s| - 1]]
  {
  }

  /** Number of whitespace characters `strip()` drops from the front. */
  function StripOffset(s: string): nat {
    |s| - |TrimStart(s)|
  }

  /** `s.strip()`: the result is the slice of `s` at `StripOffset(s)`, it has
      no whitespace at either end, and everything cut off is whitespace. */
  function Strip(s: string): (r: string)
    ensures StripOffset(s) + |r| <= |s|
    ensures r == s[StripOffset(s)..StripOffset(s) + |r|]
    ensures AllSpace(s[..StripOffset(s)]) && AllSpace(s[StripOffset(s) + |r|..])
    ensures IsStripped(r)
  {
    var t := TrimStart(s);
    var r := TrimEnd(t);
    var k := StripOffset(s);
    assert t == s[k..];
    SliceOfSuffix(s, k, |r|);
    assert r == [] || (r[0] == t[0] && !IsSpace(r[|r| - 1]));
    r
  }

  lemma SliceOfSuffix(s: string, k: nat, n: nat)
    requires k + n <= |s|
    ensures s[k..][..n] == s[k..k + n] && s[k..][n..] == s[k + n..]
  {
  }

  lemma {:induction false} TrimStartPadded(w: string, t: string)
    requires AllSpace(w)
    requires t == [] || !IsSpace(t[0])
    ensures TrimStart(w + t) == t
    decreases |w|
  {
    if w != [] {
      assert (w + t)[1..] == w[1..] + t;
      TrimStartPadded(w[1..], t);
    } else {
      assert w + t == t;
    }
  }

  lemma {:induction false} TrimEndPadded(t: string, w: string)
    requires AllSpace(w)
    requires t == [] || !IsSpace(t[|t| - 1])
    ensures TrimEnd(t + w) == t
    decreases |w|
  {
    if w != [] {
      assert (t + w)[..|t + w| - 1] == t + w[..|w| - 1];
      TrimEndPadded(t, w[..|w| - 1]);
    } else {
      assert t + w == t;
    }
  }

  /** `strip()` removes exactly the whitespace around a stripped core. */
  lemma StripPadded(w1: string, c: string, w2: string)
    requires AllSpace(w1) && AllSpace(w2) && IsStripped(c)
    ensures Strip(w1 + c + w2) == c
  {
    if c == [] {
      assert w1 + c + w2 == w1 + w2;
      assert AllSpace(w1 + w2);
    } else {
      assert w1 + c + w2 == w1 + (c + w2);
      TrimStartPadded(w1, c + w2);
      TrimEndPadded(c, w2);
    }
  }

  /** A text is the core `strip()` returns with whitespace on both sides. */
  lemma StripSplits(t: string)
    ensures var k := StripOffset(t);
      t == t[..k] + Strip(t) + t[k + |Strip(t)|..]
  {
    SplitThree(t, StripOffset(t), |Strip(t)|);
  }

  lemma SplitThree(t: string, k: nat, n: nat)
    requires k + n <= |t|
    ensures t == t[..k] + t[k..k + n] + t[k + n..]
  {
  }

  lemma StripRight(c: string, w: string)
    requires AllSpace(w) && IsStripped(c)
    ensures Strip(c + w) == c
  {
    assert [] + c + w == c + w;
    StripPadded([], c, w);
  }

  lemma StripLeft(w: string, c: string)
    requires AllSpace(w) && IsStripped(c)
    ensures Strip(w + c) == c
  {
    assert w + c + [] == w + c;
    StripPadded(w, c, []);
  }

  lemma HeadBodyStripped(h: string, w: string, c: string)
    requires h != [] && IsStripped(h) && c != [] && IsStripped(c)
    ensures IsStripped(h + w + c)
  {
    assert (h + w + c)[0] == h[0];
    assert (h + w + c)[|h + w + c| - 1] == c[|c| - 1];
  }

  lemma Regroup(h: string, w1: string, c: string, w2: string)
    ensures h + (w1 + c + w2) == (h + w1 + c) + w2
    ensures (h + w1 + c)[..|h|] == h && (h + w1 + c)[|h|..] == w1 + c
  {
  }

  /** Stripping a text behind a non-empty stripped head keeps the head, and
      what follows it strips to the same core as the tail. */
  lemma StripBehindHead(h: string, t: string)
    requires h != [] && IsStripped(h)
    ensures |h| <= |Strip(h + t)| && Strip(h + t)[..|h|] == h
    ensures Strip(Strip(h + t)[|h|..]) == Strip(t)
  {
    if Strip(t) == [] {
      BlankBehindHead(h, t);
    } else {
      CoreBehindHead(h, t);
    }
  }

  lemma BlankBehindHead(h: string, t: string)
    requires h != [] && IsStripped(h) && Strip(t) == []
    ensures |h| <= |Strip(h + t)| && Strip(h + t)[..|h|] == h
    ensures Strip(Strip(h + t)[|h|..]) == Strip(t)
  {
    BlankText(t);
    StripRight(h, t);
    Unpadded(h);
  }

  lemma Unpadded(h: string)
    ensures h[..|h|] == h && h[|h|..] == [] && Strip([]) == []
  {
  }

  lemma CoreBehindHead(h: string, t: string)
    requires h != [] && IsStripped(h) && Strip(t) != []
    ensures |h| <= |Strip(h + t)| && Strip(h + t)[..|h|] == h
    ensures Strip(Strip(h + t)[|h|..]) == Strip(t)
  {
    var k := StripOffset(t);
    StripSplits(t);
    CoreAfterHead(h, t[..k], Strip(t), t[k + |Strip(t)|..]);
  }

  /** A text that strips to nothing is all whitespace. */
  lemma BlankText(t: string)
    requires Strip(t) == []
    ensures AllSpace(t)
  {
    var k := StripOffset(t);
    assert forall i :: 0 <= i < k ==> t[..k][i] == t[i];
  }

  lemma CoreAfterHead(h: string, w1: string, core: string, w2: string)
    requires h != [] && IsStripped(h) && AllSpace(w1) && AllSpace(w2)
    requires core != [] && IsStripped(core)
    ensures |h| <= |Strip(h + (w1 + core + w2))| && Strip(h + (w1 + core + w2))[..|h|] == h
    ensures Strip(Strip(h + (w1 + core + w2))[|h|..]) == Strip(w1 + core + w2)
  {
    Regroup(h, w1, core, w2);
    HeadBodyStripped(h, w1, core);
    StripRight(h + w1 + core, w2);
    StripLeft(w1, core);
    StripPadded(w1, core, w2);
  }

  /** A text that starts with no whitespace keeps its front under `strip()`. */
  lemma StripPrefixOf(x: string)
    requires x == [] || !IsSpace(x[0])
    ensures StartsWith(x, Strip(x))
  {
    assert TrimStart(x) == x;
  }

  /** Whitespace before a text that starts with no whitespace is stripped
      away with the rest. */
  lemma StripLeading(w: string, x: string)
    requires AllSpace(w) && (x == [] || !IsSpace(x[0]))
    ensures Strip(w + x) == Strip(x)
  {
    TrimStartPadded(w, x);
    assert TrimStart(x) == x;
  }

  /** Stripping a head with no whitespace at its ends followed by a text
      keeps the head, followed by a prefix of the text that strips like the
      text. */
  lemma KeywordLed(h: string, t: string)
    requires h != [] && IsStripped(h)
    ensures var s := Strip(h + t);
      && |h| <= |s| && s == h + s[|h|..]
      && StartsWith(t, s[|h|..]) && Strip(s[|h|..]) == Strip(t)
  {
    StripBehindHead(h, t);
    assert (h + t)[0] == h[0];
    StripPrefixOf(h + t);
    HeadThenRest(h, t, Strip(h + t));
  }

  lemma HeadThenRest(h: string, t: string, s: string)
    requires |h| <= |s| && s[..|h|] == h && StartsWith(h + t, s)
    ensures s == h + s[|h|..] && StartsWith(t, s[|h|..])
  {
    assert s == s[..|h|] + s[|h|..];
    PrefixTail(h, t, s);
  }

  lemma PrefixTail(h: string, t: string, s: string)
    requires StartsWith(h + t, s) && |h| <= |s|
    ensures StartsWith(t, s[|h|..])
  {
    assert (h + t)[..|s|][|h|..] == t[..|s| - |h|];
  }

  /** An occurrence in a prefix of a text is an occurrence in the text. */
  lemma {:induction false} InfixOfPrefix(t: string, u: string, p: string)
    requires StartsWith(t, u) && HasInfix(u, p)
    ensures HasInfix(t, p)
    decreases |u|
  {
    if StartsWith(u, p) {
      assert t[..|p|] == t[..|u|][..|p|];
    } else {
      assert t[1..][..|u| - 1] == u[1..];
      InfixOfPrefix(t[1..], u[1..], p);
    }
  }

  lemma NoInfixInPrefix(t: string, u: string, p: string)
    requires StartsWith(t, u) && !HasInfix(t, p)
    ensures !HasInfix(u, p)
  {
    if HasInfix(u, p) {
      InfixOfPrefix(t, u, p);
    }
  }

  /** `strip()` is idempotent. */
  lemma StripIdempotent(s: string)
    ensures Strip(Strip(s)) == Strip(s)
  {
    StrippedFixed(Strip(s));
  }

  /** Slicing a text inside a prefix it starts with. */
  lemma PrefixSlices(s: string, p: string, k: nat)
    requires StartsWith(s, p) && k < |p|
    ensures s[..k] == p[..k] && s[k] == p[k]
  {
    assert s[..k] == s[..|p|][..k];
    assert s[k] == s[..|p|][k];
  }

  lemma HeadOfThree(a: string, b: string, c: string)
    ensures (a + b + c)[..|a| + |b|] == a + b && (a + b + c)[..|a|] == a
    ensures c != [] ==> (a + b + c)[|a| + |b|] == c[0]
  {
    assert (a + b + c)[..|a| + |b|] == a + b;
  }

  /** A text with no whitespace at either end is its own `strip()`. */
  lemma StrippedFixed(s: string)
    requires IsStripped(s)
    ensures Strip(s) == s
  {
    assert [] + s + [] == s;
    StripPadded([], s, []);
  }

  /** Index of the first occurrence of `c` (`s.find(c)`, `None` for -1). */
  function IndexOf(s: string, c: char): (r: Option<nat>)
    ensures r.None? <==> c !in s
    ensures r.Some? ==> r.value < |s| && s[r.value] == c && c !in s[..r.value]
    decreases |s|
  {
    if s == [] then None
    else if s[0] == c then Some(0)
    else match IndexOf(s[1..], c)
      case None => None
      case Some(i) => Some(i + 1)
  }

  /** `s.split(sep, 1)`: `None` when there is one part, otherwise the text
      before the first `sep` and everything after it. */
  function SplitFirst(s: string, sep: char): (r: Option<(string, string)>)
    ensures r.None? <==> sep !in s
    ensures r.Some? ==> r.value.0 + [sep] + r.value.1 == s && sep !in r.value.0
  {
    match IndexOf(s, sep)
    case None => None
    case Some(i) =>
      assert s[..i] + [sep] + s[i + 1..] == s;
      Some((s[..i], s[i + 1..]))
  }

  /** `split(sep, 1)` splits at the first occurrence of `sep`. */
  lemma SplitAt(s: string, sep: char, i: nat)
    requires i < |s| && s[i] == sep && sep !in s[..i]
    ensures SplitFirst(s, sep) == Some((s[..i], s[i + 1..]))
  {
    assert s[..i + 1][i] == sep;
    var parts := SplitFirst(s, sep).value;
    var left := parts.0;
    assert s[..|left|] == left;
    assert s[|left|] == sep;
    assert forall j :: 0 <= j < i ==> s[..i][j] == s[j];
    assert forall j :: 0 <= j < |left| ==> left[j] == s[j];
    assert |left| == i;
  }

  /** A text shorter than the pattern does not contain it. */
  lemma {:induction false} ShortNoInfix(s: string, p: string)
    requires |s| < |p|
    ensures !HasInfix(s, p)
  {
    if s != [] {
      ShortNoInfix(s[1..], p);
    }
  }

  /** A text lacking one of the pattern's characters does not contain it. */
  lemma {:induction false} AbsentCharNoInfix(s: string, p: string, k: nat)
    requires k < |p| && p[k] !in s
    ensures !HasInfix(s, p)
  {
    if |p| <= |s| {
      assert s[..|p|][k] == s[k];
    }
    if s != [] {
      AbsentCharNoInfix(s[1..], p, k);
    }
  }

  /** `s.replace(pat, rep)`: one left-to-right pass replacing every
      non-overlapping occurrence of `pat`. */
  function ReplaceAll(s: string, pat: string, rep: string): (r: string)
    requires pat != []
    ensures !HasInfix(s, pat) ==> r == s
    ensures rep == [] ==> |r| <= |s|
    decreases |s|
  {
    if StartsWith(s, pat) then rep + ReplaceAll(s[|pat|..], pat, rep)
    else if s == [] then []
    else [s[0]] + ReplaceAll(s[1..], pat, rep)
  }

  /** Deleting a pattern that heads the text and does not recur leaves the
      rest of the text. */
  lemma DeleteHead(p: string, t: string)
    requires p != [] && !HasInfix(t, p)
    ensures ReplaceAll(p + t, p, []) == t
  {
    assert (p + t)[..|p|] == p;
    assert (p + t)[|p|..] == t;
    assert ReplaceAll(p + t, p, []) == [] + ReplaceAll(t, p, []);
  }

  /** An occurrence heading the text is replaced and the scan resumes after it. */
  lemma ReplaceHead(p: string, t: string, rep: string)
    requires p != []
    ensures ReplaceAll(p + t, p, rep) == rep + ReplaceAll(t, p, rep)
  {
    assert (p + t)[..|p|] == p;
    assert (p + t)[|p|..] == t;
  }

  /** A stretch holding no first character of the pattern is copied unchanged
      and the scan goes on behind it. */
  lemma {:induction false} ReplaceSkipsFree(u: string, x: string, p: string, rep: string)
    requires p != [] && p[0] !in u
    ensures ReplaceAll(u + x, p, rep) == u + ReplaceAll(x, p, rep)
    decreases |u|
  {
    if u == [] {
      assert u + x == x;
    } else {
      var s := u + x;
      assert !StartsWith(s, p) by {
        if |p| <= |s| {
          assert s[..|p|][0] == u[0];
        }
      }
      assert s[1..] == u[1..] + x;
      assert ReplaceAll(s, p, rep) == [u[0]] + ReplaceAll(u[1..] + x, p, rep);
      ReplaceSkipsFree(u[1..], x, p, rep);
      assert u == [u[0]] + u[1..];
    }
  }

  /** No occurrence starts in a stretch lacking the pattern's first
      character, so a text behind it without the pattern leaves none. */
  lemma {:induction false} NoInfixBehindFree(u: string, t: string, p: string)
    requires p != [] && p[0] !in u && !HasInfix(t, p)
    ensures !HasInfix(u + t, p)
    decreases |u|
  {
    if u == [] {
      assert u + t == t;
    } else {
      if |p| <= |u + t| {
        assert (u + t)[..|p|][0] == u[0];
      }
      assert (u + t)[1..] == u[1..] + t;
      NoInfixBehindFree(u[1..], t, p);
    }
  }

  /** `sep.join(parts)`. */
  function Join(parts: seq<string>, sep: string): string
    decreases |parts|
  {
    if parts == [] then []
    else if |parts| == 1 then parts[0]
    else parts[0] + sep + Join(parts[1..], sep)
  }
}
