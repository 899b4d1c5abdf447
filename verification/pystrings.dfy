/** Models of the Python `str` methods the expense wizard relies on:
    `find`, `split(sep)`, `split(sep, 1)`, `replace` and `strip`.
    Strings are sequences of Unicode scalar values, as Python's are of code points. */
module PyStrings {
  import opened Wrappers

  /** Python's `str.isspace` for a single character: the ASCII controls
      TAB..CR and FS..US, the space, NEL, NO-BREAK SPACE and the Unicode
      space separators and line/paragraph separators. */
  predicate IsSpace(c: char) {
    || ('\t' <= c <= '\r')
    || ('\U{1C}' <= c <= ' ')
    || c == '\U{85}' || c == '\U{A0}' || c == '\U{1680}'
    || ('\U{2000}' <= c <= '\U{200A}')
    || c == '\U{2028}' || c == '\U{2029}' || c == '\U{202F}'
    || c == '\U{205F}' || c == '\U{3000}'
  }

  predicate AllSpace(s: string) {
    forall i | 0 <= i < |s| :: IsSpace(s[i])
  }

  /** Neither end of `t` is whitespace (the empty string qualifies). */
  predicate Trimmed(t: string) {
    |t| == 0 || (!IsSpace(t[0]) && !IsSpace(t[|t| - 1]))
  }

  /** `s.find(c)`: the position of the first occurrence of `c`, if any. */
  function IndexOf(s: string, c: char): (r: Option<nat>)
    ensures r.None? <==> c !in s
    ensures r.Some? ==> r.value < |s| && s[r.value] == c && c !in s[..r.value]
  {
    if |s| == 0 then None
    else if s[0] == c then Some(0)
    else match IndexOf(s[1..], c)
      case None => None
      case Some(i) =>
        assert s[..i + 1] == [s[0]] + s[1..][..i];
        Some(i + 1)
  }

  /** A character at `i` with no earlier occurrence is what `find` returns. */
  lemma IndexOfFirst(s: string, c: char, i: nat)
    requires i < |s| && s[i] == c && c !in s[..i]
    ensures IndexOf(s, c) == Some(i)
  {
  }

  /** `sep.join(parts)`. */
  function Join(parts: seq<string>, sep: char): string {
    if |parts| == 0 then ""
    else if |parts| == 1 then parts[0]
    else parts[0] + [sep] + Join(parts[1..], sep)
  }

  /** `s.split(sep, 1)`: at most two pieces, cut at the first `sep`. */
  function SplitOnce(s: string, sep: char): (parts: seq<string>)
    ensures sep !in s ==> parts == [s]
    ensures sep in s ==> |parts| == 2 && parts[0] + [sep] + parts[1] == s && sep !in parts[0]
  {
    match IndexOf(s, sep)
    case None => [s]
    case Some(i) =>
      assert s == s[..i] + [sep] + s[i + 1..];
      [s[..i], s[i + 1..]]
  }

  /** `s.split(sep)` with an explicit one-character separator: every piece
      between separators, empty pieces included, so never an empty list. */
  function SplitAll(s: string, sep: char): (parts: seq<string>)
    ensures |parts| >= 1
    ensures Join(parts, sep) == s
    ensures forall i | 0 <= i < |parts| :: sep !in parts[i]
    decreases |s|
  {
    match IndexOf(s, sep)
    case None => [s]
    case Some(i) =>
      var rest := SplitAll(s[i + 1..], sep);
      assert ([s[..i]] + rest)[1..] == rest;
      assert s == s[..i] + [sep] + s[i + 1..];
      [s[..i]] + rest
  }

  /** Splitting a string whose first separator sits right after `head`
      yields `head` followed by the pieces of the remainder. */
  lemma SplitAllAfterHead(head: string, sep: char, rest: string)
    requires sep !in head
    ensures SplitAll(head + [sep] + rest, sep) == [head] + SplitAll(rest, sep)
  {
    var s := head + [sep] + rest;
    assert s[..|head|] == head;
    IndexOfFirst(s, sep, |head|);
    assert s[|head| + 1..] == rest;
  }

  /** The first piece of `split(sep)` runs up to the first separator or the end. */
  lemma FirstPiece(s: string, sep: char)
    ensures var w := SplitAll(s, sep)[0];
      && |w| <= |s| && w == s[..|w|]
      && (|w| == |s| || s[|w|] == sep)
  {
  }

  /** The second piece of `split(sep)` is the run after the first separator,
      up to the next separator or the end. */
  lemma SecondPiece(s: string, sep: char, p: nat)
    requires p < |s| && s[p] == sep && sep !in s[..p]
    ensures |SplitAll(s, sep)| >= 2
    ensures var w := SplitAll(s, sep)[1];
      && sep !in w
      && p + 1 + |w| <= |s|
      && w == s[p + 1..p + 1 + |w|]
      && (p + 1 + |w| == |s| || s[p + 1 + |w|] == sep)
  {
    var rest := s[p + 1..];
    assert s == s[..p] + [sep] + rest;
    SplitAllAfterHead(s[..p], sep, rest);
    FirstPiece(rest, sep);
    var w := SplitAll(rest, sep)[0];
    assert rest[..|w|] == s[p + 1..p + 1 + |w|];
  }

  /** `split` undoes `join` when no piece contains the separator. */
  lemma {:induction false} SplitAllJoin(parts: seq<string>, sep: char)
    requires |parts| >= 1
    requires forall i | 0 <= i < |parts| :: sep !in parts[i]
    ensures SplitAll(Join(parts, sep), sep) == parts
    decreases |parts|
  {
    if |parts| == 1 {
      assert sep !in parts[0];
    } else {
      assert sep !in parts[0];
      assert forall i | 0 <= i < |parts[1..]| :: sep !in parts[1..][i] by {
        forall i | 0 <= i < |parts[1..]| ensures sep !in parts[1..][i] {
          assert parts[1..][i] == parts[i + 1];
        }
      }
      SplitAllJoin(parts[1..], sep);
      SplitAllAfterHead(parts[0], sep, Join(parts[1..], sep));
      assert [parts[0]] + parts[1..] == parts;
    }
  }

  /** `s.replace(from, to)` for one-character arguments. */
  function ReplaceChar(s: string, from: char, to: char): (r: string)
    ensures |r| == |s|
    ensures forall i | 0 <= i < |s| :: r[i] == (if s[i] == from then to else s[i])
  {
    if |s| == 0 then ""
    else [if s[0] == from then to else s[0]] + ReplaceChar(s[1..], from, to)
  }

  /** Replacing a character that does not occur changes nothing. */
  lemma ReplaceCharAbsent(s: string, from: char, to: char)
    requires from !in s
    ensures ReplaceChar(s, from, to) == s
  {
    var r := ReplaceChar(s, from, to);
    forall i | 0 <= i < |s| ensures r[i] == s[i] {
      assert s[i] != from;
    }
  }

  /** After the replacement no `from` is left, and replacing again changes nothing. */
  lemma ReplaceCharIdempotent(s: string, from: char, to: char)
    requires from != to
    ensures from !in ReplaceChar(s, from, to)
    ensures ReplaceChar(ReplaceChar(s, from, to), from, to) == ReplaceChar(s, from, to)
  {
  }

  /** How many whitespace characters `s.lstrip()` removes. */
  function LeadingSpaces(s: string): (n: nat)
    ensures n <= |s|
    ensures n < |s| ==> !IsSpace(s[n])
  {
    if |s| > 0 && IsSpace(s[0]) then 1 + LeadingSpaces(s[1..]) else 0
  }

  /** Everything `lstrip` removes is whitespace. */
  lemma {:induction false} LeadingRunIsSpace(s: string)
    ensures AllSpace(s[..LeadingSpaces(s)])
    decreases |s|
  {
    if |s| > 0 && IsSpace(s[0]) {
      var m := LeadingSpaces(s[1..]);
      LeadingRunIsSpace(s[1..]);
      assert s[..m + 1] == [s[0]] + s[1..][..m];
    }
  }

  /** How many whitespace characters `s.rstrip()` removes. */
  function TrailingSpaces(s: string): (n: nat)
    ensures n <= |s|
    ensures n < |s| ==> !IsSpace(s[|s| - n - 1])
  {
    if |s| > 0 && IsSpace(s[|s| - 1]) then 1 + TrailingSpaces(s[..|s| - 1]) else 0
  }

  /** `s.rstrip()`: drops the trailing whitespace run. */
  function RStrip(b: string): (r: string)
    ensures |r| <= |b| && r == b[..|r|]
    ensures |r| > 0 ==> !IsSpace(r[|r| - 1])
  {
    b[..|b| - TrailingSpaces(b)]
  }

  /** `s.strip()`: drops whitespace at both ends. */
  function Strip(s: string): (r: string)
    ensures |r| <= |s|
    ensures Trimmed(r)
  {
    RStrip(s[LeadingSpaces(s)..])
  }

  /** Everything `rstrip` removes is whitespace. */
  lemma {:induction false} TrailingRunIsSpace(s: string)
    ensures forall i | |s| - TrailingSpaces(s) <= i < |s| :: IsSpace(s[i])
    decreases |s|
  {
    if |s| > 0 && IsSpace(s[|s| - 1]) {
      var p := s[..|s| - 1];
      TrailingRunIsSpace(p);
      forall i | |s| - TrailingSpaces(s) <= i < |s| - 1 ensures IsSpace(s[i]) {
        assert s[i] == p[i];
      }
    }
  }

  /** `rstrip` keeps a prefix and drops only whitespace after it. */
  lemma RStripRemovesOnlySpace(b: string)
    ensures AllSpace(b[|RStrip(b)|..])
  {
    var k := |RStrip(b)|;
    TrailingRunIsSpace(b);
    forall i | 0 <= i < |b| - k ensures IsSpace(b[k..][i]) {
      assert b[k..][i] == b[k + i];
    }
  }

  /** `strip` returns a slice of its input with only whitespace on either side. */
  lemma StripRemovesOnlySpace(s: string)
    ensures var k := LeadingSpaces(s); var r := Strip(s);
      && k + |r| <= |s| && s[k..k + |r|] == r
      && AllSpace(s[..k]) && AllSpace(s[k + |r|..])
  {
    var k := LeadingSpaces(s);
    var a := s[k..];
    var r := RStrip(a);
    LeadingRunIsSpace(s);
    RStripRemovesOnlySpace(a);
    assert s[k + |r|..] == a[|r|..];
    assert s[k..k + |r|] == a[..|r|];
  }

  /** A string with no whitespace at either end is its own `strip`. */
  lemma StripTrimmed(t: string)
    requires Trimmed(t)
    ensures Strip(t) == t
  {
    if |t| > 0 {
      assert LeadingSpaces(t) == 0;
      assert TrailingSpaces(t) == 0;
      assert t[0..] == t;
    }
  }

  /** Stripping twice is the same as stripping once. */
  lemma StripIdempotent(s: string)
    ensures Strip(Strip(s)) == Strip(s)
  {
    StripTrimmed(Strip(s));
  }

  /** Whitespace put in front adds exactly its length to the leading-space count. */
  lemma {:induction false} LeadingSpacesPadded(p: string, s: string)
    requires AllSpace(p)
    ensures LeadingSpaces(p + s) == |p| + LeadingSpaces(s)
    decreases |p|
  {
    if |p| == 0 {
      assert p + s == s;
    } else {
      assert (p + s)[0] == p[0];
      assert (p + s)[1..] == p[1..] + s;
      LeadingSpacesPadded(p[1..], s);
    }
  }

  /** Whitespace put behind adds exactly its length to the trailing-space count. */
  lemma {:induction false} TrailingSpacesPadded(s: string, q: string)
    requires AllSpace(q)
    ensures TrailingSpaces(s + q) == |q| + TrailingSpaces(s)
    decreases |q|
  {
    if |q| == 0 {
      assert s + q == s;
    } else {
      assert (s + q)[|s + q| - 1] == q[|q| - 1];
      assert (s + q)[..|s + q| - 1] == s + q[..|q| - 1];
      TrailingSpacesPadded(s, q[..|q| - 1]);
    }
  }

  /** Extra whitespace around a string never changes what `strip` returns. */
  lemma StripIgnoresPadding(p: string, s: string, q: string)
    requires AllSpace(p) && AllSpace(q)
    ensures Strip(p + s + q) == Strip(s)
  {
    if LeadingSpaces(s) < |s| {
      StripPaddedAroundText(p, s, q);
    } else {
      LeadingRunIsSpace(s);
      assert s[..LeadingSpaces(s)] == s;
      AllSpaceConcat3(p, s, q);
      StripOfSpaces(p + s + q);
    }
  }

  /** Padding around a string with a non-space character. */
  lemma StripPaddedAroundText(p: string, s: string, q: string)
    requires AllSpace(p) && AllSpace(q)
    requires LeadingSpaces(s) < |s|
    ensures Strip(p + s + q) == Strip(s)
  {
    var x := p + s + q;
    var a := s[LeadingSpaces(s)..];
    LeftStripPadded(p, s, q);
    assert x[LeadingSpaces(x)..] == a + q;
    RStripPadded(a, q);
  }

  /** Left-stripping padded text leaves the left-stripped text and the right padding. */
  lemma LeftStripPadded(p: string, s: string, q: string)
    requires AllSpace(p)
    requires LeadingSpaces(s) < |s|
    ensures (p + s + q)[LeadingSpaces(p + s + q)..] == s[LeadingSpaces(s)..] + q
  {
    var n := LeadingSpaces(s);
    LeadingSpacesOfText(p, s, q);
    DropLead(p, s, q, n);
  }

  /** Trailing whitespace added to a string is removed by `rstrip` with the rest. */
  lemma RStripPadded(a: string, q: string)
    requires AllSpace(q)
    ensures RStrip(a + q) == RStrip(a)
  {
    TrailingSpacesPadded(a, q);
    DropTail(a, q, TrailingSpaces(a));
  }

  lemma DropLead(p: string, s: string, q: string, n: nat)
    requires n <= |s|
    ensures (p + s + q)[|p| + n..] == s[n..] + q
  {
  }

  lemma DropTail(a: string, q: string, t: nat)
    requires t <= |a|
    ensures (a + q)[..|a + q| - (|q| + t)] == a[..|a| - t]
  {
  }

  lemma LeadingSpacesOfText(p: string, s: string, q: string)
    requires AllSpace(p)
    requires LeadingSpaces(s) < |s|
    ensures LeadingSpaces(p + s + q) == |p| + LeadingSpaces(s)
  {
    var n := LeadingSpaces(s);
    assert p + s + q == p + (s + q);
    LeadingSpacesPadded(p, s + q);
    assert (s + q)[n] == s[n];
    LeadingRunIsSpace(s);
    assert (s + q)[..n] == s[..n];
    LeadingSpacesPrefix(s + q, n);
  }

  /** A run of `n` spaces followed by a non-space has leading-space count `n`. */
  lemma LeadingSpacesPrefix(s: string, n: nat)
    requires n < |s| && !IsSpace(s[n])
    requires AllSpace(s[..n])
    ensures LeadingSpaces(s) == n
  {
    assert s == s[..n] + s[n..];
    LeadingSpacesPadded(s[..n], s[n..]);
  }

  /** An all-whitespace string strips to nothing. */
  lemma StripOfSpaces(x: string)
    requires AllSpace(x)
    ensures Strip(x) == ""
  {
    LeadingSpacesPadded(x, "");
    assert x + "" == x;
  }

  lemma AllSpaceConcat3(p: string, s: string, q: string)
    requires AllSpace(p) && AllSpace(q) && AllSpace(s)
    ensures AllSpace(p + s + q)
  {
    var x := p + s + q;
    forall k | 0 <= k < |x| ensures IsSpace(x[k]) {
      if k < |p| { assert x[k] == p[k]; }
      else if k < |p| + |s| { assert x[k] == s[k - |p|]; }
      else { assert x[k] == q[k - |p| - |s|]; }
    }
  }
}
