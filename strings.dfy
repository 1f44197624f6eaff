/** The JavaScript string operations the action uses, on strings as sequences
    of characters: `split` and `indexOf`, the three space-rewriting `replace`
    calls of the input tokenisers, and the two status regular expressions. */
module Strings {

  /** The characters JavaScript counts as line terminators: a `.` in a
      regular expression matches any character but these. */
  predicate IsLineTerminator(c: char) {
    c == '\n' || c == '\r' || c == '\U{2028}' || c == '\U{2029}'
  }

  /** `s` holds no line terminator. */
  predicate SingleLine(s: string) {
    forall k :: 0 <= k < |s| ==> !IsLineTerminator(s[k])
  }

  /** The text of `s` up to its first line terminator. */
  function FirstLine(s: string): (r: string)
    ensures r <= s
    ensures SingleLine(r)
    ensures |r| < |s| ==> IsLineTerminator(s[|r|])
    decreases |s|
  {
    if |s| == 0 || IsLineTerminator(s[0]) then "" else [s[0]] + FirstLine(s[1..])
  }

  lemma {:induction false} FirstLineOfSingleLine(s: string)
    requires SingleLine(s)
    ensures FirstLine(s) == s
    decreases |s|
  {
    if |s| > 0 {
      assert !IsLineTerminator(s[0]);
      assert SingleLine(s[1..]) by {
        forall k | 0 <= k < |s[1..]| ensures !IsLineTerminator(s[1..][k]) { assert s[1..][k] == s[k + 1]; }
      }
      assert s == [s[0]] + s[1..];
      FirstLineOfSingleLine(s[1..]);
    }
  }

  /** `s.indexOf(t) !== -1`: `t` occurs in `s` as a contiguous block. */
  predicate Contains(s: string, t: string)
    decreases |s|
  {
    t <= s || (|s| > 0 && Contains(s[1..], t))
  }

  /** A block of a string is a block of every string around it. */
  lemma {:induction false} ContainsInside(a: string, t: string, b: string)
    ensures Contains(a + t + b, t)
    decreases |a|
  {
    if a == [] {
      assert a + t + b == t + b;
    } else {
      assert (a + t + b)[1..] == a[1..] + t + b;
      ContainsInside(a[1..], t, b);
    }
  }

  /** Conversely, a string that contains `t` is made of some text, `t`,
      and some more text. */
  lemma {:induction false} ContainsIsBlock(s: string, t: string)
    requires Contains(s, t)
    ensures exists a, b :: s == a + t + b
    decreases |s|
  {
    if t <= s {
      assert s == [] + t + s[|t|..];
    } else {
      ContainsIsBlock(s[1..], t);
      var a, b :| s[1..] == a + t + b;
      assert s == [s[0]] + a + t + b;
    }
  }

  /** `indexOf` finds `t` in `s` exactly when `s` is built around `t`. */
  lemma ContainsExactly(s: string, t: string)
    ensures Contains(s, t) <==> exists a, b :: s == a + t + b
  {
    if Contains(s, t) {
      ContainsIsBlock(s, t);
    }
    if exists a, b :: s == a + t + b {
      var a, b :| s == a + t + b;
      ContainsInside(a, t, b);
    }
  }

  /** A string that holds a block holds every character of that block. */
  lemma {:induction false} CharOfContained(s: string, t: string, c: char)
    requires Contains(s, t) && c in t
    ensures c in s
    decreases |s|
  {
    if t <= s {
      var i :| 0 <= i < |t| && t[i] == c;
      assert s[i] == c;
    } else {
      CharOfContained(s[1..], t, c);
      var i :| 0 <= i < |s[1..]| && s[1..][i] == c;
      assert s[i + 1] == c;
    }
  }

  /** `s` ends with `t`. */
  predicate EndsWith(s: string, t: string) {
    |t| <= |s| && s[|s| - |t|..] == t
  }

  /** The position of the first `c` in `s`, as `s.indexOf(c)` gives it. */
  function IndexOf(s: string, c: char): (i: nat)
    requires c in s
    ensures i < |s| && s[i] == c && c !in s[..i]
    ensures forall k :: 0 <= k < i ==> s[k] != c
    decreases |s|
  {
    if s[0] == c then 0
    else
      assert c in s[1..] by { var k :| 0 <= k < |s| && s[k] == c; assert s[1..][k - 1] == c; }
      var j := IndexOf(s[1..], c);
      assert s[..j + 1] == [s[0]] + s[1..][..j];
      j + 1
  }

  /** The first `c` of a string that is `a`, then `c`, then anything, is the
      one right after `a`, when `a` holds no `c`. */
  lemma IndexOfAfter(a: string, c: char, b: string)
    requires c !in a
    ensures IndexOf(a + [c] + b, c) == |a|
  {
    var s := a + [c] + b;
    assert s[|a|] == c;
    assert forall k :: 0 <= k < |a| ==> s[k] == a[k] != c;
  }

  /** `s.split(sep)` for a one-character separator: the pieces of `s` between
      occurrences of `sep`, always at least one. */
  function Split(s: string, sep: char): (r: seq<string>)
    ensures |r| >= 1
    ensures forall k :: 0 <= k < |r| ==> sep !in r[k]
    decreases |s|
  {
    if sep !in s then [s]
    else
      var i := IndexOf(s, sep);
      [s[..i]] + Split(s[i + 1..], sep)
  }

  /** Splitting at the first separator: the piece before it, then the
      pieces of the rest. */
  lemma SplitAtFirst(a: string, sep: char, b: string)
    requires sep !in a
    ensures Split(a + [sep] + b, sep) == [a] + Split(b, sep)
  {
    var s := a + [sep] + b;
    assert s[|a|] == sep;
    IndexOfAfter(a, sep, b);
    assert s[..|a|] == a && s[|a| + 1..] == b;
  }

  /** `ts.join(sep)`. */
  function Join(ts: seq<string>, sep: char): string
    decreases |ts|
  {
    if |ts| == 0 then "" else if |ts| == 1 then ts[0] else ts[0] + [sep] + Join(ts[1..], sep)
  }

  /** Joining the pieces of a split gives back the string. */
  lemma {:induction false} JoinSplit(s: string, sep: char)
    ensures Join(Split(s, sep), sep) == s
    decreases |s|
  {
    if sep in s {
      var i := IndexOf(s, sep);
      var rest := Split(s[i + 1..], sep);
      JoinSplit(s[i + 1..], sep);
      assert ([s[..i]] + rest)[1..] == rest;
      assert s == s[..i] + [sep] + s[i + 1..];
    }
  }

  /** Splitting a join of separator-free pieces gives back the pieces. */
  lemma {:induction false} SplitJoin(ts: seq<string>, sep: char)
    requires |ts| >= 1
    requires forall k :: 0 <= k < |ts| ==> sep !in ts[k]
    ensures Split(Join(ts, sep), sep) == ts
    decreases |ts|
  {
    if |ts| > 1 {
      var rest := Join(ts[1..], sep);
      var s := ts[0] + [sep] + rest;
      assert Join(ts, sep) == s;
      IndexOfAfter(ts[0], sep, rest);
      assert s[|ts[0]|] == sep;
      assert s[..|ts[0]|] == ts[0];
      assert s[|ts[0]| + 1..] == rest;
      assert Split(s, sep) == [ts[0]] + Split(rest, sep);
      SplitJoin(ts[1..], sep);
      assert ts == [ts[0]] + ts[1..];
    }
  }

  /** `s.replace(/^\ +/, '')`: `s` without its leading spaces. */
  function TrimStartSpaces(s: string): (r: string)
    ensures |r| <= |s| && r == s[|s| - |r|..]
    ensures forall k :: 0 <= k < |s| - |r| ==> s[k] == ' '
    ensures r == "" || r[0] != ' '
    decreases |s|
  {
    if |s| > 0 && s[0] == ' ' then TrimStartSpaces(s[1..]) else s
  }

  /** `s.replace(/\ +$/, '')`: `s` without its trailing spaces. */
  function TrimEndSpaces(s: string): (r: string)
    ensures |r| <= |s| && r == s[..|r|]
    ensures forall k :: |r| <= k < |s| ==> s[k] == ' '
    ensures r == "" || r[|r| - 1] != ' '
    decreases |s|
  {
    if |s| > 0 && s[|s| - 1] == ' ' then TrimEndSpaces(s[..|s| - 1]) else s
  }

  /** `s.replace(/\ +/g, ' ')`: every run of spaces in `s` shortened to one. */
  function CollapseSpaces(s: string): (r: string)
    ensures |r| <= |s|
    ensures |s| > 0 ==> |r| > 0 && r[0] == s[0] && r[|r| - 1] == s[|s| - 1]
    ensures forall k :: 0 <= k < |r| - 1 ==> !(r[k] == ' ' && r[k + 1] == ' ')
    decreases |s|
  {
    if |s| <= 1 then s
    else if s[0] == ' ' && s[1] == ' ' then CollapseSpaces(s[1..])
    else [s[0]] + CollapseSpaces(s[1..])
  }
}
