/** The action's two input tokenisers, `processCapabilities` and
    `processParameters`: a space-separated input string becomes a list of
    capability tokens, or a list of key/value parameter records. */
module Inputs {
  import opened Wrappers
  import opened Strings

  /** The three `replace` calls both tokenisers start with: leading spaces
      removed, trailing spaces removed, every inner run of spaces shortened to
      one. */
  function Normalise(s: string): string {
    CollapseSpaces(TrimEndSpaces(TrimStartSpaces(s)))
  }

  /** `processCapabilities`: the empty input gives no tokens; any other input
      is normalised and split at single spaces. */
  function ProcessCapabilities(s: string): (r: seq<string>)
    ensures s == "" <==> r == []
  {
    if s == "" then [] else Split(Normalise(s), ' ')
  }

  /** One `{ParameterKey, ParameterValue}` record; the value is absent when
      the token's `split('=')` gave a single piece. */
  datatype Parameter = Parameter(key: string, value: Option<string>)

  /** `parameter.split('=')` destructured as `[ParameterKey, ParameterValue]`:
      pieces after the second are dropped. */
  function ToParameter(token: string): Parameter {
    var parts := Split(token, '=');
    Parameter(parts[0], if |parts| >= 2 then Some(parts[1]) else None)
  }

  /** `processParameters`: the tokens of `processCapabilities`, each read as a
      parameter record (the source repeats the same `replace`/`split` chain). */
  function ProcessParameters(s: string): seq<Parameter> {
    var tokens := ProcessCapabilities(s);
    seq(|tokens|, i requires 0 <= i < |tokens| => ToParameter(tokens[i]))
  }

  // ---------------------------------------------------------------------
  // Reference reading of a space-separated list

  /** `s` holds a character other than a space. */
  predicate HasNonSpace(s: string) {
    exists k :: 0 <= k < |s| && s[k] != ' '
  }

  /** The maximal runs of non-space characters of `s`, left to right. */
  function Words(s: string): (r: seq<string>)
    ensures |r| > 0 <==> HasNonSpace(s)
    ensures forall k :: 0 <= k < |r| ==> r[k] != "" && ' ' !in r[k]
    decreases |s|
  {
    if |s| == 0 then []
    else if s[0] == ' ' then
      assert HasNonSpace(s) ==> HasNonSpace(s[1..]) by {
        if HasNonSpace(s) { var k :| 0 <= k < |s| && s[k] != ' '; assert s[1..][k - 1] != ' '; }
      }
      Words(s[1..])
    else if |s| == 1 || s[1] == ' ' then [[s[0]]] + Words(s[1..])
    else
      assert s[1..][0] != ' ';
      var ws := Words(s[1..]);
      [[s[0]] + ws[0]] + ws[1..]
  }

  /** A normalised string: no leading or trailing space, no two spaces in a row. */
  predicate Canonical(t: string) {
    (|t| > 0 ==> t[0] != ' ' && t[|t| - 1] != ' ')
    && forall k :: 0 <= k < |t| - 1 ==> !(t[k] == ' ' && t[k + 1] == ' ')
  }

  lemma NormaliseIsCanonical(s: string)
    ensures Canonical(Normalise(s))
  {
    var a := TrimStartSpaces(s);
    var b := TrimEndSpaces(a);
    assert |b| > 0 ==> b[0] == a[0];
  }

  /** Joining with a character in front of the first word. */
  lemma JoinConsHead(c: char, ws: seq<string>)
    requires |ws| > 0
    ensures Join([[c] + ws[0]] + ws[1..], ' ') == [c] + Join(ws, ' ')
  {
    if |ws| > 1 {
      assert ([[c] + ws[0]] + ws[1..])[1..] == ws[1..];
    }
  }

  /** A suffix of a canonical string that starts with a non-space is
      canonical. */
  lemma CanonicalSuffix(t: string, n: nat)
    requires Canonical(t) && n < |t| && t[n] != ' '
    ensures Canonical(t[n..])
  {
    var u := t[n..];
    forall k | 0 <= k < |u| - 1 ensures !(u[k] == ' ' && u[k + 1] == ' ') {
      assert u[k] == t[k + n] && u[k + 1] == t[k + n + 1];
    }
  }

  /** A canonical string is its words joined by single spaces. */
  lemma {:induction false} CanonicalJoin(t: string)
    requires Canonical(t)
    ensures Join(Words(t), ' ') == t
    decreases |t|, 1
  {
    if |t| > 1 {
      if t[1] == ' ' {
        CanonicalJoinAtSpace(t);
      } else {
        CanonicalJoinInWord(t);
      }
    }
  }

  /** The first word is one character long: it, a space, and the rest. */
  lemma {:induction false} CanonicalJoinAtSpace(t: string)
    requires Canonical(t) && |t| > 1 && t[1] == ' '
    ensures Join(Words(t), ' ') == t
    decreases |t|, 0
  {
    var u := t[2..];
    assert |t| > 2 && u[0] == t[2] != ' ';
    CanonicalSuffix(t, 2);
    CanonicalJoin(u);
    assert t[1..][1..] == u;
    assert Words(t[1..]) == Words(u);
    assert HasNonSpace(u) by { assert u[0] != ' '; }
    var ws := Words(u);
    assert Words(t) == [[t[0]]] + ws;
    assert ([[t[0]]] + ws)[1..] == ws;
    assert t == [t[0]] + [' '] + u;
  }

  /** The first word goes on: its first character in front of the rest. */
  lemma {:induction false} CanonicalJoinInWord(t: string)
    requires Canonical(t) && |t| > 1 && t[1] != ' '
    ensures Join(Words(t), ' ') == t
    decreases |t|, 0
  {
    var u := t[1..];
    CanonicalSuffix(t, 1);
    CanonicalJoin(u);
    assert HasNonSpace(u) by { assert u[0] != ' '; }
    JoinConsHead(t[0], Words(u));
    assert t == [t[0]] + u;
  }

  lemma {:induction false} WordsTrimStart(s: string)
    ensures Words(TrimStartSpaces(s)) == Words(s)
    decreases |s|
  {
    if |s| > 0 && s[0] == ' ' {
      WordsTrimStart(s[1..]);
    }
  }

  /** A trailing space adds no word. */
  lemma {:induction false} WordsSpaceAfter(s: string)
    ensures Words(s + " ") == Words(s)
    decreases |s|
  {
    if |s| > 0 {
      assert (s + " ")[1..] == s[1..] + " ";
      WordsSpaceAfter(s[1..]);
    } else {
      assert (s + " ")[1..] == "";
    }
  }

  lemma {:induction false} WordsTrimEnd(s: string)
    ensures Words(TrimEndSpaces(s)) == Words(s)
    decreases |s|
  {
    if |s| > 0 && s[|s| - 1] == ' ' {
      var p := s[..|s| - 1];
      WordsTrimEnd(p);
      WordsSpaceAfter(p);
      assert s == p + " ";
    }
  }

  lemma {:induction false} WordsCollapse(s: string)
    ensures Words(CollapseSpaces(s)) == Words(s)
    decreases |s|
  {
    if |s| > 1 {
      WordsCollapse(s[1..]);
      if !(s[0] == ' ' && s[1] == ' ') {
        var c := CollapseSpaces(s[1..]);
        assert ([s[0]] + c)[1..] == c;
      }
    }
  }

  lemma WordsNormalise(s: string)
    ensures Words(Normalise(s)) == Words(s)
  {
    WordsTrimStart(s);
    WordsTrimEnd(TrimStartSpaces(s));
    WordsCollapse(TrimEndSpaces(TrimStartSpaces(s)));
  }

  // ---------------------------------------------------------------------
  // Properties of the tokenisers

  /** An input with a non-space character gives exactly its words: no token
      is empty or holds a space. */
  lemma CapabilitiesAreWords(s: string)
    requires HasNonSpace(s)
    ensures ProcessCapabilities(s) == Words(s)
    ensures forall k :: 0 <= k < |ProcessCapabilities(s)| ==>
      ProcessCapabilities(s)[k] != "" && ' ' !in ProcessCapabilities(s)[k]
  {
    NormaliseIsCanonical(s);
    CanonicalJoin(Normalise(s));
    WordsNormalise(s);
    SplitJoin(Words(s), ' ');
  }

  lemma {:induction false} BlankTrimsAway(s: string)
    requires !HasNonSpace(s)
    ensures TrimStartSpaces(s) == ""
    decreases |s|
  {
    if |s| > 0 {
      assert s[0] == ' ';
      assert !HasNonSpace(s[1..]) by {
        forall k | 0 <= k < |s[1..]| ensures s[1..][k] == ' ' { assert s[1..][k] == s[k + 1]; }
      }
      BlankTrimsAway(s[1..]);
    }
  }

  /** A non-empty input made only of spaces gives the single empty token. */
  lemma CapabilitiesOfBlank(s: string)
    requires s != "" && !HasNonSpace(s)
    ensures ProcessCapabilities(s) == [""]
  {
    BlankTrimsAway(s);
  }

  /** The tokens of an input, joined by single spaces, are the input with
      its outer spaces stripped and its inner runs of spaces collapsed; the
      empty input, which the source handles on its own, gives no tokens and
      joins to the empty string. */
  lemma CapabilitiesRejoin(s: string)
    ensures Join(ProcessCapabilities(s), ' ') == Normalise(s)
    ensures Canonical(Normalise(s))
  {
    JoinSplit(Normalise(s), ' ');
    NormaliseIsCanonical(s);
  }

  /** What `split('=')` and the destructuring make of one token: the key is
      the text before the first `=`; the value is absent when there is no
      `=`, and otherwise the text between the first `=` and the next one (or
      the end). */
  lemma ParameterOfToken(token: string)
    ensures var p := ToParameter(token);
      && p.key <= token && '=' !in p.key
      && (p.value.None? <==> '=' !in token)
      && (p.value.None? ==> p.key == token)
      && (p.value.Some? ==>
            && p.key + "=" + p.value.value <= token
            && '=' !in p.value.value
            && var n := |p.key| + 1 + |p.value.value|;
               n == |token| || token[n] == '=')
  {
    if '=' in token {
      var i := IndexOf(token, '=');
      var rest := token[i + 1..];
      assert ToParameter(token).key == token[..i] by {
        assert Split(token, '=') == [token[..i]] + Split(rest, '=');
      }
      assert ToParameter(token).value == Some(Split(rest, '=')[0]) by {
        assert Split(token, '=') == [token[..i]] + Split(rest, '=');
      }
      ValueOfRest(token, i, rest);
    }
  }

  /** The value is the first `=`-free piece of what follows the first `=`. */
  lemma ValueOfRest(token: string, i: nat, rest: string)
    requires i < |token| && token[i] == '=' && rest == token[i + 1..]
    ensures var v := Split(rest, '=')[0];
      && token[..i] + "=" + v <= token
      && (i + 1 + |v| == |token| || token[i + 1 + |v|] == '=')
  {
    var v := Split(rest, '=')[0];
    if '=' in rest {
      var j := IndexOf(rest, '=');
      assert v == rest[..j];
      assert token[i + 1 + j] == rest[j];
      assert token[..i] + "=" + rest[..j] == token[..i + 1 + j];
    } else {
      assert v == rest;
      assert token[..i] + "=" + rest == token;
    }
  }

  /** `processParameters` gives one record per token, in input order, each
      read from its own token. */
  lemma ParametersFollowTokens(s: string)
    ensures |ProcessParameters(s)| == |ProcessCapabilities(s)|
    ensures forall k :: 0 <= k < |ProcessParameters(s)| ==>
      var p := ProcessParameters(s)[k];
      var token := ProcessCapabilities(s)[k];
      && p == ToParameter(token)
      && p.key <= token && '=' !in p.key
      && (p.value.None? <==> '=' !in token)
      && (p.value.None? ==> p.key == token)
      && (p.value.Some? ==>
            && p.key + "=" + p.value.value <= token
            && '=' !in p.value.value
            && var n := |p.key| + 1 + |p.value.value|;
               n == |token| || token[n] == '=')
  {
    var tokens := ProcessCapabilities(s);
    forall k | 0 <= k < |tokens| {
      ParameterOfToken(tokens[k]);
    }
  }

  /** An input without spaces is a single token. */
  lemma {:induction false} CollapseWithoutSpaces(s: string)
    requires ' ' !in s
    ensures CollapseSpaces(s) == s
    decreases |s|
  {
    if |s| > 1 {
      assert s[0] in s;
      assert ' ' !in s[1..] by { forall k | 0 <= k < |s[1..]| ensures s[1..][k] != ' ' { assert s[1..][k] == s[k + 1]; } }
      CollapseWithoutSpaces(s[1..]);
      assert s == [s[0]] + s[1..];
    }
  }

  lemma SingleToken(s: string)
    requires s != "" && ' ' !in s
    ensures ProcessCapabilities(s) == [s]
  {
    assert s[0] in s && s[|s| - 1] in s;
    CollapseWithoutSpaces(s);
  }

  lemma TwoEqualsParameter(a: string, b: string, c: string)
    requires '=' !in a && '=' !in b
    ensures ToParameter(a + "=" + b + "=" + c) == Parameter(a, Some(b))
  {
    var token := a + "=" + b + "=" + c;
    assert token == a + ['='] + (b + ['='] + c);
    SplitAtFirst(a, '=', b + ['='] + c);
    SplitAtFirst(b, '=', c);
  }

  /** A value after a second `=` is dropped: a single token `a=b=c`
      gives the key `a` and the value `b`. */
  lemma SecondEqualsDropped(a: string, b: string, c: string)
    requires '=' !in a && '=' !in b
    requires ' ' !in a + "=" + b + "=" + c
    ensures ProcessParameters(a + "=" + b + "=" + c) == [Parameter(a, Some(b))]
  {
    TwoEqualsParameter(a, b, c);
    SingleToken(a + "=" + b + "=" + c);
  }

  lemma ExampleSecondEquals(token: string)
    requires token == "a=b=c"
    ensures ProcessParameters(token) == [Parameter("a", Some("b"))]
  {
    var a, b, c := token[..1], token[2..3], token[4..];
    assert token == a + "=" + b + "=" + c;
    assert a == [token[0]] && b == [token[2]];
    assert token[0] == 'a' && token[2] == 'b';
    SecondEqualsDropped(a, b, c);
  }

  /** A token without `=` has no value. */
  lemma ExampleNoEquals(token: string)
    requires token == "Stage"
    ensures ProcessParameters(token) == [Parameter("Stage", None)]
  {
    assert ' ' !in token && '=' !in token;
    SingleToken(token);
    assert Split(token, '=') == [token];
  }

  /** Only spaces: one empty token. */
  lemma ExampleBlank()
    ensures ProcessCapabilities("   ") == [""]
    ensures ProcessParameters("   ") == [Parameter("", None)]
  {
    CapabilitiesOfBlank("   ");
  }
}
