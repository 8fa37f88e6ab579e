/** Splitting a string as repeated strtok_r calls with one separator do. */
module Strtok {
  import opened Common

  /** The length of the run of characters before the first separator. */
  function Span(s: string, sep: char): (n: nat)
    ensures n <= |s|
    ensures sep !in s[..n]
    ensures n < |s| ==> s[n] == sep
  {
    if s == "" || s[0] == sep then 0 else
      assert s[..1 + Span(s[1..], sep)] == [s[0]] + s[1..][..Span(s[1..], sep)];
      1 + Span(s[1..], sep)
  }

  /** The non-empty runs between separators. */
  function Tokens(s: string, sep: char): seq<string>
    decreases |s|
  {
    if s == "" then []
    else if s[0] == sep then Tokens(s[1..], sep)
    else [s[..Span(s, sep)]] + Tokens(s[Span(s, sep)..], sep)
  }

  predicate IsToken(t: string, sep: char) {
    t != "" && sep !in t
  }

  /** The characters that are not separators. */
  function Strip(s: string, sep: char): string {
    if s == "" then "" else if s[0] == sep then Strip(s[1..], sep) else [s[0]] + Strip(s[1..], sep)
  }

  function Concat(ts: seq<string>): string {
    if ts == [] then "" else ts[0] + Concat(ts[1..])
  }

  function Join(ts: seq<string>, sep: char): string {
    if ts == [] then "" else if |ts| == 1 then ts[0] else ts[0] + [sep] + Join(ts[1..], sep)
  }

  lemma {:induction false} TokensAreTokens(s: string, sep: char)
    ensures forall i :: 0 <= i < |Tokens(s, sep)| ==> IsToken(Tokens(s, sep)[i], sep)
    decreases |s|
  {
    if s == "" {
    } else {
      if s[0] == sep {
        TokensAreTokens(s[1..], sep);
      } else {
        TokensAreTokens(s[Span(s, sep)..], sep);
      }
    }
  }

  lemma {:induction false} StripRun(s: string, n: nat, sep: char)
    requires n <= |s| && sep !in s[..n]
    ensures Strip(s, sep) == s[..n] + Strip(s[n..], sep)
    decreases n
  {
    if n > 0 {
      assert s[0] in s[..n];
      assert s[1..][..n - 1] == s[1..n] && s[1..][n - 1..] == s[n..];
      assert forall c :: c in s[1..n] ==> c in s[..n];
      StripRun(s[1..], n - 1, sep);
      assert s[..n] == [s[0]] + s[1..n];
    } else {
      assert s[0..] == s;
    }
  }

  /** Only separators are lost: the tokens put together are the string without them. */
  lemma {:induction false} TokensKeepCharacters(s: string, sep: char)
    ensures Concat(Tokens(s, sep)) == Strip(s, sep)
    decreases |s|
  {
    if s == "" {
    } else {
      if s[0] == sep {
        TokensKeepCharacters(s[1..], sep);
      } else {
        TokensKeepCharacters(s[Span(s, sep)..], sep);
        StripRun(s, Span(s, sep), sep);
        assert Tokens(s, sep)[1..] == Tokens(s[Span(s, sep)..], sep);
      }
    }
  }

  lemma {:induction false} SpanIs(t: string, rest: string, sep: char)
    requires sep !in t && (rest == "" || rest[0] == sep)
    ensures Span(t + rest, sep) == |t|
    decreases |t|
  {
    if t == "" {
      assert t + rest == rest;
    } else {
      assert t[0] in t;
      assert (t + rest)[1..] == t[1..] + rest;
      SpanIs(t[1..], rest, sep);
    }
  }

  lemma TokensOfRun(t: string, rest: string, sep: char)
    requires IsToken(t, sep) && (rest == "" || rest[0] == sep)
    ensures Tokens(t + rest, sep) == [t] + Tokens(rest, sep)
  {
    SpanIs(t, rest, sep);
    assert t[0] in t;
    assert (t + rest)[..|t|] == t && (t + rest)[|t|..] == rest;
  }

  lemma TokensSkip(s: string, sep: char)
    ensures Tokens([sep] + s, sep) == Tokens(s, sep)
  {
    assert ([sep] + s)[1..] == s;
  }

  /** Splitting undoes joining, for any list of tokens. */
  lemma {:induction false} TokensOfJoin(ts: seq<string>, sep: char)
    requires forall i :: 0 <= i < |ts| ==> IsToken(ts[i], sep)
    ensures Tokens(Join(ts, sep), sep) == ts
    decreases |ts|
  {
    if |ts| == 1 {
      TokenAlone(ts[0], sep);
    } else if |ts| > 1 {
      TokensOfJoin(ts[1..], sep);
      var rest := [sep] + Join(ts[1..], sep);
      assert Join(ts, sep) == ts[0] + rest;
      TokensOfRun(ts[0], rest, sep);
      TokensSkip(Join(ts[1..], sep), sep);
    }
  }

  lemma TokenAlone(t: string, sep: char)
    requires IsToken(t, sep)
    ensures Tokens(t, sep) == [t]
  {
    assert t + "" == t;
    TokensOfRun(t, "", sep);
  }

  lemma {:induction false} TokensWithout(s: string, sep: char)
    requires sep !in s
    ensures Tokens(s, sep) == if s == "" then [] else [s]
  {
    if s == "" {
    } else {
      TokenAlone(s, sep);
    }
  }

  /** What one call leaves of the buffer it cuts: everything up to the end of the first token. */
  function Cut(s: string, sep: char): string
    decreases |s|
  {
    if s == "" then ""
    else if s[0] == sep then [sep] + Cut(s[1..], sep)
    else s[..Span(s, sep)]
  }

  lemma CutWithout(s: string, sep: char)
    requires sep !in s
    ensures Cut(s, sep) == s
  {
    if s == "" {
    } else {
      assert s[0] in s;
      assert s + "" == s;
      SpanIs(s, "", sep);
    }
  }

  /** The cut keeps the first token and drops the rest. */
  lemma {:induction false} CutTokens(s: string, sep: char)
    ensures Cut(s, sep) <= s
    ensures Tokens(Cut(s, sep), sep) == if Tokens(s, sep) == [] then [] else [Tokens(s, sep)[0]]
    decreases |s|
  {
    if s == "" {
    } else if s[0] == sep {
      CutTokens(s[1..], sep);
      TokensSkip(Cut(s[1..], sep), sep);
      assert s == [sep] + s[1..];
    } else {
      assert s[0] in s[..Span(s, sep)];
      TokenAlone(s[..Span(s, sep)], sep);
    }
  }

  lemma {:induction false} CutTwice(s: string, sep: char)
    ensures Cut(Cut(s, sep), sep) == Cut(s, sep)
    decreases |s|
  {
    if s == "" {
    } else if s[0] == sep {
      CutTwice(s[1..], sep);
      assert ([sep] + Cut(s[1..], sep))[1..] == Cut(s[1..], sep);
    } else {
      CutWithout(s[..Span(s, sep)], sep);
    }
  }

  lemma {:induction false} CutAt(lead: nat, s: string, at: nat, sep: char)
    requires lead < at <= |s| && (forall i :: 0 <= i < lead ==> s[i] == sep)
    requires sep !in s[lead..at] && (at < |s| ==> s[at] == sep)
    ensures Cut(s, sep) == s[..at]
    decreases lead
  {
    if lead == 0 {
      assert s[0] == s[0..at][0];
      assert s == s[..at] + s[at..];
      SpanIs(s[..at], s[at..], sep);
    } else {
      assert s[1..][lead - 1..at - 1] == s[lead..at];
      CutAt(lead - 1, s[1..], at - 1, sep);
      assert s[..at] == [sep] + s[1..][..at - 1];
    }
  }

  lemma {:induction false} CutOfSeparators(s: string, sep: char)
    requires forall i :: 0 <= i < |s| ==> s[i] == sep
    ensures Cut(s, sep) == s
    decreases |s|
  {
    if s == "" {
    } else {
      CutOfSeparators(s[1..], sep);
    }
  }

  method SkipSeparators(s: string, from: nat, sep: char) returns (at: nat)
    requires from <= |s|
    ensures from <= at <= |s| && Tokens(s[at..], sep) == Tokens(s[from..], sep)
    ensures at < |s| ==> s[at] != sep
    ensures forall i :: from <= i < at ==> s[i] == sep
  {
    at := from;
    while at < |s| && s[at] == sep
      invariant from <= at <= |s| && Tokens(s[at..], sep) == Tokens(s[from..], sep)
      invariant forall i :: from <= i < at ==> s[i] == sep
    {
      assert s[at..] == [sep] + s[at + 1..];
      TokensSkip(s[at + 1..], sep);
      at := at + 1;
    }
  }

  method TakeRun(s: string, begin: nat, sep: char) returns (at: nat)
    requires begin < |s| && s[begin] != sep
    ensures begin < at <= |s| && sep !in s[begin..at] && (at < |s| ==> s[at] == sep)
  {
    at := begin + 1;
    while at < |s| && s[at] != sep
      invariant begin < at <= |s| && sep !in s[begin..at]
    {
      at := at + 1;
    }
  }

  /** One call of strtok_r: skips separators, then takes a run. */
  method NextToken(s: string, from: nat, sep: char) returns (token: Option<string>, at: nat)
    requires from <= |s|
    ensures from <= at <= |s|
    ensures token.None? ==> Tokens(s[from..], sep) == []
    ensures token.Some? ==> from < at && Tokens(s[from..], sep) == [token.value] + Tokens(s[at..], sep)
  {
    var begin := SkipSeparators(s, from, sep);
    if begin == |s| {
      return None, begin;
    }
    at := TakeRun(s, begin, sep);
    assert s[begin..] == s[begin..at] + s[at..];
    TokensOfRun(s[begin..at], s[at..], sep);
    token := Some(s[begin..at]);
  }

  /** The first call on a buffer: also what it leaves of it. */
  method FirstToken(s: string, sep: char) returns (token: Option<string>, at: nat, left: string)
    ensures at <= |s| && left == Cut(s, sep)
    ensures token.None? ==> Tokens(s, sep) == []
    ensures token.Some? ==> 0 < at && Tokens(s, sep) == [token.value] + Tokens(s[at..], sep)
  {
    var begin := SkipSeparators(s, 0, sep);
    assert s[0..] == s;
    if begin == |s| {
      CutOfSeparators(s, sep);
      return None, begin, s;
    }
    at := TakeRun(s, begin, sep);
    assert s[begin..] == s[begin..at] + s[at..];
    TokensOfRun(s[begin..at], s[at..], sep);
    CutAt(begin, s, at, sep);
    token, left := Some(s[begin..at]), s[..at];
  }
}
