/**
  The string operations the feed loop applies to element text: Python's
  argument-less `str.strip()` and `str.split()`, both of which treat every
  character for which `str.isspace()` holds as whitespace.
 */
module Text {

  /** Python's `str.isspace()` on one character (the whitespace that
      `strip()` and `split()` without arguments remove). */
  predicate IsSpace(c: char) {
    || c == ' '
    || ('\t' <= c <= '\r')                    // \t \n \v \f \r
    || ('\U{1C}' <= c <= '\U{1F}')            // file, group, record, unit separators
    || c == '\U{85}' || c == '\U{A0}' || c == '\U{1680}'
    || ('\U{2000}' <= c <= '\U{200A}')
    || c == '\U{2028}' || c == '\U{2029}' || c == '\U{202F}'
    || c == '\U{205F}' || c == '\U{3000}'
  }

  predicate AllSpace(s: string) {
    forall i | 0 <= i < |s| :: IsSpace(s[i])
  }

  predicate NoSpace(s: string) {
    forall i | 0 <= i < |s| :: !IsSpace(s[i])
  }

  /** True when `s.split()` is non-empty, i.e. `s.split()[0]` does not raise. */
  predicate HasToken(s: string) {
    !AllSpace(s)
  }

  /** Drops leading whitespace (Python `lstrip()`). */
  function TrimLeft(s: string): (r: string)
    ensures |r| <= |s|
    ensures r == [] || !IsSpace(r[0])
    ensures r == [] <==> AllSpace(s)
  {
    if |s| > 0 && IsSpace(s[0]) then TrimLeft(s[1..]) else s
  }

  /** Drops trailing whitespace (Python `rstrip()`). */
  function TrimRight(s: string): (r: string)
    ensures |r| <= |s|
    ensures r == [] || !IsSpace(r[|r| - 1])
    ensures r == [] || r[0] == s[0]
    ensures r == [] <==> AllSpace(s)
  {
    if |s| > 0 && IsSpace(s[|s| - 1]) then TrimRight(s[..|s| - 1]) else s
  }

  /** Python `str.strip()`: the text with whitespace removed at both ends. */
  function Strip(s: string): (r: string)
    ensures |r| <= |s|
    ensures r == [] <==> AllSpace(s)
    ensures r == [] || (!IsSpace(r[0]) && !IsSpace(r[|r| - 1]))
  {
    TrimRight(TrimLeft(s))
  }

  /** The longest whitespace-free prefix of `s`. */
  function TakeToken(s: string): (r: string)
    ensures |r| <= |s|
    ensures NoSpace(r)
    ensures |s| > 0 && !IsSpace(s[0]) ==> |r| > 0
  {
    if |s| == 0 || IsSpace(s[0]) then [] else [s[0]] + TakeToken(s[1..])
  }

  /** Python `s.split()[0]`, defined exactly when that expression does not raise. */
  function FirstToken(s: string): (r: string)
    requires HasToken(s)
    ensures |r| > 0 && NoSpace(r)
  {
    TakeToken(TrimLeft(s))
  }

  /** Python `str.split()` with no separator: the maximal whitespace-free runs, in order. */
  function Words(s: string): (ws: seq<string>)
    decreases |s|
  {
    var t := TrimLeft(s);
    if t == [] then []
    else
      var w := TakeToken(t);
      [w] + Words(t[|w|..])
  }

  lemma {:induction false} TrimLeftSplit(s: string) returns (lead: string)
    ensures s == lead + TrimLeft(s) && AllSpace(lead)
    decreases |s|
  {
    if |s| > 0 && IsSpace(s[0]) {
      var l := TrimLeftSplit(s[1..]);
      lead := [s[0]] + l;
      assert s == [s[0]] + s[1..];
      assert forall i | 1 <= i < |lead| :: lead[i] == l[i - 1];
    } else {
      lead := [];
    }
  }

  lemma {:induction false} TrimRightSplit(s: string) returns (trail: string)
    ensures s == TrimRight(s) + trail && AllSpace(trail)
    decreases |s|
  {
    if |s| > 0 && IsSpace(s[|s| - 1]) {
      var n := |s| - 1;
      var t := TrimRightSplit(s[..n]);
      trail := t + [s[n]];
      assert s == s[..n] + [s[n]];
    } else {
      trail := [];
    }
  }

  lemma {:induction false} TakeTokenSplit(s: string) returns (rest: string)
    ensures s == TakeToken(s) + rest
    ensures rest == [] || IsSpace(rest[0])
    decreases |s|
  {
    if |s| == 0 || IsSpace(s[0]) {
      rest := s;
    } else {
      rest := TakeTokenSplit(s[1..]);
      assert s == [s[0]] + s[1..];
    }
  }

  /** `strip()` removes only whitespace, and only at the two ends:
      `s` is some whitespace, then `Strip(s)`, then some whitespace. */
  lemma StripSplit(s: string) returns (lead: string, trail: string)
    ensures s == lead + Strip(s) + trail
    ensures AllSpace(lead) && AllSpace(trail)
  {
    lead := TrimLeftSplit(s);
    trail := TrimRightSplit(TrimLeft(s));
  }

  /** `split()[0]` is preceded only by whitespace and ends where the text
      ends or whitespace starts. */
  lemma FirstTokenSplit(s: string) returns (lead: string, rest: string)
    requires HasToken(s)
    ensures s == lead + FirstToken(s) + rest
    ensures AllSpace(lead)
    ensures rest == [] || IsSpace(rest[0])
  {
    lead := TrimLeftSplit(s);
    rest := TakeTokenSplit(TrimLeft(s));
  }

  lemma {:induction false} TrimLeftOfSpaces(lead: string, rest: string)
    requires AllSpace(lead)
    requires rest == [] || !IsSpace(rest[0])
    ensures TrimLeft(lead + rest) == rest
    decreases |lead|
  {
    if lead != [] {
      assert (lead + rest)[1..] == lead[1..] + rest;
      TrimLeftOfSpaces(lead[1..], rest);
    } else {
      assert lead + rest == rest;
    }
  }

  lemma {:induction false} TrimRightOfSpaces(core: string, trail: string)
    requires AllSpace(trail)
    requires core == [] || !IsSpace(core[|core| - 1])
    ensures TrimRight(core + trail) == core
    decreases |trail|
  {
    if trail != [] {
      var n := |trail| - 1;
      assert (core + trail)[..|core + trail| - 1] == core + trail[..n];
      TrimRightOfSpaces(core, trail[..n]);
    } else {
      assert core + trail == core;
    }
  }

  lemma {:induction false} TakeTokenOf(tok: string, rest: string)
    requires NoSpace(tok)
    requires rest == [] || IsSpace(rest[0])
    ensures TakeToken(tok + rest) == tok
    decreases |tok|
  {
    if tok != [] {
      assert (tok + rest)[1..] == tok[1..] + rest;
      TakeTokenOf(tok[1..], rest);
    } else {
      assert tok + rest == rest;
    }
  }

  /** `strip()` returns exactly the part between leading and trailing whitespace:
      any split of `s` into whitespace, a core that neither starts nor ends in
      whitespace, and whitespace determines the result. */
  lemma StripCharacterization(lead: string, core: string, trail: string)
    requires AllSpace(lead) && AllSpace(trail)
    requires core == [] || (!IsSpace(core[0]) && !IsSpace(core[|core| - 1]))
    ensures Strip(lead + core + trail) == core
  {
    if core == [] {
      assert lead + core + trail == lead + trail;
      assert AllSpace(lead + trail) by {
        forall i | 0 <= i < |lead + trail| ensures IsSpace((lead + trail)[i]) {
          if i >= |lead| { assert (lead + trail)[i] == trail[i - |lead|]; }
        }
      }
    } else {
      assert lead + core + trail == lead + (core + trail);
      TrimLeftOfSpaces(lead, core + trail);
      TrimRightOfSpaces(core, trail);
    }
  }

  /** Stripping twice is the same as stripping once. */
  lemma StripIdempotent(s: string)
    ensures Strip(Strip(s)) == Strip(s)
  {
    var r := Strip(s);
    assert [] + r + [] == r;
    StripCharacterization([], r, []);
  }

  /** `split()[0]` is the first whitespace-free run after leading whitespace:
      any such split of `s` determines it. */
  lemma FirstTokenCharacterization(lead: string, tok: string, rest: string)
    requires AllSpace(lead) && |tok| > 0 && NoSpace(tok)
    requires rest == [] || IsSpace(rest[0])
    ensures HasToken(lead + tok + rest)
    ensures FirstToken(lead + tok + rest) == tok
  {
    var s := lead + tok + rest;
    assert s[|lead|] == tok[0];
    assert s == lead + (tok + rest);
    TrimLeftOfSpaces(lead, tok + rest);
    TakeTokenOf(tok, rest);
  }

  /** Every word of `split()` is non-empty and whitespace-free. */
  lemma {:induction false} WordsAreTokens(s: string)
    ensures forall k | 0 <= k < |Words(s)| :: |Words(s)[k]| > 0 && NoSpace(Words(s)[k])
    decreases |s|
  {
    var t := TrimLeft(s);
    if t != [] {
      var w := TakeToken(t);
      WordsAreTokens(t[|w|..]);
    }
  }

  /** `split()` is non-empty exactly when the text holds a non-whitespace
      character, and its head is `FirstToken`. */
  lemma WordsHead(s: string)
    ensures |Words(s)| > 0 <==> HasToken(s)
    ensures HasToken(s) ==> Words(s)[0] == FirstToken(s)
  {
    var lead := TrimLeftSplit(s);
    if TrimLeft(s) != [] {
      assert s[|lead|] == TrimLeft(s)[0];
    }
  }
}
