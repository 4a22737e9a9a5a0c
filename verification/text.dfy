/** String helpers that follow the JavaScript built-ins the widgets call. */
module Text {

  /** JavaScript's WhiteSpace and LineTerminator code points: the set matched by
      the regular-expression class `\s`, removed by `String.prototype.trim` and
      skipped by `parseInt`. */
  const SpaceChars: set<char> := {
    ' ', '\t', '\n', '\r', '\U{000B}', '\U{000C}', '\U{00A0}', '\U{1680}',
    '\U{2000}', '\U{2001}', '\U{2002}', '\U{2003}', '\U{2004}', '\U{2005}',
    '\U{2006}', '\U{2007}', '\U{2008}', '\U{2009}', '\U{200A}',
    '\U{2028}', '\U{2029}', '\U{202F}', '\U{205F}', '\U{3000}', '\U{FEFF}'
  }

  predicate IsSpace(c: char) {
    c in SpaceChars
  }

  predicate AllSpace(s: string) {
    forall i :: 0 <= i < |s| ==> IsSpace(s[i])
  }

  /** Removes leading white space. */
  function TrimStart(s: string): (r: string)
    ensures |r| <= |s|
    ensures r != [] ==> !IsSpace(r[0])
  {
    if s != [] && IsSpace(s[0]) then TrimStart(s[1..]) else s
  }

  /** Removes trailing white space. */
  function TrimEnd(s: string): (r: string)
    ensures |r| <= |s|
    ensures r != [] ==> !IsSpace(r[|r| - 1])
  {
    if s != [] && IsSpace(s[|s| - 1]) then TrimEnd(s[..|s| - 1]) else s
  }

  /** `TrimStart` removes exactly a white-space prefix. */
  lemma {:induction false} TrimStartDropsSpace(s: string)
    ensures TrimStart(s) == s[|s| - |TrimStart(s)|..]
    ensures AllSpace(s[..|s| - |TrimStart(s)|])
    decreases |s|
  {
    if s != [] && IsSpace(s[0]) {
      TrimStartDropsSpace(s[1..]);
      var k := |s| - |TrimStart(s)|;
      assert s[1..][..k - 1] == s[1..k];
      assert s[1..][k - 1..] == s[k..];
    }
  }

  /** `TrimEnd` removes exactly a white-space suffix. */
  lemma {:induction false} TrimEndDropsSpace(s: string)
    ensures TrimEnd(s) == s[..|TrimEnd(s)|]
    ensures AllSpace(s[|TrimEnd(s)|..])
    decreases |s|
  {
    if s != [] && IsSpace(s[|s| - 1]) {
      TrimEndDropsSpace(s[..|s| - 1]);
      var k := |TrimEnd(s)|;
      assert s[..|s| - 1][..k] == s[..k];
      assert s[..|s| - 1][k..] == s[k..|s| - 1];
    }
  }

  /** `s` neither starts nor ends with white space. */
  predicate Trimmed(s: string) {
    s != [] ==> !IsSpace(s[0]) && !IsSpace(s[|s| - 1])
  }

  /** `String.prototype.trim`. */
  function Trim(s: string): (r: string)
    ensures Trimmed(r)
  {
    var t := TrimStart(s);
    var r := TrimEnd(t);
    TrimEndDropsSpace(t);
    assert r != [] ==> r[0] == t[0];
    r
  }

  /** Trimming keeps something of a string that is not all white space. */
  lemma TrimNonEmpty(s: string)
    requires !AllSpace(s)
    ensures Trim(s) != []
  {
    TrimStartDropsSpace(s);
    var t := TrimStart(s);
    assert t != [] by {
      assert s[..|s|] == s;
    }
    TrimEndDropsSpace(t);
    assert t[0..] == t;
  }

  /** `s.split('.').pop()`: the text after the last '.', or all of `s` when it has none. */
  function LastSegment(s: string): (r: string)
    ensures |r| <= |s| && r == s[|s| - |r|..]
    ensures '.' !in r
    ensures |r| < |s| ==> s[|s| - |r| - 1] == '.'
  {
    if s == [] then []
    else if s[|s| - 1] == '.' then []
    else LastSegment(s[..|s| - 1]) + [s[|s| - 1]]
  }

  /** `Array.prototype.join` over strings already converted. */
  function Join(parts: seq<string>, sep: string): string
    decreases |parts|
  {
    if |parts| == 0 then ""
    else if |parts| == 1 then parts[0]
    else parts[0] + sep + Join(parts[1..], sep)
  }

  lemma {:induction false} TrimStartSkipsSpace(ws: string, t: string)
    requires AllSpace(ws)
    requires t == [] || !IsSpace(t[0])
    ensures TrimStart(ws + t) == t
    decreases |ws|
  {
    if ws == [] {
      assert ws + t == t;
    } else {
      assert (ws + t)[1..] == ws[1..] + t;
      TrimStartSkipsSpace(ws[1..], t);
    }
  }

  lemma {:induction false} TrimEndSkipsSpace(t: string, ws: string)
    requires AllSpace(ws)
    requires t == [] || !IsSpace(t[|t| - 1])
    ensures TrimEnd(t + ws) == t
    decreases |ws|
  {
    if ws == [] {
      assert t + ws == t;
    } else {
      assert (t + ws)[..|t + ws| - 1] == t + ws[..|ws| - 1];
      TrimEndSkipsSpace(t, ws[..|ws| - 1]);
    }
  }

  /** Trimming a token surrounded by white space returns exactly the token. */
  lemma TrimSurrounded(ws1: string, tok: string, ws2: string)
    requires AllSpace(ws1) && AllSpace(ws2)
    requires tok != [] && !IsSpace(tok[0]) && !IsSpace(tok[|tok| - 1])
    ensures Trim(ws1 + tok + ws2) == tok
  {
    assert ws1 + tok + ws2 == ws1 + (tok + ws2);
    TrimStartSkipsSpace(ws1, tok + ws2);
    TrimEndSkipsSpace(tok, ws2);
  }

  /** A string with no '.' is its own last segment. */
  lemma LastSegmentNoDot(s: string)
    requires '.' !in s
    ensures LastSegment(s) == s
  {
  }
}
