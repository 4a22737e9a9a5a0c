/** `escapeHtml`: the five chained `replace` calls, and what they guarantee. */
module Html {

  /** `s.replace(/c/g, rep)` for a single-character pattern. */
  function ReplaceAll(s: string, c: char, rep: string): string
    decreases |s|
  {
    if s == [] then [] else (if s[0] == c then rep else [s[0]]) + ReplaceAll(s[1..], c, rep)
  }

  /** `escapeHtml` on text: the chain of replacements exactly as written. It
      agrees with the one-pass escape `Escape`. */
  function EscapeHtmlText(s: string): (r: string)
    ensures r == Escape(s)
  {
    ChainIsSinglePass(s);
    Chain(s)
  }

  predicate IsSpecial(c: char) {
    c == '&' || c == '<' || c == '>' || c == '"' || c == '\''
  }

  /** The four characters that never survive escaping literally. */
  predicate IsMarkup(c: char) {
    c == '<' || c == '>' || c == '"' || c == '\''
  }

  function EscapeChar(c: char): string {
    match c
    case '&' => "&amp;"
    case '<' => "&lt;"
    case '>' => "&gt;"
    case '"' => "&quot;"
    case '\'' => "&#39;"
    case _ => [c]
  }

  /** One left-to-right pass replacing each special character by its entity. */
  function Escape(s: string): string
    decreases |s|
  {
    if s == [] then [] else EscapeChar(s[0]) + Escape(s[1..])
  }

  predicate StartsWith(s: string, prefix: string) {
    |prefix| <= |s| && s[..|prefix|] == prefix
  }

  /** `s` begins with one of the five entities `escapeHtml` produces. */
  predicate EntityStart(s: string) {
    StartsWith(s, "&amp;") || StartsWith(s, "&lt;") || StartsWith(s, "&gt;")
    || StartsWith(s, "&quot;") || StartsWith(s, "&#39;")
  }

  lemma {:induction false} ReplaceAllAppend(a: string, b: string, c: char, rep: string)
    ensures ReplaceAll(a + b, c, rep) == ReplaceAll(a, c, rep) + ReplaceAll(b, c, rep)
    decreases |a|
  {
    if a == [] {
      assert a + b == b;
    } else {
      assert (a + b)[1..] == a[1..] + b;
      ReplaceAllAppend(a[1..], b, c, rep);
    }
  }

  lemma ReplaceAllOne(c: char, d: char, rep: string)
    ensures ReplaceAll([c], d, rep) == if c == d then rep else [c]
  {
    assert [c][1..] == [];
  }

  lemma ReplaceAllAbsent(s: string, c: char, rep: string)
    requires c !in s
    ensures ReplaceAll(s, c, rep) == s
  {
  }

  /** `&` first, then `<`, `>`, `"` and `'`, each replaced globally. */
  function Chain(s: string): string {
    ReplaceAll(ReplaceAll(ReplaceAll(ReplaceAll(ReplaceAll(s, '&', "&amp;"), '<', "&lt;"), '>', "&gt;"), '"', "&quot;"), '\'', "&#39;")
  }

  lemma ChainAppend(a: string, b: string)
    ensures Chain(a + b) == Chain(a) + Chain(b)
  {
    var a1, b1 := ReplaceAll(a, '&', "&amp;"), ReplaceAll(b, '&', "&amp;");
    ReplaceAllAppend(a, b, '&', "&amp;");
    var a2, b2 := ReplaceAll(a1, '<', "&lt;"), ReplaceAll(b1, '<', "&lt;");
    ReplaceAllAppend(a1, b1, '<', "&lt;");
    var a3, b3 := ReplaceAll(a2, '>', "&gt;"), ReplaceAll(b2, '>', "&gt;");
    ReplaceAllAppend(a2, b2, '>', "&gt;");
    var a4, b4 := ReplaceAll(a3, '"', "&quot;"), ReplaceAll(b3, '"', "&quot;");
    ReplaceAllAppend(a3, b3, '"', "&quot;");
    ReplaceAllAppend(a4, b4, '\'', "&#39;");
  }

  /** On one character the chain yields that character's entity: no
      replacement text contains a character a later step replaces. */
  lemma ChainOne(c: char)
    ensures Chain([c]) == EscapeChar(c)
  {
    match c
    case '&' => ChainAmp();
    case '<' => ChainLt();
    case '>' => ChainGt();
    case '"' => ChainQuot();
    case '\'' => ChainApos();
    case _ => ChainPlain(c);
  }

  lemma ChainPlain(c: char)
    requires !IsSpecial(c)
    ensures Chain([c]) == [c]
  {
    ReplaceAllOne(c, '&', "&amp;");
    ReplaceAllOne(c, '<', "&lt;");
    ReplaceAllOne(c, '>', "&gt;");
    ReplaceAllOne(c, '"', "&quot;");
    ReplaceAllOne(c, '\'', "&#39;");
  }

  lemma ChainAmp()
    ensures Chain(['&']) == "&amp;"
  {
    var s0: string := ['&'];
    var s1 := ReplaceAll(s0, '&', "&amp;");
    ReplaceAllOne('&', '&', "&amp;");
    assert s1 == "&amp;";
    var s2 := ReplaceAll(s1, '<', "&lt;");
    ReplaceAllAbsent(s1, '<', "&lt;");
    assert s2 == "&amp;";
    var s3 := ReplaceAll(s2, '>', "&gt;");
    ReplaceAllAbsent(s2, '>', "&gt;");
    assert s3 == "&amp;";
    var s4 := ReplaceAll(s3, '"', "&quot;");
    ReplaceAllAbsent(s3, '"', "&quot;");
    assert s4 == "&amp;";
    var s5 := ReplaceAll(s4, '\'', "&#39;");
    ReplaceAllAbsent(s4, '\'', "&#39;");
    assert s5 == "&amp;";
  }

  lemma ChainLt()
    ensures Chain(['<']) == "&lt;"
  {
    var s0: string := ['<'];
    var s1 := ReplaceAll(s0, '&', "&amp;");
    ReplaceAllOne('<', '&', "&amp;");
    assert s1 == s0;
    var s2 := ReplaceAll(s1, '<', "&lt;");
    ReplaceAllOne('<', '<', "&lt;");
    assert s2 == "&lt;";
    var s3 := ReplaceAll(s2, '>', "&gt;");
    ReplaceAllAbsent(s2, '>', "&gt;");
    assert s3 == "&lt;";
    var s4 := ReplaceAll(s3, '"', "&quot;");
    ReplaceAllAbsent(s3, '"', "&quot;");
    assert s4 == "&lt;";
    var s5 := ReplaceAll(s4, '\'', "&#39;");
    ReplaceAllAbsent(s4, '\'', "&#39;");
    assert s5 == "&lt;";
  }

  lemma ChainGt()
    ensures Chain(['>']) == "&gt;"
  {
    var s0: string := ['>'];
    var s1 := ReplaceAll(s0, '&', "&amp;");
    ReplaceAllOne('>', '&', "&amp;");
    assert s1 == s0;
    var s2 := ReplaceAll(s1, '<', "&lt;");
    ReplaceAllOne('>', '<', "&lt;");
    assert s2 == s0;
    var s3 := ReplaceAll(s2, '>', "&gt;");
    ReplaceAllOne('>', '>', "&gt;");
    assert s3 == "&gt;";
    var s4 := ReplaceAll(s3, '"', "&quot;");
    ReplaceAllAbsent(s3, '"', "&quot;");
    assert s4 == "&gt;";
    var s5 := ReplaceAll(s4, '\'', "&#39;");
    ReplaceAllAbsent(s4, '\'', "&#39;");
    assert s5 == "&gt;";
  }

  lemma ChainQuot()
    ensures Chain(['"']) == "&quot;"
  {
    var s0: string := ['"'];
    var s1 := ReplaceAll(s0, '&', "&amp;");
    ReplaceAllOne('"', '&', "&amp;");
    assert s1 == s0;
    var s2 := ReplaceAll(s1, '<', "&lt;");
    ReplaceAllOne('"', '<', "&lt;");
    assert s2 == s0;
    var s3 := ReplaceAll(s2, '>', "&gt;");
    ReplaceAllOne('"', '>', "&gt;");
    assert s3 == s0;
    var s4 := ReplaceAll(s3, '"', "&quot;");
    ReplaceAllOne('"', '"', "&quot;");
    assert s4 == "&quot;";
    var s5 := ReplaceAll(s4, '\'', "&#39;");
    ReplaceAllAbsent(s4, '\'', "&#39;");
    assert s5 == "&quot;";
  }

  lemma ChainApos()
    ensures Chain(['\'']) == "&#39;"
  {
    var s0: string := ['\''];
    var s1 := ReplaceAll(s0, '&', "&amp;");
    ReplaceAllOne('\'', '&', "&amp;");
    assert s1 == s0;
    var s2 := ReplaceAll(s1, '<', "&lt;");
    ReplaceAllOne('\'', '<', "&lt;");
    assert s2 == s0;
    var s3 := ReplaceAll(s2, '>', "&gt;");
    ReplaceAllOne('\'', '>', "&gt;");
    assert s3 == s0;
    var s4 := ReplaceAll(s3, '"', "&quot;");
    ReplaceAllOne('\'', '"', "&quot;");
    assert s4 == s0;
    var s5 := ReplaceAll(s4, '\'', "&#39;");
    ReplaceAllOne('\'', '\'', "&#39;");
    assert s5 == "&#39;";
  }

  lemma {:induction false} ChainIsSinglePass(s: string)
    ensures Chain(s) == Escape(s)
    decreases |s|
  {
    if s == [] {
    } else {
      assert s == [s[0]] + s[1..];
      ChainAppend([s[0]], s[1..]);
      ChainOne(s[0]);
      ChainIsSinglePass(s[1..]);
    }
  }

  /** The escaped text contains no `<`, `>`, `"` or `'`, and every `&` in it
      begins one of the five entities. */
  lemma {:induction false} EscapeIsSafe(s: string)
    ensures forall i :: 0 <= i < |Escape(s)| ==> !IsMarkup(Escape(s)[i])
    ensures forall i :: 0 <= i < |Escape(s)| && Escape(s)[i] == '&' ==> EntityStart(Escape(s)[i..])
    decreases |s|
  {
    if s != [] {
      var e := EscapeChar(s[0]);
      var rest := Escape(s[1..]);
      var r := Escape(s);
      EscapeIsSafe(s[1..]);
      assert r == e + rest;
      forall i | 0 <= i < |r|
        ensures !IsMarkup(r[i])
        ensures r[i] == '&' ==> EntityStart(r[i..])
      {
        if i < |e| {
          if r[i] == '&' {
            assert i == 0;
            assert r[i..] == e + rest;
          }
        } else {
          assert r[i] == rest[i - |e|];
          assert r[i..] == rest[i - |e|..];
        }
      }
    }
  }

  predicate NoSpecial(s: string) {
    forall i :: 0 <= i < |s| ==> !IsSpecial(s[i])
  }

  lemma NoSpecialCons(s: string)
    requires s != []
    ensures NoSpecial(s) <==> !IsSpecial(s[0]) && NoSpecial(s[1..])
  {
    if !IsSpecial(s[0]) && NoSpecial(s[1..]) {
      forall i | 0 <= i < |s|
        ensures !IsSpecial(s[i])
      {
        if i > 0 {
          assert s[i] == s[1..][i - 1];
        }
      }
    }
  }

  /** Escaping changes the text exactly when it holds a special character;
      it never shortens it. */
  lemma {:induction false} EscapeIdentity(s: string)
    ensures Escape(s) == s <==> NoSpecial(s)
    ensures |Escape(s)| >= |s|
    decreases |s|
  {
    if s != [] {
      EscapeIdentity(s[1..]);
      NoSpecialCons(s);
      assert Escape(s) == EscapeChar(s[0]) + Escape(s[1..]);
      if IsSpecial(s[0]) {
        assert |Escape(s)| > |s|;
      } else {
        assert Escape(s) == [s[0]] + Escape(s[1..]);
        assert s == [s[0]] + s[1..];
      }
    }
  }

  /** Decoding of the five entities; any other text is kept. */
  function Unescape(s: string): string
    decreases |s|
  {
    if s == [] then []
    else if StartsWith(s, "&amp;") then "&" + Unescape(s[5..])
    else if StartsWith(s, "&lt;") then "<" + Unescape(s[4..])
    else if StartsWith(s, "&gt;") then ">" + Unescape(s[4..])
    else if StartsWith(s, "&quot;") then "\"" + Unescape(s[6..])
    else if StartsWith(s, "&#39;") then "'" + Unescape(s[5..])
    else [s[0]] + Unescape(s[1..])
  }

  /** Escaping loses nothing: decoding the entities gives back the text. */
  lemma {:induction false} UnescapeEscape(s: string)
    ensures Unescape(Escape(s)) == s
    decreases |s|
  {
    if s != [] {
      UnescapeEscape(s[1..]);
      UnescapeCons(s[0], Escape(s[1..]));
      assert s == [s[0]] + s[1..];
    }
  }

  lemma UnescapeCons(c: char, rest: string)
    ensures Unescape(EscapeChar(c) + rest) == [c] + Unescape(rest)
  {
    match c
    case '&' => UnescapeAmp(rest);
    case '<' => UnescapeLt(rest);
    case '>' => UnescapeGt(rest);
    case '"' => UnescapeQuot(rest);
    case '\'' => UnescapeApos(rest);
    case _ => UnescapePlain(c, rest);
  }

  /** Only text that starts with '&' can start with an entity. */
  lemma NoEntityWithoutAmp(s: string)
    requires s != [] && s[0] != '&'
    ensures !EntityStart(s)
  {
    forall prefix: string | prefix != [] && prefix[0] == '&'
      ensures !StartsWith(s, prefix)
    {
      if |prefix| <= |s| {
        assert s[..|prefix|][0] == s[0];
      }
    }
    assert "&amp;"[0] == '&' && "&lt;"[0] == '&' && "&gt;"[0] == '&';
    assert "&quot;"[0] == '&' && "&#39;"[0] == '&';
  }

  lemma UnescapePlain(c: char, rest: string)
    requires c != '&'
    ensures Unescape([c] + rest) == [c] + Unescape(rest)
  {
    var t := [c] + rest;
    assert t[0] == c;
    NoEntityWithoutAmp(t);
    assert t[1..] == rest;
  }

  lemma UnescapeAmp(rest: string)
    ensures Unescape("&amp;" + rest) == ['&'] + Unescape(rest)
  {
    var t := "&amp;" + rest;
    assert t[..5] == "&amp;";
    assert t[5..] == rest;
    assert t[0] == '&';
    assert t[1] == 'a';
    assert t[2] == 'm';
    assert t[3] == 'p';
    assert t[4] == ';';
  }

  lemma UnescapeLt(rest: string)
    ensures Unescape("&lt;" + rest) == ['<'] + Unescape(rest)
  {
    var t := "&lt;" + rest;
    assert t[..4] == "&lt;";
    assert t[4..] == rest;
    assert t[0] == '&';
    assert t[1] == 'l';
    assert t[2] == 't';
    assert t[3] == ';';
  }

  lemma UnescapeGt(rest: string)
    ensures Unescape("&gt;" + rest) == ['>'] + Unescape(rest)
  {
    var t := "&gt;" + rest;
    assert t[..4] == "&gt;";
    assert t[4..] == rest;
    assert t[0] == '&';
    assert t[1] == 'g';
    assert t[2] == 't';
    assert t[3] == ';';
  }

  lemma UnescapeQuot(rest: string)
    ensures Unescape("&quot;" + rest) == ['"'] + Unescape(rest)
  {
    var t := "&quot;" + rest;
    assert t[..6] == "&quot;";
    assert t[6..] == rest;
    assert t[0] == '&';
    assert t[1] == 'q';
    assert t[2] == 'u';
    assert t[3] == 'o';
    assert t[4] == 't';
    assert t[5] == ';';
  }

  lemma UnescapeApos(rest: string)
    ensures Unescape("&#39;" + rest) == ['\''] + Unescape(rest)
  {
    var t := "&#39;" + rest;
    assert t[..5] == "&#39;";
    assert t[5..] == rest;
    assert t[0] == '&';
    assert t[1] == '#';
    assert t[2] == '3';
    assert t[3] == '9';
    assert t[4] == ';';
  }
}
