/** The `{{ token }}` template engine (`getTokenValue`, `buildTemplateHtml`). */
module Template {
  import opened Wrappers
  import opened Text
  import opened Json
  import opened Fields
  import opened Html

  /** Index of the first '}' in `s`, or `|s|` when there is none. */
  function CloseBrace(s: string): (q: nat)
    ensures q <= |s|
    ensures forall i :: 0 <= i < q ==> s[i] != '}'
    ensures q < |s| ==> s[q] == '}'
    decreases |s|
  {
    if s == [] || s[0] == '}' then 0 else 1 + CloseBrace(s[1..])
  }

  /** A match of the placeholder pattern: the captured token and how many
      template characters the match covers. */
  datatype Placeholder = Placeholder(token: string, width: nat)

  /** What `([^}]+?)` captures from the text between the braces once the
      surrounding `\s*` have taken their share: the trimmed text, or, when
      the text is all white space, its last character. */
  function TokenOf(body: string): (tok: string)
    requires body != []
    ensures tok != []
  {
    if AllSpace(body) then [body[|body| - 1]] else TrimNonEmpty(body); Trim(body)
  }

  /** The pattern `\{\{\s*([^}]+?)\s*\}\}` tried at the start of `t`: after
      `{{` the text up to the first `}` must be non-empty and that `}` must be
      followed by a second one. */
  function MatchAt(t: string): (m: Option<Placeholder>)
    ensures m.Some? ==> 5 <= m.value.width <= |t|
  {
    if |t| < 2 || t[0] != '{' || t[1] != '{' then None
    else
      var q := 2 + CloseBrace(t[2..]);
      if 2 < q && q + 1 < |t| && t[q + 1] == '}' then Some(Placeholder(TokenOf(t[2..q]), q + 2))
      else None
  }

  /** Every match has the shape of the pattern: `{{`, a non-empty body
      without `}`, `}}`; the capture is the token of that body. */
  lemma MatchAtShape(t: string)
    requires MatchAt(t).Some?
    ensures var w := MatchAt(t).value.width;
            && t[..2] == "{{" && t[w - 2..w] == "}}"
            && t[2..w - 2] != [] && '}' !in t[2..w - 2]
            && MatchAt(t).value.token == TokenOf(t[2..w - 2])
  {
    var q := 2 + CloseBrace(t[2..]);
    assert t[2..q] == t[2..][..q - 2];
  }

  predicate IsUpdatedToken(token: string) {
    token == "updatedAt" || token == "updated_at"
  }

  predicate IsCreatedToken(token: string) {
    token == "createdAt" || token == "created_at"
  }

  predicate IsTimestampToken(token: string) {
    IsUpdatedToken(token) || IsCreatedToken(token)
  }

  /** No spelling is both an update-time and a creation-time token. */
  lemma TokensDiffer()
    ensures forall token :: IsCreatedToken(token) ==> !IsUpdatedToken(token)
  {
    assert "createdAt"[0] != "updatedAt"[0] && |"createdAt"| != |"updated_at"|;
    assert "created_at"[0] != "updated_at"[0] && |"created_at"| != |"updatedAt"|;
  }

  /** `stamp ? formatDateTimeValue(stamp) : ''`, `fmt` standing for the formatter. */
  function StampText(stamp: Option<Value>, fmt: Value -> string): string {
    match stamp
    case Some(v) => fmt(v)
    case None => ""
  }

  /** A field value as text: `null` becomes the empty string, anything else
      its `String` form. */
  function FieldText(value: Option<Value>): string {
    match value
    case Some(v) => if v.Null? then "" else JsString(v)
    case None => ""
  }

  /** `getTokenValue` followed by the `String` conversion `escapeHtml` applies.
      Timestamp tokens go to the timestamp lookups and the formatter `fmt`
      (`formatDateTimeValue`); every other token goes to `extractField`. */
  function TokenText(record: Value, token: string, fmt: Value -> string): (r: string)
    ensures IsUpdatedToken(token) ==>
              r == if ExtractUpdatedAt(record).Some? then fmt(ExtractUpdatedAt(record).value) else ""
    ensures IsCreatedToken(token) ==>
              r == if ExtractCreatedAt(record).Some? then fmt(ExtractCreatedAt(record).value) else ""
    ensures !IsTimestampToken(token) && (ExtractField(record, token).None? || ExtractField(record, token) == Some(Null)) ==>
              r == ""
    ensures !IsTimestampToken(token) && ExtractField(record, token).Some? && !ExtractField(record, token).value.Null? ==>
              r == JsString(ExtractField(record, token).value)
  {
    TokensDiffer();
    if IsUpdatedToken(token) then StampText(ExtractUpdatedAt(record), fmt)
    else if IsCreatedToken(token) then StampText(ExtractCreatedAt(record), fmt)
    else FieldText(ExtractField(record, token))
  }

  /** `t.replace(pattern, callback)` with the global pattern: scanning left
      to right, a match is replaced by what `resolve` makes of its captured
      token and the scan resumes after it; otherwise one character is copied. */
  function Expand(t: string, resolve: string -> string): string
    decreases |t|
  {
    if t == [] then []
    else match MatchAt(t)
      case Some(p) => resolve(p.token) + Expand(t[p.width..], resolve)
      case None => [t[0]] + Expand(t[1..], resolve)
  }

  /** The callback of `buildTemplateHtml`: `escapeHtml(getTokenValue(record, token))`. */
  function Resolver(record: Value, fmt: Value -> string): string -> string {
    token => EscapeHtmlText(TokenText(record, token, fmt))
  }

  /** Every resolved token is escaped, so it holds no markup character. */
  lemma ResolverIsSafe(record: Value, fmt: Value -> string)
    ensures forall token :: NoMarkup(Resolver(record, fmt)(token))
  {
    forall token
      ensures NoMarkup(Resolver(record, fmt)(token))
    {
      EscapeIsSafe(TokenText(record, token, fmt));
    }
  }

  /** `buildTemplateHtml(record, template)`. A template without `{{` is
      returned unchanged, and record content cannot inject markup: when the
      template holds no `<`, `>`, `"` or `'`, neither does the result. */
  function Render(record: Value, t: string, fmt: Value -> string): (r: string)
    ensures NoOpening(t) ==> r == t
    ensures NoMarkup(t) ==> NoMarkup(r)
  {
    var resolve := Resolver(record, fmt);
    if NoOpening(t) then ExpandWithoutPlaceholders(t, resolve); Expand(t, resolve)
    else if NoMarkup(t) then ResolverIsSafe(record, fmt); ExpandIsSafe(t, resolve); Expand(t, resolve)
    else Expand(t, resolve)
  }

  /** `t` contains no `{{`. */
  predicate NoOpening(t: string) {
    forall i :: 0 <= i < |t| - 1 ==> !(t[i] == '{' && t[i + 1] == '{')
  }

  lemma {:induction false} ExpandWithoutPlaceholders(t: string, resolve: string -> string)
    requires NoOpening(t)
    ensures Expand(t, resolve) == t
    decreases |t|
  {
    if t != [] {
      assert MatchAt(t).None? by {
        if |t| >= 2 {
          assert !(t[0] == '{' && t[1] == '{');
        }
      }
      assert NoOpening(t[1..]) by {
        forall i | 0 <= i < |t[1..]| - 1
          ensures !(t[1..][i] == '{' && t[1..][i + 1] == '{')
        {
          assert t[1..][i] == t[i + 1] && t[1..][i + 1] == t[i + 2];
        }
      }
      ExpandWithoutPlaceholders(t[1..], resolve);
      assert t == [t[0]] + t[1..];
    }
  }

  /** Without a match at the start, one character is copied. */
  lemma ExpandCopiesOne(t: string, resolve: string -> string)
    requires t != [] && MatchAt(t).None?
    ensures Expand(t, resolve) == [t[0]] + Expand(t[1..], resolve)
  {
  }

  /** The first character of `text` is copied when no match starts there. */
  lemma ExpandCopiesHead(text: string, rest: string, resolve: string -> string)
    requires text != [] && MatchAt(text + rest).None?
    ensures Expand(text + rest, resolve) == [text[0]] + Expand(text[1..] + rest, resolve)
  {
    ExpandCopiesOne(text + rest, resolve);
    assert (text + rest)[1..] == text[1..] + rest;
  }

  /** No match of the pattern starts at any position of `text` within `t`. */
  predicate Unmatched(text: string, rest: string) {
    forall i :: 0 <= i < |text| ==> MatchAt((text + rest)[i..]).None?
  }

  /** Peeling the first character off unmatched text. */
  lemma UnmatchedStep(text: string, rest: string)
    requires text != [] && Unmatched(text, rest)
    ensures MatchAt(text + rest).None?
    ensures Unmatched(text[1..], rest)
    ensures (text + rest)[1..] == text[1..] + rest
  {
    assert (text + rest)[0..] == text + rest;
    forall i | 0 <= i < |text[1..]|
      ensures MatchAt((text[1..] + rest)[i..]).None?
    {
      assert (text[1..] + rest)[i..] == (text + rest)[i + 1..];
    }
  }

  lemma {:induction false} ExpandCopiesText(text: string, rest: string, resolve: string -> string)
    requires Unmatched(text, rest)
    ensures Expand(text + rest, resolve) == text + Expand(rest, resolve)
    decreases |text|
  {
    if text == [] {
      assert text + rest == rest;
    } else {
      UnmatchedStep(text, rest);
      ExpandCopiesHead(text, rest, resolve);
      ExpandCopiesText(text[1..], rest, resolve);
      assert [text[0]] + (text[1..] + Expand(rest, resolve)) == text + Expand(rest, resolve) by {
        assert text == [text[0]] + text[1..];
      }
    }
  }

  /** Text in which no placeholder starts is copied verbatim before whatever
      follows it is rendered; an unmatched `{`, as in `a{b}`, is plain text. */
  lemma RenderCopiesText(record: Value, text: string, rest: string, fmt: Value -> string)
    requires Unmatched(text, rest)
    ensures Render(record, text + rest, fmt) == text + Render(record, rest, fmt)
  {
    ExpandCopiesText(text, rest, Resolver(record, fmt));
  }

  /** Text holding no `{` never starts a placeholder. */
  lemma NoBraceUnmatched(text: string, rest: string)
    requires '{' !in text
    ensures Unmatched(text, rest)
  {
    forall i | 0 <= i < |text|
      ensures MatchAt((text + rest)[i..]).None?
    {
      assert (text + rest)[i..][0] == text[i];
    }
  }

  lemma {:induction false} CloseBraceAfter(body: string, rest: string)
    requires '}' !in body
    requires rest != [] && rest[0] == '}'
    ensures CloseBrace(body + rest) == |body|
    decreases |body|
  {
    if body == [] {
      assert body + rest == rest;
    } else {
      assert (body + rest)[0] == body[0];
      assert (body + rest)[1..] == body[1..] + rest;
      CloseBraceAfter(body[1..], rest);
    }
  }

  lemma NoCloseInBody(ws1: string, token: string, ws2: string)
    requires AllSpace(ws1) && AllSpace(ws2) && '}' !in token
    ensures '}' !in ws1 + token + ws2
  {
    assert !IsSpace('}');
    assert '}' !in ws1;
    assert '}' !in ws2;
  }

  lemma BodyNotAllSpace(ws1: string, token: string, ws2: string)
    requires token != [] && !IsSpace(token[0])
    ensures !AllSpace(ws1 + token + ws2)
  {
    assert (ws1 + token + ws2)[|ws1|] == token[0];
  }

  /** `{{body}}`. */
  function Braced(body: string): string {
    "{{" + body + "}}"
  }

  /** The pattern matches at the start of `t` when `t` opens with `{{`,
      then `body`, then `}}`. */
  lemma MatchesAt(t: string, body: string, token: string)
    requires 3 + |body| < |t| && t[0] == '{' && t[1] == '{'
    requires t[2..2 + |body|] == body && t[2 + |body|] == '}' && t[3 + |body|] == '}'
    requires body != [] && '}' !in body && !AllSpace(body) && Trim(body) == token
    ensures MatchAt(t) == Some(Placeholder(token, |body| + 4))
  {
    assert t[2..] == body + t[2 + |body|..];
    CloseBraceAfter(body, t[2 + |body|..]);
  }

  lemma MatchesBody(body: string, token: string, rest: string)
    requires body != [] && '}' !in body && !AllSpace(body) && Trim(body) == token
    ensures MatchAt(Braced(body) + rest) == Some(Placeholder(token, |body| + 4))
  {
    var t := Braced(body) + rest;
    assert t[2..2 + |body|] == body;
    assert t[2 + |body|] == '}' && t[3 + |body|] == '}';
    MatchesAt(t, body, token);
  }

  /** Conversely to the shape `MatchAt` promises: `{{`, any non-empty body
      without `}`, then `}}` is matched, capturing `TokenOf(body)`. */
  lemma MatchesAnyBody(body: string, rest: string)
    requires body != [] && '}' !in body
    ensures MatchAt(Braced(body) + rest) == Some(Placeholder(TokenOf(body), |body| + 4))
  {
    var t := Braced(body) + rest;
    assert t[2..] == body + ("}}" + rest);
    CloseBraceAfter(body, "}}" + rest);
    assert t[2..2 + |body|] == body;
  }

  /** The pattern matches `{{`, white space, a token, white space, `}}` and
      captures exactly the token. */
  lemma MatchesPlaceholder(ws1: string, token: string, ws2: string, rest: string)
    requires AllSpace(ws1) && AllSpace(ws2)
    requires token != [] && '}' !in token && !IsSpace(token[0]) && !IsSpace(token[|token| - 1])
    ensures MatchAt(Braced(ws1 + token + ws2) + rest) == Some(Placeholder(token, |ws1 + token + ws2| + 4))
  {
    NoCloseInBody(ws1, token, ws2);
    BodyNotAllSpace(ws1, token, ws2);
    TrimSurrounded(ws1, token, ws2);
    MatchesBody(ws1 + token + ws2, token, rest);
  }

  lemma ExpandPlaceholder(ws1: string, token: string, ws2: string, rest: string, resolve: string -> string)
    requires AllSpace(ws1) && AllSpace(ws2)
    requires token != [] && '}' !in token && !IsSpace(token[0]) && !IsSpace(token[|token| - 1])
    ensures Expand(Braced(ws1 + token + ws2) + rest, resolve) == resolve(token) + Expand(rest, resolve)
  {
    var t := Braced(ws1 + token + ws2) + rest;
    MatchesPlaceholder(ws1, token, ws2, rest);
    assert t[|ws1 + token + ws2| + 4..] == rest;
  }

  /** A placeholder `{{ token }}` is replaced by the escaped text of its
      trimmed token, and rendering carries on right after its closing braces. */
  lemma RenderPlaceholder(record: Value, ws1: string, token: string, ws2: string, rest: string, fmt: Value -> string)
    requires AllSpace(ws1) && AllSpace(ws2)
    requires token != [] && '}' !in token && !IsSpace(token[0]) && !IsSpace(token[|token| - 1])
    ensures Render(record, Braced(ws1 + token + ws2) + rest, fmt) ==
              EscapeHtmlText(TokenText(record, token, fmt)) + Render(record, rest, fmt)
  {
    ExpandPlaceholder(ws1, token, ws2, rest, Resolver(record, fmt));
  }

  /** A token that resolves to nothing renders as the empty string, never as
      the placeholder text. */
  lemma UnresolvedTokenIsEmpty(record: Value, token: string, fmt: Value -> string)
    requires !IsTimestampToken(token)
    requires ExtractField(record, token).None?
    ensures TokenText(record, token, fmt) == ""
    ensures EscapeHtmlText(TokenText(record, token, fmt)) == ""
  {
  }

  /** A stored value renders as its `String` form, falsy ones included:
      `0` as "0", `false` as "false", `""` as "". */
  lemma StoredValueText(record: Value, token: string, v: Value, fmt: Value -> string)
    requires !IsTimestampToken(token)
    requires ExtractField(record, token) == Some(v) && !v.Null?
    ensures TokenText(record, token, fmt) == JsString(v)
  {
  }

  /** A stored `null` renders as nothing, as a missing field does: the
      placeholder simply disappears from the output. */
  lemma StoredNullIsEmpty(record: Value, ws1: string, token: string, ws2: string, rest: string, fmt: Value -> string)
    requires AllSpace(ws1) && AllSpace(ws2)
    requires token != [] && '}' !in token && !IsSpace(token[0]) && !IsSpace(token[|token| - 1])
    requires !IsTimestampToken(token)
    requires ExtractField(record, token) == Some(Null)
    ensures Render(record, Braced(ws1 + token + ws2) + rest, fmt) == Render(record, rest, fmt)
  {
    RenderPlaceholder(record, ws1, token, ws2, rest, fmt);
    assert TokenText(record, token, fmt) == "";
    assert EscapeHtmlText("") == "";
  }

  /** The update-time tokens never consult the field containers: when the
      record has no truthy top-level or `meta` update time they render as the
      empty string, whatever `properties` and the other containers hold. */
  lemma UpdatedTokensIgnoreContainers(record: Value, fmt: Value -> string)
    requires ExtractUpdatedAt(record).None?
    ensures TokenText(record, "updatedAt", fmt) == "" && TokenText(record, "updated_at", fmt) == ""
  {
    assert IsUpdatedToken("updatedAt") && IsUpdatedToken("updated_at");
  }

  /** The same for the creation-time tokens. */
  lemma CreatedTokensIgnoreContainers(record: Value, fmt: Value -> string)
    requires ExtractCreatedAt(record).None?
    ensures TokenText(record, "createdAt", fmt) == "" && TokenText(record, "created_at", fmt) == ""
  {
    assert IsCreatedToken("createdAt") && IsCreatedToken("created_at");
  }

  predicate NoMarkup(s: string) {
    forall i :: 0 <= i < |s| ==> !IsMarkup(s[i])
  }

  lemma NoMarkupConcat(a: string, b: string)
    requires NoMarkup(a) && NoMarkup(b)
    ensures NoMarkup(a + b)
  {
    forall i | 0 <= i < |a + b|
      ensures !IsMarkup((a + b)[i])
    {
      if i >= |a| {
        assert (a + b)[i] == b[i - |a|];
      }
    }
  }

  lemma NoMarkupDrop(t: string, k: nat)
    requires NoMarkup(t) && k <= |t|
    ensures NoMarkup(t[k..])
  {
    forall i | 0 <= i < |t[k..]|
      ensures !IsMarkup(t[k..][i])
    {
      assert t[k..][i] == t[i + k];
    }
  }

  lemma {:induction false} ExpandIsSafe(t: string, resolve: string -> string)
    requires NoMarkup(t)
    requires forall token :: NoMarkup(resolve(token))
    ensures NoMarkup(Expand(t, resolve))
    decreases |t|
  {
    if t != [] {
      match MatchAt(t)
      case Some(p) =>
        NoMarkupDrop(t, p.width);
        ExpandIsSafe(t[p.width..], resolve);
        NoMarkupConcat(resolve(p.token), Expand(t[p.width..], resolve));
      case None =>
        NoMarkupDrop(t, 1);
        ExpandIsSafe(t[1..], resolve);
        assert NoMarkup([t[0]]);
        NoMarkupConcat([t[0]], Expand(t[1..], resolve));
    }
  }
}
