/**
 * The substitution step of `safeTemplateRender`: every `${data.KEY}` whose KEY
 * (one or more word characters) is an own key of `data` is replaced by the
 * HTML-escaped string form of its value; other placeholders stay verbatim.
 * Reading the template file is abstracted into the `template` argument.
 */
module EmailTemplates {
  import opened Wrappers

  /** A value of the template data record: `string | number | boolean | null | undefined`. */
  datatype Value = Str(s: string) | Int(n: int) | Bool(b: bool) | Null | Undefined

  function Digits(n: nat): (r: string)
    ensures |r| >= 1
    decreases n
  {
    var d := [(('0' as int) + n % 10) as char];
    if n < 10 then d else Digits(n / 10) + d
  }

  /** `String(value)`, for integral numbers only. */
  function ToStr(v: Value): string {
    match v
    case Str(s) => s
    case Int(n) => if n < 0 then "-" + Digits(-n) else Digits(n)
    case Bool(b) => if b then "true" else "false"
    case Null => "null"
    case Undefined => "undefined"
  }

  /** `s.replace(/c/g, rep)`. */
  function ReplaceAll(s: string, c: char, rep: string): (r: string)
    ensures c !in rep ==> c !in r
    ensures c !in s ==> r == s
    decreases |s|
  {
    if s == [] then []
    else (if s[0] == c then rep else [s[0]]) + ReplaceAll(s[1..], c, rep)
  }

  lemma {:induction false} ReplaceAllKeepsOut(s: string, c: char, rep: string, x: char)
    requires x !in s && x !in rep
    ensures x !in ReplaceAll(s, c, rep)
    decreases |s|
  {
    if s != [] {
      ReplaceAllKeepsOut(s[1..], c, rep, x);
    }
  }

  /** The escape chain as written: `&` first, then `<`, `>`, `"`, `'`. */
  function Escape(s: string): string {
    ReplaceAll(ReplaceAll(ReplaceAll(ReplaceAll(ReplaceAll(s, '&', "&amp;"), '<', "&lt;"), '>', "&gt;"), '"', "&quot;"), '\'', "&#x27;")
  }

  /** Reference escape, one character at a time. */
  function EscapeChar(c: char): string {
    if c == '&' then "&amp;"
    else if c == '<' then "&lt;"
    else if c == '>' then "&gt;"
    else if c == '"' then "&quot;"
    else if c == '\'' then "&#x27;"
    else [c]
  }

  function EscapeEach(s: string): string
    decreases |s|
  {
    if s == [] then [] else EscapeChar(s[0]) + EscapeEach(s[1..])
  }

  /** The characters that must never reach the rendered HTML unescaped. */
  predicate Markup(c: char) {
    c == '<' || c == '>' || c == '"' || c == '\''
  }

  predicate NoMarkup(s: string) {
    forall i :: 0 <= i < |s| ==> !Markup(s[i])
  }

  lemma {:induction false} ReplaceAllAppend(a: string, b: string, c: char, rep: string)
    ensures ReplaceAll(a + b, c, rep) == ReplaceAll(a, c, rep) + ReplaceAll(b, c, rep)
    decreases |a|
  {
    if a == [] {
      assert a + b == b;
    } else {
      assert (a + b)[0] == a[0];
      assert (a + b)[1..] == a[1..] + b;
      ReplaceAllAppend(a[1..], b, c, rep);
    }
  }

  lemma EscapeAppend(a: string, b: string)
    ensures Escape(a + b) == Escape(a) + Escape(b)
  {
    var s1a, s1b := ReplaceAll(a, '&', "&amp;"), ReplaceAll(b, '&', "&amp;");
    ReplaceAllAppend(a, b, '&', "&amp;");
    var s2a, s2b := ReplaceAll(s1a, '<', "&lt;"), ReplaceAll(s1b, '<', "&lt;");
    ReplaceAllAppend(s1a, s1b, '<', "&lt;");
    var s3a, s3b := ReplaceAll(s2a, '>', "&gt;"), ReplaceAll(s2b, '>', "&gt;");
    ReplaceAllAppend(s2a, s2b, '>', "&gt;");
    var s4a, s4b := ReplaceAll(s3a, '"', "&quot;"), ReplaceAll(s3b, '"', "&quot;");
    ReplaceAllAppend(s3a, s3b, '"', "&quot;");
    ReplaceAllAppend(s4a, s4b, '\'', "&#x27;");
  }

  lemma ReplaceSingle(x: char, c: char, rep: string)
    ensures ReplaceAll([x], c, rep) == if x == c then rep else [x]
  {
    assert [x][1..] == [];
  }

  lemma EscapeAmp(c: char)
    requires c == '&'
    ensures Escape([c]) == EscapeChar(c)
  {
    var s1 := ReplaceAll([c], '&', "&amp;");
    ReplaceSingle(c, '&', "&amp;");
    assert s1 == "&amp;";
    assert '<' !in s1 && '>' !in s1 && '"' !in s1 && '\'' !in s1;
    var s2 := ReplaceAll(s1, '<', "&lt;");
    assert s2 == s1;
    var s3 := ReplaceAll(s2, '>', "&gt;");
    assert s3 == s2;
    var s4 := ReplaceAll(s3, '"', "&quot;");
    assert s4 == s3;
    var s5 := ReplaceAll(s4, '\'', "&#x27;");
    assert s5 == s4;
  }

  lemma EscapeLt(c: char)
    requires c == '<'
    ensures Escape([c]) == EscapeChar(c)
  {
    var s1 := ReplaceAll([c], '&', "&amp;");
    ReplaceSingle(c, '&', "&amp;");
    var s2 := ReplaceAll(s1, '<', "&lt;");
    ReplaceSingle(c, '<', "&lt;");
    assert s2 == "&lt;";
    var s3 := ReplaceAll(s2, '>', "&gt;");
    assert s3 == s2;
    var s4 := ReplaceAll(s3, '"', "&quot;");
    assert s4 == s3;
    var s5 := ReplaceAll(s4, '\'', "&#x27;");
    assert s5 == s4;
  }

  lemma EscapeGt(c: char)
    requires c == '>'
    ensures Escape([c]) == EscapeChar(c)
  {
    var s1 := ReplaceAll([c], '&', "&amp;");
    ReplaceSingle(c, '&', "&amp;");
    var s2 := ReplaceAll(s1, '<', "&lt;");
    ReplaceSingle(c, '<', "&lt;");
    var s3 := ReplaceAll(s2, '>', "&gt;");
    ReplaceSingle(c, '>', "&gt;");
    assert s3 == "&gt;";
    var s4 := ReplaceAll(s3, '"', "&quot;");
    assert s4 == s3;
    var s5 := ReplaceAll(s4, '\'', "&#x27;");
    assert s5 == s4;
  }

  lemma EscapeQuot(c: char)
    requires c == '"'
    ensures Escape([c]) == EscapeChar(c)
  {
    var s1 := ReplaceAll([c], '&', "&amp;");
    ReplaceSingle(c, '&', "&amp;");
    var s2 := ReplaceAll(s1, '<', "&lt;");
    ReplaceSingle(c, '<', "&lt;");
    var s3 := ReplaceAll(s2, '>', "&gt;");
    ReplaceSingle(c, '>', "&gt;");
    var s4 := ReplaceAll(s3, '"', "&quot;");
    ReplaceSingle(c, '"', "&quot;");
    assert s4 == "&quot;";
    var s5 := ReplaceAll(s4, '\'', "&#x27;");
    assert s5 == s4;
  }

  lemma EscapeApos(c: char)
    requires c == '\''
    ensures Escape([c]) == EscapeChar(c)
  {
    var s1 := ReplaceAll([c], '&', "&amp;");
    ReplaceSingle(c, '&', "&amp;");
    var s2 := ReplaceAll(s1, '<', "&lt;");
    ReplaceSingle(c, '<', "&lt;");
    var s3 := ReplaceAll(s2, '>', "&gt;");
    ReplaceSingle(c, '>', "&gt;");
    var s4 := ReplaceAll(s3, '"', "&quot;");
    ReplaceSingle(c, '"', "&quot;");
    var s5 := ReplaceAll(s4, '\'', "&#x27;");
    ReplaceSingle(c, '\'', "&#x27;");
    assert s5 == "&#x27;";
  }

  lemma EscapeOther(c: char)
    requires !Markup(c) && c != '&'
    ensures Escape([c]) == EscapeChar(c)
  {
    ReplaceSingle(c, '&', "&amp;");
    ReplaceSingle(c, '<', "&lt;");
    ReplaceSingle(c, '>', "&gt;");
    ReplaceSingle(c, '"', "&quot;");
    ReplaceSingle(c, '\'', "&#x27;");
  }

  lemma EscapeOne(c: char)
    ensures Escape([c]) == EscapeChar(c)
  {
    if c == '&' { EscapeAmp(c); }
    else if c == '<' { EscapeLt(c); }
    else if c == '>' { EscapeGt(c); }
    else if c == '"' { EscapeQuot(c); }
    else if c == '\'' { EscapeApos(c); }
    else { EscapeOther(c); }
  }

  /**
   * Escaping `&` first makes the chain of replacements act character by
   * character: no replacement produces text a later one rewrites.
   */
  lemma {:induction false} EscapeIsPerCharacter(s: string)
    ensures Escape(s) == EscapeEach(s)
    decreases |s|
  {
    if s != [] {
      assert s == [s[0]] + s[1..];
      EscapeAppend([s[0]], s[1..]);
      EscapeOne(s[0]);
      EscapeIsPerCharacter(s[1..]);
    }
  }

  lemma {:induction false} EscapeEachNoMarkup(s: string)
    ensures NoMarkup(EscapeEach(s))
    decreases |s|
  {
    if s != [] {
      EscapeEachNoMarkup(s[1..]);
      var e := EscapeChar(s[0]);
      assert NoMarkup(e);
      var r := EscapeEach(s[1..]);
      forall i | 0 <= i < |e + r|
        ensures !Markup((e + r)[i])
      {
        if i >= |e| {
          assert (e + r)[i] == r[i - |e|];
        }
      }
    }
  }

  /** Escaped text holds none of `< > " '`. */
  lemma EscapeRemovesMarkup(s: string)
    ensures NoMarkup(Escape(s))
  {
    EscapeIsPerCharacter(s);
    EscapeEachNoMarkup(s);
  }

  /** Text without any of the five special characters is left alone. */
  lemma EscapePlainText(s: string)
    requires forall i :: 0 <= i < |s| ==> !Markup(s[i]) && s[i] != '&'
    ensures Escape(s) == s
  {
    assert '&' !in s && '<' !in s && '>' !in s && '"' !in s && '\'' !in s;
  }

  predicate IsWordChar(c: char) {
    ('a' <= c <= 'z') || ('A' <= c <= 'Z') || ('0' <= c <= '9') || c == '_'
  }

  const Opening := "${data."

  /** The longest run of word characters at the front of `s`. */
  function WordRun(s: string): (r: string)
    ensures r <= s
    ensures forall i :: 0 <= i < |r| ==> IsWordChar(r[i])
    ensures |r| == |s| || !IsWordChar(s[|r|])
    decreases |s|
  {
    if s != [] && IsWordChar(s[0]) then [s[0]] + WordRun(s[1..]) else []
  }

  /** The key of a `${data.KEY}` placeholder at the front of `s`, if there is one there. */
  function PlaceholderAt(s: string): (r: Option<string>)
    ensures r.Some? ==> r.value != "" && Opening + r.value + "}" <= s
    ensures r.Some? ==> forall i :: 0 <= i < |r.value| ==> IsWordChar(r.value[i])
  {
    if Opening <= s then
      var key := WordRun(s[|Opening|..]);
      if key != "" && |Opening| + |key| < |s| && s[|Opening| + |key|] == '}' then
        assert s[..|Opening| + |key| + 1] == Opening + key + "}";
        Some(key)
      else None
    else None
  }

  /** What a matched placeholder is replaced with. */
  function Substitute(key: string, data: map<string, Value>, whole: string): string {
    if key in data then Escape(ToStr(data[key])) else whole
  }

  /**
   * `template.replace(/\$\{data\.(\w+)\}/g, ...)`: scanning left to right, a
   * match is replaced and scanning resumes after it, so replaced text is never
   * scanned again.
   */
  function Render(template: string, data: map<string, Value>): (r: string)
    ensures NoMarkup(template) ==> NoMarkup(r)
    decreases |template|
  {
    if template == [] then []
    else
      match PlaceholderAt(template)
      case Some(key) =>
        var n := |Opening| + |key| + 1;
        var whole := template[..n];
        var out := Substitute(key, data, whole);
        assert NoMarkup(template) ==> NoMarkup(whole);
        EscapeRemovesMarkup(if key in data then ToStr(data[key]) else "");
        out + Render(template[n..], data)
      case None =>
        [template[0]] + Render(template[1..], data)
  }

  /** With no data at all, every placeholder is left verbatim and the template comes back unchanged. */
  lemma {:induction false} RenderWithoutData(template: string)
    ensures Render(template, map[]) == template
    decreases |template|
  {
    if template != [] {
      match PlaceholderAt(template)
      case Some(key) =>
        var n := |Opening| + |key| + 1;
        RenderWithoutData(template[n..]);
        assert template == template[..n] + template[n..];
      case None =>
        RenderWithoutData(template[1..]);
        assert template == [template[0]] + template[1..];
    }
  }

  /** A placeholder whose key is present becomes the escaped value; the rest renders on its own. */
  lemma RenderPlaceholder(key: string, rest: string, data: map<string, Value>)
    requires key != "" && forall i :: 0 <= i < |key| ==> IsWordChar(key[i])
    requires key in data
    ensures Render(Opening + key + "}" + rest, data) == Escape(ToStr(data[key])) + Render(rest, data)
  {
    var s := Opening + key + "}" + rest;
    var tail := s[|Opening|..];
    assert tail == key + ("}" + rest);
    WordRunOfKey(key, "}" + rest);
    assert WordRun(tail) == key;
    assert s[|Opening| + |key| + 1..] == rest;
  }

  /** A placeholder whose key is absent from the data stays verbatim; the rest renders on its own. */
  lemma RenderAbsentPlaceholder(key: string, rest: string, data: map<string, Value>)
    requires key != "" && forall i :: 0 <= i < |key| ==> IsWordChar(key[i])
    requires key !in data
    ensures Render(Opening + key + "}" + rest, data) == Opening + key + "}" + Render(rest, data)
  {
    var s := Opening + key + "}" + rest;
    var tail := s[|Opening|..];
    assert tail == key + ("}" + rest);
    WordRunOfKey(key, "}" + rest);
    assert WordRun(tail) == key;
    assert s[..|Opening| + |key| + 1] == Opening + key + "}";
    assert s[|Opening| + |key| + 1..] == rest;
  }

  /** A first character other than `$` cannot open a placeholder: it is copied and the rest renders on its own. */
  lemma RenderPlainChar(s: string, data: map<string, Value>)
    requires s != [] && s[0] != '$'
    ensures Render(s, data) == [s[0]] + Render(s[1..], data)
  {
    assert s[0] != Opening[0];
    assert !(Opening <= s);
  }

  /** Text holding no `$` passes through unchanged, whatever the data. */
  lemma {:induction false} RenderPlainPrefix(plain: string, rest: string, data: map<string, Value>)
    requires '$' !in plain
    ensures Render(plain + rest, data) == plain + Render(rest, data)
    decreases |plain|
  {
    if plain == [] {
      assert plain + rest == rest;
    } else {
      var c, tail := plain[0], plain[1..];
      assert plain == [c] + tail;
      RenderPlainStep(plain, rest, data);
      RenderPlainPrefix(tail, rest, data);
      Regroup(c, tail, Render(rest, data));
    }
  }

  /** Concatenation regrouped around its first character. */
  lemma Regroup(c: char, tail: string, r: string)
    ensures [c] + (tail + r) == ([c] + tail) + r
  {
  }

  /** One step of `RenderPlainPrefix`: the first character of plain text is copied. */
  lemma RenderPlainStep(plain: string, rest: string, data: map<string, Value>)
    requires plain != [] && plain[0] != '$'
    ensures Render(plain + rest, data) == [plain[0]] + Render(plain[1..] + rest, data)
  {
    var s := plain + rest;
    assert s[0] == plain[0] && s[1..] == plain[1..] + rest;
    RenderPlainChar(s, data);
  }

  lemma {:induction false} WordRunOfKey(key: string, rest: string)
    requires forall i :: 0 <= i < |key| ==> IsWordChar(key[i])
    requires rest == [] || !IsWordChar(rest[0])
    ensures WordRun(key + rest) == key
    decreases |key|
  {
    if key != [] {
      assert (key + rest)[1..] == key[1..] + rest;
      WordRunOfKey(key[1..], rest);
    }
  }
}
