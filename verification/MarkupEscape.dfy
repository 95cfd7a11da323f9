/** The two escapers of the dashboard (public/js/app.js) and the readers they are meant for: the
    HTML tokenizer's view of an attribute value, and the body of a single-quoted JS literal. */
module MarkupEscape {
  import opened Wrappers

  const NUL: char := '\0'
  const REPLACEMENT: char := '\U{FFFD}'

  // ---------------------------------------------------------------- the escapers

  function Entity(c: char): (e: string)
    ensures e != ""
  {
    if c == '&' then "&amp;"
    else if c == '<' then "&lt;"
    else if c == '>' then "&gt;"
    else if c == '"' then "&quot;"
    else if c == '\'' then "&#39;"
    else [c]
  }

  function Esc(s: string): string {
    if s == "" then "" else Entity(s[0]) + Esc(s[1..])
  }

  /** One `.replace(/c/g, t)` pass. */
  function ReplaceAll(s: string, c: char, t: string): string {
    if s == "" then "" else (if s[0] == c then t else [s[0]]) + ReplaceAll(s[1..], c, t)
  }

  /** The last pass: entities, but never one for the single quote. */
  function ReplaceMarkup(s: string): string {
    if s == "" then "" else (if s[0] == '\'' then "'" else Entity(s[0])) + ReplaceMarkup(s[1..])
  }

  function JsAttr(s: string): string {
    var s1 := ReplaceAll(s, '\\', "\\\\");
    var s2 := ReplaceAll(s1, '\'', "\\'");
    var s3 := ReplaceAll(s2, '\r', "\\r");
    var s4 := ReplaceAll(s3, '\n', "\\n");
    ReplaceMarkup(s4)
  }

  // ---------------------------------------------------------------- the readers

  /** Decode the character references these escapers emit. Any other `&` may start a reference
      of its own, so nothing is claimed about it. */
  function DecodeEntities(s: string): Option<string> {
    if s == "" then Some("")
    else if s[0] != '&' then Prepend([s[0]], DecodeEntities(s[1..]))
    else if "&amp;" <= s then Prepend("&", DecodeEntities(s[5..]))
    else if "&lt;" <= s then Prepend("<", DecodeEntities(s[4..]))
    else if "&gt;" <= s then Prepend(">", DecodeEntities(s[4..]))
    else if "&quot;" <= s then Prepend("\"", DecodeEntities(s[6..]))
    else if "&#39;" <= s then Prepend("'", DecodeEntities(s[5..]))
    else None
  }

  function Prepend(head: string, tail: Option<string>): Option<string> {
    match tail
    case None => None
    case Some(t) => Some(head + t)
  }

  /** What the HTML parser does before tokenizing and for NUL in an attribute value. */
  function Preprocess(s: string): string {
    if s == "" then ""
    else if s[0] == NUL then [REPLACEMENT] + Preprocess(s[1..])
    else if s[0] == '\r' then (if |s| > 1 && s[1] == '\n' then "" else "\n") + Preprocess(s[1..])
    else [s[0]] + Preprocess(s[1..])
  }

  /** The value a script sees for a double-quoted attribute with this source text. */
  function ReadAttribute(s: string): Option<string> {
    DecodeEntities(Preprocess(s))
  }

  /** The string value of a single-quoted JS literal with this body, section 12.9.4 of ECMA-262.
      None: a quote or line break ends the literal early, or an escape outside the
      single-character ones begins. */
  function JsLiteral(s: string): Option<string> {
    if s == "" then Some("")
    else if s[0] == '\'' || s[0] == '\r' || s[0] == '\n' then None
    else if s[0] != '\\' then Prepend([s[0]], JsLiteral(s[1..]))
    else if |s| == 1 then None
    else match EscapeValue(s[1])
      case None => None
      case Some(c) => Prepend([c], JsLiteral(s[2..]))
  }

  function EscapeValue(c: char): (v: Option<char>)
    ensures v != Some(NUL)
  {
    if c == 'b' then Some('\U{0008}')
    else if c == 't' then Some('\t')
    else if c == 'n' then Some('\n')
    else if c == 'v' then Some('\U{000B}')
    else if c == 'f' then Some('\U{000C}')
    else if c == 'r' then Some('\r')
    else if '0' <= c <= '9' || c in {'x', 'u', '\r', '\n', '\U{2028}', '\U{2029}', NUL} then None
    else Some(c)
  }

  // ---------------------------------------------------------------- esc

  lemma DecodeEntity(c: char, rest: string)
    ensures DecodeEntities(Entity(c) + rest) == Prepend([c], DecodeEntities(rest))
  {
    var s := Entity(c) + rest;
    assert s[|Entity(c)|..] == rest;
    assert Entity(c) <= s;
    if c == '&' {
      assert s[..5] == "&amp;";
    } else if c == '<' {
      assert s[..4] == "&lt;" && s[1] == 'l';
    } else if c == '>' {
      assert s[..4] == "&gt;" && s[1] == 'g';
    } else if c == '"' {
      assert s[..6] == "&quot;" && s[1] == 'q';
    } else if c == '\'' {
      assert s[..5] == "&#39;" && s[1] == '#';
    }
  }

  /** Entity-decoding undoes `esc`, for every string. */
  lemma {:induction false} EscRoundTrip(s: string)
    ensures DecodeEntities(Esc(s)) == Some(s)
  {
    if s != "" {
      EscRoundTrip(s[1..]);
      DecodeEntity(s[0], Esc(s[1..]));
      assert [s[0]] + s[1..] == s;
    }
  }

  lemma {:induction false} EscAppend(s: string, t: string)
    ensures Esc(s + t) == Esc(s) + Esc(t)
  {
    if s == "" {
      assert s + t == t;
    } else {
      assert (s + t)[1..] == s[1..] + t;
      EscAppend(s[1..], t);
    }
  }

  lemma EntityIsInert(c: char)
    ensures forall x :: x in Entity(c) ==> x !in {'<', '>', '"', '\''}
  {
  }

  /** Escaped text holds no markup: no angle bracket and no quote of either kind. */
  lemma {:induction false} EscIsInert(s: string)
    ensures forall x :: x in Esc(s) ==> x !in {'<', '>', '"', '\''}
  {
    if s != "" {
      EntityIsInert(s[0]);
      EscIsInert(s[1..]);
    }
  }

  lemma EscInjective(s: string, t: string)
    requires Esc(s) == Esc(t)
    ensures s == t
  {
    EscRoundTrip(s);
    EscRoundTrip(t);
  }

  // ---------------------------------------------------------------- jsAttr

  /** What the five passes together do to one character. */
  function JsAttrChar(c: char): string {
    if c == '\\' then "\\\\"
    else if c == '\'' then "\\'"
    else if c == '\r' then "\\r"
    else if c == '\n' then "\\n"
    else Entity(c)
  }

  function PerCharacter(s: string): string {
    if s == "" then "" else JsAttrChar(s[0]) + PerCharacter(s[1..])
  }

  lemma {:induction false} ReplaceAllAppend(s: string, t: string, c: char, r: string)
    ensures ReplaceAll(s + t, c, r) == ReplaceAll(s, c, r) + ReplaceAll(t, c, r)
  {
    if s == "" {
      assert s + t == t;
    } else {
      assert (s + t)[1..] == s[1..] + t;
      ReplaceAllAppend(s[1..], t, c, r);
    }
  }

  lemma {:induction false} ReplaceMarkupAppend(s: string, t: string)
    ensures ReplaceMarkup(s + t) == ReplaceMarkup(s) + ReplaceMarkup(t)
  {
    if s == "" {
      assert s + t == t;
    } else {
      assert (s + t)[1..] == s[1..] + t;
      ReplaceMarkupAppend(s[1..], t);
    }
  }

  lemma JsAttrAppend(s: string, t: string)
    ensures JsAttr(s + t) == JsAttr(s) + JsAttr(t)
  {
    ReplaceAllAppend(s, t, '\\', "\\\\");
    var s1, t1 := ReplaceAll(s, '\\', "\\\\"), ReplaceAll(t, '\\', "\\\\");
    ReplaceAllAppend(s1, t1, '\'', "\\'");
    var s2, t2 := ReplaceAll(s1, '\'', "\\'"), ReplaceAll(t1, '\'', "\\'");
    ReplaceAllAppend(s2, t2, '\r', "\\r");
    var s3, t3 := ReplaceAll(s2, '\r', "\\r"), ReplaceAll(t2, '\r', "\\r");
    ReplaceAllAppend(s3, t3, '\n', "\\n");
    ReplaceMarkupAppend(ReplaceAll(s3, '\n', "\\n"), ReplaceAll(t3, '\n', "\\n"));
  }

  lemma ReplaceOne(x: char, c: char, r: string)
    ensures ReplaceAll([x], c, r) == if x == c then r else [x]
  {
    assert [x][1..] == "";
    assert ReplaceAll("", c, r) == "";
  }

  lemma ReplaceTwo(x: char, y: char, c: char, r: string)
    ensures ReplaceAll([x, y], c, r) == (if x == c then r else [x]) + (if y == c then r else [y])
  {
    ReplaceAllAppend([x], [y], c, r);
    ReplaceOne(x, c, r);
    ReplaceOne(y, c, r);
  }

  lemma MarkupOfPlain(x: char, y: char)
    requires Entity(x) == [x] && (Entity(y) == [y] || y == '\'')
    ensures ReplaceMarkup([x, y]) == [x, y]
  {
    assert [x, y][1..] == [y] && [y][1..] == "";
    assert ReplaceMarkup("") == "";
  }

  /** A character that an earlier pass escapes passes the later ones untouched. */
  lemma JsAttrOfOne(c: char)
    ensures JsAttr([c]) == JsAttrChar(c)
  {
    ReplaceOne(c, '\\', "\\\\");
    ReplaceOne(c, '\'', "\\'");
    ReplaceOne(c, '\r', "\\r");
    ReplaceOne(c, '\n', "\\n");
    if c == '\\' || c == '\'' || c == '\r' || c == '\n' {
      var e := if c == '\\' then '\\' else if c == '\'' then '\'' else if c == '\r' then 'r' else 'n';
      ReplaceTwo('\\', e, '\'', "\\'");
      ReplaceTwo('\\', e, '\r', "\\r");
      ReplaceTwo('\\', e, '\n', "\\n");
      MarkupOfPlain('\\', e);
    } else {
      assert [c][1..] == "";
      assert ReplaceMarkup("") == "";
      assert ReplaceMarkup([c]) == Entity(c) + "";
    }
  }

  /** The chain of five `replace` passes is one per-character map. */
  lemma {:induction false} PassesArePerCharacter(s: string)
    ensures JsAttr(s) == PerCharacter(s)
  {
    if s == "" {
      assert JsAttr("") == "";
    } else {
      assert [s[0]] + s[1..] == s;
      JsAttrAppend([s[0]], s[1..]);
      JsAttrOfOne(s[0]);
      PassesArePerCharacter(s[1..]);
    }
  }

  /** The JS half of the escaping alone. */
  function JsEscapeChar(c: char): string {
    if c == '\\' then "\\\\"
    else if c == '\'' then "\\'"
    else if c == '\r' then "\\r"
    else if c == '\n' then "\\n"
    else [c]
  }

  function JsEscape(s: string): string {
    if s == "" then "" else JsEscapeChar(s[0]) + JsEscape(s[1..])
  }

  lemma DecodePlain(x: char, rest: string)
    requires x != '&'
    ensures DecodeEntities([x] + rest) == Prepend([x], DecodeEntities(rest))
  {
    assert ([x] + rest)[1..] == rest;
  }

  lemma DecodePlainPair(x: char, y: char, rest: string, plain: string)
    requires x != '&' && y != '&' && DecodeEntities(rest) == Some(plain)
    ensures DecodeEntities([x, y] + rest) == Some([x, y] + plain)
  {
    DecodePlain(y, rest);
    DecodePlain(x, [y] + rest);
    assert [x] + ([y] + rest) == [x, y] + rest;
    assert [x] + ([y] + plain) == [x, y] + plain;
  }

  lemma {:induction false} HtmlPass(s: string)
    ensures DecodeEntities(PerCharacter(s)) == Some(JsEscape(s))
  {
    if s != "" {
      HtmlPass(s[1..]);
      var rest := PerCharacter(s[1..]);
      if JsAttrChar(s[0]) == Entity(s[0]) && JsEscapeChar(s[0]) == [s[0]] {
        DecodeEntity(s[0], rest);
      } else {
        var e := JsAttrChar(s[0])[1];
        assert JsAttrChar(s[0]) == ['\\', e];
        DecodePlainPair('\\', e, rest, JsEscape(s[1..]));
      }
    }
  }

  lemma JsPassOne(c: char, rest: string, plain: string)
    requires JsLiteral(rest) == Some(plain)
    ensures JsLiteral(JsEscapeChar(c) + rest) == Some([c] + plain)
  {
    var all := JsEscapeChar(c) + rest;
    if |JsEscapeChar(c)| == 1 {
      assert all[1..] == rest;
    } else {
      assert all[2..] == rest && all[0] == '\\' && all[1] == JsEscapeChar(c)[1];
      assert EscapeValue(all[1]) == Some(c);
    }
  }

  lemma {:induction false} JsPass(s: string)
    ensures JsLiteral(JsEscape(s)) == Some(s)
  {
    if s != "" {
      JsPass(s[1..]);
      JsPassOne(s[0], JsEscape(s[1..]), s[1..]);
      assert [s[0]] + s[1..] == s;
    }
  }

  lemma {:induction false} PreprocessPlain(s: string)
    requires NUL !in s && '\r' !in s
    ensures Preprocess(s) == s
  {
    if s != "" { PreprocessPlain(s[1..]); }
  }

  lemma CharactersOfOne(c: char)
    ensures forall x :: x in JsAttrChar(c) ==> x !in {'"', '<', '>', '\r', '\n'}
    ensures NUL in JsAttrChar(c) <==> c == NUL
  {
  }

  lemma {:induction false} CharactersOf(s: string)
    ensures forall x :: x in PerCharacter(s) ==> x !in {'"', '<', '>', '\r', '\n'}
    ensures NUL in PerCharacter(s) <==> NUL in s
  {
    if s != "" {
      CharactersOfOne(s[0]);
      CharactersOf(s[1..]);
    }
  }

  /** The escaped text stays inside a double-quoted attribute and on one line. */
  lemma JsAttrStaysInAttribute(s: string)
    ensures forall c :: c in JsAttr(s) ==> c !in {'"', '<', '>', '\r', '\n'}
  {
    PassesArePerCharacter(s);
    CharactersOf(s);
  }

  lemma {:induction false} PreprocessDropsNul(s: string)
    ensures NUL !in Preprocess(s)
  {
    if s != "" { PreprocessDropsNul(s[1..]); }
  }

  lemma {:induction false} DecodingAddsNoNul(s: string)
    requires NUL !in s
    ensures DecodeEntities(s).Some? ==> NUL !in DecodeEntities(s).value
  {
    if s == "" {
    } else if s[0] != '&' {
      DecodingAddsNoNul(s[1..]);
    } else if "&amp;" <= s || "&#39;" <= s {
      DecodingAddsNoNul(s[5..]);
    } else if "&lt;" <= s || "&gt;" <= s {
      DecodingAddsNoNul(s[4..]);
    } else if "&quot;" <= s {
      DecodingAddsNoNul(s[6..]);
    }
  }

  lemma {:induction false} LiteralAddsNoNul(s: string)
    requires NUL !in s
    ensures JsLiteral(s).Some? ==> NUL !in JsLiteral(s).value
    decreases |s|
  {
    if s == "" {
    } else if s[0] != '\\' {
      LiteralAddsNoNul(s[1..]);
    } else if |s| > 1 {
      LiteralAddsNoNul(s[2..]);
    }
  }

  function ReadHandlerArgument(source: string): Option<string> {
    match ReadAttribute(source)
    case None => None
    case Some(js) => JsLiteral(js)
  }

  /** The two-layer round trip: reading `jsAttr(s)` as an attribute value and then as a JS literal
      gives back `s`, meeting no bare quote or line break, exactly for the strings without NUL. */
  lemma JsAttrRoundTrip(s: string)
    ensures ReadHandlerArgument(JsAttr(s)) == Some(s) <==> NUL !in s
  {
    PassesArePerCharacter(s);
    CharactersOf(s);
    if NUL !in s {
      PreprocessPlain(PerCharacter(s));
      HtmlPass(s);
      JsPass(s);
    } else {
      var source := Preprocess(JsAttr(s));
      PreprocessDropsNul(JsAttr(s));
      DecodingAddsNoNul(source);
      if DecodeEntities(source).Some? { LiteralAddsNoNul(DecodeEntities(source).value); }
    }
  }
}
