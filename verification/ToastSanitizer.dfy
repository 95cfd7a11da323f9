/** Markup for the toast container (public/js/app.js): everything is escaped, then an escaped
    `<svg ...>...</svg>` whose content is exactly one of our own icons is rebuilt from the table. */
module ToastSanitizer {
  import opened Wrappers
  import opened MarkupEscape

  datatype Icon = Icon(name: string, body: string)

  /** The ICONS object in key order. */
  type Table = seq<Icon>

  /** Property names of an object literal are distinct; none of them is empty. */
  predicate WellFormed(table: Table) {
    && (forall i :: 0 <= i < |table| ==> table[i].name != "")
    && (forall i, j :: 0 <= i < j < |table| ==> table[i].name != table[j].name)
  }

  // ---------------------------------------------------------------- icon markup

  /** The fixed parts of the wrapper `icon(name)` writes around an icon body. */
  datatype Shape = Shape(open: string, attrs: string, gt: string, close: string)

  /** The wrapper in the source, with the default class. */
  function Svg(): Shape {
    Shape("<svg", Attributes(), ">", "</svg>")
  }

  function Attributes(): string {
    (Sizing() + Colors()) + (Stroke() + Ending())
  }

  function Sizing(): string {
    " class=\"icon \"" + " viewBox=\"0 0 24 24\""
  }

  function Colors(): string {
    " fill=\"none\"" + " stroke=\"currentColor\""
  }

  function Stroke(): string {
    " stroke-width=\"2\"" + " stroke-linecap=\"round\""
  }

  function Ending(): string {
    " stroke-linejoin=\"round\"" + " aria-hidden=\"true\""
  }

  function Wrapped(sh: Shape, attrs: string, body: string): string {
    sh.open + attrs + sh.gt + body + sh.close
  }

  function Markup(sh: Shape, body: string): string {
    Wrapped(sh, sh.attrs, body)
  }

  function BodyOf(table: Table, name: string): string {
    if table == [] then "" else if table[0].name == name then table[0].body else BodyOf(table[1..], name)
  }

  /** `icon(name)`. */
  function IconNamed(table: Table, sh: Shape, name: string): string {
    Markup(sh, BodyOf(table, name))
  }

  /** `TOAST_ICON_BY_BODY.get(inner)`: keyed by escaped body, a later entry replaces an earlier. */
  function NameByBody(table: Table, inner: string): Option<string>
    decreases |table|
  {
    if table == [] then None
    else if Esc(table[|table| - 1].body) == inner then Some(table[|table| - 1].name)
    else NameByBody(table[..|table| - 1], inner)
  }

  // ---------------------------------------------------------------- the sanitizer

  predicate IsControl(c: char) {
    c <= '\U{0008}' || c == '\U{000B}' || c == '\U{000C}' || '\U{000E}' <= c <= '\U{001F}' || c == '\U{007F}'
  }

  function Strip(s: string): string {
    if s == "" then "" else (if IsControl(s[0]) then "" else [s[0]]) + Strip(s[1..])
  }

  /** The first place at which `pat` occurs in `t`. */
  function Find(t: string, pat: string): (k: Option<nat>)
    ensures k.Some? ==> k.value + |pat| <= |t|
  {
    if pat <= t then Some(0)
    else if t == "" then None
    else match Find(t[1..], pat)
      case None => None
      case Some(k) => Some(k + 1)
  }

  predicate IsWord(c: char) {
    'A' <= c <= 'Z' || 'a' <= c <= 'z' || '0' <= c <= '9' || c == '_'
  }

  predicate WordAt(t: string, k: nat) {
    k < |t| && IsWord(t[k])
  }

  /** A match of the icon pattern: its two captures and what follows the match. */
  datatype Match = Match(attrs: string, inner: string, rest: string)

  /** The pattern `open \b (lazy) gt (lazy) close` matched at the start of `t`: each lazy part is taken
      up to its first terminator, which by `MatchIsLazy` is the match that backtracking finds. */
  function MatchAt(t: string, open: string, gt: string, close: string): (m: Option<Match>)
    ensures m.Some? && open != "" ==> |m.value.rest| < |t|
  {
    if !(open <= t) || WordAt(t, |open|) then None else MatchAttributes(t[|open|..], gt, close)
  }

  function MatchAttributes(t: string, gt: string, close: string): (m: Option<Match>)
    ensures m.Some? ==> |m.value.rest| <= |t|
  {
    match Find(t, gt)
    case None => None
    case Some(g) => MatchBody(t[..g], t[g + |gt|..], close)
  }

  function MatchBody(attrs: string, t: string, close: string): (m: Option<Match>)
    ensures m.Some? ==> |m.value.rest| <= |t|
  {
    match Find(t, close)
    case None => None
    case Some(c) => Some(Match(attrs, t[..c], t[c + |close|..]))
  }

  function RawMatch(sh: Shape, m: string): Option<Match> {
    MatchAt(m, sh.open, sh.gt, sh.close)
  }

  /** The pattern is written against escaped text. */
  function EscapedMatch(sh: Shape, t: string): Option<Match> {
    MatchAt(t, Esc(sh.open), Esc(sh.gt), Esc(sh.close))
  }

  predicate GoodPatterns(sh: Shape) {
    sh.open != "" && sh.open[0] == '<' && sh.gt != "" && sh.gt[0] == '>' && sh.close != "" && sh.close[0] == '<'
  }

  /** `.replace(pattern, f)` with the global flag: replace from left to right, skip the rest. */
  function Rebuild(table: Table, sh: Shape, t: string): string
    requires Esc(sh.open) != ""
    decreases |t|
  {
    if t == "" then ""
    else match EscapedMatch(sh, t)
      case None => [t[0]] + Rebuild(table, sh, t[1..])
      case Some(m) => Replacement(table, sh, t[..|t| - |m.rest|], m.inner) + Rebuild(table, sh, m.rest)
  }

  function Replacement(table: Table, sh: Shape, whole: string, inner: string): string {
    match NameByBody(table, inner)
    case Some(name) => IconNamed(table, sh, name)
    case None => whole
  }

  function Sanitize(table: Table, message: string): string {
    SvgPatterns();
    Rebuild(table, Svg(), Esc(Strip(message)))
  }

  /** The escaped patterns are the ones the source writes out. */
  lemma SvgPatterns()
    ensures GoodPatterns(Svg())
    ensures Esc(Svg().open) == "&lt;svg" && Esc(Svg().gt) == "&gt;" && Esc(Svg().close) == "&lt;/svg&gt;"
  {
    OpenPattern();
    ClosePattern();
    EscOfOne('>');
  }

  lemma OpenPattern()
    ensures Esc("<svg") == "&lt;svg"
  {
    EscOfOne('<');
    EscOfPlain("svg");
    EscAppend("<", "svg");
    assert "<" + "svg" == "<svg" && "&lt;" + "svg" == "&lt;svg";
  }

  lemma ClosePattern()
    ensures Esc("</svg>") == "&lt;/svg&gt;"
  {
    ClosePatternStart();
    EscOfOne('>');
    EscAppend("</svg", ">");
    assert "</svg" + ">" == "</svg>" && "&lt;/svg" + "&gt;" == "&lt;/svg&gt;";
  }

  lemma ClosePatternStart()
    ensures Esc("</svg") == "&lt;/svg"
  {
    EscOfOne('<');
    EscOfPlain("/svg");
    EscAppend("<", "/svg");
    assert "<" + "/svg" == "</svg" && "&lt;" + "/svg" == "&lt;/svg";
  }

  lemma EscOfOne(c: char)
    ensures Esc([c]) == Entity(c)
  {
    assert [c][1..] == "";
    assert Esc("") == "";
  }

  lemma {:induction false} EscOfPlain(s: string)
    requires forall i :: 0 <= i < |s| ==> Entity(s[i]) == [s[i]]
    ensures Esc(s) == s
  {
    if s != "" {
      EscOfPlain(s[1..]);
      assert [s[0]] + s[1..] == s;
    }
  }

  // ---------------------------------------------------------------- what a lazy match is

  predicate Occurs(t: string, pat: string, k: nat) {
    k <= |t| && pat <= t[k..]
  }

  /** `t` matches the pattern with a first lazy part of length `g` and a second of length `c`. */
  predicate Decomposes(t: string, open: string, gt: string, close: string, g: nat, c: nat) {
    && open <= t && !WordAt(t, |open|)
    && Occurs(t[|open|..], gt, g) && g + |gt| <= |t[|open|..]|
    && Occurs(t[|open|..][g + |gt|..], close, c)
  }

  lemma {:induction false} FindIsFirst(t: string, pat: string)
    ensures match Find(t, pat)
      case Some(k) => Occurs(t, pat, k) && forall j: nat :: j < k ==> !Occurs(t, pat, j)
      case None => forall j: nat :: !Occurs(t, pat, j)
  {
    if !(pat <= t) && t != "" {
      FindIsFirst(t[1..], pat);
      forall j: nat | 0 < j <= |t|
        ensures Occurs(t, pat, j) <==> Occurs(t[1..], pat, j - 1)
      {
        assert t[1..][j - 1..] == t[j..];
      }
    }
  }

  /** A terminator found after a later `gt` is also found after an earlier one. */
  lemma LaterCloses(t: string, gt: string, close: string, g: nat, g': nat, c': nat)
    requires g <= g' && g' + |gt| <= |t| && Occurs(t[g' + |gt|..], close, c')
    ensures Occurs(t[g + |gt|..], close, g' - g + c')
  {
    assert t[g' + |gt|..][c'..] == t[g + |gt|..][g' - g + c'..];
  }

  lemma AttributesAreLazy(t: string, gt: string, close: string, g': nat, c': nat)
    requires Occurs(t, gt, g') && g' + |gt| <= |t| && Occurs(t[g' + |gt|..], close, c')
    ensures MatchAttributes(t, gt, close).Some?
    ensures var m := MatchAttributes(t, gt, close).value;
      |m.attrs| < g' || (|m.attrs| == g' && |m.inner| <= c')
  {
    FindIsFirst(t, gt);
    var g := Find(t, gt).value;
    assert g <= g';
    LaterCloses(t, gt, close, g, g', c');
    FindIsFirst(t[g + |gt|..], close);
  }

  lemma AttributesDecompose(t: string, gt: string, close: string)
    requires MatchAttributes(t, gt, close).Some?
    ensures var m := MatchAttributes(t, gt, close).value;
      && Occurs(t, gt, |m.attrs|) && |m.attrs| + |gt| <= |t|
      && Occurs(t[|m.attrs| + |gt|..], close, |m.inner|)
      && t == m.attrs + gt + (m.inner + close + m.rest)
  {
    AttributesCover(t, gt, close);
    FindIsFirst(t, gt);
    FindIsFirst(t[Find(t, gt).value + |gt|..], close);
  }

  /** The match is the lazy one: there is a match exactly when the text decomposes at all, and it is
      the decomposition whose first lazy part is shortest and, for that, whose second is. */
  lemma MatchIsLazy(t: string, open: string, gt: string, close: string, g: nat, c: nat)
    ensures MatchAt(t, open, gt, close) == None ==> !Decomposes(t, open, gt, close, g, c)
    ensures MatchAt(t, open, gt, close).Some? ==>
      var m := MatchAt(t, open, gt, close).value;
      && Decomposes(t, open, gt, close, |m.attrs|, |m.inner|)
      && t == open + (m.attrs + gt + (m.inner + close + m.rest))
      && (Decomposes(t, open, gt, close, g, c) ==> |m.attrs| < g || (|m.attrs| == g && |m.inner| <= c))
  {
    if Decomposes(t, open, gt, close, g, c) { AttributesAreLazy(t[|open|..], gt, close, g, c); }
    if MatchAt(t, open, gt, close).Some? {
      AttributesDecompose(t[|open|..], gt, close);
      assert t == open + t[|open|..];
    }
  }

  /** A longer tag name is no icon: no match starts where the name goes on. */
  lemma NoMatchInLongerName(m: string)
    requires "<svg" <= m && |m| > 4
    requires 'a' <= m[4] <= 'z' || 'A' <= m[4] <= 'Z' || '0' <= m[4] <= '9' || m[4] == '_'
    ensures RawMatch(Svg(), m) == None
  {
    assert Svg().open == "<svg" && |Svg().open| == 4;
  }

  // ---------------------------------------------------------------- searching escaped text

  lemma CutAround(t: string, q: string, k: nat)
    requires k + |q| <= |t| && q <= t[k..]
    ensures t[k..][..|q|] == q && t == t[..k] + q + t[k + |q|..]
  {
    assert t[k..][|q|..] == t[k + |q|..];
    assert t == t[..k] + t[k..];
  }

  lemma FindSplits(t: string, q: string)
    requires Find(t, q).Some?
    ensures var k := Find(t, q).value; t[k..][..|q|] == q && t == t[..k] + q + t[k + |q|..]
  {
    FindIsFirst(t, q);
    CutAround(t, q, Find(t, q).value);
  }

  lemma EntityIsPrefixFree(c: char, d: char, s: string, t: string)
    ensures Entity(c) + s <= Entity(d) + t <==> c == d && s <= t
  {
    var a, b := Entity(c), Entity(d);
    if c == d {
      SamePrefix(a, s, t);
    } else {
      assert a[0] != b[0] || a[1] != b[1] || a[2] != b[2];
      assert forall i :: 0 <= i < |a| ==> (a + s)[i] == a[i];
      assert forall i :: 0 <= i < |b| ==> (b + t)[i] == b[i];
    }
  }

  lemma SamePrefix(a: string, s: string, t: string)
    ensures a + s <= a + t <==> s <= t
  {
    assert (a + s)[|a|..] == s && (a + t)[|a|..] == t;
    assert s <= t ==> a + t == (a + s) + t[|s|..];
    if a + s <= a + t {
      assert (a + t)[..|a + s|] == a + s;
      assert t[..|s|] == (a + t)[..|a + s|][|a|..];
    }
  }

  /** Escaping keeps the prefix relation, both ways. */
  lemma {:induction false} EscPrefix(q: string, m: string)
    ensures Esc(q) <= Esc(m) <==> q <= m
  {
    if q != "" && m != "" {
      EscPrefix(q[1..], m[1..]);
      EntityIsPrefixFree(q[0], m[0], Esc(q[1..]), Esc(m[1..]));
      assert q == [q[0]] + q[1..] && m == [m[0]] + m[1..];
    }
  }

  /** An escaped pattern that starts with a reference is not found inside plain characters. */
  lemma {:induction false} FindSkips(u: string, v: string, pat: string)
    requires '&' !in u && pat != "" && pat[0] == '&'
    ensures Find(u + v, pat) == Later(Find(v, pat), |u|)
  {
    if u == "" {
      assert u + v == v;
    } else {
      assert (u + v)[1..] == u[1..] + v && (u + v)[0] == u[0];
      FindSkips(u[1..], v, pat);
    }
  }

  function Later(k: Option<nat>, n: nat): Option<nat> {
    if k.None? then None else Some(k.value + n)
  }

  /** Where a position of the text is in the escaped text. */
  function Escaped(m: string, k: Option<nat>): Option<nat>
    requires k.Some? ==> k.value <= |m|
  {
    if k.None? then None else Some(|Esc(m[..k.value])|)
  }

  lemma EscapedLater(m: string, k: Option<nat>)
    requires m != "" && (k.Some? ==> k.value < |m|)
    ensures Escaped(m, Later(k, 1)) == Later(Escaped(m[1..], k), |Entity(m[0])|)
  {
    if k.Some? { assert m[..k.value + 1][1..] == m[1..][..k.value]; }
  }

  /** Searching the escaped text is searching the text. */
  lemma {:induction false} FindInEscaped(m: string, q: string)
    requires q != "" && q[0] in {'<', '>'}
    ensures Find(Esc(m), Esc(q)) == Escaped(m, Find(m, q))
  {
    EscPrefix(q, m);
    if m != "" && !(q <= m) {
      FindInEscaped(m[1..], q);
      FindPastFirst(m, q);
      EscapedLater(m, Find(m[1..], q));
      assert Find(m, q) == Later(Find(m[1..], q), 1);
    }
  }

  lemma FindPastHead(e: string, rest: string, pat: string)
    requires e != "" && '&' !in e[1..] && pat != "" && pat[0] == '&' && !(pat <= e + rest)
    ensures Find(e + rest, pat) == Later(Find(rest, pat), |e|)
  {
    assert (e + rest)[1..] == e[1..] + rest;
    FindSkips(e[1..], rest, pat);
  }

  lemma EntityTailIsPlain(c: char)
    ensures '&' !in Entity(c)[1..]
    ensures c in {'<', '>'} ==> Entity(c)[0] == '&'
  {
  }

  lemma FindPastFirst(m: string, q: string)
    requires q != "" && q[0] in {'<', '>'} && m != "" && !(Esc(q) <= Esc(m))
    ensures Find(Esc(m), Esc(q)) == Later(Find(Esc(m[1..]), Esc(q)), |Entity(m[0])|)
  {
    EntityTailIsPlain(m[0]);
    EntityTailIsPlain(q[0]);
    FindPastHead(Entity(m[0]), Esc(m[1..]), Esc(q));
  }

  lemma EscSplit(m: string, k: nat)
    requires k <= |m|
    ensures Esc(m) == Esc(m[..k]) + Esc(m[k..])
    ensures Esc(m)[..|Esc(m[..k])|] == Esc(m[..k]) && Esc(m)[|Esc(m[..k])|..] == Esc(m[k..])
  {
    EscAppend(m[..k], m[k..]);
    assert m[..k] + m[k..] == m;
  }

  lemma WordInEscaped(m: string, k: nat)
    requires k <= |m|
    ensures WordAt(Esc(m), |Esc(m[..k])|) <==> WordAt(m, k)
  {
    EscSplit(m, k);
    if |m| > k {
      assert Esc(m[k..])[0] == Entity(m[k])[0];
    } else {
      assert m[k..] == "";
    }
  }

  function EscMatch(x: Option<Match>): Option<Match> {
    if x.None? then None else Some(Match(Esc(x.value.attrs), Esc(x.value.inner), Esc(x.value.rest)))
  }

  /** Cutting escaped text at the first occurrence of an escaped pattern. */
  lemma CutInEscaped(m: string, q: string)
    requires q != "" && q[0] in {'<', '>'} && Find(m, q).Some?
    ensures var k := Find(m, q).value;
      && Find(Esc(m), Esc(q)) == Some(|Esc(m[..k])|)
      && Esc(m)[..|Esc(m[..k])|] == Esc(m[..k])
      && Esc(m)[|Esc(m[..k])| + |Esc(q)|..] == Esc(m[k + |q|..])
      && m == m[..k] + q + m[k + |q|..]
  {
    var k := Find(m, q).value;
    FindInEscaped(m, q);
    var n := k + |q|;
    FindSplits(m, q);
    EscSplit(m, k);
    EscSplit(m, n);
    assert m[..n] == m[..k] + q;
    EscAppend(m[..k], q);
  }

  lemma BodyStep(attrs: string, t: string, close: string, c: nat, inner: string, rest: string)
    requires Find(t, close) == Some(c) && c + |close| <= |t| && t[..c] == inner && t[c + |close|..] == rest
    ensures MatchBody(attrs, t, close) == Some(Match(attrs, inner, rest))
  {
  }

  lemma BodyInEscaped(attrs: string, t: string, close: string)
    requires close != "" && close[0] in {'<', '>'}
    ensures MatchBody(Esc(attrs), Esc(t), Esc(close)) == EscMatch(MatchBody(attrs, t, close))
  {
    FindInEscaped(t, close);
    if Find(t, close).Some? {
      var c := Find(t, close).value;
      CutInEscaped(t, close);
      BodyStep(Esc(attrs), Esc(t), Esc(close), |Esc(t[..c])|, Esc(t[..c]), Esc(t[c + |close|..]));
    }
  }

  lemma AttributesStep(t: string, gt: string, close: string, g: nat, attrs: string, t2: string)
    requires Find(t, gt) == Some(g) && g + |gt| <= |t| && t[..g] == attrs && t[g + |gt|..] == t2
    ensures MatchAttributes(t, gt, close) == MatchBody(attrs, t2, close)
  {
    assert MatchAttributes(t, gt, close) == MatchBody(t[..g], t[g + |gt|..], close);
  }

  lemma AttributesInEscaped(t: string, gt: string, close: string)
    requires gt != "" && gt[0] in {'<', '>'} && close != "" && close[0] in {'<', '>'}
    ensures MatchAttributes(Esc(t), Esc(gt), Esc(close)) == EscMatch(MatchAttributes(t, gt, close))
  {
    FindInEscaped(t, gt);
    if Find(t, gt).Some? {
      var g := Find(t, gt).value;
      CutInEscaped(t, gt);
      AttributesStep(Esc(t), Esc(gt), Esc(close), |Esc(t[..g])|, Esc(t[..g]), Esc(t[g + |gt|..]));
      BodyInEscaped(t[..g], t[g + |gt|..], close);
    }
  }

  lemma OpenStep(t: string, open: string, gt: string, close: string, t1: string)
    requires open <= t && !WordAt(t, |open|) && t[|open|..] == t1
    ensures MatchAt(t, open, gt, close) == MatchAttributes(t1, gt, close)
  {
  }

  /** The pattern matches the escaped text exactly where its raw form matches the text. */
  lemma MatchInEscaped(sh: Shape, m: string)
    requires GoodPatterns(sh)
    ensures EscapedMatch(sh, Esc(m)) == EscMatch(RawMatch(sh, m))
  {
    EscPrefix(sh.open, m);
    if sh.open <= m {
      var n := |sh.open|;
      assert m[..n] == sh.open;
      EscSplit(m, n);
      WordInEscaped(m, n);
      if !WordAt(m, n) {
        OpenStep(Esc(m), Esc(sh.open), Esc(sh.gt), Esc(sh.close), Esc(m[n..]));
        AttributesInEscaped(m[n..], sh.gt, sh.close);
      }
    }
  }

  lemma Regroup(a: string, b: string, c: string, d: string, e: string, f: string)
    ensures a + (b + c + (d + e + f)) == a + b + c + d + e + f
  {
  }

  lemma BodyCovers(attrs: string, t: string, close: string)
    requires MatchBody(attrs, t, close).Some?
    ensures var x := MatchBody(attrs, t, close).value; x.attrs == attrs && t == x.inner + close + x.rest
  {
    FindSplits(t, close);
  }

  lemma AttributesCover(t: string, gt: string, close: string)
    requires MatchAttributes(t, gt, close).Some?
    ensures var x := MatchAttributes(t, gt, close).value; t == x.attrs + gt + (x.inner + close + x.rest)
  {
    var g := Find(t, gt).value;
    FindSplits(t, gt);
    BodyCovers(t[..g], t[g + |gt|..], close);
  }

  lemma RawMatchCovers(sh: Shape, m: string)
    requires RawMatch(sh, m).Some?
    ensures var x := RawMatch(sh, m).value; m == Wrapped(sh, x.attrs, x.inner) + x.rest
  {
    var t := m[|sh.open|..];
    var x := RawMatch(sh, m).value;
    assert m == sh.open + t;
    AttributesCover(t, sh.gt, sh.close);
    Regroup(sh.open, x.attrs, sh.gt, x.inner, sh.close, x.rest);
  }

  // ---------------------------------------------------------------- what the output is made of

  /** A message piece: text that stays escaped, or raw markup that is replaced by an icon. */
  datatype Piece = Text(text: string) | IconText(attrs: string, body: string)

  function Source(sh: Shape, p: Piece): string {
    match p
    case Text(t) => t
    case IconText(attrs, body) => Wrapped(sh, attrs, body)
  }

  function Shown(sh: Shape, p: Piece): string {
    match p
    case Text(t) => Esc(t)
    case IconText(_, body) => Markup(sh, body)
  }

  function Sources(sh: Shape, ps: seq<Piece>): string {
    if ps == [] then "" else Source(sh, ps[0]) + Sources(sh, ps[1..])
  }

  function ShownAll(sh: Shape, ps: seq<Piece>): string {
    if ps == [] then "" else Shown(sh, ps[0]) + ShownAll(sh, ps[1..])
  }

  predicate IsIconBody(table: Table, body: string) {
    exists i :: 0 <= i < |table| && table[i].body == body
  }

  predicate OnlyTableIcons(table: Table, ps: seq<Piece>) {
    forall i :: 0 <= i < |ps| && ps[i].IconText? ==> IsIconBody(table, ps[i].body)
  }

  lemma {:induction false} LookupFindsBody(table: Table, i: nat)
    requires WellFormed(table) && i < |table|
    ensures BodyOf(table, table[i].name) == table[i].body
  {
    if i > 0 { LookupFindsBody(table[1..], i - 1); }
  }

  lemma {:induction false} LookupByBody(table: Table, body: string) returns (i: nat)
    ensures match NameByBody(table, Esc(body))
      case None => !IsIconBody(table, body)
      case Some(name) => i < |table| && table[i].body == body && table[i].name == name
    decreases |table|
  {
    i := 0;
    if table != [] {
      var n := |table| - 1;
      i := LookupByBody(table[..n], body);
      if Esc(table[n].body) == Esc(body) {
        EscInjective(table[n].body, body);
        i := n;
      } else if NameByBody(table[..n], Esc(body)).None? {
        assert forall j :: 0 <= j < n ==> table[..n][j] == table[j];
      }
    }
  }

  /** The replacement chosen for a captured body is that body's own icon, or the match itself. */
  lemma ReplacementIsOwnIcon(table: Table, sh: Shape, whole: string, body: string)
    requires WellFormed(table)
    ensures Replacement(table, sh, whole, Esc(body)) == if IsIconBody(table, body) then Markup(sh, body) else whole
  {
    var i := LookupByBody(table, body);
    if NameByBody(table, Esc(body)).Some? { LookupFindsBody(table, i); }
  }

  lemma RebuildFirst(table: Table, sh: Shape, t: string, c: char, tail: string)
    requires GoodPatterns(sh) && t != "" && EscapedMatch(sh, t).None? && t[0] == c && t[1..] == tail
    ensures Rebuild(table, sh, t) == [c] + Rebuild(table, sh, tail)
  {
  }

  lemma NoMatchAtPlain(sh: Shape, t: string)
    requires GoodPatterns(sh) && t != "" && t[0] != '&'
    ensures EscapedMatch(sh, t).None?
  {
    EntityTailIsPlain('<');
    assert Esc(sh.open)[0] == '&';
  }

  lemma {:induction false} RebuildSkips(table: Table, sh: Shape, u: string, v: string)
    requires GoodPatterns(sh) && '&' !in u
    ensures Rebuild(table, sh, u + v) == u + Rebuild(table, sh, v)
  {
    if u == "" {
      assert u + v == v;
    } else {
      assert (u + v)[1..] == u[1..] + v && (u + v)[0] == u[0];
      NoMatchAtPlain(sh, u + v);
      RebuildFirst(table, sh, u + v, u[0], u[1..] + v);
      RebuildSkips(table, sh, u[1..], v);
      Regroup2(u[0], u[1..], Rebuild(table, sh, v), u);
    }
  }

  lemma RebuildAtMatch(table: Table, sh: Shape, m: string)
    requires WellFormed(table) && GoodPatterns(sh) && RawMatch(sh, m).Some?
    ensures var x := RawMatch(sh, m).value;
      Rebuild(table, sh, Esc(m))
      == (if IsIconBody(table, x.inner) then Markup(sh, x.inner) else Esc(Wrapped(sh, x.attrs, x.inner)))
         + Rebuild(table, sh, Esc(x.rest))
  {
    var x := RawMatch(sh, m).value;
    var whole := Wrapped(sh, x.attrs, x.inner);
    MatchInEscaped(sh, m);
    RawMatchCovers(sh, m);
    EscAppend(whole, x.rest);
    assert Esc(m)[..|Esc(m)| - |Esc(x.rest)|] == Esc(whole);
    ReplacementIsOwnIcon(table, sh, Esc(whole), x.inner);
  }

  lemma RebuildPastHead(table: Table, sh: Shape, e: string, rest: string)
    requires GoodPatterns(sh) && e != "" && '&' !in e[1..] && EscapedMatch(sh, e + rest).None?
    ensures Rebuild(table, sh, e + rest) == e + Rebuild(table, sh, rest)
  {
    RebuildFirst(table, sh, e + rest, e[0], e[1..] + rest);
    RebuildSkips(table, sh, e[1..], rest);
    Regroup2(e[0], e[1..], Rebuild(table, sh, rest), e);
  }

  lemma Regroup2(c: char, u: string, v: string, e: string)
    requires e == [c] + u
    ensures [c] + (u + v) == e + v
  {
  }

  lemma RebuildAtPlain(table: Table, sh: Shape, m: string)
    requires GoodPatterns(sh) && m != "" && RawMatch(sh, m).None?
    ensures Rebuild(table, sh, Esc(m)) == Entity(m[0]) + Rebuild(table, sh, Esc(m[1..]))
  {
    MatchInEscaped(sh, m);
    EntityTailIsPlain(m[0]);
    RebuildPastHead(table, sh, Entity(m[0]), Esc(m[1..]));
  }

  lemma PieceFirst(table: Table, sh: Shape, p: Piece, ps: seq<Piece>)
    requires OnlyTableIcons(table, ps) && (p.IconText? ==> IsIconBody(table, p.body))
    ensures Sources(sh, [p] + ps) == Source(sh, p) + Sources(sh, ps)
    ensures ShownAll(sh, [p] + ps) == Shown(sh, p) + ShownAll(sh, ps)
    ensures OnlyTableIcons(table, [p] + ps)
  {
    assert ([p] + ps)[1..] == ps;
  }

  lemma {:induction false} RebuildInPieces(table: Table, sh: Shape, m: string) returns (ps: seq<Piece>)
    requires WellFormed(table) && GoodPatterns(sh)
    ensures Sources(sh, ps) == m && ShownAll(sh, ps) == Rebuild(table, sh, Esc(m)) && OnlyTableIcons(table, ps)
    decreases |m|
  {
    if m == "" {
      ps := [];
    } else {
      var head, rest := FirstPiece(table, sh, m);
      var tail := RebuildInPieces(table, sh, rest);
      PieceFirst(table, sh, head, tail);
      ps := [head] + tail;
    }
  }

  lemma FirstIsChar(table: Table, sh: Shape, m: string)
    requires GoodPatterns(sh) && m != "" && RawMatch(sh, m).None?
    ensures m == Source(sh, Text([m[0]])) + m[1..]
    ensures Rebuild(table, sh, Esc(m)) == Shown(sh, Text([m[0]])) + Rebuild(table, sh, Esc(m[1..]))
  {
    RebuildAtPlain(table, sh, m);
    EscOfOne(m[0]);
  }

  function PieceAtMatch(table: Table, sh: Shape, x: Match): Piece {
    if IsIconBody(table, x.inner) then IconText(x.attrs, x.inner) else Text(Wrapped(sh, x.attrs, x.inner))
  }

  lemma FirstIsMatch(table: Table, sh: Shape, m: string)
    requires WellFormed(table) && GoodPatterns(sh) && RawMatch(sh, m).Some?
    ensures var x := RawMatch(sh, m).value;
      var p := PieceAtMatch(table, sh, x);
      && |x.rest| < |m| && m == Source(sh, p) + x.rest
      && Rebuild(table, sh, Esc(m)) == Shown(sh, p) + Rebuild(table, sh, Esc(x.rest))
  {
    RawMatchCovers(sh, m);
    RebuildAtMatch(table, sh, m);
  }

  lemma FirstPiece(table: Table, sh: Shape, m: string) returns (p: Piece, rest: string)
    requires WellFormed(table) && GoodPatterns(sh) && m != ""
    ensures |rest| < |m| && m == Source(sh, p) + rest && (p.IconText? ==> IsIconBody(table, p.body))
    ensures Rebuild(table, sh, Esc(m)) == Shown(sh, p) + Rebuild(table, sh, Esc(rest))
  {
    if RawMatch(sh, m).None? {
      FirstIsChar(table, sh, m);
      p, rest := Text([m[0]]), m[1..];
    } else {
      FirstIsMatch(table, sh, m);
      p, rest := PieceAtMatch(table, sh, RawMatch(sh, m).value), RawMatch(sh, m).value.rest;
    }
  }

  /** Whatever the message, the output is fully escaped text interleaved with exact icons of the
      table: the message, without its control characters, splits into pieces each of which is
      shown escaped or is `<svg ...>body</svg>` for a table body, shown as that icon rebuilt. */
  lemma OutputIsTextAndIcons(table: Table, message: string) returns (ps: seq<Piece>)
    requires WellFormed(table)
    ensures Sources(Svg(), ps) == Strip(message)
    ensures Sanitize(table, message) == ShownAll(Svg(), ps)
    ensures OnlyTableIcons(table, ps)
  {
    SvgPatterns();
    ps := RebuildInPieces(table, Svg(), Strip(message));
  }

  // ---------------------------------------------------------------- icons come through

  predicate Contains(s: string, pat: string) {
    exists k :: 0 <= k <= |s| && pat <= s[k..]
  }

  predicate ControlFree(s: string) {
    forall i :: 0 <= i < |s| ==> !IsControl(s[i])
  }

  lemma {:induction false} StripKeeps(s: string)
    requires ControlFree(s)
    ensures Strip(s) == s
  {
    if s != "" { StripKeeps(s[1..]); }
  }

  /** The characters that are removed: the C0 controls other than tab, line feed and carriage return,
      and DEL. */
  predicate Removed(c: char) {
    (c < ' ' && c !in {'\t', '\n', '\r'}) || c == '\U{007F}'
  }

  /** Exactly those characters go. */
  lemma {:induction false} StripRemoves(s: string, c: char)
    ensures c in Strip(s) <==> c in s && !Removed(c)
  {
    if s != "" { StripRemoves(s[1..], c); }
  }

  /** A message without icons is shown as its escaped text, which holds no markup. */
  lemma PlainMessageIsEscaped(table: Table, message: string)
    requires (forall c :: c in message ==> !Removed(c)) && !Contains(message, "<svg")
    ensures Sanitize(table, message) == Esc(message)
    ensures forall c :: c in Sanitize(table, message) ==> c !in {'<', '>', '"', '\''}
  {
    assert forall i :: 0 <= i < |message| ==> !Removed(message[i]);
    StripKeeps(message);
    SvgPatterns();
    TextWithoutOpen(table, Svg(), message);
    EscIsInert(message);
  }

  /** What the round trip of an icon needs of the wrapper. */
  predicate GoodShape(sh: Shape) {
    && GoodPatterns(sh) && !WordAt(sh.attrs + sh.gt, 0) && |sh.gt| == 1
    && PlainAttributes(sh.attrs, sh.gt[0])
    && (forall j :: 0 < j < |sh.close| ==> sh.close[j] != sh.close[0])
    && ControlFree(sh.open) && ControlFree(sh.gt) && ControlFree(sh.close)
  }

  predicate PlainAttributes(s: string, gt: char) {
    forall i :: 0 <= i < |s| ==> !IsControl(s[i]) && s[i] != gt
  }

  lemma PlainAppend(s: string, t: string, gt: char)
    requires PlainAttributes(s, gt) && PlainAttributes(t, gt)
    ensures PlainAttributes(s + t, gt)
  {
  }

  lemma SizingIsPlain()
    ensures PlainAttributes(Sizing(), '>') && |Sizing()| > 0 && Sizing()[0] == ' '
  {
    PlainAppend(" class=\"icon \"", " viewBox=\"0 0 24 24\"", '>');
  }

  lemma ColorsArePlain()
    ensures PlainAttributes(Colors(), '>')
  {
    PlainAppend(" fill=\"none\"", " stroke=\"currentColor\"", '>');
  }

  lemma StrokeIsPlain()
    ensures PlainAttributes(Stroke(), '>')
  {
    PlainAppend(" stroke-width=\"2\"", " stroke-linecap=\"round\"", '>');
  }

  lemma EndingIsPlain()
    ensures PlainAttributes(Ending(), '>')
  {
    PlainAppend(" stroke-linejoin=\"round\"", " aria-hidden=\"true\"", '>');
  }

  lemma PlainFour(a: string, b: string, c: string, d: string)
    requires PlainAttributes(a, '>') && PlainAttributes(b, '>') && PlainAttributes(c, '>') && PlainAttributes(d, '>')
    requires |a| > 0 && a[0] == ' '
    ensures var s := (a + b) + (c + d); PlainAttributes(s, '>') && |s| > 0 && s[0] == ' '
  {
    PlainAppend(a, b, '>');
    PlainAppend(c, d, '>');
    PlainAppend(a + b, c + d, '>');
  }

  lemma AttributesArePlain()
    ensures PlainAttributes(Attributes(), '>') && |Attributes()| > 0 && Attributes()[0] == ' '
  {
    SizingIsPlain();
    ColorsArePlain();
    StrokeIsPlain();
    EndingIsPlain();
    PlainFour(Sizing(), Colors(), Stroke(), Ending());
  }

  lemma SvgIsGoodShape()
    ensures GoodShape(Svg())
  {
    SvgPatterns();
    AttributesArePlain();
  }

  lemma ContainedInTail(s: string, pat: string)
    requires s != "" && !Contains(s, pat)
    ensures !Contains(s[1..], pat) && !(pat <= s)
  {
    assert s[0..] == s;
    assert forall k :: 0 <= k <= |s[1..]| ==> s[1..][k..] == s[k + 1..];
  }

  /** A pattern whose first character does not recur in it is first found where it is put. */
  lemma {:induction false} FindAfter(s: string, pat: string, rest: string)
    requires pat != "" && !Contains(s, pat)
    requires forall j :: 0 < j < |pat| ==> pat[j] != pat[0]
    ensures Find(s + (pat + rest), pat) == Some(|s|)
  {
    var t := s + (pat + rest);
    if s == "" {
      assert t == pat + rest;
    } else {
      assert t[1..] == s[1..] + (pat + rest);
      ContainedInTail(s, pat);
      FindAfter(s[1..], pat, rest);
      assert t[|s|] == pat[0];
      assert |pat| <= |s| ==> t[..|pat|] == s[..|pat|];
    }
  }

  lemma {:induction false} TextWithoutOpen(table: Table, sh: Shape, text: string)
    requires GoodPatterns(sh) && !Contains(text, sh.open)
    ensures Rebuild(table, sh, Esc(text)) == Esc(text)
  {
    if text != "" {
      ContainedInTail(text, sh.open);
      TextWithoutOpen(table, sh, text[1..]);
      RebuildAtPlain(table, sh, text);
    }
  }

  lemma AttributesEndAt(sh: Shape, after: string)
    requires GoodShape(sh)
    ensures var t := sh.attrs + (sh.gt + after);
      MatchAttributes(t, sh.gt, sh.close) == MatchBody(sh.attrs, after, sh.close)
  {
    var t := sh.attrs + (sh.gt + after);
    assert !Contains(sh.attrs, sh.gt) by {
      assert forall k :: 0 <= k <= |sh.attrs| && sh.gt <= sh.attrs[k..] ==> sh.attrs[k] == sh.gt[0];
    }
    FindAfter(sh.attrs, sh.gt, after);
    assert t[..|sh.attrs|] == sh.attrs && t[|sh.attrs| + |sh.gt|..] == after;
    AttributesStep(t, sh.gt, sh.close, |sh.attrs|, sh.attrs, after);
  }

  lemma BodyEndsAt(sh: Shape, body: string, text: string)
    requires GoodShape(sh) && !Contains(body, sh.close)
    ensures MatchBody(sh.attrs, body + (sh.close + text), sh.close) == Some(Match(sh.attrs, body, text))
  {
    var after := body + (sh.close + text);
    FindAfter(body, sh.close, text);
    assert after[..|body|] == body && after[|body| + |sh.close|..] == text;
    BodyStep(sh.attrs, after, sh.close, |body|, body, text);
  }

  lemma MatchOfMarkup(sh: Shape, body: string, text: string)
    requires GoodShape(sh) && !Contains(body, sh.close)
    ensures RawMatch(sh, Markup(sh, body) + text) == Some(Match(sh.attrs, body, text))
  {
    var after := body + (sh.close + text);
    MarkupSplits(sh, body, text);
    OpenStep(Markup(sh, body) + text, sh.open, sh.gt, sh.close, sh.attrs + (sh.gt + after));
    AttributesEndAt(sh, after);
    BodyEndsAt(sh, body, text);
  }

  lemma MarkupSplits(sh: Shape, body: string, text: string)
    requires GoodShape(sh)
    ensures var m := Markup(sh, body) + text;
      && sh.open <= m && !WordAt(m, |sh.open|)
      && m[|sh.open|..] == sh.attrs + (sh.gt + (body + (sh.close + text)))
  {
    var m := Markup(sh, body) + text;
    assert WordAt(m, |sh.open|) == WordAt(sh.attrs + sh.gt, 0);
  }

  lemma IconThenText(table: Table, sh: Shape, body: string, text: string)
    requires WellFormed(table) && GoodShape(sh) && IsIconBody(table, body)
    requires !Contains(body, sh.close) && !Contains(text, sh.open)
    ensures Rebuild(table, sh, Esc(Markup(sh, body) + text)) == Markup(sh, body) + Esc(text)
  {
    MatchOfMarkup(sh, body, text);
    RebuildAtMatch(table, sh, Markup(sh, body) + text);
    TextWithoutOpen(table, sh, text);
  }

  lemma MarkupIsControlFree(sh: Shape, body: string, text: string)
    requires GoodShape(sh) && ControlFree(body) && ControlFree(text)
    ensures ControlFree(Markup(sh, body) + text)
  {
  }

  /** The toasts the application builds show their icon: sanitizing `icon(n) + text` gives
      `icon(n)` followed by the escaped text. */
  lemma IconAndTextComeThrough(table: Table, i: nat, text: string)
    requires WellFormed(table) && i < |table|
    requires ControlFree(table[i].body) && !Contains(table[i].body, "</svg>")
    requires ControlFree(text) && !Contains(text, "<svg")
    ensures Sanitize(table, IconNamed(table, Svg(), table[i].name) + text)
         == IconNamed(table, Svg(), table[i].name) + Esc(text)
  {
    var body := table[i].body;
    SvgIsGoodShape();
    SvgPatterns();
    LookupFindsBody(table, i);
    MarkupIsControlFree(Svg(), body, text);
    StripKeeps(Markup(Svg(), body) + text);
    IconThenText(table, Svg(), body, text);
  }
}
