/** `createSimpleLexer`: a lexer cuts its source into tokens, styles each one, and
    hands the middle of an embedded-language token to another lexer and the two ends
    back to itself. Regular expressions are parameters. */
module Lexing {
  import opened Basics
  import opened HtmlText
  import opened Recombine

  const PR_PLAIN := "pln"
  const PR_SOURCE := "src"

  /** The result of `token.match(regex)`: none, or one whose first group may be undefined. */
  datatype Match = NoMatch | Matched(group: Option<string>)

  datatype Pattern = Pattern(style: string, regex: string -> Match, shortcut: string)

  /** What `createSimpleLexer` closes over. */
  datatype Lexer = Lexer(
    shortcutPatterns: seq<Pattern>,
    fallthroughPatterns: seq<Pattern>,
    tokenize: string -> seq<string>)

  /** The registry of language handlers, and how deep a lexer may delegate a whole token. */
  datatype Grammar = Grammar(lexers: map<string, Lexer>, isSpace: char -> bool, rank: string -> nat)

  datatype Class = Plain(style: string) | Embedded(lang: string, group: string)

  /** Later patterns win a shortcut character; all characters of one pattern are alike. */
  function Shortcut(patterns: seq<Pattern>, c: char): Option<Pattern> {
    if patterns == [] then None
    else
      var last := patterns[|patterns| - 1];
      if c in last.shortcut then Some(last) else Shortcut(patterns[..|patterns| - 1], c)
  }

  function FirstMatch(patterns: seq<Pattern>, token: string): (string, Match) {
    if patterns == [] then (PR_PLAIN, NoMatch)
    else
      var m := patterns[0].regex(token);
      if m.Matched? then (patterns[0].style, m) else FirstMatch(patterns[1..], token)
  }

  /** The style a token gets, a function of its text. */
  function Classify(lexer: Lexer, token: string): Class
    requires token != []
  {
    var shortcut := Shortcut(lexer.shortcutPatterns + lexer.fallthroughPatterns, token[0]);
    var found := match shortcut
      case Some(p) => (p.style, p.regex(token))
      case None => FirstMatch(lexer.fallthroughPatterns, token);
    ClassOf(found.0, found.1)
  }

  function ClassOf(style: string, m: Match): Class {
    if |style| >= 5 && style[..5] == "lang-" then
      if m.Matched? && m.group.Some? && m.group.value != [] then Embedded(style[5..], m.group.value)
      else Plain(PR_SOURCE)
    else Plain(style)
  }

  /** `/^\s*</.test(source)`. */
  predicate LooksLikeMarkup(grammar: Grammar, source: string) {
    source != [] && (source[0] == '<' || (grammar.isSpace(source[0]) && LooksLikeMarkup(grammar, source[1..])))
  }

  /** `langHandlerForExtension`. */
  function LangHandlerForExtension(grammar: Grammar, extension: string, source: string): string {
    if extension != "" && extension in grammar.lexers then extension
    else if LooksLikeMarkup(grammar, source) then "default-markup" else "default-code"
  }

  // ---- which pattern and which lexer decide ----

  /** Pattern k matches, and no earlier one does. */
  predicate FirstToMatch(patterns: seq<Pattern>, token: string, k: nat) {
    && k < |patterns| && patterns[k].regex(token).Matched?
    && forall j :: 0 <= j < k ==> !patterns[j].regex(token).Matched?
  }

  predicate NoneMatches(patterns: seq<Pattern>, token: string) {
    forall j :: 0 <= j < |patterns| ==> !patterns[j].regex(token).Matched?
  }

  /** Pattern k lists the character as a shortcut, and no later one does. */
  predicate LastToList(patterns: seq<Pattern>, c: char, k: nat) {
    k < |patterns| && c in patterns[k].shortcut && forall j :: k < j < |patterns| ==> c !in patterns[j].shortcut
  }

  predicate NoneLists(patterns: seq<Pattern>, c: char) {
    forall j :: 0 <= j < |patterns| ==> c !in patterns[j].shortcut
  }

  /** The class that a style and a match amount to: an embedded language needs a group with
      some text. */
  predicate Amounts(style: string, m: Match, kind: Class) {
    if "lang-" <= style then
      match m
      case Matched(Some(group)) => kind == if group == "" then Plain("src") else Embedded(style[5..], group)
      case _ => kind == Plain("src")
    else kind == Plain(style)
  }

  predicate ByShortcut(patterns: seq<Pattern>, token: string, k: nat, kind: Class) {
    token != [] && LastToList(patterns, token[0], k) && Amounts(patterns[k].style, patterns[k].regex(token), kind)
  }

  predicate ByMatch(patterns: seq<Pattern>, token: string, k: nat, kind: Class) {
    FirstToMatch(patterns, token, k) && Amounts(patterns[k].style, patterns[k].regex(token), kind)
  }

  lemma {:induction false} FirstMatchDecides(patterns: seq<Pattern>, token: string, k: nat)
    ensures FirstToMatch(patterns, token, k) ==>
      FirstMatch(patterns, token) == (patterns[k].style, patterns[k].regex(token))
    ensures NoneMatches(patterns, token) ==> FirstMatch(patterns, token) == ("pln", NoMatch)
    decreases |patterns|
  {
    if patterns != [] && !patterns[0].regex(token).Matched? {
      FirstMatchDecides(patterns[1..], token, if k > 0 then k - 1 else 0);
      if k > 0 && FirstToMatch(patterns, token, k) {
        assert patterns[1..][k - 1] == patterns[k];
        assert FirstToMatch(patterns[1..], token, k - 1);
      }
    }
  }

  lemma {:induction false} ShortcutDecides(patterns: seq<Pattern>, c: char, k: nat)
    ensures LastToList(patterns, c, k) ==> Shortcut(patterns, c) == Some(patterns[k])
    ensures NoneLists(patterns, c) ==> Shortcut(patterns, c) == None
    decreases |patterns|
  {
    if patterns != [] {
      ShortcutDecides(patterns[..|patterns| - 1], c, k);
    }
  }

  lemma {:induction false} SomeFirst(patterns: seq<Pattern>, token: string)
    requires !NoneMatches(patterns, token)
    ensures exists k: nat :: FirstToMatch(patterns, token, k)
    decreases |patterns|
  {
    var init, n := patterns[..|patterns| - 1], |patterns| - 1;
    if NoneMatches(init, token) {
      assert forall j :: 0 <= j < n ==> patterns[j] == init[j];
      assert FirstToMatch(patterns, token, n);
    } else {
      SomeFirst(init, token);
      var k: nat :| FirstToMatch(init, token, k);
      assert forall j :: 0 <= j <= k ==> patterns[j] == init[j];
      assert FirstToMatch(patterns, token, k);
    }
  }

  lemma {:induction false} SomeLast(patterns: seq<Pattern>, c: char)
    requires !NoneLists(patterns, c)
    ensures exists k: nat :: LastToList(patterns, c, k)
    decreases |patterns|
  {
    var init, n := patterns[..|patterns| - 1], |patterns| - 1;
    if c in patterns[n].shortcut {
      assert LastToList(patterns, c, n);
    } else {
      assert !NoneLists(init, c);
      SomeLast(init, c);
      var k: nat :| LastToList(init, c, k);
      assert LastToList(patterns, c, k);
    }
  }

  /** Which pattern styles a token, for every lexer: the last one that lists the token's first
      character, of all patterns; else the first one that matches, of the fallthrough
      patterns; and if there is none, the token is plain. */
  lemma ClassifyIs(lexer: Lexer, token: string)
    requires token != []
    ensures var all, kind := lexer.shortcutPatterns + lexer.fallthroughPatterns, Classify(lexer, token);
      || (exists k: nat :: ByShortcut(all, token, k, kind))
      || (NoneLists(all, token[0])
          && exists k: nat :: ByMatch(lexer.fallthroughPatterns, token, k, kind))
      || (NoneLists(all, token[0]) && NoneMatches(lexer.fallthroughPatterns, token) && kind == Plain("pln"))
  {
    var all, rest := lexer.shortcutPatterns + lexer.fallthroughPatterns, lexer.fallthroughPatterns;
    if NoneLists(all, token[0]) {
      ShortcutDecides(all, token[0], 0);
      if NoneMatches(rest, token) {
        FirstMatchDecides(rest, token, 0);
      } else {
        SomeFirst(rest, token);
        var k: nat :| FirstToMatch(rest, token, k);
        FirstMatchDecides(rest, token, k);
        AmountsTo(rest[k].style, rest[k].regex(token));
        assert ByMatch(rest, token, k, Classify(lexer, token));
      }
    } else {
      SomeLast(all, token[0]);
      var k: nat :| LastToList(all, token[0], k);
      ShortcutDecides(all, token[0], k);
      AmountsTo(all[k].style, all[k].regex(token));
      assert ByShortcut(all, token, k, Classify(lexer, token));
    }
  }

  lemma AmountsTo(style: string, m: Match)
    ensures Amounts(style, m, ClassOf(style, m))
  {
    assert "lang-" <= style <==> |style| >= 5 && style[..5] == "lang-";
  }

  /** Blanks and then a bracket. */
  predicate BracketAt(grammar: Grammar, source: string, k: nat) {
    k < |source| && source[k] == '<' && forall j :: 0 <= j < k ==> grammar.isSpace(source[j])
  }

  lemma {:induction false} MarkupIff(grammar: Grammar, source: string)
    ensures LooksLikeMarkup(grammar, source) <==> exists k: nat :: BracketAt(grammar, source, k)
    decreases |source|
  {
    if source != [] {
      MarkupIff(grammar, source[1..]);
      if k: nat :| BracketAt(grammar, source, k) && k > 0 {
        assert forall j :: 0 <= j < k - 1 ==> source[1..][j] == source[j + 1];
        assert BracketAt(grammar, source[1..], k - 1);
      }
      if k: nat :| BracketAt(grammar, source[1..], k) && grammar.isSpace(source[0]) {
        assert forall j :: 1 <= j <= k + 1 ==> source[j] == source[1..][j - 1];
        assert BracketAt(grammar, source, k + 1);
      }
      if source[0] == '<' {
        assert BracketAt(grammar, source, 0);
      }
    }
  }

  /** The handler registered for an extension; without one, that for markup exactly if the
      first character that is no blank is a bracket. */
  lemma HandlerIs(grammar: Grammar, extension: string, source: string)
    ensures var h := LangHandlerForExtension(grammar, extension, source);
      if extension != "" && extension in grammar.lexers then h == extension
      else if exists k: nat :: BracketAt(grammar, source, k) then h == "default-markup"
      else h == "default-code"
  {
    MarkupIff(grammar, source);
  }

  function Join(tokens: seq<string>): string {
    if tokens == [] then [] else tokens[0] + Join(tokens[1..])
  }

  ghost predicate NonEmpty(tokens: seq<string>) {
    forall i :: 0 <= i < |tokens| ==> tokens[i] != []
  }

  /** A global match whose last alternative takes any character leaves nothing out. */
  ghost predicate Tokenizes(lexer: Lexer) {
    forall source {:trigger lexer.tokenize(source)} ::
      Join(lexer.tokenize(source)) == source && NonEmpty(lexer.tokenize(source))
  }

  /** The text of a group occurs in its token; a handler that takes a whole token has
      a lower rank, so that delegation ends. */
  ghost predicate EmbedsOk(grammar: Grammar, h: string, token: string)
    requires h in grammar.lexers && token != []
  {
    match Classify(grammar.lexers[h], token)
    case Plain(_) => true
    case Embedded(lang, group) =>
      && IndexOf(token, group, 0) >= 0
      && (group == token ==> grammar.rank(LangHandlerForExtension(grammar, lang, group)) < grammar.rank(h))
  }

  ghost predicate WellFormed(grammar: Grammar) {
    && "default-markup" in grammar.lexers && "default-code" in grammar.lexers
    && (forall h {:trigger grammar.lexers[h]} :: h in grammar.lexers ==> Tokenizes(grammar.lexers[h]))
    && (forall h, token {:trigger EmbedsOk(grammar, h, token)} :: h in grammar.lexers && token != [] ==>
        EmbedsOk(grammar, h, token))
  }

  lemma HandlerExists(grammar: Grammar, extension: string, source: string)
    requires WellFormed(grammar)
    ensures LangHandlerForExtension(grammar, extension, source) in grammar.lexers
  {
  }

  // ---- the decorations, without the cache ----

  /** The three parts of an embedded token: before, inside and after the group. */
  function Parts(token: string, group: string): (string, nat, nat)
    requires IndexOf(token, group, 0) >= 0
  {
    var start := IndexOf(token, group, 0);
    (token[..start], start, start + |group|)
  }

  lemma PartsRebuild(token: string, group: string)
    requires group != [] && IndexOf(token, group, 0) >= 0
    ensures var p := Parts(token, group);
      && p.2 <= |token| && |p.0| == p.1 < |token| && |token[p.2..]| < |token| && |group| <= |token|
      && p.0 + group + token[p.2..] == token
      && (|group| == |token| ==> group == token)
  {
    IndexOfIsFirst(token, group, 0);
    var start := IndexOf(token, group, 0);
    assert token[start..start + |group|] == group;
    assert token == token[..start] + token[start..start + |group|] + token[start + |group|..];
  }

  ghost function Decorations(grammar: Grammar, h: string, source: string, basePos: nat): seq<Decoration>
    requires WellFormed(grammar) && h in grammar.lexers
    decreases |source|, grammar.rank(h), |source| + 1
  {
    var tokens := grammar.lexers[h].tokenize(source);
    assert Tokenizes(grammar.lexers[h]);
    [Decoration(basePos, PR_PLAIN)] + TokenDecorations(grammar, h, tokens, basePos, |source|)
  }

  /** The decorations of a list of tokens that together have at most n characters. */
  ghost function TokenDecorations(grammar: Grammar, h: string, tokens: seq<string>, pos: nat, n: nat): seq<Decoration>
    requires WellFormed(grammar) && h in grammar.lexers
    requires |Join(tokens)| <= n && NonEmpty(tokens)
    decreases n, grammar.rank(h), |Join(tokens)|
  {
    if tokens == [] then []
    else
      TokenDecoration(grammar, h, tokens[0], pos, n)
      + TokenDecorations(grammar, h, tokens[1..], pos + |tokens[0]|, n)
  }

  ghost function TokenDecoration(grammar: Grammar, h: string, token: string, pos: nat, n: nat): seq<Decoration>
    requires WellFormed(grammar) && h in grammar.lexers
    requires 0 < |token| <= n
    decreases n, grammar.rank(h), 0
  {
    assert EmbedsOk(grammar, h, token);
    match Classify(grammar.lexers[h], token)
    case Plain(style) => [Decoration(pos, style)]
    case Embedded(lang, group) =>
      PartsRebuild(token, group);
      HandlerExists(grammar, lang, group);
      var p := Parts(token, group);
      Appended(grammar, h, p.0, pos)
      + Appended(grammar, LangHandlerForExtension(grammar, lang, group), group, pos + p.1)
      + Appended(grammar, h, token[p.2..], pos + p.2)
  }

  /** `appendDecorations`: nothing for an empty source. */
  ghost function Appended(grammar: Grammar, h: string, source: string, basePos: nat): seq<Decoration>
    requires WellFormed(grammar) && h in grammar.lexers
    decreases |source|, grammar.rank(h), |source| + 2
  {
    if source == [] then [] else Decorations(grammar, h, source, basePos)
  }

  // ---- what the decorations mean ----

  /** Positions from lo on, in order, all below hi; nothing when the stretch is empty. */
  ghost predicate Covers(ds: seq<Decoration>, lo: nat, hi: nat) {
    if lo >= hi then lo == hi && ds == []
    else
      && ds != [] && ds[0].pos == lo
      && (forall i :: 0 <= i < |ds| ==> lo <= ds[i].pos < hi)
      && (forall i, j :: 0 <= i < j < |ds| ==> ds[i].pos <= ds[j].pos)
  }

  lemma CoversAppend(a: seq<Decoration>, b: seq<Decoration>, lo: nat, mid: nat, hi: nat)
    requires Covers(a, lo, mid) && Covers(b, mid, hi)
    ensures Covers(a + b, lo, hi)
  {
  }

  /** In two stretches one after the other the later one decides once it has begun. */
  lemma {:induction false} StyleAtAppend(a: seq<Decoration>, b: seq<Decoration>, lo: nat, mid: nat, hi: nat, i: nat)
    requires Covers(b, mid, hi)
    ensures StyleAt(a + b, i) == if mid < hi && mid <= i then StyleAt(b, i) else StyleAt(a, i)
    decreases |b|
  {
    StyleAtSplit(a, b, i);
    if b != [] {
      assert b[0].pos == mid;
    }
  }

  lemma {:induction false} StyleAtSplit(a: seq<Decoration>, b: seq<Decoration>, i: nat)
    ensures StyleAt(a + b, i) == if exists k :: 0 <= k < |b| && b[k].pos <= i then StyleAt(b, i) else StyleAt(a, i)
    decreases |b|
  {
    if b == [] {
      assert a + b == a;
    } else {
      var init, last := b[..|b| - 1], b[|b| - 1];
      assert (a + b)[..|a + b| - 1] == a + init;
      assert (a + b)[|a + b| - 1] == last;
      StyleAtSplit(a, init, i);
      if last.pos > i && exists k :: 0 <= k < |b| && b[k].pos <= i {
        var k :| 0 <= k < |b| && b[k].pos <= i;
        assert init[k].pos <= i;
      }
    }
  }

  /** The style of every character of a source: that of the innermost lexeme it is in. */
  ghost function Styles(grammar: Grammar, h: string, source: string): (styles: seq<string>)
    requires WellFormed(grammar) && h in grammar.lexers
    ensures |styles| == |source|
    decreases |source|, grammar.rank(h), |source| + 1
  {
    assert Tokenizes(grammar.lexers[h]);
    TokensStyles(grammar, h, grammar.lexers[h].tokenize(source), |source|)
  }

  ghost function TokensStyles(grammar: Grammar, h: string, tokens: seq<string>, n: nat): (styles: seq<string>)
    requires WellFormed(grammar) && h in grammar.lexers
    requires |Join(tokens)| <= n && NonEmpty(tokens)
    ensures |styles| == |Join(tokens)|
    decreases n, grammar.rank(h), |Join(tokens)|
  {
    if tokens == [] then []
    else TokenStyles(grammar, h, tokens[0], n) + TokensStyles(grammar, h, tokens[1..], n)
  }

  ghost function TokenStyles(grammar: Grammar, h: string, token: string, n: nat): (styles: seq<string>)
    requires WellFormed(grammar) && h in grammar.lexers && 0 < |token| <= n
    ensures |styles| == |token|
    decreases n, grammar.rank(h), 0
  {
    assert EmbedsOk(grammar, h, token);
    match Classify(grammar.lexers[h], token)
    case Plain(style) => seq(|token|, _ => style)
    case Embedded(lang, group) =>
      PartsRebuild(token, group);
      HandlerExists(grammar, lang, group);
      var p := Parts(token, group);
      Styles(grammar, h, p.0)
      + Styles(grammar, LangHandlerForExtension(grammar, lang, group), group)
      + Styles(grammar, h, token[p.2..])
  }

  function Flatten(parts: seq<seq<string>>): seq<string> {
    if parts == [] then [] else parts[0] + Flatten(parts[1..])
  }

  /** The styles of each token. */
  ghost function EachStyles(grammar: Grammar, h: string, tokens: seq<string>, n: nat): (parts: seq<seq<string>>)
    requires WellFormed(grammar) && h in grammar.lexers && |Join(tokens)| <= n && NonEmpty(tokens)
    ensures |parts| == |tokens| && Flatten(parts) == TokensStyles(grammar, h, tokens, n)
    ensures forall k :: 0 <= k < |tokens| ==> |tokens[k]| <= n && parts[k] == TokenStyles(grammar, h, tokens[k], n)
  {
    if tokens == [] then []
    else [TokenStyles(grammar, h, tokens[0], n)] + EachStyles(grammar, h, tokens[1..], n)
  }

  /** How a lexer styles one token: a plain one throughout; of an embedded one the group, where
      it first occurs in the token, as the group's own handler styles it, and the text on
      both sides of it as this lexer does. */
  ghost predicate StyledAs(grammar: Grammar, h: string, token: string, styles: seq<string>)
    requires WellFormed(grammar) && h in grammar.lexers && token != []
  {
    match Classify(grammar.lexers[h], token)
    case Plain(style) => |styles| == |token| && forall i :: 0 <= i < |token| ==> styles[i] == style
    case Embedded(lang, group) =>
      var start, handler := IndexOf(token, group, 0), LangHandlerForExtension(grammar, lang, group);
      && start >= 0 && start + |group| <= |token| && handler in grammar.lexers
      && styles == Styles(grammar, h, token[..start]) + Styles(grammar, handler, group)
                   + Styles(grammar, h, token[start + |group|..])
  }

  lemma {:induction false} TokenStyledAs(grammar: Grammar, h: string, token: string, n: nat)
    requires WellFormed(grammar) && h in grammar.lexers && 0 < |token| <= n
    ensures StyledAs(grammar, h, token, TokenStyles(grammar, h, token, n))
  {
    assert EmbedsOk(grammar, h, token);
  }

  /** A lexer styles its source token by token in this way. */
  ghost predicate StyledByTokens(grammar: Grammar, h: string, tokens: seq<string>, parts: seq<seq<string>>)
    requires WellFormed(grammar) && h in grammar.lexers
  {
    && |parts| == |tokens|
    && forall k :: 0 <= k < |tokens| ==> tokens[k] != [] && StyledAs(grammar, h, tokens[k], parts[k])
  }

  lemma StylesAre(grammar: Grammar, h: string, source: string) returns (parts: seq<seq<string>>)
    requires WellFormed(grammar) && h in grammar.lexers
    ensures StyledByTokens(grammar, h, grammar.lexers[h].tokenize(source), parts)
    ensures Styles(grammar, h, source) == Flatten(parts)
  {
    var tokens := grammar.lexers[h].tokenize(source);
    assert Tokenizes(grammar.lexers[h]);
    parts := EachStyles(grammar, h, tokens, |source|);
    forall k | 0 <= k < |tokens| ensures StyledAs(grammar, h, tokens[k], parts[k]) {
      TokenStyledAs(grammar, h, tokens[k], |source|);
    }
  }

  /** Decorations tile their stretch of the source, and what they say about a
      character is the style of its innermost lexeme. */
  ghost predicate Means(ds: seq<Decoration>, lo: nat, style: seq<string>) {
    && Covers(ds, lo, lo + |style|)
    && forall i: nat :: i < |style| ==> StyleAt(ds, lo + i) == style[i]
  }

  lemma MeansAppend(a: seq<Decoration>, b: seq<Decoration>, lo: nat, s: seq<string>, t: seq<string>)
    requires Means(a, lo, s) && Means(b, lo + |s|, t)
    ensures Means(a + b, lo, s + t)
  {
    CoversAppend(a, b, lo, lo + |s|, lo + |s + t|);
    forall i: nat | i < |s + t| ensures StyleAt(a + b, lo + i) == (s + t)[i] {
      StyleAtAppend(a, b, lo, lo + |s|, lo + |s + t|, lo + i);
      if i >= |s| {
        assert StyleAt(b, lo + |s| + (i - |s|)) == t[i - |s|];
      }
    }
  }

  lemma DecorationsMean(grammar: Grammar, h: string, source: string, basePos: nat)
    requires WellFormed(grammar) && h in grammar.lexers && source != []
    ensures Means(Decorations(grammar, h, source, basePos), basePos, Styles(grammar, h, source))
    decreases |source|, grammar.rank(h), |source| + 1
  {
    var tokens := grammar.lexers[h].tokenize(source);
    assert Tokenizes(grammar.lexers[h]);
    TokensMean(grammar, h, tokens, basePos, |source|);
    FirstIsHidden(TokenDecorations(grammar, h, tokens, basePos, |source|), basePos, Styles(grammar, h, source));
  }

  /** The plain decoration every lexer starts with is overridden at once. */
  lemma FirstIsHidden(ds: seq<Decoration>, basePos: nat, styles: seq<string>)
    requires Means(ds, basePos, styles) && styles != []
    ensures Means([Decoration(basePos, PR_PLAIN)] + ds, basePos, styles)
  {
    var first := [Decoration(basePos, PR_PLAIN)];
    forall i: nat | i < |styles| ensures StyleAt(first + ds, basePos + i) == styles[i] {
      StyleAtAppend(first, ds, basePos, basePos, basePos + |styles|, basePos + i);
    }
  }

  lemma TokensMean(grammar: Grammar, h: string, tokens: seq<string>, pos: nat, n: nat)
    requires WellFormed(grammar) && h in grammar.lexers
    requires |Join(tokens)| <= n && NonEmpty(tokens)
    ensures Means(TokenDecorations(grammar, h, tokens, pos, n), pos, TokensStyles(grammar, h, tokens, n))
    decreases n, grammar.rank(h), |Join(tokens)|
  {
    if tokens != [] {
      TokenMeans(grammar, h, tokens[0], pos, n);
      TokensMean(grammar, h, tokens[1..], pos + |tokens[0]|, n);
      var a := TokenDecoration(grammar, h, tokens[0], pos, n);
      var b := TokenDecorations(grammar, h, tokens[1..], pos + |tokens[0]|, n);
      var s, t := TokenStyles(grammar, h, tokens[0], n), TokensStyles(grammar, h, tokens[1..], n);
      assert TokenDecorations(grammar, h, tokens, pos, n) == a + b;
      assert TokensStyles(grammar, h, tokens, n) == s + t;
      MeansAppend(a, b, pos, s, t);
    }
  }

  lemma AppendedMeans(grammar: Grammar, h: string, source: string, basePos: nat)
    requires WellFormed(grammar) && h in grammar.lexers
    ensures Means(Appended(grammar, h, source, basePos), basePos, Styles(grammar, h, source))
    decreases |source|, grammar.rank(h), |source| + 2
  {
    if source != [] {
      DecorationsMean(grammar, h, source, basePos);
    }
  }

  lemma MeansThree(a: seq<Decoration>, b: seq<Decoration>, c: seq<Decoration>, lo: nat,
                   s: seq<string>, t: seq<string>, u: seq<string>)
    requires Means(a, lo, s) && Means(b, lo + |s|, t) && Means(c, lo + |s| + |t|, u)
    ensures Means(a + b + c, lo, s + t + u)
  {
    MeansAppend(a, b, lo, s, t);
    MeansAppend(a + b, c, lo, s + t, u);
  }

  lemma PlainMeans(pos: nat, style: string, n: nat)
    requires n > 0
    ensures Means([Decoration(pos, style)], pos, seq(n, _ => style))
  {
  }

  /** What an embedded token unfolds to. */
  lemma EmbeddedToken(grammar: Grammar, h: string, token: string, pos: nat, n: nat)
    returns (left: string, h2: string, group: string, right: string)
    requires WellFormed(grammar) && h in grammar.lexers && 0 < |token| <= n
    requires Classify(grammar.lexers[h], token).Embedded?
    ensures var c := Classify(grammar.lexers[h], token);
      && group == c.group && h2 == LangHandlerForExtension(grammar, c.lang, c.group) && h2 in grammar.lexers
      && IndexOf(token, group, 0) == |left| && |left| + |group| <= |token|
      && left == token[..|left|] && right == token[|left| + |group|..]
    ensures |left| < n && |right| < n
    ensures |group| < n || (|group| == n && grammar.rank(h2) < grammar.rank(h))
    ensures TokenDecoration(grammar, h, token, pos, n)
         == Appended(grammar, h, left, pos) + Appended(grammar, h2, group, pos + |left|)
            + Appended(grammar, h, right, pos + |left| + |group|)
    ensures TokenStyles(grammar, h, token, n)
         == Styles(grammar, h, left) + Styles(grammar, h2, group) + Styles(grammar, h, right)
  {
    assert EmbedsOk(grammar, h, token);
    var c := Classify(grammar.lexers[h], token);
    group := c.group;
    PartsRebuild(token, group);
    HandlerExists(grammar, c.lang, group);
    h2 := LangHandlerForExtension(grammar, c.lang, group);
    var p := Parts(token, group);
    left, right := p.0, token[p.2..];
  }

  lemma TokenMeans(grammar: Grammar, h: string, token: string, pos: nat, n: nat)
    requires WellFormed(grammar) && h in grammar.lexers && 0 < |token| <= n
    ensures Means(TokenDecoration(grammar, h, token, pos, n), pos, TokenStyles(grammar, h, token, n))
    decreases n, grammar.rank(h), 0
  {
    match Classify(grammar.lexers[h], token)
    case Plain(style) =>
      PlainMeans(pos, style, |token|);
    case Embedded(_, _) =>
      var left, h2, group, right := EmbeddedToken(grammar, h, token, pos, n);
      PartsMean(grammar, h, h2, left, group, right, pos, n);
  }

  lemma PartsMean(grammar: Grammar, h: string, h2: string, left: string, group: string, right: string, pos: nat, n: nat)
    requires WellFormed(grammar) && h in grammar.lexers && h2 in grammar.lexers
    requires |left| < n && |right| < n
    requires |group| < n || (|group| == n && grammar.rank(h2) < grammar.rank(h))
    ensures Means(Appended(grammar, h, left, pos) + Appended(grammar, h2, group, pos + |left|)
                  + Appended(grammar, h, right, pos + |left| + |group|), pos,
                  Styles(grammar, h, left) + Styles(grammar, h2, group) + Styles(grammar, h, right))
    decreases n, grammar.rank(h), 0, 0
  {
    AppendedMeans(grammar, h, left, pos);
    AppendedMeans(grammar, h2, group, pos + |left|);
    AppendedMeans(grammar, h, right, pos + |left| + |group|);
    MeansThree(Appended(grammar, h, left, pos), Appended(grammar, h2, group, pos + |left|),
               Appended(grammar, h, right, pos + |left| + |group|), pos,
               Styles(grammar, h, left), Styles(grammar, h2, group), Styles(grammar, h, right));
  }

  // ---- the program, with its style cache ----

  method AppendDecorations(grammar: Grammar, basePos: nat, sourceCode: string, h: string, out: seq<Decoration>)
    returns (r: seq<Decoration>)
    requires WellFormed(grammar) && h in grammar.lexers
    ensures r == out + Appended(grammar, h, sourceCode, basePos)
    decreases |sourceCode|, grammar.rank(h), 3
  {
    if sourceCode == [] {
      return out;
    }
    var decorations := Decorate(grammar, h, sourceCode, basePos);
    r := out + decorations;
  }

  /** The cache only holds styles of tokens that are not embedded, so that looking a
      token up gives what classifying it again would. */
  ghost predicate CacheOk(lexer: Lexer, styleCache: map<string, string>) {
    forall t :: t in styleCache ==> t != [] && Classify(lexer, t) == Plain(styleCache[t])
  }

  /** One token: its decorations are appended to what is already there. */
  method DecorateToken(grammar: Grammar, h: string, token: string, found: Class, pos: nat, ghost n: nat,
                       decorations: seq<Decoration>) returns (r: seq<Decoration>)
    requires WellFormed(grammar) && h in grammar.lexers && 0 < |token| <= n
    requires found == Classify(grammar.lexers[h], token)
    ensures r == decorations + TokenDecoration(grammar, h, token, pos, n)
    decreases n, grammar.rank(h), 1
  {
    match found
    case Plain(style) =>
      r := decorations + [Decoration(pos, style)];
    case Embedded(lang, embeddedSource) =>
      ghost var left, h2, group, right := EmbeddedToken(grammar, h, token, pos, n);
      var embeddedSourceStart := IndexOf(token, embeddedSource, 0);
      var embeddedSourceEnd := embeddedSourceStart + |embeddedSource|;
      r := DecorateParts(grammar, h, LangHandlerForExtension(grammar, lang, embeddedSource),
          token[..embeddedSourceStart],
        embeddedSource, token[embeddedSourceEnd..], pos, n, decorations);
  }

  /** The left of the embedded source, the embedded source, and the right of it. */
  method DecorateParts(grammar: Grammar, h: string, h2: string, left: string, embeddedSource: string, right: string,
                       pos: nat, ghost n: nat, decorations: seq<Decoration>) returns (r: seq<Decoration>)
    requires WellFormed(grammar) && h in grammar.lexers && h2 in grammar.lexers
    requires |left| < n && |right| < n
    requires |embeddedSource| < n || (|embeddedSource| == n && grammar.rank(h2) < grammar.rank(h))
    ensures r == decorations + (Appended(grammar, h, left, pos) + Appended(grammar, h2, embeddedSource, pos + |left|)
                                + Appended(grammar, h, right, pos + |left| + |embeddedSource|))
    decreases n, grammar.rank(h), 0
  {
    r := AppendDecorations(grammar, pos, left, h, decorations);
    r := AppendDecorations(grammar, pos + |left|, embeddedSource, h2, r);
    r := AppendDecorations(grammar, pos + |left| + |embeddedSource|, right, h, r);
  }

  /** The style from the cache, or from the patterns and then cached. */
  method ClassifyCached(lexer: Lexer, token: string, styleCache: map<string, string>)
    returns (found: Class, cache: map<string, string>)
    requires token != [] && CacheOk(lexer, styleCache)
    ensures found == Classify(lexer, token) && CacheOk(lexer, cache)
  {
    cache := styleCache;
    if token in styleCache {
      return Plain(styleCache[token]), cache;
    }
    found := Classify(lexer, token);
    if found.Plain? {
      cache := styleCache[token := found.style];
    }
  }

  method Decorate(grammar: Grammar, h: string, sourceCode: string, basePos: nat) returns (decorations: seq<Decoration>)
    requires WellFormed(grammar) && h in grammar.lexers
    ensures decorations == Decorations(grammar, h, sourceCode, basePos)
    decreases |sourceCode|, grammar.rank(h), 2
  {
    var lexer := grammar.lexers[h];
    assert Tokenizes(lexer);
    decorations := [Decoration(basePos, PR_PLAIN)];
    var pos: nat := 0;
    var tokens := lexer.tokenize(sourceCode);
    var styleCache: map<string, string> := map[];
    assert tokens[0..] == tokens;
    for ti := 0 to |tokens|
      invariant CacheOk(lexer, styleCache)
      invariant pos + |Join(tokens[ti..])| == |sourceCode|
      invariant NonEmpty(tokens)
      invariant decorations + TokenDecorations(grammar, h, tokens[ti..], basePos + pos, |sourceCode|)
             == Decorations(grammar, h, sourceCode, basePos)
    {
      var token := tokens[ti];
      assert tokens[ti..][1..] == tokens[ti + 1..];
      var found;
      found, styleCache := ClassifyCached(lexer, token, styleCache);
      ghost var before := decorations;
      decorations := DecorateToken(grammar, h, token, found, basePos + pos, |sourceCode|, decorations);
      SplitFirst(grammar, h, tokens[ti..], basePos + pos, |sourceCode|, before);
      pos := pos + |token|;
    }
  }

  lemma SplitFirst(grammar: Grammar, h: string, tokens: seq<string>, pos: nat, n: nat, before: seq<Decoration>)
    requires WellFormed(grammar) && h in grammar.lexers
    requires |Join(tokens)| <= n && NonEmpty(tokens) && tokens != []
    ensures before + TokenDecorations(grammar, h, tokens, pos, n)
         == (before + TokenDecoration(grammar, h, tokens[0], pos, n))
            + TokenDecorations(grammar, h, tokens[1..], pos + |tokens[0]|, n)
  {
  }
}
