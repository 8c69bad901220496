/** Escaping text to html and back: `attribToHtml`, `textToHtml`, `htmlToText`. */
module HtmlText {
  import opened Basics

  /** Is `pattern` at index i of s? */
  predicate OccursAt(s: string, pattern: string, i: nat) {
    i + |pattern| <= |s| && s[i..i + |pattern|] == pattern
  }

  /** `s.replace(/pattern/g, replacement)` for a literal, non-empty pattern. */
  function ReplaceAll(s: string, pattern: string, replacement: string): string
    requires pattern != []
    decreases |s|
  {
    if |s| < |pattern| then s
    else if pattern <= s then replacement + ReplaceAll(s[|pattern|..], pattern, replacement)
    else [s[0]] + ReplaceAll(s[1..], pattern, replacement)
  }

  function AttribToHtml(str: string): string {
    ReplaceAll(TextToHtml(str), "\"", "&quot;")
  }

  function TextToHtml(str: string): string {
    ReplaceAll(ReplaceAll(ReplaceAll(str, "&", "&amp;"), "<", "&lt;"), ">", "&gt;")
  }

  /** `s.indexOf(pattern, from)`, -1 when absent. */
  function IndexOf(s: string, pattern: string, from: nat): (i: int)
    ensures i == -1 || (from <= i && i + |pattern| <= |s|)
    decreases |s| - from
  {
    if from + |pattern| > |s| then -1
    else if s[from..from + |pattern|] == pattern then from
    else IndexOf(s, pattern, from + 1)
  }

  /** The index found is the first one from `from` on at which the pattern occurs. */
  lemma {:induction false} IndexOfIsFirst(s: string, pattern: string, from: nat)
    ensures var i := IndexOf(s, pattern, from);
      && (i >= 0 ==> OccursAt(s, pattern, i))
      && forall j: nat :: from <= j && (i < 0 || j < i) ==> !OccursAt(s, pattern, j)
    decreases |s| - from
  {
    if from + |pattern| <= |s| && s[from..from + |pattern|] != pattern {
      IndexOfIsFirst(s, pattern, from + 1);
    }
  }

  /** `s.substring(a, b)`: the bounds are clamped and swapped when out of order. */
  function Substring(s: string, a: nat, b: nat): string {
    var lo := if a < b then a else b;
    var hi := if a < b then b else a;
    s[if lo < |s| then lo else |s| .. if hi < |s| then hi else |s|]
  }

  /** The text that is decoded for the numeric entity at pos, with its radix. The
      text starts at pos + 3, one character after the first digit. */
  function EntityNumber(html: string, pos: nat, end: nat): (string, nat) {
    var num := Substring(html, pos + 3, end);
    if num != [] && num[0] == 'x' then (num[1..], 16) else (num, 10)
  }

  /** The string after the numeric entity at pos has been looked at; `decode` stands
      for parseInt followed by String.fromCharCode, None for NaN. */
  function DecodeAt(html: string, pos: nat, decode: (string, nat) -> Option<char>): (r: string)
    requires pos < |html|
    ensures |r| <= |html| && pos < |r|
  {
    var end := IndexOf(html, ";", pos);
    if end < 0 then html
    else
      var number := EntityNumber(html, pos, end);
      match decode(number.0, number.1)
      case None => html
      case Some(c) => html[..pos] + [c] + html[end + 1..]
  }

  /** The numeric entities from `from` on replaced. */
  function DecodeNumeric(html: string, from: nat, decode: (string, nat) -> Option<char>): string
    decreases |html| - from
  {
    var pos := IndexOf(html, "&#", from);
    if pos < 0 then html else DecodeNumeric(DecodeAt(html, pos, decode), pos + 1, decode)
  }

  lemma DecodeNumericStep(html: string, from: nat, decode: (string, nat) -> Option<char>)
    requires IndexOf(html, "&#", from) >= 0
    ensures var pos := IndexOf(html, "&#", from);
      DecodeNumeric(html, from, decode) == DecodeNumeric(DecodeAt(html, pos, decode), pos + 1, decode)
  {
  }

  function Unescape(html: string): string {
    ReplaceAll(ReplaceAll(ReplaceAll(ReplaceAll(ReplaceAll(ReplaceAll(html,
      "&lt;", "<"), "&gt;", ">"), "&apos;", "'"), "&quot;", "\""), "&amp;", "&"), "&nbsp;", " ")
  }

  function HtmlToTextSpec(html: string, decode: (string, nat) -> Option<char>): string {
    var pos := IndexOf(html, "&", 0);
    if pos < 0 then html else Unescape(DecodeNumeric(html, pos, decode))
  }

  /** One turn of the loop: the entity at pos, if it is closed and a number. */
  method DecodeEntity(html: string, pos: nat, decode: (string, nat) -> Option<char>) returns (r: string)
    requires pos < |html|
    ensures r == DecodeAt(html, pos, decode)
  {
    var end := IndexOf(html, ";", pos);
    if end >= 0 {
      var number := EntityNumber(html, pos, end);
      var codePoint := decode(number.0, number.1);
      if codePoint.Some? {
        return html[..pos] + [codePoint.value] + html[end + 1..];
      }
    }
    return html;
  }

  /** The entity-scanning loop rewrites the string it scans, and ends on every input. */
  method DecodeNumericEntities(input: string, first: nat, decode: (string, nat) -> Option<char>) returns (html: string)
    ensures html == DecodeNumeric(input, first, decode)
  {
    html := input;
    var pos := IndexOf(html, "&#", first);
    ghost var from: nat := first;
    while pos >= 0
      invariant pos == IndexOf(html, "&#", from)
      invariant DecodeNumeric(html, from, decode) == DecodeNumeric(input, first, decode)
      decreases |html| - from
    {
      DecodeNumericStep(html, from, decode);
      html := DecodeEntity(html, pos, decode);
      from := pos + 1;
      pos := IndexOf(html, "&#", pos + 1);
    }
  }

  /** `htmlToText`. */
  method HtmlToText(html: string, decode: (string, nat) -> Option<char>) returns (text: string)
    ensures text == HtmlToTextSpec(html, decode)
  {
    var pos := IndexOf(html, "&", 0);
    if pos < 0 {
      return html;
    }
    var decoded := DecodeNumericEntities(html, pos, decode);
    text := Unescape(decoded);
  }

  // ---- numeric entities ----

  lemma FoundAt(s: string, pattern: string, from: nat, i: nat)
    requires from <= i && OccursAt(s, pattern, i)
    requires forall j: nat :: from <= j < i ==> !OccursAt(s, pattern, j)
    ensures IndexOf(s, pattern, from) == i
  {
    IndexOfIsFirst(s, pattern, from);
  }

  /** The first closed numeric entity: its code is what follows the first digit, in base 16 if
      that starts with an x and else in base 10. If that is a number, its character takes the
      entity's place; and the search goes on after the place in any case. */
  lemma EntityDecoded(before: string, digit: char, number: string, after: string,
                      decode: (string, nat) -> Option<char>)
    requires forall i: nat :: i < |before| ==> !OccursAt(before + "&#", "&#", i)
    requires digit != ';' && ';' !in number
    ensures var html := before + Numeric(digit, number) + after;
      var code := if number != "" && number[0] == 'x' then decode(number[1..], 16) else decode(number, 10);
      DecodeNumeric(html, 0, decode)
      == DecodeNumeric(if code.Some? then before + [code.value] + after else html, |before| + 1, decode)
  {
    var html, end := before + Numeric(digit, number) + after, |before| + 3 + |number|;
    EntityFound(before, digit, number, after);
    EntityParts(before, digit, number, after);
    NumberIs(html, |before|, end, number);
    DecodedAt(html, |before|, end, before, after, decode);
    DecodeNumericStep(html, 0, decode);
  }

  lemma NumberIs(html: string, pos: nat, end: nat, number: string)
    requires pos + 3 <= end <= |html| && html[pos + 3..end] == number
    ensures EntityNumber(html, pos, end)
         == if number != "" && number[0] == 'x' then (number[1..], 16) else (number, 10)
  {
  }

  lemma DecodedAt(html: string, pos: nat, end: nat, before: string, after: string,
                  decode: (string, nat) -> Option<char>)
    requires pos < end < |html| && IndexOf(html, ";", pos) == end
    requires html[..pos] == before && html[end + 1..] == after
    ensures var number := EntityNumber(html, pos, end);
      DecodeAt(html, pos, decode)
      == match decode(number.0, number.1)
         case None => html
         case Some(c) => before + [c] + after
  {
  }

  /** An entity that is not closed is left alone, as is text without any. */
  lemma NoneDecoded(html: string, from: nat, decode: (string, nat) -> Option<char>)
    ensures IndexOf(html, "&#", from) < 0 ==> DecodeNumeric(html, from, decode) == html
    ensures var pos := IndexOf(html, "&#", from);
      pos >= 0 && IndexOf(html, ";", pos) < 0 ==>
        DecodeNumeric(html, from, decode) == DecodeNumeric(html, pos + 1, decode)
  {
    if IndexOf(html, "&#", from) >= 0 {
      DecodeNumericStep(html, from, decode);
    }
  }

  /** The text of such an entity. */
  function Numeric(digit: char, number: string): string {
    "&#" + [digit] + number + ";"
  }

  lemma EntityParts(before: string, digit: char, number: string, after: string)
    ensures var html, end := before + Numeric(digit, number) + after, |before| + 3 + |number|;
      && |html| == end + 1 + |after|
      && html[..|before|] == before && html[|before|..|before| + 2] == "&#" && html[|before| + 2] == digit
      && html[|before| + 3..end] == number && html[end] == ';' && html[end + 1..] == after
      && html[..|before| + 2] == before + "&#"
  {
  }

  lemma NoneBefore(before: string, html: string, i: nat)
    requires |html| >= |before| + 2 && html[..|before| + 2] == before + "&#" && i < |before|
    ensures OccursAt(html, "&#", i) <==> OccursAt(before + "&#", "&#", i)
  {
    assert html[i..i + 2] == html[..|before| + 2][i..i + 2];
  }

  lemma NoEndBefore(html: string, lo: nat, digit: char, number: string, j: nat)
    requires lo + 3 + |number| < |html| && html[lo..lo + 2] == "&#" && html[lo + 2] == digit
    requires html[lo + 3..lo + 3 + |number|] == number && digit != ';' && ';' !in number
    requires lo <= j < lo + 3 + |number|
    ensures !OccursAt(html, ";", j)
  {
    assert html[lo] == html[lo..lo + 2][0] && html[lo + 1] == html[lo..lo + 2][1];
    assert j >= lo + 3 ==> html[j] == number[j - lo - 3];
    assert html[j] != ';';
    if OccursAt(html, ";", j) {
      OccursChar(html, ";", j, 0);
      assert false;
    }
  }

  lemma StartFound(before: string, html: string)
    requires |html| >= |before| + 2 && html[..|before| + 2] == before + "&#"
    requires forall i: nat :: i < |before| ==> !OccursAt(before + "&#", "&#", i)
    ensures IndexOf(html, "&#", 0) == |before|
  {
    forall i: nat | i < |before| ensures !OccursAt(html, "&#", i) {
      NoneBefore(before, html, i);
    }
    assert html[|before|..|before| + 2] == html[..|before| + 2][|before|..];
    FoundAt(html, "&#", 0, |before|);
  }

  lemma EndFound(html: string, lo: nat, digit: char, number: string)
    requires lo + 3 + |number| < |html| && html[lo..lo + 2] == "&#" && html[lo + 2] == digit
    requires html[lo + 3..lo + 3 + |number|] == number && digit != ';' && ';' !in number
    requires html[lo + 3 + |number|] == ';'
    ensures IndexOf(html, ";", lo) == lo + 3 + |number|
  {
    var end := lo + 3 + |number|;
    assert html[end..end + 1] == ";";
    forall j: nat | lo <= j < end ensures !OccursAt(html, ";", j) {
      NoEndBefore(html, lo, digit, number, j);
    }
    FoundAt(html, ";", lo, end);
  }

  lemma EntityFound(before: string, digit: char, number: string, after: string)
    requires forall i: nat :: i < |before| ==> !OccursAt(before + "&#", "&#", i)
    requires digit != ';' && ';' !in number
    ensures var html := before + Numeric(digit, number) + after;
      IndexOf(html, "&#", 0) == |before| && IndexOf(html, ";", |before|) == |before| + 3 + |number|
  {
    var html := before + Numeric(digit, number) + after;
    EntityParts(before, digit, number, after);
    StartFound(before, html);
    EndFound(html, |before|, digit, number);
  }

  // ---- the round trip ----

  function Entity(c: char): string {
    match c
    case '&' => "&amp;"
    case '<' => "&lt;"
    case '>' => "&gt;"
    case '"' => "&quot;"
    case '\'' => "&apos;"
    case _ => [c]
  }

  predicate Special(c: char) { c == '&' || c == '<' || c == '>' || c == '"' || c == '\'' }

  /** Character by character escaping of the characters in `codes`. */
  function Enc(s: string, codes: set<char>): string {
    if s == [] then [] else EncChar(s[0], codes) + Enc(s[1..], codes)
  }

  function EncChar(c: char, codes: set<char>): string {
    if c in codes then Entity(c) else [c]
  }

  /** Where no match starts, replacement copies a character. */
  lemma ReplaceStep(s: string, pattern: string, replacement: string)
    requires pattern != [] && s != [] && !(pattern <= s)
    ensures ReplaceAll(s, pattern, replacement) == [s[0]] + ReplaceAll(s[1..], pattern, replacement)
  {
    assert [s[0]] + s[1..] == s;
  }

  /** Replacement copies a word no match starts in. */
  lemma {:induction false} ReplaceSkips(w: string, t: string, pattern: string, replacement: string)
    requires pattern != []
    requires w != [] ==> !(pattern <= w + t)
    requires forall i :: 1 <= i < |w| ==> w[i] != pattern[0]
    ensures ReplaceAll(w + t, pattern, replacement) == w + ReplaceAll(t, pattern, replacement)
  {
    if w == [] {
      assert w + t == t;
    } else {
      var rest := w[1..];
      HeadTail(w, t);
      assert rest != [] ==> (rest + t)[0] == w[1];
      ReplaceSkips(rest, t, pattern, replacement);
      ReplaceStep(w + t, pattern, replacement);
      Assoc([w[0]], rest, ReplaceAll(t, pattern, replacement));
    }
  }

  lemma HeadTail(w: string, t: string)
    requires w != []
    ensures (w + t)[0] == w[0] && (w + t)[1..] == w[1..] + t && w == [w[0]] + w[1..]
  {
  }

  lemma Assoc(a: string, b: string, c: string)
    ensures a + (b + c) == (a + b) + c
  {
  }

  lemma ReplaceMatches(t: string, pattern: string, replacement: string)
    requires pattern != []
    ensures ReplaceAll(pattern + t, pattern, replacement) == replacement + ReplaceAll(t, pattern, replacement)
  {
    assert (pattern + t)[|pattern|..] == t;
  }

  /** Escaping one more character. */
  lemma {:induction false} EncodeStage(s: string, codes: set<char>, c: char)
    requires Special(c) && c !in codes && (c == '&' ==> codes == {})
    requires codes <= {'&', '<', '>', '"'}
    ensures ReplaceAll(Enc(s, codes), [c], Entity(c)) == Enc(s, codes + {c})
  {
    if s != [] {
      EncodeStage(s[1..], codes, c);
      EncodeChar(s[0], Enc(s[1..], codes), codes, c);
    }
  }

  lemma EncodeChar(x: char, t: string, codes: set<char>, c: char)
    requires Special(c) && c !in codes && (c == '&' ==> codes == {})
    requires codes <= {'&', '<', '>', '"'}
    ensures ReplaceAll(EncChar(x, codes) + t, [c], Entity(c)) == EncChar(x, codes + {c}) + ReplaceAll(t, [c], Entity(c))
  {
    var w := EncChar(x, codes);
    if x == c {
      ReplaceMatches(t, [c], Entity(c));
      assert w == [c];
    } else {
      assert forall i :: 0 <= i < |w| ==> w[i] != c;
      assert (w + t)[0] == w[0];
      ReplaceSkips(w, t, [c], Entity(c));
    }
  }

  lemma EncNone(s: string)
    ensures Enc(s, {}) == s
  {
    if s != [] {
      EncNone(s[1..]);
      assert [s[0]] + s[1..] == s;
    }
  }

  lemma TextToHtmlIsEnc(s: string)
    ensures TextToHtml(s) == Enc(s, {'&', '<', '>'})
    ensures AttribToHtml(s) == Enc(s, {'&', '<', '>', '"'})
  {
    EncNone(s);
    EncodeStage(s, {}, '&');
    EncodeStage(s, {'&'}, '<');
    EncodeStage(s, {'&', '<'}, '>');
    EncodeStage(s, {'&', '<', '>'}, '"');
    assert {} + {'&'} == {'&'};
    assert {'&'} + {'<'} == {'&', '<'};
    assert {'&', '<'} + {'>'} == {'&', '<', '>'};
    assert {'&', '<', '>'} + {'"'} == {'&', '<', '>', '"'};
  }

  lemma EntitiesDiffer(c: char, d: char, t: string)
    requires Special(c) && Special(d) && c != d
    ensures !(Entity(c) <= Entity(d) + t)
  {
    assert (Entity(d) + t)[..3] == Entity(d)[..3];
    assert Entity(c)[1] != Entity(d)[1] || Entity(c)[2] != Entity(d)[2];
    assert (Entity(d) + t)[1] == Entity(d)[1] && (Entity(d) + t)[2] == Entity(d)[2];
  }

  /** Unescaping one entity, while ampersands are still escaped or as the last one. */
  lemma {:induction false} DecodeStage(s: string, codes: set<char>, c: char)
    requires Special(c) && codes <= {'&', '<', '>', '"'}
    requires if c == '&' then codes == {'&'} else '&' in codes
    ensures ReplaceAll(Enc(s, codes), Entity(c), [c]) == Enc(s, codes - {c})
  {
    if s != [] {
      DecodeStage(s[1..], codes, c);
      var w, t := EncChar(s[0], codes), Enc(s[1..], codes);
      if s[0] == c && c in codes {
        ReplaceMatches(t, Entity(c), [c]);
      } else {
        assert EncChar(s[0], codes - {c}) == w;
        if s[0] in codes {
          EntitiesDiffer(c, s[0], t);
        } else {
          assert (w + t)[0] == w[0] != Entity(c)[0];
        }
        ReplaceSkips(w, t, Entity(c), [c]);
      }
    }
  }

  /** A match agrees with the pattern character by character. */
  lemma OccursChar(s: string, pattern: string, i: nat, k: nat)
    requires OccursAt(s, pattern, i) && k < |pattern|
    ensures s[i + k] == pattern[k]
  {
    assert s[i..i + |pattern|][k] == s[i + k];
  }

  /** In escaped text an ampersand is always followed by a letter, so there is no
      numeric entity in it. */
  lemma {:induction false} AmpThenLetter(s: string, codes: set<char>, i: nat)
    requires '&' in codes && codes <= {'&', '<', '>', '"'}
    requires i < |Enc(s, codes)| && Enc(s, codes)[i] == '&'
    ensures i + 1 < |Enc(s, codes)| && Enc(s, codes)[i + 1] != '#'
  {
    var w, t := EncChar(s[0], codes), Enc(s[1..], codes);
    assert Enc(s, codes) == w + t;
    if i >= |w| {
      AmpThenLetter(s[1..], codes, i - |w|);
    } else {
      assert w[i] == '&' ==> i == 0 && |w| > 1 && w[1] != '#';
    }
  }

  lemma EncHasNoNumeric(s: string, codes: set<char>)
    requires '&' in codes && codes <= {'&', '<', '>', '"'}
    ensures forall i: nat :: !OccursAt(Enc(s, codes), "&#", i)
  {
    forall i: nat | OccursAt(Enc(s, codes), "&#", i) ensures false {
      OccursChar(Enc(s, codes), "&#", i, 0);
      OccursChar(Enc(s, codes), "&#", i, 1);
      AmpThenLetter(s, codes, i);
    }
  }

  lemma {:induction false} EncWithoutAmp(s: string, codes: set<char>)
    requires codes <= {'&', '<', '>', '"'}
    ensures '&' !in Enc(s, codes) ==> Enc(s, codes) == s && '&' !in s
  {
    if s != [] {
      var w, t := EncChar(s[0], codes), Enc(s[1..], codes);
      assert w + t == Enc(s, codes);
      EncWithoutAmp(s[1..], codes);
      assert w[0] == if s[0] in codes then '&' else s[0];
      assert w[0] in w + t && (forall x :: x in t ==> x in w + t);
      assert [s[0]] + s[1..] == s;
    }
  }

  lemma OccursInTail(s: string, pattern: string, i: nat)
    requires s != []
    ensures OccursAt(s[1..], pattern, i) <==> OccursAt(s, pattern, i + 1)
  {
    if i + 1 + |pattern| <= |s| {
      assert s[1..][i..i + |pattern|] == s[i + 1..i + 1 + |pattern|];
    }
  }

  lemma {:induction false} ReplaceAbsent(s: string, pattern: string, replacement: string)
    requires pattern != []
    requires forall i: nat :: !OccursAt(s, pattern, i)
    ensures ReplaceAll(s, pattern, replacement) == s
    decreases |s|
  {
    if |s| >= |pattern| {
      assert !OccursAt(s, pattern, 0);
      forall i: nat ensures !OccursAt(s[1..], pattern, i) {
        assert !OccursAt(s, pattern, i + 1);
        OccursInTail(s, pattern, i);
      }
      ReplaceAbsent(s[1..], pattern, replacement);
    }
  }

  lemma {:induction false} ReplaceShrinks(s: string, pattern: string, replacement: string)
    requires |pattern| > |replacement|
    ensures |ReplaceAll(s, pattern, replacement)| <= |s|
    ensures (exists i: nat :: OccursAt(s, pattern, i)) ==> |ReplaceAll(s, pattern, replacement)| < |s|
    decreases |s|
  {
    if |s| >= |pattern| {
      if pattern <= s {
        ReplaceShrinks(s[|pattern|..], pattern, replacement);
      } else {
        ReplaceShrinks(s[1..], pattern, replacement);
        if i: nat :| OccursAt(s, pattern, i) {
          assert i > 0;
          OccursInTail(s, pattern, i - 1);
        }
      }
    }
  }

  lemma UnescapeEnc(s: string, codes: set<char>)
    requires codes == {'&', '<', '>'} || codes == {'&', '<', '>', '"'}
    ensures Unescape(Enc(s, codes)) == ReplaceAll(s, "&nbsp;", " ")
  {
    var c1 := codes - {'<'};
    var c2 := c1 - {'>'};
    var c3 := c2 - {'\''};
    var c4 := c3 - {'"'};
    DecodeStage(s, codes, '<');
    DecodeStage(s, c1, '>');
    DecodeStage(s, c2, '\'');
    DecodeStage(s, c3, '"');
    assert c4 == {'&'};
    DecodeStage(s, c4, '&');
    assert c4 - {'&'} == {};
    EncNone(s);
  }

  /** Escaping then unescaping gives the text back with every literal `&nbsp;`
      read as a space, so it gives the text back exactly when there is none. */
  lemma EscapeUnescape(s: string, decode: (string, nat) -> Option<char>)
    ensures HtmlToTextSpec(TextToHtml(s), decode) == ReplaceAll(s, "&nbsp;", " ")
    ensures HtmlToTextSpec(AttribToHtml(s), decode) == ReplaceAll(s, "&nbsp;", " ")
    ensures HtmlToTextSpec(TextToHtml(s), decode) == s <==> !exists i: nat :: OccursAt(s, "&nbsp;", i)
    ensures HtmlToTextSpec(AttribToHtml(s), decode) == s <==> !exists i: nat :: OccursAt(s, "&nbsp;", i)
  {
    TextToHtmlIsEnc(s);
    EscapeUnescapeCodes(s, {'&', '<', '>'}, decode);
    EscapeUnescapeCodes(s, {'&', '<', '>', '"'}, decode);
    if exists i: nat :: OccursAt(s, "&nbsp;", i) {
      ReplaceShrinks(s, "&nbsp;", " ");
    } else {
      ReplaceAbsent(s, "&nbsp;", " ");
    }
  }

  lemma EscapeUnescapeCodes(s: string, codes: set<char>, decode: (string, nat) -> Option<char>)
    requires codes == {'&', '<', '>'} || codes == {'&', '<', '>', '"'}
    ensures HtmlToTextSpec(Enc(s, codes), decode) == ReplaceAll(s, "&nbsp;", " ")
  {
    var html := Enc(s, codes);
    var pos := IndexOf(html, "&", 0);
    IndexOfIsFirst(html, "&", 0);
    if pos < 0 {
      forall i | 0 <= i < |html| ensures html[i] != '&' {
        assert !OccursAt(html, "&", i);
        assert html[i..i + 1] == [html[i]];
      }
      EncWithoutAmp(s, codes);
      forall i: nat | OccursAt(s, "&nbsp;", i) ensures false {
        OccursChar(s, "&nbsp;", i, 0);
      }
      ReplaceAbsent(s, "&nbsp;", " ");
    } else {
      EncHasNoNumeric(s, codes);
      IndexOfIsFirst(html, "&#", pos);
      UnescapeEnc(s, codes);
    }
  }
}
