/** How one chunk of text becomes html in `recombineTagsAndDecorations`: tabs
    expanded, text escaped, spaces protected by one of two global regular
    expression replacements, newlines turned into breaks. And the character by
    character filter that all chunks together amount to. */
module SpaceFilter {
  import opened HtmlText
  import opened TabExpansion

  const NBSP := "&nbsp;"
  const CODES := {'&', '<', '>'}
  const LINE_SEPARATOR := '\U{2028}'
  const PARAGRAPH_SEPARATOR := '\U{2029}'

  predicate Separator(c: char) { c == LINE_SEPARATOR || c == PARAGRAPH_SEPARATOR }

  /** After these, `^` matches in a multiline pattern. */
  predicate LineTerminator(c: char) { c == '\n' || c == '\r' || Separator(c) }

  /** These are LF, CR and the two separators of Unicode. */
  lemma LineTerminatorIff(c: char)
    ensures Separator(c) <==> c as int == 0x2028 || c as int == 0x2029
    ensures LineTerminator(c) <==> c as int == 10 || c as int == 13 || c as int == 0x2028 || c as int == 0x2029
  {
  }

  /** What the head of h contributes to `h.replace(/(^| ) /gm, '$1&nbsp;')`: the
      characters written, the number read, and whether `^` matches after them. */
  function StartHead(h: string, lineStart: bool): (string, nat, bool)
    requires h != []
  {
    if lineStart && h[0] == ' ' then (NBSP, 1, false)
    else if |h| >= 2 && h[0] == ' ' && h[1] == ' ' then (" " + NBSP, 2, false)
    else ([h[0]], 1, LineTerminator(h[0]))
  }

  /** `h.replace(/(^| ) /gm, '$1&nbsp;')`; lineStart says whether `^` matches here. */
  function StartOrSpace(h: string, lineStart: bool): string
    decreases |h|
  {
    if h == [] then []
    else
      var head := StartHead(h, lineStart);
      head.0 + StartOrSpace(h[head.1..], head.2)
  }

  /** `h.replace(/([\r\n ]) /g, '$1&nbsp;')`. */
  function AdjacentSpace(h: string): string
    decreases |h|
  {
    if h == [] then []
    else if |h| >= 2 && (h[0] == '\r' || h[0] == '\n' || h[0] == ' ') && h[1] == ' ' then
      [h[0]] + NBSP + AdjacentSpace(h[2..])
    else [h[0]] + AdjacentSpace(h[1..])
  }

  /** `/[ \r\n]$/.test(h)`. */
  predicate TrailingSpace(h: string) {
    h != [] && (h[|h| - 1] == ' ' || h[|h| - 1] == '\r' || h[|h| - 1] == '\n')
  }

  /** How many characters the line end at the head of h has, 0 for none. */
  function LineEnd(h: string): nat
    requires h != []
  {
    if |h| >= 2 && h[0] == '\r' && h[1] == '\n' then 2
    else if h[0] == '\r' || h[0] == '\n' then 1
    else 0
  }

  /** `h.replace(/\r\n?|\n/g, lineBreakHtml)`. */
  function BreakLines(h: string, br: string): string
    decreases |h|
  {
    if h == [] then []
    else if LineEnd(h) > 0 then br + BreakLines(h[LineEnd(h)..], br)
    else [h[0]] + BreakLines(h[1..], br)
  }

  function LineBreakHtml(ie6: bool): string {
    if ie6 then "&nbsp;<br />" else "<br />"
  }

  /** The escaped chunk with its spaces protected. */
  function ProtectChunk(text: string, lastWasSpace: bool): string {
    if lastWasSpace then StartOrSpace(TextToHtml(text), true) else AdjacentSpace(TextToHtml(text))
  }

  // ---- the filter that does not see chunks ----

  /** Whether the next blank is to be protected. */
  predicate NextSpace(c: char, space: bool) {
    if c == ' ' then !space else c == '\n' || c == '\r'
  }

  function FilterChar(c: char, space: bool, br: string): string {
    if c == ' ' then (if space then NBSP else " ")
    else if c == '\n' || c == '\r' then br
    else EncChar(c, CODES)
  }

  /** One pass over the whole text: a blank after a blank, a line end or the start
      (`space`) becomes `&nbsp;`, which lets the next blank through. */
  function Filter(text: string, space: bool, br: string): string
    decreases |text|
  {
    if text == [] then []
    else FilterChar(text[0], space, br) + Filter(text[1..], NextSpace(text[0], space), br)
  }

  function SpaceAfter(text: string, space: bool): bool
    decreases |text|
  {
    if text == [] then space else SpaceAfter(text[1..], NextSpace(text[0], space))
  }

  lemma {:induction false} FilterAppend(a: string, b: string, space: bool, br: string)
    ensures Filter(a + b, space, br) == Filter(a, space, br) + Filter(b, SpaceAfter(a, space), br)
    ensures SpaceAfter(a + b, space) == SpaceAfter(b, SpaceAfter(a, space))
    decreases |a|
  {
    if a == [] {
      assert a + b == b;
    } else {
      HeadTail(a, b);
      var next := NextSpace(a[0], space);
      FilterAppend(a[1..], b, next, br);
      Assoc(FilterChar(a[0], space, br), Filter(a[1..], next, br), Filter(b, SpaceAfter(a, space), br));
    }
  }

  /** One more character, whatever stands before it: a blank is protected or not, a line end
      becomes a break, and of the rest only three characters are escaped. */
  lemma FilterOneMore(text: string, c: char, space: bool, br: string)
    ensures Filter([], space, br) == []
    ensures Filter(text + [c], space, br) == Filter(text, space, br) +
      match c
      case ' ' => if SpaceAfter(text, space) then "&nbsp;" else " "
      case '\n' => br
      case '\r' => br
      case '&' => "&amp;"
      case '<' => "&lt;"
      case '>' => "&gt;"
      case _ => [c]
  {
    FilterAppend(text, [c], space, br);
    assert [c][1..] == [];
    var next := SpaceAfter(text, space);
    assert Filter([c], next, br) == FilterChar(c, next, br) + Filter([], NextSpace(c, next), br);
  }

  /** Which blanks are protected: at the start and after a line end every other one from the
      first on, and elsewhere every other one from the second on. */
  lemma {:induction false} BlankParity(text: string, n: nat)
    requires text == [] || text[|text| - 1] != ' '
    ensures SpaceAfter(text + Spaces(n), true)
       <==> n % 2 == (if text == [] || text[|text| - 1] == '\n' || text[|text| - 1] == '\r' then 0 else 1)
  {
    var all := text + Spaces(n);
    if n > 0 {
      BlankParity(text, n - 1);
      assert all == (text + Spaces(n - 1)) + [' '];
      SpaceOneMore(text + Spaces(n - 1), ' ');
    } else {
      assert all == text;
      if text != [] {
        SpaceOneMore(text[..|text| - 1], text[|text| - 1]);
        assert text == text[..|text| - 1] + [text[|text| - 1]];
      }
    }
  }

  lemma SpaceOneMore(text: string, c: char)
    ensures SpaceAfter(text + [c], true) == NextSpace(c, SpaceAfter(text, true))
  {
    FilterAppend(text, [c], true, []);
    assert [c][1..] == [];
  }

  // ---- what makes chunking visible ----

  /** A two-character sequence that a chunk boundary can break: `\r\n`, one break
      when together and two when apart, or a Unicode line separator before blanks,
      which only one of the two patterns takes for a line start. */
  predicate HazardPair(c: char, d: char) {
    (c == '\r' && d == '\n') || (Separator(c) && (d == ' ' || d == '\t'))
  }

  predicate HazardAt(text: string, i: nat) {
    i + 1 < |text| && HazardPair(text[i], text[i + 1])
  }

  ghost predicate Hazard(text: string) {
    exists i: nat :: HazardAt(text, i)
  }

  /** No hazard, as a recursion that follows the text. */
  predicate Clean(text: string)
    decreases |text|
  {
    |text| < 2 || (!HazardPair(text[0], text[1]) && Clean(text[1..]))
  }

  lemma {:induction false} CleanIffNoHazard(text: string)
    ensures Clean(text) <==> !Hazard(text)
    decreases |text|
  {
    if |text| >= 2 {
      CleanIffNoHazard(text[1..]);
      if i: nat :| HazardAt(text[1..], i) {
        assert HazardAt(text, i + 1);
      }
      if i: nat :| HazardAt(text, i) {
        assert i == 0 || HazardAt(text[1..], i - 1);
      }
      assert HazardPair(text[0], text[1]) ==> HazardAt(text, 0);
    }
  }

  lemma CleanSlice(text: string, lo: nat, hi: nat)
    requires Clean(text) && lo <= hi <= |text|
    ensures Clean(text[lo..hi])
  {
    CleanIffNoHazard(text);
    CleanIffNoHazard(text[lo..hi]);
    if i: nat :| HazardAt(text[lo..hi], i) {
      assert HazardAt(text, lo + i);
    }
  }

  /** Tab expansion keeps a text clean. */
  lemma {:induction false} ExpandClean(text: string, column: nat, tabWidth: nat)
    requires tabWidth > 0 && Clean(text)
    ensures Clean(Expand(text, column, tabWidth))
    ensures text != [] ==> Expand(text, column, tabWidth) != []
    ensures text != [] ==> Expand(text, column, tabWidth)[0] == if text[0] == '\t' then ' ' else text[0]
    decreases |text|
  {
    if text != [] {
      var next :=
        if text[0] == '\t' then column + TabSize(column, tabWidth) else if text[0] == '\n' then 0 else column + 1;
      ExpandClean(text[1..], next, tabWidth);
      var rest := Expand(text[1..], next, tabWidth);
      if text[0] == '\t' {
        SpacesClean(TabSize(column, tabWidth), rest);
      } else {
        assert ([text[0]] + rest)[1..] == rest;
      }
    }
  }

  lemma {:induction false} SpacesClean(n: nat, rest: string)
    requires Clean(rest)
    ensures Clean(Spaces(n) + rest)
  {
    if n == 0 {
      assert Spaces(0) + rest == rest;
    } else {
      SpacesClean(n - 1, rest);
      assert (Spaces(n) + rest)[1..] == Spaces(n - 1) + rest;
    }
  }

  // ---- a chunk is filtered exactly when it is clean ----

  /** The protected form of escaped text, character by character. */
  function Protect(text: string, space: bool): string
    decreases |text|
  {
    if text == [] then []
    else
      (if text[0] == ' ' then (if space then NBSP else " ") else EncChar(text[0], CODES))
      + Protect(text[1..], NextSpace(text[0], space))
  }

  /** One character that is no blank and ends no line passes unchanged. */
  lemma CharPasses(c: char, h: string, lineStart: bool)
    requires c != ' ' && !LineTerminator(c)
    ensures StartOrSpace([c] + h, lineStart) == [c] + StartOrSpace(h, false)
    ensures AdjacentSpace([c] + h) == [c] + AdjacentSpace(h)
  {
    assert ([c] + h)[1..] == h;
  }

  /** So does a word of such characters. */
  lemma {:induction false} WordPasses(w: string, h: string, lineStart: bool)
    requires w != []
    requires forall i :: 0 <= i < |w| ==> w[i] != ' ' && !LineTerminator(w[i])
    ensures StartOrSpace(w + h, lineStart) == w + StartOrSpace(h, false)
    ensures AdjacentSpace(w + h) == w + AdjacentSpace(h)
    decreases |w|
  {
    HeadTail(w, h);
    CharPasses(w[0], w[1..] + h, lineStart);
    assert w + h == [w[0]] + (w[1..] + h);
    if |w| == 1 {
      assert w[1..] + h == h && w == [w[0]];
    } else {
      WordPasses(w[1..], h, false);
      Assoc([w[0]], w[1..], StartOrSpace(h, false));
      Assoc([w[0]], w[1..], AdjacentSpace(h));
    }
  }

  lemma EncWord(c: char)
    requires c in CODES
    ensures EncChar(c, CODES) != []
    ensures forall i :: 0 <= i < |EncChar(c, CODES)| ==>
      EncChar(c, CODES)[i] != ' ' && !LineTerminator(EncChar(c, CODES)[i])
  {
  }

  lemma EncHead(text: string)
    requires text != []
    ensures Enc(text, CODES) != []
    ensures Enc(text, CODES)[0] == if text[0] in CODES then '&' else text[0]
  {
    assert EncChar(text[0], CODES)[0] == if text[0] in CODES then '&' else text[0];
  }

  /** With a blank first or not, a line start only matters for a blank. */
  lemma ProtectMatters(text: string)
    requires text == [] || text[0] != ' '
    ensures Protect(text, true) == Protect(text, false)
  {
  }

  lemma StartPair(h: string)
    ensures StartOrSpace(" " + (" " + h), false) == " " + NBSP + StartOrSpace(h, false)
  {
    var e := " " + (" " + h);
    assert e[0] == ' ' && e[1] == ' ' && e[2..] == h;
  }

  /** An ordinary first character, or a blank where a line starts. */
  lemma StartOne(c: char, h: string, lineStart: bool)
    requires c != ' ' || lineStart || h == [] || h[0] != ' '
    ensures StartOrSpace([c] + h, lineStart)
         == if c == ' ' && lineStart then NBSP + StartOrSpace(h, false) else [c] + StartOrSpace(h, LineTerminator(c))
  {
    assert ([c] + h)[1..] == h;
  }

  lemma {:induction false} StartOrSpaceProtects(text: string, lineStart: bool)
    requires Clean(text)
    ensures StartOrSpace(Enc(text, CODES), lineStart) == Protect(text, lineStart)
    decreases |text|
  {
    if text != [] {
      var c, rest := text[0], text[1..];
      assert text == [c] + rest;
      if c in CODES {
        EncWord(c);
        WordPasses(EncChar(c, CODES), Enc(rest, CODES), lineStart);
        StartOrSpaceProtects(rest, false);
      } else if c == ' ' && !lineStart && rest != [] && rest[0] == ' ' {
        assert rest == [' '] + rest[1..];
        EncPlain(c, rest);
        EncPlain(' ', rest[1..]);
        StartPair(Enc(rest[1..], CODES));
        StartOrSpaceProtects(rest[1..], false);
        ProtectPair(c, rest[1..]);
      } else {
        EncPlain(c, rest);
        if rest != [] { EncHead(rest); }
        StartOne(c, Enc(rest, CODES), lineStart);
        StartOrSpaceProtects(rest, c != ' ' && LineTerminator(c));
        ProtectOne(c, rest, lineStart);
      }
    }
  }

  lemma ProtectOne(c: char, rest: string, space: bool)
    requires c !in CODES
    requires (c == ' ' && !space) || Separator(c) ==> rest == [] || rest[0] != ' '
    ensures Protect([c] + rest, space)
         == (if c == ' ' && space then NBSP else [c]) + Protect(rest, c != ' ' && LineTerminator(c))
  {
    assert ([c] + rest)[1..] == rest;
    if rest == [] || rest[0] != ' ' {
      ProtectMatters(rest);
    }
  }

  lemma {:induction false} AdjacentSpaceProtects(text: string)
    ensures AdjacentSpace(Enc(text, CODES)) == Protect(text, false)
    decreases |text|
  {
    if text != [] {
      var c, rest := text[0], text[1..];
      var h := Enc(rest, CODES);
      if rest != [] { EncHead(rest); }
      if c in CODES {
        EncWord(c);
        WordPasses(EncChar(c, CODES), h, false);
        AdjacentSpaceProtects(rest);
      } else if NextSpace(c, false) && rest != [] && rest[0] == ' ' {
        AdjacentSpaceProtects(rest[1..]);
        AdjacentPair(c, rest);
      } else {
        assert Enc(text, CODES)[1..] == h;
        AdjacentSpaceProtects(rest);
        if NextSpace(c, false) { ProtectMatters(rest); }
      }
    }
  }

  lemma AdjacentHead(c: char, h: string)
    requires NextSpace(c, false)
    ensures AdjacentSpace([c] + (" " + h)) == [c] + NBSP + AdjacentSpace(h)
  {
    var e := [c] + (" " + h);
    assert e[0] == c && e[1] == ' ' && e[2..] == h;
  }

  lemma EncPlain(c: char, rest: string)
    requires c !in CODES
    ensures Enc([c] + rest, CODES) == [c] + Enc(rest, CODES)
  {
    assert ([c] + rest)[1..] == rest;
  }

  lemma ProtectPair(c: char, rest: string)
    requires NextSpace(c, false)
    ensures Protect([c] + ([' '] + rest), false) == [c] + NBSP + Protect(rest, false)
  {
    assert ([c] + ([' '] + rest))[1..] == [' '] + rest;
    assert ([' '] + rest)[1..] == rest;
    Assoc([c], NBSP, Protect(rest, false));
  }

  lemma AdjacentPair(c: char, rest: string)
    requires NextSpace(c, false) && rest != [] && rest[0] == ' '
    ensures AdjacentSpace(Enc([c] + rest, CODES)) == [c] + NBSP + AdjacentSpace(Enc(rest[1..], CODES))
    ensures Protect([c] + rest, false) == [c] + NBSP + Protect(rest[1..], false)
  {
    assert rest == [' '] + rest[1..];
    EncPlain(c, rest);
    EncPlain(' ', rest[1..]);
    AdjacentHead(c, Enc(rest[1..], CODES));
    ProtectPair(c, rest[1..]);
  }

  /** Breaking lines copies a word without line ends. */
  lemma {:induction false} BreakLinesPasses(w: string, h: string, br: string)
    requires forall i :: 0 <= i < |w| ==> w[i] != '\r' && w[i] != '\n'
    ensures BreakLines(w + h, br) == w + BreakLines(h, br)
    decreases |w|
  {
    if w == [] {
      assert w + h == h;
    } else {
      assert (w + h)[1..] == w[1..] + h;
      BreakLinesPasses(w[1..], h, br);
      assert [w[0]] + (w[1..] + BreakLines(h, br)) == w + BreakLines(h, br);
    }
  }

  lemma ProtectHead(text: string, space: bool)
    ensures text == [] ==> Protect(text, space) == []
    ensures text != [] ==> Protect(text, space) != []
    ensures text != [] && text[0] != '\n' ==> Protect(text, space)[0] != '\n'
  {
    if text != [] && text[0] != ' ' {
      assert EncChar(text[0], CODES) != [];
      assert EncChar(text[0], CODES)[0] == '&' || EncChar(text[0], CODES)[0] == text[0];
    }
  }

  lemma BreakLinesEnd(c: char, p: string, br: string)
    requires c == '\n' || (c == '\r' && (p == [] || p[0] != '\n'))
    ensures BreakLines([c] + p, br) == br + BreakLines(p, br)
  {
    assert ([c] + p)[1..] == p;
  }

  /** The protected form of a character that ends no line ends none either. */
  lemma WordEndsNoLine(c: char, space: bool, br: string)
    requires c != '\r' && c != '\n'
    ensures var word := if c == ' ' then (if space then NBSP else " ") else EncChar(c, CODES);
      FilterChar(c, space, br) == word && forall i :: 0 <= i < |word| ==> word[i] != '\r' && word[i] != '\n'
  {
    if c in CODES {
      EncWord(c);
    }
  }

  /** One character and what follows it, protected: the line breaks of both. */
  lemma BreakLinesChar(c: char, p: string, space: bool, br: string)
    requires c == '\r' ==> p == [] || p[0] != '\n'
    ensures var word := if c == ' ' then (if space then NBSP else " ") else EncChar(c, CODES);
      BreakLines(word + p, br) == FilterChar(c, space, br) + BreakLines(p, br)
  {
    if c == '\n' || c == '\r' {
      BreakLinesEnd(c, p, br);
    } else {
      WordEndsNoLine(c, space, br);
      BreakLinesPasses(if c == ' ' then (if space then NBSP else " ") else EncChar(c, CODES), p, br);
    }
  }

  lemma {:induction false} BreakLinesFilters(text: string, space: bool, br: string)
    requires Clean(text)
    ensures BreakLines(Protect(text, space), br) == Filter(text, space, br)
    decreases |text|
  {
    if text != [] {
      var c, rest := text[0], text[1..];
      BreakLinesFilters(rest, NextSpace(c, space), br);
      ProtectHead(rest, NextSpace(c, space));
      BreakLinesChar(c, Protect(rest, NextSpace(c, space)), space, br);
    }
  }

  lemma TrailingOne(c: char, space: bool)
    ensures Protect([c], space) == (if c == ' ' then (if space then NBSP else " ") else EncChar(c, CODES))
    ensures TrailingSpace(Protect([c], space)) == NextSpace(c, space)
  {
    assert [c][1..] == [];
    assert c in CODES ==> EncChar(c, CODES)[|EncChar(c, CODES)| - 1] == ';';
  }

  lemma TrailingLast(a: string, b: string)
    requires b != []
    ensures TrailingSpace(a + b) == TrailingSpace(b)
  {
  }

  /** The trailing-space test sees what the filter remembers. */
  lemma {:induction false} TrailingSpaceRemembers(text: string, space: bool)
    requires text != []
    ensures TrailingSpace(Protect(text, space)) == SpaceAfter(text, space)
    decreases |text|
  {
    var c, rest := text[0], text[1..];
    if rest == [] {
      assert text == [c];
      TrailingOne(c, space);
    } else {
      var next := NextSpace(c, space);
      TrailingSpaceRemembers(rest, next);
      ProtectHead(rest, next);
      TrailingLast(if c == ' ' then (if space then NBSP else " ") else EncChar(c, CODES), Protect(rest, next));
    }
  }

  /** One chunk through the program's replacements is one chunk through the filter. */
  lemma ChunkIsFiltered(text: string, lastWasSpace: bool, br: string)
    requires Clean(text) && text != []
    ensures BreakLines(ProtectChunk(text, lastWasSpace), br) == Filter(text, lastWasSpace, br)
    ensures TrailingSpace(ProtectChunk(text, lastWasSpace)) == SpaceAfter(text, lastWasSpace)
  {
    TextToHtmlIsEnc(text);
    if lastWasSpace {
      StartOrSpaceProtects(text, true);
    } else {
      AdjacentSpaceProtects(text);
    }
    BreakLinesFilters(text, lastWasSpace, br);
    TrailingSpaceRemembers(text, lastWasSpace);
  }

  // ---- a whole text, chunk by chunk ----

  ghost predicate Within(cuts: seq<nat>, n: nat) {
    forall i :: 0 <= i < |cuts| ==> cuts[i] <= n
  }

  /** The text of the html when the chunks end at `cuts`: `emitTextUpTo` for each
      cut and for the end, skipping cuts at or before the text already written. */
  ghost function Chunked(source: string, from: nat, cuts: seq<nat>, column: nat, lastWasSpace: bool,
                   tabWidth: nat, br: string): string
    requires tabWidth > 0 && from <= |source|
    requires Within(cuts, |source|)
    decreases |cuts|
  {
    var to := if cuts == [] then |source| else cuts[0];
    if to > from then
      var text := Expand(source[from..to], column, tabWidth);
      var html := ProtectChunk(text, lastWasSpace);
      BreakLines(html, br) +
      if cuts == [] then []
      else Chunked(source, to, cuts[1..], ColumnAfter(source[from..to], column, tabWidth), TrailingSpace(html),
          tabWidth, br)
    else if cuts == [] then []
    else Chunked(source, from, cuts[1..], column, lastWasSpace, tabWidth, br)
  }

  /** The first chunk that is written, and what is left after it. */
  lemma ChunkedStep(source: string, from: nat, cuts: seq<nat>, column: nat, lastWasSpace: bool,
                    tabWidth: nat, br: string)
    requires tabWidth > 0 && from <= |source| && cuts != [] && from < cuts[0]
    requires Within(cuts, |source|)
    ensures var chunk := source[from..cuts[0]];
      var html := ProtectChunk(Expand(chunk, column, tabWidth), lastWasSpace);
      Chunked(source, from, cuts, column, lastWasSpace, tabWidth, br)
      == BreakLines(html, br)
         + Chunked(source, cuts[0], cuts[1..], ColumnAfter(chunk, column, tabWidth), TrailingSpace(html), tabWidth, br)
  {
  }

  lemma ChunkedLast(source: string, from: nat, column: nat, lastWasSpace: bool, tabWidth: nat, br: string)
    requires tabWidth > 0 && from < |source|
    ensures Chunked(source, from, [], column, lastWasSpace, tabWidth, br)
         == BreakLines(ProtectChunk(Expand(source[from..], column, tabWidth), lastWasSpace), br)
  {
    assert source[from..|source|] == source[from..];
  }

  lemma CleanChunk(source: string, from: nat, to: nat, column: nat, lastWasSpace: bool, tabWidth: nat, br: string)
    requires tabWidth > 0 && from < to <= |source| && Clean(source)
    ensures var text := Expand(source[from..to], column, tabWidth);
      var html := ProtectChunk(text, lastWasSpace);
      && BreakLines(html, br) == Filter(text, lastWasSpace, br)
      && TrailingSpace(html) == SpaceAfter(text, lastWasSpace)
  {
    CleanSlice(source, from, to);
    ExpandClean(source[from..to], column, tabWidth);
    ChunkIsFiltered(Expand(source[from..to], column, tabWidth), lastWasSpace, br);
  }

  /** One chunk of a clean source through the filter, and the rest after it. */
  lemma FilterStep(source: string, from: nat, to: nat, column: nat, lastWasSpace: bool, tabWidth: nat, br: string)
    requires tabWidth > 0 && from < to <= |source|
    ensures var chunk := source[from..to];
      var text, after := Expand(chunk, column, tabWidth), ColumnAfter(chunk, column, tabWidth);
      Filter(Expand(source[from..], column, tabWidth), lastWasSpace, br)
      == Filter(text, lastWasSpace, br)
         + Filter(Expand(source[to..], after, tabWidth), SpaceAfter(text, lastWasSpace), br)
  {
    var chunk := source[from..to];
    assert source[from..] == chunk + source[to..];
    ExpandAppend(chunk, source[to..], column, tabWidth);
    FilterAppend(Expand(chunk, column, tabWidth),
                 Expand(source[to..], ColumnAfter(chunk, column, tabWidth), tabWidth), lastWasSpace, br);
  }

  /** The same for the writing of one chunk and of the rest. */
  lemma CleanStep(source: string, from: nat, cuts: seq<nat>, column: nat, lastWasSpace: bool, tabWidth: nat, br: string)
    requires tabWidth > 0 && from <= |source| && cuts != [] && from < cuts[0]
    requires Within(cuts, |source|) && Clean(source)
    ensures var chunk := source[from..cuts[0]];
      var text, after := Expand(chunk, column, tabWidth), ColumnAfter(chunk, column, tabWidth);
      Chunked(source, from, cuts, column, lastWasSpace, tabWidth, br)
      == Filter(text, lastWasSpace, br)
         + Chunked(source, cuts[0], cuts[1..], after, SpaceAfter(text, lastWasSpace), tabWidth, br)
  {
    ChunkedStep(source, from, cuts, column, lastWasSpace, tabWidth, br);
    CleanChunk(source, from, cuts[0], column, lastWasSpace, tabWidth, br);
  }

  lemma CleanLast(source: string, from: nat, column: nat, lastWasSpace: bool, tabWidth: nat, br: string)
    requires tabWidth > 0 && from <= |source| && Clean(source)
    ensures Chunked(source, from, [], column, lastWasSpace, tabWidth, br)
         == Filter(Expand(source[from..], column, tabWidth), lastWasSpace, br)
  {
    if from < |source| {
      ChunkedLast(source, from, column, lastWasSpace, tabWidth, br);
      CleanChunk(source, from, |source|, column, lastWasSpace, tabWidth, br);
      assert source[from..|source|] == source[from..];
    } else {
      assert source[from..] == [];
    }
  }

  /** Streaming equals batch on a clean source. */
  lemma {:induction false} StreamingIsBatch(source: string, from: nat, cuts: seq<nat>, column: nat, lastWasSpace: bool,
                                            tabWidth: nat, br: string)
    requires tabWidth > 0 && from <= |source| && Clean(source)
    requires Within(cuts, |source|)
    ensures Chunked(source, from, cuts, column, lastWasSpace, tabWidth, br)
         == Filter(Expand(source[from..], column, tabWidth), lastWasSpace, br)
    decreases |cuts|
  {
    if cuts == [] {
      CleanLast(source, from, column, lastWasSpace, tabWidth, br);
    } else if from < cuts[0] {
      var chunk := source[from..cuts[0]];
      var after, space := ColumnAfter(chunk, column, tabWidth),
          SpaceAfter(Expand(chunk, column, tabWidth), lastWasSpace);
      CleanStep(source, from, cuts, column, lastWasSpace, tabWidth, br);
      FilterStep(source, from, cuts[0], column, lastWasSpace, tabWidth, br);
      StreamingIsBatch(source, cuts[0], cuts[1..], after, space, tabWidth, br);
    } else {
      StreamingIsBatch(source, from, cuts[1..], column, lastWasSpace, tabWidth, br);
    }
  }

  // ---- and only on a clean source ----

  ghost predicate CutsOf(source: string, cuts: seq<nat>) {
    && Within(cuts, |source|)
    && (forall i, j :: 0 <= i < j < |cuts| ==> cuts[i] <= cuts[j])
  }

  /** The program's text from its initial state. */
  ghost function Output(source: string, cuts: seq<nat>, tabWidth: nat, br: string): string
    requires tabWidth > 0
    requires Within(cuts, |source|)
  {
    Chunked(source, 0, cuts, 0, true, tabWidth, br)
  }

  lemma StartHeadAppend(a: string, b: string, lineStart: bool)
    requires a != [] && a[|a| - 1] != ' '
    ensures var head := StartHead(a, lineStart);
      && StartHead(a + b, lineStart) == head
      && head.1 <= |a| && (a + b)[head.1..] == a[head.1..] + b
      && (head.1 == |a| ==> head.2 == LineTerminator(a[|a| - 1]))
      && (head.1 < |a| ==> a[head.1..][|a[head.1..]| - 1] == a[|a| - 1])
  {
    assert (a + b)[0] == a[0];
    assert |a| >= 2 ==> (a + b)[1] == a[1];
  }

  /** The start-or-space pattern splits after a character that is no blank. */
  lemma {:induction false} StartOrSpaceAppend(a: string, b: string, lineStart: bool)
    requires a != [] && a[|a| - 1] != ' '
    ensures StartOrSpace(a + b, lineStart) == StartOrSpace(a, lineStart) + StartOrSpace(b, LineTerminator(a[|a| - 1]))
    decreases |a|
  {
    StartHeadAppend(a, b, lineStart);
    var head := StartHead(a, lineStart);
    var a', tail := a[head.1..], StartOrSpace(b, LineTerminator(a[|a| - 1]));
    if a' == [] {
      assert a' + b == b;
      assert StartOrSpace(a', head.2) + tail == tail;
    } else {
      StartOrSpaceAppend(a', b, head.2);
    }
    Assoc(head.0, StartOrSpace(a', head.2), tail);
  }

  lemma {:induction false} StartOrSpaceLast(a: string, lineStart: bool)
    requires a != [] && a[|a| - 1] != ' '
    ensures StartOrSpace(a, lineStart) != []
    ensures StartOrSpace(a, lineStart)[|StartOrSpace(a, lineStart)| - 1] == a[|a| - 1]
  {
    var init, last := a[..|a| - 1], a[|a| - 1];
    assert a == init + [last];
    StartOrSpaceEnds(init, last, lineStart);
  }

  lemma {:induction false} StartOrSpaceEnds(init: string, last: char, lineStart: bool)
    requires last != ' '
    ensures exists front :: StartOrSpace(init + [last], lineStart) == front + [last]
    decreases |init|
  {
    var a := init + [last];
    var head := StartHead(a, lineStart);
    if init == [] {
      assert a[1..] == [];
      assert StartOrSpace(a, lineStart) == [] + [last];
    } else {
      assert head.1 <= |init|;
      assert a[head.1..] == init[head.1..] + [last];
      StartOrSpaceEnds(init[head.1..], last, head.2);
      var front :| StartOrSpace(init[head.1..] + [last], head.2) == front + [last];
      assert StartOrSpace(a, lineStart) == (head.0 + front) + [last];
    }
  }

  lemma LineEndAppend(a: string, b: string)
    requires a != [] && (b != [] ==> !(a[|a| - 1] == '\r' && b[0] == '\n'))
    ensures LineEnd(a + b) == LineEnd(a) <= |a|
    ensures (a + b)[LineEnd(a)..] == a[LineEnd(a)..] + b && (a + b)[1..] == a[1..] + b && (a + b)[0] == a[0]
  {
    if |a| > 1 {
      assert (a + b)[1] == a[1];
    }
  }

  lemma {:induction false} BreakLinesAppend(a: string, b: string, br: string)
    requires a != [] && b != [] ==> !(a[|a| - 1] == '\r' && b[0] == '\n')
    ensures BreakLines(a + b, br) == BreakLines(a, br) + BreakLines(b, br)
    decreases |a|
  {
    if a == [] {
      assert a + b == b;
    } else {
      LineEndAppend(a, b);
      var n := LineEnd(a);
      var head, rest := if n > 0 then br else [a[0]], if n > 0 then a[n..] else a[1..];
      assert rest != [] ==> rest[|rest| - 1] == a[|a| - 1];
      BreakLinesAppend(rest, b, br);
      Assoc(head, BreakLines(rest, br), BreakLines(b, br));
    }
  }

  lemma {:induction false} EncAppend(a: string, b: string, codes: set<char>)
    ensures Enc(a + b, codes) == Enc(a, codes) + Enc(b, codes)
    decreases |a|
  {
    if a == [] {
      assert a + b == b;
    } else {
      assert (a + b)[1..] == a[1..] + b;
      EncAppend(a[1..], b, codes);
    }
  }

  lemma SeparatorShows(x: string, b: string, br: string)
    requires x != [] && Separator(x[|x| - 1]) && b != [] && b[0] == ' '
    ensures BreakLines(x + StartOrSpace(b, true), br) != BreakLines(x, br) + BreakLines(AdjacentSpace(b), br)
  {
    var y, z := StartOrSpace(b, true), AdjacentSpace(b);
    BreakLinesAppend(x, y, br);
    assert y[0] == '&' && z[0] == ' ';
    assert BreakLines(y, br)[0] == '&';
    assert BreakLines(z, br)[0] == ' ';
    assert (BreakLines(x, br) + BreakLines(y, br))[|BreakLines(x, br)|] == '&';
    assert (BreakLines(x, br) + BreakLines(z, br))[|BreakLines(x, br)|] == ' ';
  }

  lemma EncLast(front: string)
    requires front != [] && front[|front| - 1] !in CODES
    ensures Enc(front, CODES) != []
    ensures Enc(front, CODES)[|Enc(front, CODES)| - 1] == front[|front| - 1]
  {
    var last := front[|front| - 1];
    EncAppend(front[..|front| - 1], [last], CODES);
    assert front == front[..|front| - 1] + [last];
    assert Enc([last], CODES) == [last] + Enc([], CODES);
  }

  /** Protecting a text that continues after an ordinary character. */
  lemma ProtectSplit(front: string, back: string)
    requires front != [] && front[|front| - 1] !in CODES && front[|front| - 1] != ' '
    ensures var html := ProtectChunk(front, true);
      && html != [] && html[|html| - 1] == front[|front| - 1]
      && ProtectChunk(front + back, true) == html + StartOrSpace(Enc(back, CODES), LineTerminator(front[|front| - 1]))
  {
    TextToHtmlIsEnc(front + back);
    TextToHtmlIsEnc(front);
    EncAppend(front, back, CODES);
    EncLast(front);
    StartOrSpaceAppend(Enc(front, CODES), Enc(back, CODES), true);
    StartOrSpaceLast(Enc(front, CODES), true);
  }

  /** A chunk boundary inside a hazard pair shows: the text before it is `front`,
      expanded and ending in the pair's first character, the text after it `back`. */
  lemma SplitShows(front: string, back: string, br: string)
    requires front != [] && back != [] && br != []
    requires (front[|front| - 1] == '\r' && back[0] == '\n') || (Separator(front[|front| - 1]) && back[0] == ' ')
    ensures BreakLines(ProtectChunk(front + back, true), br)
         != BreakLines(ProtectChunk(front, true), br)
            + BreakLines(ProtectChunk(back, TrailingSpace(ProtectChunk(front, true))), br)
  {
    if front[|front| - 1] == '\r' {
      ReturnSplitShows(front, back, br);
    } else {
      SeparatorSplitShows(front, back, br);
    }
  }

  lemma ReturnSplitShows(front: string, back: string, br: string)
    requires front != [] && back != [] && br != [] && front[|front| - 1] == '\r' && back[0] == '\n'
    ensures BreakLines(ProtectChunk(front + back, true), br)
         != BreakLines(ProtectChunk(front, true), br)
            + BreakLines(ProtectChunk(back, TrailingSpace(ProtectChunk(front, true))), br)
  {
    ProtectSplit(front, back);
    EncHead(back);
    ProtectAfter(back);
    StartNewline(Enc(back, CODES));
    CarriageReturnShows(ProtectChunk(front, true), StartOrSpace(Enc(back, CODES), true), br);
  }

  lemma SeparatorSplitShows(front: string, back: string, br: string)
    requires front != [] && back != [] && br != [] && Separator(front[|front| - 1]) && back[0] == ' '
    ensures BreakLines(ProtectChunk(front + back, true), br)
         != BreakLines(ProtectChunk(front, true), br)
            + BreakLines(ProtectChunk(back, TrailingSpace(ProtectChunk(front, true))), br)
  {
    ProtectSplit(front, back);
    EncHead(back);
    ProtectAfter(back);
    SeparatorIsNoSpace(ProtectChunk(front, true));
    SeparatorShows(ProtectChunk(front, true), Enc(back, CODES), br);
  }

  lemma SeparatorIsNoSpace(html: string)
    requires html != [] && Separator(html[|html| - 1])
    ensures LineTerminator(html[|html| - 1]) && !TrailingSpace(html)
  {
  }

  lemma ProtectAfter(back: string)
    ensures ProtectChunk(back, true) == StartOrSpace(Enc(back, CODES), true)
    ensures ProtectChunk(back, false) == AdjacentSpace(Enc(back, CODES))
  {
    TextToHtmlIsEnc(back);
  }

  lemma StartNewline(b: string)
    requires b != [] && b[0] == '\n'
    ensures StartOrSpace(b, true) != [] && StartOrSpace(b, true)[0] == '\n'
  {
  }

  lemma CarriageReturnShows(x: string, y: string, br: string)
    requires x != [] && x[|x| - 1] == '\r' && y != [] && y[0] == '\n'
    ensures |BreakLines(x + y, br)| + |br| == |BreakLines(x, br)| + |BreakLines(y, br)|
  {
    var x', y' := x[..|x| - 1], y[1..];
    assert x == x' + "\r" && y == "\n" + y';
    assert x + y == x' + ("\r\n" + y');
    BreakLinesAppend(x', "\r\n" + y', br);
    assert ("\r\n" + y')[2..] == y';
    BreakLinesAppend(x', "\r", br);
    assert BreakLines("\r", br) == br + BreakLines("\r"[1..], br);
    assert ("\n" + y')[1..] == y';
  }

  /** Expansion of a text that ends in, or starts with, an ordinary character. */
  lemma ExpandEnds(text: string, column: nat, tabWidth: nat)
    requires tabWidth > 0 && text != []
    ensures Expand(text, column, tabWidth) != []
    ensures Expand(text, column, tabWidth)[0] == if text[0] == '\t' then ' ' else text[0]
    ensures text[|text| - 1] != '\t' ==>
      Expand(text, column, tabWidth)[|Expand(text, column, tabWidth)| - 1] == text[|text| - 1]
  {
    var init, last := text[..|text| - 1], text[|text| - 1];
    assert text == init + [last];
    ExpandAppend(init, [last], column, tabWidth);
    var c := ColumnAfter(init, column, tabWidth);
    if last != '\t' {
      assert Expand([last], c, tabWidth) == [last] + Expand([], if last == '\n' then 0 else c + 1, tabWidth);
    }
  }

  /** A source with a hazard has two different outputs. */
  lemma HazardShows(source: string, i: nat, tabWidth: nat, br: string)
    requires tabWidth > 0 && br != [] && HazardAt(source, i)
    ensures Output(source, [i + 1], tabWidth, br) != Output(source, [], tabWidth, br)
  {
    var front, back := source[..i + 1], source[i + 1..];
    var column := ColumnAfter(front, 0, tabWidth);
    assert source == front + back;
    ExpandAppend(front, back, 0, tabWidth);
    ExpandEnds(front, 0, tabWidth);
    ExpandEnds(back, column, tabWidth);
    SplitShows(Expand(front, 0, tabWidth), Expand(back, column, tabWidth), br);
    OutputAtOnce(source, tabWidth, br);
    OutputInTwo(source, i + 1, tabWidth, br);
  }

  lemma OutputAtOnce(source: string, tabWidth: nat, br: string)
    requires tabWidth > 0 && source != []
    ensures Output(source, [], tabWidth, br) == BreakLines(ProtectChunk(Expand(source, 0, tabWidth), true), br)
  {
    ChunkedLast(source, 0, 0, true, tabWidth, br);
    assert source[0..] == source;
  }

  lemma OutputInTwo(source: string, cut: nat, tabWidth: nat, br: string)
    requires tabWidth > 0 && 0 < cut < |source|
    ensures var front, back := source[..cut], source[cut..];
      var html := ProtectChunk(Expand(front, 0, tabWidth), true);
      Output(source, [cut], tabWidth, br)
      == BreakLines(html, br)
         + BreakLines(ProtectChunk(Expand(back, ColumnAfter(front, 0, tabWidth), tabWidth), TrailingSpace(html)), br)
  {
    var front := source[..cut];
    ChunkedStep(source, 0, [cut], 0, true, tabWidth, br);
    ChunkedLast(source, cut, ColumnAfter(front, 0, tabWidth),
                TrailingSpace(ProtectChunk(Expand(front, 0, tabWidth), true)), tabWidth, br);
    assert source[0..cut] == front && [cut][1..] == [];
  }

  /** Chunking is invisible exactly on the sources without a hazard: then every
      chunking gives the one-pass filter of the whole expanded source, otherwise
      some chunking differs from the unbroken text. */
  lemma ChunkingInvisibleIff(source: string, tabWidth: nat, br: string)
    requires tabWidth > 0 && br != []
    ensures (forall cuts :: CutsOf(source, cuts) ==>
        Output(source, cuts, tabWidth, br) == Output(source, [], tabWidth, br))
       <==> !Hazard(source)
    ensures !Hazard(source) ==> forall cuts :: CutsOf(source, cuts) ==>
      Output(source, cuts, tabWidth, br) == Filter(Expand(source, 0, tabWidth), true, br)
  {
    CleanIffNoHazard(source);
    if i: nat :| HazardAt(source, i) {
      HazardShows(source, i, tabWidth, br);
      assert CutsOf(source, [i + 1]);
    } else {
      forall cuts | CutsOf(source, cuts)
        ensures Output(source, cuts, tabWidth, br) == Filter(Expand(source, 0, tabWidth), true, br)
      {
        StreamingIsBatch(source, 0, cuts, 0, true, tabWidth, br);
        assert source[0..] == source;
      }
      assert CutsOf(source, []);
    }
  }

  // ---- reading the output back ----

  /** What a page shows for the output: breaks as newlines, entities as their characters. */
  function Displayed(h: string, br: string): string
    requires br != []
    decreases |h|
  {
    if h == [] then []
    else if br <= h then "\n" + Displayed(h[|br|..], br)
    else if NBSP <= h then " " + Displayed(h[|NBSP|..], br)
    else if "&amp;" <= h then "&" + Displayed(h[5..], br)
    else if "&lt;" <= h then "<" + Displayed(h[4..], br)
    else if "&gt;" <= h then ">" + Displayed(h[4..], br)
    else [h[0]] + Displayed(h[1..], br)
  }

  /** The text with every line end a newline. */
  function Newlines(text: string): string {
    if text == [] then []
    else [if text[0] == '\r' then '\n' else text[0]] + Newlines(text[1..])
  }

  /** Only a break starts with an unescaped bracket. */
  lemma FilterHead(text: string, space: bool, ie6: bool)
    ensures var h := Filter(text, space, LineBreakHtml(ie6)); ie6 && h != [] ==> h[0] != '<'
  {
  }

  lemma Front(w: string, h: string)
    ensures w <= w + h && (w + h)[|w|..] == h
  {
  }

  lemma Differs(w: string, s: string, i: nat)
    requires i < |w| && i < |s| && w[i] != s[i]
    ensures !(w <= s)
  {
  }

  lemma DisplayedBreak(h: string, br: string)
    requires br != []
    ensures Displayed(br + h, br) == "\n" + Displayed(h, br)
  {
    Front(br, h);
  }

  lemma DisplayedBlank(h: string, ie6: bool)
    requires ie6 && h != [] ==> h[0] != '<'
    ensures Displayed(NBSP + h, LineBreakHtml(ie6)) == " " + Displayed(h, LineBreakHtml(ie6))
  {
    var br, s := LineBreakHtml(ie6), NBSP + h;
    Front(NBSP, h);
    if !ie6 {
      Differs(br, s, 0);
    } else if h != [] {
      assert s[6] == h[0];
      Differs(br, s, 6);
    }
  }

  lemma DisplayedPlain(c: char, h: string, ie6: bool)
    requires c !in CODES
    ensures Displayed([c] + h, LineBreakHtml(ie6)) == [c] + Displayed(h, LineBreakHtml(ie6))
  {
    var s := [c] + h;
    Front([c], h);
    Differs(LineBreakHtml(ie6), s, 0);
    Differs(NBSP, s, 0);
    Differs("&amp;", s, 0);
    Differs("&lt;", s, 0);
    Differs("&gt;", s, 0);
  }

  lemma DisplayedEntity(c: char, h: string, ie6: bool)
    requires c in CODES
    ensures Displayed(Entity(c) + h, LineBreakHtml(ie6)) == [c] + Displayed(h, LineBreakHtml(ie6))
  {
    var s := Entity(c) + h;
    Front(Entity(c), h);
    assert s[..2] == Entity(c)[..2] && s[1] == Entity(c)[1];
    Differs(LineBreakHtml(ie6), s, if ie6 then 1 else 0);
    Differs(NBSP, s, 1);
    if c != '&' {
      Differs("&amp;", s, 1);
    }
    if c == '>' {
      Differs("&lt;", s, 1);
    }
  }

  lemma DisplayedWord(c: char, space: bool, h: string, ie6: bool)
    requires ie6 && h != [] ==> h[0] != '<'
    ensures var br := LineBreakHtml(ie6);
      Displayed(FilterChar(c, space, br) + h, br) == [if c == '\r' then '\n' else c] + Displayed(h, br)
  {
    if c == '\n' || c == '\r' {
      DisplayedBreak(h, LineBreakHtml(ie6));
    } else if c == ' ' && space {
      DisplayedBlank(h, ie6);
    } else if c in CODES {
      DisplayedEntity(c, h, ie6);
    } else {
      DisplayedPlain(c, h, ie6);
    }
  }

  /** Nothing is lost: the one-pass output displays the text it was made of. */
  lemma {:induction false} FilterDisplays(text: string, space: bool, ie6: bool)
    ensures Displayed(Filter(text, space, LineBreakHtml(ie6)), LineBreakHtml(ie6)) == Newlines(text)
    decreases |text|
  {
    if text != [] {
      FilterDisplays(text[1..], NextSpace(text[0], space), ie6);
      FilterHead(text[1..], NextSpace(text[0], space), ie6);
      DisplayedWord(text[0], space, Filter(text[1..], NextSpace(text[0], space), LineBreakHtml(ie6)), ie6);
    }
  }
}
