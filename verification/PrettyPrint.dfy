/** `applyDecorator`: tags out, source lexed, tags and styles merged back in. */
module PrettyPrint {
  import opened Basics
  import opened TabExpansion
  import opened SpaceFilter
  import opened Recombine
  import opened TagExtraction
  import Lexing

  /** Every character of the output stands in a span of its own style. */
  ghost predicate StyledBy(pieces: seq<Piece>, styles: seq<string>) {
    pieces == [] ||
    var init, last := pieces[..|pieces| - 1], pieces[|pieces| - 1];
    && StyledBy(init, styles)
    && (last.Text? ==>
          && Shown(init) == last.lo < last.hi <= |styles|
          && forall i: nat :: last.lo <= i < last.hi ==> OpenStyle(init) == Some(styles[i]))
  }

  lemma {:induction false} StyledMeans(pieces: seq<Piece>, ds: seq<Decoration>, styles: seq<string>)
    requires Styled(pieces, ds) && Shown(pieces) <= |styles|
    requires forall i: nat :: i < |styles| ==> StyleAt(ds, i) == styles[i]
    ensures StyledBy(pieces, styles)
    decreases |pieces|
  {
    if pieces != [] {
      StyledMeans(pieces[..|pieces| - 1], ds, styles);
    }
  }

  /** On success: the output shows all of the extracted source; on a source without
      hazards its text before every point is the filtered source before that point;
      every character stands under the style of its innermost lexeme; and the tags in
      it, woven into the source at the places where they stand, rebuild the input
      with comments dropped, breaks as newlines and text decoded. */
  method ApplyDecorator(patterns: Patterns, grammar: Lexing.Grammar, chunks: seq<string>, langExtension: string,
                        tabWidth: nat, ie6: bool)
    returns (job: Result<seq<Piece>>, source: string)
    requires tabWidth > 0 && Lexing.WellFormed(grammar)
    requires forall i :: 0 <= i < |chunks| ==> IsChunk(chunks[i])
    ensures job.TypeError? <==> HasBareCdata(patterns, chunks, 0)
    ensures job.Ok? ==> Stretches(patterns, chunks, 0).Ok?
    ensures job.Ok? ==>
      var h := Lexing.LangHandlerForExtension(grammar, langExtension, source);
      && h in grammar.lexers
      && Shown(job.value) == |source|
      && (!Hazard(source) ==>
            && Exact(job.value, source, tabWidth, LineBreakHtml(ie6))
            && Displayed(TextOf(job.value), LineBreakHtml(ie6)) == Newlines(Expand(source, 0, tabWidth)))
      && OpenStyle(job.value) == Some("")
      && StyledBy(job.value, Lexing.Styles(grammar, h, source))
      && TagsOk(TagsIn(job.value), source)
      && Weave(source, TagsIn(job.value)) == Normalized(Stretches(patterns, chunks, 0).value)
  {
    var extracted := ExtractTags(patterns, chunks);
    FailsIff(patterns, chunks, 0);
    source := [];
    if extracted.TypeError? {
      return TypeError, [];
    }
    source := extracted.value.0;
    var h := Lexing.LangHandlerForExtension(grammar, langExtension, source);
    Lexing.HandlerExists(grammar, langExtension, source);
    var decorations := Lexing.Decorate(grammar, h, source, 0);
    DecorationsFit(grammar, h, source);
    var html := RecombineTagsAndDecorations(source, extracted.value.1, decorations, tabWidth, ie6);
    StyledMeans(html, decorations, Lexing.Styles(grammar, h, source));
    job := Ok(html);
  }

  /** What the lexer leaves is what the merge expects. */
  lemma DecorationsFit(grammar: Lexing.Grammar, h: string, source: string)
    requires Lexing.WellFormed(grammar) && h in grammar.lexers
    ensures DecorationsOk(Lexing.Decorations(grammar, h, source, 0), source)
    ensures forall i: nat :: i < |source| ==>
      StyleAt(Lexing.Decorations(grammar, h, source, 0), i) == Lexing.Styles(grammar, h, source)[i]
  {
    if source == [] {
      assert Lexing.Tokenizes(grammar.lexers[h]);
      var tokens := grammar.lexers[h].tokenize(source);
      assert tokens == [] || tokens[0] != [];
      assert Lexing.Decorations(grammar, h, source, 0)
          == [Decoration(0, Lexing.PR_PLAIN)] + Lexing.TokenDecorations(grammar, h, tokens, 0, 0);
    } else {
      Lexing.DecorationsMean(grammar, h, source, 0);
      forall i: nat | i < |source|
        ensures StyleAt(Lexing.Decorations(grammar, h, source, 0), i) == Lexing.Styles(grammar, h, source)[i]
      {
        assert StyleAt(Lexing.Decorations(grammar, h, source, 0), 0 + i) == Lexing.Styles(grammar, h, source)[i];
      }
    }
  }
}
