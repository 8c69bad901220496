/** `recombineTagsAndDecorations`: extracted tags and style decorations merged back
    over the source text, chunk by chunk, into a list of html pieces. */
module Recombine {
  import opened Basics
  import opened HtmlText
  import opened TabExpansion
  import opened SpaceFilter

  /** A style that runs from a position on; the empty style, like the initial null,
      opens no span. */
  datatype Decoration = Decoration(pos: nat, style: string)

  datatype Tag = Tag(pos: nat, html: string)

  /** What is pushed onto the `html` array. A text piece also says which slice of
      the source it shows. */
  datatype Piece =
    | Text(lo: nat, hi: nat, html: string)
    | OpenSpan(style: string)
    | CloseSpan
    | RawTag(tag: string)

  // ---- reading a list of pieces ----

  /** The html of the text alone, with spans and tags deleted. */
  function TextOf(pieces: seq<Piece>): string {
    if pieces == [] then []
    else
      var last := pieces[|pieces| - 1];
      TextOf(pieces[..|pieces| - 1]) + if last.Text? then last.html else []
  }

  /** How much of the source has been shown. */
  function Shown(pieces: seq<Piece>): nat {
    if pieces == [] then 0
    else
      var last := pieces[|pieces| - 1];
      if last.Text? then last.hi else Shown(pieces[..|pieces| - 1])
  }

  /** The style of the span that is open after the pieces, "" when none is; None
      when spans nest, close unopened, or enclose a tag. */
  function OpenStyle(pieces: seq<Piece>): Option<string> {
    if pieces == [] then Some("")
    else
      match (OpenStyle(pieces[..|pieces| - 1]), pieces[|pieces| - 1])
      case (None, _) => None
      case (Some(open), Text(_, _, _)) => Some(open)
      case (Some(open), OpenSpan(style)) => if open == "" && style != "" then Some(style) else None
      case (Some(open), CloseSpan) => if open != "" then Some("") else None
      case (Some(open), RawTag(_)) => if open == "" then Some("") else None
  }

  /** The tags, each at the source position where it stands among the text. */
  function TagsIn(pieces: seq<Piece>): seq<Tag> {
    if pieces == [] then []
    else
      var init, last := pieces[..|pieces| - 1], pieces[|pieces| - 1];
      TagsIn(init) + if last.RawTag? then [Tag(Shown(init), last.tag)] else []
  }

  /** The style of the last decoration at or before source index i. */
  function StyleAt(decorations: seq<Decoration>, i: nat): string {
    if decorations == [] then ""
    else
      var last := decorations[|decorations| - 1];
      if last.pos <= i then last.style else StyleAt(decorations[..|decorations| - 1], i)
  }

  /** The text pieces tile the source from the start, and every character of a piece
      stands in a span of exactly its own style. */
  ghost predicate Styled(pieces: seq<Piece>, decorations: seq<Decoration>) {
    pieces == [] ||
    var init, last := pieces[..|pieces| - 1], pieces[|pieces| - 1];
    && Styled(init, decorations)
    && (last.Text? ==>
          && Shown(init) == last.lo < last.hi
          && forall i: nat :: last.lo <= i < last.hi ==> OpenStyle(init) == Some(StyleAt(decorations, i)))
  }

  /** The text before every point of the output is the filter of the source text
      before that point. */
  ghost predicate Exact(pieces: seq<Piece>, source: string, tabWidth: nat, br: string)
    requires tabWidth > 0
  {
    && Shown(pieces) <= |source|
    && TextOf(pieces) == Filter(Expand(source[..Shown(pieces)], 0, tabWidth), true, br)
    && (pieces == [] || Exact(pieces[..|pieces| - 1], source, tabWidth, br))
  }

  // ---- the inputs ----

  ghost predicate TagsOk(tags: seq<Tag>, source: string) {
    && (forall i :: 0 <= i < |tags| ==> tags[i].pos <= |source|)
    && (forall i, j :: 0 <= i < j < |tags| ==> tags[i].pos <= tags[j].pos)
  }

  ghost predicate DecorationsOk(decorations: seq<Decoration>, source: string) {
    && (forall i :: 0 <= i < |decorations| ==> decorations[i].pos <= |source|)
    && (forall i, j :: 0 <= i < j < |decorations| ==> decorations[i].pos <= decorations[j].pos)
  }

  /** Whether, after t tags and d decorations, a tag is next: ties go to the tag. */
  predicate TagNext(tags: seq<Tag>, t: nat, decorations: seq<Decoration>, d: nat) {
    t < |tags| && (d < |decorations| ==> tags[t].pos <= decorations[d].pos)
  }

  /** The positions the text is written up to, in the order they are consumed, after t
      tags and d decorations. */
  function CutsFrom(tags: seq<Tag>, t: nat, decorations: seq<Decoration>, d: nat): seq<nat>
    requires t <= |tags| && d <= |decorations|
    decreases |tags| - t + |decorations| - d
  {
    if TagNext(tags, t, decorations, d) then [tags[t].pos] + CutsFrom(tags, t + 1, decorations, d)
    else if d < |decorations| then [decorations[d].pos] + CutsFrom(tags, t, decorations, d + 1)
    else []
  }

  function Cuts(tags: seq<Tag>, decorations: seq<Decoration>): seq<nat> {
    CutsFrom(tags, 0, decorations, 0)
  }

  lemma {:induction false} CutsBounded(tags: seq<Tag>, t: nat, decorations: seq<Decoration>, d: nat, source: string)
    requires TagsOk(tags, source) && DecorationsOk(decorations, source) && t <= |tags| && d <= |decorations|
    ensures Within(CutsFrom(tags, t, decorations, d), |source|)
    decreases |tags| - t + |decorations| - d
  {
    if TagNext(tags, t, decorations, d) {
      CutsBounded(tags, t + 1, decorations, d, source);
    } else if d < |decorations| {
      CutsBounded(tags, t, decorations, d + 1, source);
    }
  }

  /** Between two neighbouring decorations the style is that of the first. */
  lemma {:induction false} StyleBetween(decorations: seq<Decoration>, k: nat, i: nat)
    requires forall a, b :: 0 <= a < b < |decorations| ==> decorations[a].pos <= decorations[b].pos
    requires k <= |decorations|
    requires k > 0 ==> decorations[k - 1].pos <= i
    requires k < |decorations| ==> i < decorations[k].pos
    ensures StyleAt(decorations, i) == if k == 0 then "" else decorations[k - 1].style
    decreases |decorations|
  {
    if k < |decorations| {
      StyleBetween(decorations[..|decorations| - 1], k, i);
    }
  }

  /** What one more piece does to every reading of the list. */
  lemma Push(pieces: seq<Piece>, p: Piece)
    ensures (pieces + [p])[..|pieces + [p]| - 1] == pieces
    ensures (pieces + [p])[|pieces + [p]| - 1] == p
  {
  }

  lemma PushText(pieces: seq<Piece>, p: Piece, decorations: seq<Decoration>)
    requires p.Text? && Styled(pieces, decorations) && Shown(pieces) == p.lo < p.hi
    requires forall i: nat :: p.lo <= i < p.hi ==> OpenStyle(pieces) == Some(StyleAt(decorations, i))
    ensures Shown(pieces + [p]) == p.hi
    ensures TextOf(pieces + [p]) == TextOf(pieces) + p.html
    ensures OpenStyle(pieces + [p]) == OpenStyle(pieces)
    ensures TagsIn(pieces + [p]) == TagsIn(pieces)
    ensures Styled(pieces + [p], decorations)
  {
    Push(pieces, p);
  }

  /** The text written so far and the text to come are not changed by writing a chunk. */
  lemma WholeStep(pieces: seq<Piece>, p: Piece, source: string, from: nat, to: nat, later: seq<nat>,
                  column: nat, space: bool, tabWidth: nat, br: string)
    requires tabWidth > 0 && from < to <= |source| && Within(later, |source|)
    requires p == Text(from, to, BreakLines(ProtectChunk(Expand(source[from..to], column, tabWidth), space), br))
    ensures Within([to] + later, |source|)
    ensures TextOf(pieces + [p])
         + Chunked(source, to, later, ColumnAfter(source[from..to], column, tabWidth),
                   TrailingSpace(ProtectChunk(Expand(source[from..to], column, tabWidth), space)), tabWidth, br)
         == TextOf(pieces) + Chunked(source, from, [to] + later, column, space, tabWidth, br)
  {
    Push(pieces, p);
    ChunkedStep(source, from, [to] + later, column, space, tabWidth, br);
    assert ([to] + later)[1..] == later;
    var rest := Chunked(source, to, later, ColumnAfter(source[from..to], column, tabWidth),
                        TrailingSpace(ProtectChunk(Expand(source[from..to], column, tabWidth), space)), tabWidth, br);
    Assoc(TextOf(pieces), p.html, rest);
  }

  class Recombiner {
    const source: string
    const lineBreakHtml: string
    const tabExpander: TabExpander
    var html: seq<Piece>
    var outputIdx: nat
    var openDecoration: string
    var currentDecoration: string
    var lastWasSpace: bool

    constructor (source: string, tabWidth: nat, ie6: bool)
      requires tabWidth > 0
      ensures fresh(tabExpander) && this.source == source && lineBreakHtml == LineBreakHtml(ie6)
      ensures tabExpander.tabWidth == tabWidth && tabExpander.charInLine == 0
      ensures html == [] && outputIdx == 0 && openDecoration == "" && currentDecoration == "" && lastWasSpace
    {
      this.source := source;
      lineBreakHtml := LineBreakHtml(ie6);
      tabExpander := new TabExpander(tabWidth);
      html, outputIdx, openDecoration, currentDecoration, lastWasSpace := [], 0, "", "", true;
    }

    /** Spans are well formed, the open one is `openDecoration`, and the pieces show
        the source up to `outputIdx` under the styles of `decorations`. */
    ghost predicate Valid(decorations: seq<Decoration>)
      reads this, tabExpander
    {
      && tabExpander.tabWidth > 0
      && outputIdx <= |source|
      && Shown(html) == outputIdx
      && OpenStyle(html) == Some(openDecoration)
      && Styled(html, decorations)
    }

    /** On a clean source the pieces are exact and the carried state is the filter's. */
    ghost predicate InStep()
      reads this, tabExpander
      requires tabExpander.tabWidth > 0 && outputIdx <= |source|
    {
      && Exact(html, source, tabExpander.tabWidth, lineBreakHtml)
      && tabExpander.charInLine == ColumnAfter(source[..outputIdx], 0, tabExpander.tabWidth)
      && lastWasSpace == SpaceAfter(Expand(source[..outputIdx], 0, tabExpander.tabWidth), true)
    }

    /** The text written so far and the text still to come. */
    ghost function Whole(cuts: seq<nat>): string
      reads this, tabExpander
      requires tabExpander.tabWidth > 0 && outputIdx <= |source|
      requires Within(cuts, |source|)
    {
      TextOf(html)
      + Chunked(source, outputIdx, cuts, tabExpander.charInLine, lastWasSpace, tabExpander.tabWidth, lineBreakHtml)
    }

    /** Close the open span, if any. */
    method CloseOpen(ghost decorations: seq<Decoration>)
      requires Valid(decorations)
      modifies this
      ensures Valid(decorations) && openDecoration == ""
      ensures TextOf(html) == old(TextOf(html)) && TagsIn(html) == old(TagsIn(html)) && Shown(html) == old(Shown(html))
      ensures outputIdx == old(outputIdx) && lastWasSpace == old(lastWasSpace)
      ensures currentDecoration == old(currentDecoration)
      ensures Clean(source) && old(InStep()) ==> InStep()
    {
      if openDecoration != "" {
        Push(html, CloseSpan);
        html := html + [CloseSpan];
        openDecoration := "";
      }
    }

    /** Before text: close a span of another style, open one of the current style. */
    method SwitchSpan(ghost decorations: seq<Decoration>)
      requires Valid(decorations)
      modifies this
      ensures Valid(decorations) && openDecoration == currentDecoration
      ensures TextOf(html) == old(TextOf(html)) && TagsIn(html) == old(TagsIn(html)) && Shown(html) == old(Shown(html))
      ensures outputIdx == old(outputIdx) && lastWasSpace == old(lastWasSpace)
      ensures currentDecoration == old(currentDecoration)
      ensures Clean(source) && old(InStep()) ==> InStep()
    {
      if openDecoration != "" && openDecoration != currentDecoration {
        CloseOpen(decorations);
      }
      if openDecoration == "" && currentDecoration != "" {
        openDecoration := currentDecoration;
        Push(html, OpenSpan(openDecoration));
        html := html + [OpenSpan(openDecoration)];
      }
    }

    /** The chunk that `emitTextUpTo` writes once the span is right. */
    method EmitChunk(sourceIdx: nat, ghost decorations: seq<Decoration>, ghost later: seq<nat>)
      requires Valid(decorations) && outputIdx < sourceIdx <= |source| && openDecoration == currentDecoration
      requires Within(later, |source|)
      requires forall i: nat :: outputIdx <= i < sourceIdx ==> StyleAt(decorations, i) == currentDecoration
      modifies this, tabExpander
      ensures Valid(decorations) && outputIdx == sourceIdx
      ensures openDecoration == old(openDecoration) && currentDecoration == old(currentDecoration)
      ensures Within([sourceIdx] + later, |source|)
      ensures Whole(later) == old(Whole([sourceIdx] + later))
      ensures TagsIn(html) == old(TagsIn(html))
      ensures Clean(source) && old(InStep()) ==> InStep()
    {
      ghost var column, space, tabWidth := tabExpander.charInLine, lastWasSpace, tabExpander.tabWidth;
      ghost var from := outputIdx;
      var expanded := tabExpander.ExpandChunk(source[outputIdx..sourceIdx]);
      var htmlChunk := ProtectChunk(expanded, lastWasSpace);
      lastWasSpace := TrailingSpace(htmlChunk);
      var piece := Text(outputIdx, sourceIdx, BreakLines(htmlChunk, lineBreakHtml));
      PushText(html, piece, decorations);
      WholeStep(html, piece, source, from, sourceIdx, later, column, space, tabWidth, lineBreakHtml);
      if Clean(source) && old(InStep()) {
        StepExact(html, piece, source, from, sourceIdx, column, space, tabWidth, lineBreakHtml);
      }
      html := html + [piece];
      outputIdx := sourceIdx;
    }

    /** `emitTextUpTo`. */
    method EmitTextUpTo(sourceIdx: nat, ghost decorations: seq<Decoration>, ghost later: seq<nat>)
      requires Valid(decorations) && sourceIdx <= |source|
      requires Within(later, |source|)
      requires forall i: nat :: outputIdx <= i < sourceIdx ==> StyleAt(decorations, i) == currentDecoration
      modifies this, tabExpander
      ensures Valid(decorations)
      ensures outputIdx == if sourceIdx > old(outputIdx) then sourceIdx else old(outputIdx)
      ensures currentDecoration == old(currentDecoration)
      ensures Within([sourceIdx] + later, |source|)
      ensures Whole(later) == old(Whole([sourceIdx] + later))
      ensures TagsIn(html) == old(TagsIn(html))
      ensures Clean(source) && old(InStep()) ==> InStep()
    {
      assert Within([sourceIdx] + later, |source|);
      assert ([sourceIdx] + later)[1..] == later;
      if sourceIdx > outputIdx {
        SwitchSpan(decorations);
        assert Whole([sourceIdx] + later) == old(Whole([sourceIdx] + later));
        EmitChunk(sourceIdx, decorations, later);
      }
    }

    /** The tag itself, where no span is open. */
    method PushTag(tag: string, ghost decorations: seq<Decoration>)
      requires Valid(decorations) && openDecoration == ""
      modifies this
      ensures Valid(decorations)
      ensures outputIdx == old(outputIdx) && lastWasSpace == old(lastWasSpace)
      ensures openDecoration == "" && currentDecoration == old(currentDecoration)
      ensures TextOf(html) == old(TextOf(html)) && TagsIn(html) == old(TagsIn(html)) + [Tag(outputIdx, tag)]
      ensures old(InStep()) ==> InStep()
    {
      Push(html, RawTag(tag));
      html := html + [RawTag(tag)];
    }

    /** One tag: text up to it, no span open, the tag itself. */
    method ConsumeTag(tag: Tag, ghost decorations: seq<Decoration>, ghost later: seq<nat>)
      requires Valid(decorations) && outputIdx <= tag.pos <= |source|
      requires Within(later, |source|)
      requires forall i: nat :: outputIdx <= i < tag.pos ==> StyleAt(decorations, i) == currentDecoration
      modifies this, tabExpander
      ensures Valid(decorations)
      ensures outputIdx == tag.pos && currentDecoration == old(currentDecoration)
      ensures Within([tag.pos] + later, |source|)
      ensures Whole(later) == old(Whole([tag.pos] + later))
      ensures TagsIn(html) == old(TagsIn(html)) + [tag]
      ensures Clean(source) && old(InStep()) ==> InStep()
    {
      EmitTextUpTo(tag.pos, decorations, later);
      CloseOpen(decorations);
      PushTag(tag.html, decorations);
    }

    /** The state of the merge after the first tagPos tags and decPos decorations. */
    ghost predicate Ready(tags: seq<Tag>, tagPos: nat, decorations: seq<Decoration>, decPos: nat)
      reads this, tabExpander
    {
      && tagPos <= |tags| && decPos <= |decorations|
      && Valid(decorations)
      && (tagPos < |tags| ==> outputIdx <= tags[tagPos].pos)
      && (decPos < |decorations| ==> outputIdx <= decorations[decPos].pos)
      && (decPos > 0 ==> decorations[decPos - 1].pos <= outputIdx)
      && currentDecoration == (if decPos == 0 then "" else decorations[decPos - 1].style)
      && TagsIn(html) == tags[..tagPos]
      && Within(CutsFrom(tags, tagPos, decorations, decPos), |source|)
    }

    /** What the loop keeps: the whole text, and on a clean source the filter's state.
        None when the state is not ready for these tags and decorations. */
    ghost function Merging(tags: seq<Tag>, tagPos: nat, decorations: seq<Decoration>, decPos: nat,
                           exact: bool): Option<string>
      reads this, tabExpander
    {
      if Ready(tags, tagPos, decorations, decPos) && (exact ==> InStep()) then
        Some(Whole(CutsFrom(tags, tagPos, decorations, decPos)))
      else None
    }

    /** The initial state is ready for the first tag and the first decoration. */
    lemma Begin(tags: seq<Tag>, decorations: seq<Decoration>, exact: bool)
      requires Within(Cuts(tags, decorations), |source|)
      requires tabExpander.tabWidth > 0 && tabExpander.charInLine == 0
      requires html == [] && outputIdx == 0 && openDecoration == "" && currentDecoration == "" && lastWasSpace
      ensures Merging(tags, 0, decorations, 0, exact)
           == Some(Output(source, Cuts(tags, decorations), tabExpander.tabWidth, lineBreakHtml))
    {
      assert tags[..0] == [] && source[..0] == [];
      assert Ready(tags, 0, decorations, 0) && InStep();
      assert TextOf(html) == [];
      assert Whole(Cuts(tags, decorations))
          == Output(source, Cuts(tags, decorations), tabExpander.tabWidth, lineBreakHtml);
    }

    /** A turn that consumes a tag. */
    method NextTag(tags: seq<Tag>, tagPos: nat, decorations: seq<Decoration>, decPos: nat)
      requires TagsOk(tags, source) && DecorationsOk(decorations, source)
      requires TagNext(tags, tagPos, decorations, decPos)
      requires Ready(tags, tagPos, decorations, decPos)
      modifies this, tabExpander
      ensures Ready(tags, tagPos + 1, decorations, decPos)
      ensures Whole(CutsFrom(tags, tagPos + 1, decorations, decPos))
           == old(Whole(CutsFrom(tags, tagPos, decorations, decPos)))
      ensures Clean(source) && old(InStep()) ==> InStep()
    {
      LaterCuts(tags, tagPos, decorations, decPos, |source|);
      StyleUpTo(decorations, decPos, outputIdx, tags[tagPos].pos);
      assert tags[..tagPos + 1] == tags[..tagPos] + [tags[tagPos]];
      ConsumeTag(tags[tagPos], decorations, CutsFrom(tags, tagPos + 1, decorations, decPos));
    }

    /** A turn that consumes a decoration. */
    method NextDecoration(tags: seq<Tag>, tagPos: nat, decorations: seq<Decoration>, decPos: nat)
      requires TagsOk(tags, source) && DecorationsOk(decorations, source)
      requires !TagNext(tags, tagPos, decorations, decPos) && decPos < |decorations|
      requires Ready(tags, tagPos, decorations, decPos)
      modifies this, tabExpander
      ensures Ready(tags, tagPos, decorations, decPos + 1)
      ensures Whole(CutsFrom(tags, tagPos, decorations, decPos + 1))
           == old(Whole(CutsFrom(tags, tagPos, decorations, decPos)))
      ensures Clean(source) && old(InStep()) ==> InStep()
    {
      LaterCuts(tags, tagPos, decorations, decPos, |source|);
      StyleUpTo(decorations, decPos, outputIdx, decorations[decPos].pos);
      EmitTextUpTo(decorations[decPos].pos, decorations, CutsFrom(tags, tagPos, decorations, decPos + 1));
      currentDecoration := decorations[decPos].style;
    }

    /** One turn of the loop: a tag is consumed if it comes no later than the decoration. */
    method Turn(tags: seq<Tag>, tagPos: nat, decorations: seq<Decoration>, decPos: nat,
                ghost whole: string, ghost exact: bool) returns (outputTag: bool)
      requires TagsOk(tags, source) && DecorationsOk(decorations, source) && (exact ==> Clean(source))
      requires Merging(tags, tagPos, decorations, decPos, exact) == Some(whole)
      requires tagPos < |tags| || decPos < |decorations|
      modifies this, tabExpander
      ensures outputTag <==> TagNext(tags, tagPos, decorations, decPos)
      ensures outputTag ==> Merging(tags, tagPos + 1, decorations, decPos, exact) == Some(whole)
      ensures !outputTag ==> Merging(tags, tagPos, decorations, decPos + 1, exact) == Some(whole)
    {
      outputTag :=
        if tagPos < |tags| then
          (if decPos < |decorations| then tags[tagPos].pos <= decorations[decPos].pos else true)
        else false;
      if outputTag {
        NextTag(tags, tagPos, decorations, decPos);
      } else {
        NextDecoration(tags, tagPos, decorations, decPos);
      }
    }

    /** The loop: a tag or a decoration is consumed until neither is left. */
    method Merge(tags: seq<Tag>, decorations: seq<Decoration>, ghost whole: string, ghost exact: bool)
      requires TagsOk(tags, source) && DecorationsOk(decorations, source) && (exact ==> Clean(source))
      requires Merging(tags, 0, decorations, 0, exact) == Some(whole)
      modifies this, tabExpander
      ensures Merging(tags, |tags|, decorations, |decorations|, exact) == Some(whole)
    {
      var tagPos: nat, decPos: nat := 0, 0;
      while tagPos < |tags| || decPos < |decorations|
        invariant tagPos <= |tags| && decPos <= |decorations|
        invariant Merging(tags, tagPos, decorations, decPos, exact) == Some(whole)
        decreases |tags| - tagPos + |decorations| - decPos
      {
        var outputTag := Turn(tags, tagPos, decorations, decPos, whole, exact);
        if outputTag {
          tagPos := tagPos + 1;
        } else {
          decPos := decPos + 1;
        }
      }
    }

    /** The rest of the text, and the last span closed. */
    method Finish(tags: seq<Tag>, decorations: seq<Decoration>, ghost whole: string, ghost exact: bool)
      requires Merging(tags, |tags|, decorations, |decorations|, exact) == Some(whole)
      requires DecorationsOk(decorations, source) && (exact ==> Clean(source))
      modifies this, tabExpander
      ensures Valid(decorations) && outputIdx == |source| && openDecoration == ""
      ensures TagsIn(html) == tags
      ensures TextOf(html) == whole
      ensures exact ==> InStep()
    {
      assert Ready(tags, |tags|, decorations, |decorations|);
      StyleUpTo(decorations, |decorations|, outputIdx, |source|);
      EmptyCut(source, outputIdx, tabExpander.charInLine, lastWasSpace, tabExpander.tabWidth, lineBreakHtml);
      EmitTextUpTo(|source|, decorations, []);
      CloseOpen(decorations);
      assert tags[..|tags|] == tags;
    }
  }

  /** From decoration k - 1 to decoration k the style is that of the first. */
  lemma StyleUpTo(decorations: seq<Decoration>, k: nat, from: nat, upTo: nat)
    requires forall a, b :: 0 <= a < b < |decorations| ==> decorations[a].pos <= decorations[b].pos
    requires k <= |decorations|
    requires k > 0 ==> decorations[k - 1].pos <= from
    requires k < |decorations| ==> upTo <= decorations[k].pos
    ensures forall i: nat :: from <= i < upTo ==>
      StyleAt(decorations, i) == if k == 0 then "" else decorations[k - 1].style
  {
    forall i: nat | from <= i < upTo
      ensures StyleAt(decorations, i) == if k == 0 then "" else decorations[k - 1].style
    {
      StyleBetween(decorations, k, i);
    }
  }

  /** The filter up to a later point of a clean source. */
  lemma FilterFurther(source: string, from: nat, to: nat, tabWidth: nat, br: string)
    requires tabWidth > 0 && from < to <= |source|
    ensures var column, space := ColumnAfter(source[..from], 0, tabWidth),
        SpaceAfter(Expand(source[..from], 0, tabWidth), true);
      var text := Expand(source[from..to], column, tabWidth);
      && Filter(Expand(source[..to], 0, tabWidth), true, br)
         == Filter(Expand(source[..from], 0, tabWidth), true, br) + Filter(text, space, br)
      && ColumnAfter(source[..to], 0, tabWidth) == ColumnAfter(source[from..to], column, tabWidth)
      && SpaceAfter(Expand(source[..to], 0, tabWidth), true) == SpaceAfter(text, space)
  {
    assert source[..to] == source[..from] + source[from..to];
    ExpandAppend(source[..from], source[from..to], 0, tabWidth);
    FilterAppend(Expand(source[..from], 0, tabWidth),
                 Expand(source[from..to], ColumnAfter(source[..from], 0, tabWidth), tabWidth), true, br);
  }

  /** One exact chunk after an exact prefix. */
  lemma StepExact(pieces: seq<Piece>, p: Piece, source: string, from: nat, to: nat, column: nat, space: bool,
                  tabWidth: nat, br: string)
    requires tabWidth > 0 && from < to <= |source| && Clean(source)
    requires Exact(pieces, source, tabWidth, br) && Shown(pieces) == from
    requires column == ColumnAfter(source[..from], 0, tabWidth)
    requires space == SpaceAfter(Expand(source[..from], 0, tabWidth), true)
    requires p == Text(from, to, BreakLines(ProtectChunk(Expand(source[from..to], column, tabWidth), space), br))
    ensures Exact(pieces + [p], source, tabWidth, br)
    ensures ColumnAfter(source[from..to], column, tabWidth) == ColumnAfter(source[..to], 0, tabWidth)
    ensures TrailingSpace(ProtectChunk(Expand(source[from..to], column, tabWidth), space))
         == SpaceAfter(Expand(source[..to], 0, tabWidth), true)
  {
    Push(pieces, p);
    FilterFurther(source, from, to, tabWidth, br);
    CleanChunk(source, from, to, column, space, tabWidth, br);
  }

  /** So on a source without hazards the text that is written displays the expanded source. */
  lemma ExactDisplays(pieces: seq<Piece>, source: string, tabWidth: nat, ie6: bool)
    requires tabWidth > 0 && Exact(pieces, source, tabWidth, LineBreakHtml(ie6)) && Shown(pieces) == |source|
    ensures Displayed(TextOf(pieces), LineBreakHtml(ie6)) == Newlines(Expand(source, 0, tabWidth))
  {
    assert source[..|source|] == source;
    FilterDisplays(Expand(source, 0, tabWidth), true, ie6);
  }

  /** The whole merge. Its text is the chunked text for the cuts the inputs give;
      on a source without hazards every prefix of the output is exactly the filtered
      source prefix; spans never nest and are closed before every tag and at the end;
      every character stands under the style of the last decoration at or before it;
      the tags come out in order at their own positions. */
  method RecombineTagsAndDecorations(source: string, extractedTags: seq<Tag>, decorations: seq<Decoration>,
                                     tabWidth: nat, ie6: bool) returns (html: seq<Piece>)
    requires tabWidth > 0
    requires TagsOk(extractedTags, source) && DecorationsOk(decorations, source)
    ensures Shown(html) == |source|
    ensures Within(Cuts(extractedTags, decorations), |source|)
    ensures TextOf(html) == Output(source, Cuts(extractedTags, decorations), tabWidth, LineBreakHtml(ie6))
    ensures !Hazard(source) ==>
      && Exact(html, source, tabWidth, LineBreakHtml(ie6))
      && Displayed(TextOf(html), LineBreakHtml(ie6)) == Newlines(Expand(source, 0, tabWidth))
    ensures OpenStyle(html) == Some("")
    ensures Styled(html, decorations)
    ensures TagsIn(html) == extractedTags
  {
    CleanIffNoHazard(source);
    CutsBounded(extractedTags, 0, decorations, 0, source);
    var job := new Recombiner(source, tabWidth, ie6);
    job.Begin(extractedTags, decorations, Clean(source));
    ghost var whole := Output(source, Cuts(extractedTags, decorations), tabWidth, LineBreakHtml(ie6));
    job.Merge(extractedTags, decorations, whole, Clean(source));
    job.Finish(extractedTags, decorations, whole, Clean(source));
    html := job.html;
    if !Hazard(source) {
      ExactDisplays(html, source, tabWidth, ie6);
    }
  }

  lemma LaterCuts(tags: seq<Tag>, t: nat, decorations: seq<Decoration>, d: nat, n: nat)
    requires t <= |tags| && d <= |decorations| && Within(CutsFrom(tags, t, decorations, d), n)
    ensures TagNext(tags, t, decorations, d) ==> Within(CutsFrom(tags, t + 1, decorations, d), n)
    ensures !TagNext(tags, t, decorations, d) && d < |decorations| ==> Within(CutsFrom(tags, t, decorations, d + 1), n)
  {
    var cuts := CutsFrom(tags, t, decorations, d);
    assert cuts != [] ==> forall i :: 0 <= i < |cuts[1..]| ==> cuts[1..][i] == cuts[i + 1];
    assert cuts != [] ==> Within(cuts[1..], n);
    assert TagNext(tags, t, decorations, d) ==> cuts[1..] == CutsFrom(tags, t + 1, decorations, d);
    assert !TagNext(tags, t, decorations, d) && d < |decorations| ==>
        cuts[1..] == CutsFrom(tags, t, decorations, d + 1);
  }

  /** A last cut at the very end changes nothing. */
  lemma EmptyCut(source: string, from: nat, column: nat, space: bool, tabWidth: nat, br: string)
    requires tabWidth > 0 && from <= |source|
    ensures Within([|source|], |source|)
    ensures Chunked(source, from, [|source|] + [], column, space, tabWidth, br)
         == Chunked(source, from, [], column, space, tabWidth, br)
  {
    assert [|source|] + [] == [|source|];
    assert [|source|][1..] == [];
    if from < |source| {
      ChunkedStep(source, from, [|source|], column, space, tabWidth, br);
      ChunkedLast(source, from, column, space, tabWidth, br);
      assert source[from..|source|] == source[from..];
    }
  }

  /** Whether merging these tags and decorations leaves the text as it is without any. */
  ghost predicate SameText(source: string, tags: seq<Tag>, decorations: seq<Decoration>, tabWidth: nat, br: string)
    requires tabWidth > 0
  {
    TagsOk(tags, source) && DecorationsOk(decorations, source) ==>
      Within(Cuts(tags, decorations), |source|)
      && Output(source, Cuts(tags, decorations), tabWidth, br) == Output(source, [], tabWidth, br)
  }

  lemma OneCut(decorations: seq<Decoration>)
    requires |decorations| == 1
    ensures Cuts([], decorations) == [decorations[0].pos]
  {
    assert CutsFrom([], 0, decorations, 1) == [];
    assert CutsFrom([], 0, decorations, 0) == [decorations[0].pos] + CutsFrom([], 0, decorations, 1);
  }

  /** The text of the result is independent of tags and decorations exactly when the
      source has no hazard. */
  lemma MarkupInvisibleIff(source: string, tabWidth: nat, ie6: bool)
    requires tabWidth > 0
    ensures (forall tags, decorations :: SameText(source, tags, decorations, tabWidth, LineBreakHtml(ie6)))
        <==> !Hazard(source)
  {
    var br := LineBreakHtml(ie6);
    CleanIffNoHazard(source);
    if i: nat :| HazardAt(source, i) {
      HazardShows(source, i, tabWidth, br);
      var decorations := [Decoration(i + 1, "")];
      OneCut(decorations);
      assert TagsOk([], source) && DecorationsOk(decorations, source);
      assert !SameText(source, [], decorations, tabWidth, br);
    } else {
      forall tags, decorations | TagsOk(tags, source) && DecorationsOk(decorations, source)
        ensures SameText(source, tags, decorations, tabWidth, br)
      {
        CutsBounded(tags, 0, decorations, 0, source);
        StreamingIsBatch(source, 0, Cuts(tags, decorations), 0, true, tabWidth, br);
        StreamingIsBatch(source, 0, [], 0, true, tabWidth, br);
      }
    }
  }
}
