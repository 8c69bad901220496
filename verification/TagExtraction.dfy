/** `extractTags`: html markup split into the source text and the tags taken out of
    it, each with its position in the text. */
module TagExtraction {
  import opened Basics
  import opened TabExpansion
  import opened Recombine

  /** What the class patterns say about a chunk, and the text of a chunk unescaped. */
  datatype Patterns = Patterns(
    isNoCodeTag: string -> bool, // has the nocode class
    htmlToText: string -> string)

  datatype Result<T> = Ok(value: T) | TypeError

  predicate Letter(c: char) { 'a' <= c <= 'z' || 'A' <= c <= 'Z' }

  predicate WordChar(c: char) { Letter(c) || '0' <= c <= '9' || c == '_' }

  /** `/^<br\b/i` */
  predicate IsBr(chunk: string) {
    && |chunk| >= 3 && chunk[0] == '<'
    && (chunk[1] == 'b' || chunk[1] == 'B') && (chunk[2] == 'r' || chunk[2] == 'R')
    && (|chunk| == 3 || !WordChar(chunk[3]))
  }

  /** How many letters a text starts with. */
  function Letters(s: string): (n: nat)
    ensures n <= |s|
  {
    if s == [] || !Letter(s[0]) then 0 else 1 + Letters(s[1..])
  }

  /** `/^<(\/?)([a-zA-Z]+)/`: whether the tag is a closing one, and its name. */
  function TagName(chunk: string): Option<(bool, string)> {
    if chunk == [] || chunk[0] != '<' then None
    else
      var closing := |chunk| > 1 && chunk[1] == '/';
      var start := if closing then 2 else 1;
      var n := Letters(chunk[start..]);
      if n == 0 then None else Some((closing, chunk[start..start + n]))
  }

  /** Letters and word characters, by their codes. */
  lemma LetterIff(c: char)
    ensures Letter(c) <==> 65 <= c as int <= 90 || 97 <= c as int <= 122
    ensures WordChar(c) <==>
      65 <= c as int <= 90 || 97 <= c as int <= 122 || 48 <= c as int <= 57 || c as int == 95
  {
  }

  /** Breaks are written in either case, and their name ends there. */
  lemma IsBrIff(chunk: string)
    ensures IsBr(chunk) <==>
      && |chunk| >= 3 && (chunk[..3] == "<br" || chunk[..3] == "<bR" || chunk[..3] == "<Br" || chunk[..3] == "<BR")
      && (|chunk| == 3 || !WordChar(chunk[3]))
  {
    if |chunk| >= 3 {
      assert chunk[..3] == [chunk[0], chunk[1], chunk[2]];
    }
  }

  /** One match of the chunk pattern: a run without `<`, a comment, a CDATA section,
      a probable tag, or a lone `<`. */
  predicate IsChunk(chunk: string) {
    || (chunk != [] && '<' !in chunk)
    || "<!--" <= chunk
    || "<![CDATA[" <= chunk
    || (|chunk| > 1 && chunk[0] == '<' && Letter(chunk[1]))
    || (|chunk| > 2 && chunk[0] == '<' && chunk[1] == '/' && Letter(chunk[2]))
    || chunk == "<"
  }

  /** No chunk takes the CDATA branch of the loop, whose prefix pattern has no `!`. */
  lemma CdataBranchIsDead(chunk: string)
    requires IsChunk(chunk)
    ensures !("<[CDATA[" <= chunk)
  {
    var prefix := "<[CDATA[";
    assert prefix[0] == '<' && prefix[1] == '[';
  }

  const CDATA := "<![CDATA["

  /** A CDATA section that has the nocode class. */
  predicate NoCodeCdata(p: Patterns, chunk: string) { CDATA <= chunk && p.isNoCodeTag(chunk) }

  predicate IsComment(chunk: string) { "<!--" <= chunk }

  /** Chunks that can be tags: longer than one character and starting with `<`. */
  predicate IsMarkup(chunk: string) { |chunk| > 1 && chunk[0] == '<' }

  /** Among what can be a tag, exactly the CDATA sections have no tag name. */
  lemma NamelessIsCdata(chunk: string)
    requires IsChunk(chunk) && IsMarkup(chunk) && !IsComment(chunk)
    ensures TagName(chunk).None? <==> CDATA <= chunk
    ensures CDATA <= chunk ==> !IsBr(chunk)
  {
    assert CDATA[0] == '<' && CDATA[1] == '!';
    assert !Letter('!');
  }

  lemma CdataIsMarkup(chunk: string)
    ensures CDATA <= chunk ==> IsMarkup(chunk) && !IsComment(chunk)
  {
    assert CDATA[0] == '<' && CDATA[2] == '[' && "<!--"[2] == '-';
  }

  // ---- nocode sections ----

  /** How a chunk changes the depth of a section opened by a tag called `name`. */
  function DepthChange(chunk: string, name: string): int {
    match TagName(chunk)
    case None => 0
    case Some(t) => if t.1 != name then 0 else if t.0 then -1 else 1
  }

  /** The depth before chunk k of the section opened at chunk i. */
  function Depth(chunks: seq<string>, i: nat, k: nat, name: string): int
    requires i < k <= |chunks|
    decreases k
  {
    if k == i + 1 then 1
    else Depth(chunks, i, k - 1, name) + DepthChange(chunks[k - 1], name)
  }

  /** j is the depth-matching end of the section opened at i: the depth is first zero
      right after chunk j. */
  ghost predicate EndsSection(chunks: seq<string>, i: nat, j: nat, name: string) {
    && i < j < |chunks|
    && Depth(chunks, i, j + 1, name) == 0
    && forall k :: i < k <= j ==> Depth(chunks, i, k, name) != 0
  }

  /** How many of the chunks from lo up to hi open, or close, a tag of that name. */
  function Opened(chunks: seq<string>, lo: nat, hi: nat, name: string): nat
    requires lo <= hi <= |chunks|
  {
    if lo == hi then 0
    else Opened(chunks, lo, hi - 1, name) + if TagName(chunks[hi - 1]) == Some((false, name)) then 1 else 0
  }

  function Closed(chunks: seq<string>, lo: nat, hi: nat, name: string): nat
    requires lo <= hi <= |chunks|
  {
    if lo == hi then 0
    else Closed(chunks, lo, hi - 1, name) + if TagName(chunks[hi - 1]) == Some((true, name)) then 1 else 0
  }

  lemma {:induction false} DepthCounts(chunks: seq<string>, i: nat, k: nat, name: string)
    requires i < k <= |chunks|
    ensures Depth(chunks, i, k, name) == 1 + Opened(chunks, i + 1, k, name) - Closed(chunks, i + 1, k, name)
    decreases k
  {
    if k > i + 1 {
      DepthCounts(chunks, i, k - 1, name);
    }
  }

  /** As many tags of the name have been closed as opened, the section's own one included. */
  predicate Balanced(chunks: seq<string>, i: nat, k: nat, name: string) {
    i < k <= |chunks| && Closed(chunks, i + 1, k, name) == 1 + Opened(chunks, i + 1, k, name)
  }

  /** A section ends where its tags are balanced for the first time. */
  lemma EndsIff(chunks: seq<string>, i: nat, j: nat, name: string)
    requires i < j < |chunks|
    ensures EndsSection(chunks, i, j, name) <==>
      Balanced(chunks, i, j + 1, name) && forall k: nat :: i < k <= j ==> !Balanced(chunks, i, k, name)
  {
    forall k: nat | i < k <= j + 1 ensures Depth(chunks, i, k, name) == 0 <==> Balanced(chunks, i, k, name) {
      DepthCounts(chunks, i, k, name);
    }
  }

  ghost predicate HasSection(chunks: seq<string>, i: nat, name: string) {
    exists j: nat :: EndsSection(chunks, i, j, name)
  }

  /** The inner loop: the index of the end of the section opened at i, or the length. */
  method FindSectionEnd(matches: seq<string>, i: nat, name: string) returns (j: nat)
    requires i < |matches|
    ensures j == |matches| || EndsSection(matches, i, j, name)
    ensures j == |matches| ==> !HasSection(matches, i, name)
  {
    var depth := 1;
    j := i + 1;
    while j < |matches|
      invariant i < j <= |matches|
      invariant depth == Depth(matches, i, j, name) && depth >= 1
      invariant forall k :: i < k <= j ==> Depth(matches, i, k, name) != 0
      decreases |matches| - j
    {
      var name2 := TagName(matches[j]);
      if name2.Some? && name2.value.1 == name {
        if name2.value.0 {
          depth := depth - 1;
          if depth == 0 {
            return;
          }
        } else {
          depth := depth + 1;
        }
      }
      j := j + 1;
    }
    forall e: nat ensures !EndsSection(matches, i, e, name) {
      assert i < e < |matches| ==> Depth(matches, i, e + 1, name) != 0;
    }
  }

  // ---- what extraction does to each stretch of chunks ----

  /** A stretch of the chunk list that is handled as one. */
  datatype Stretch = Dropped | Source(text: string) | Kept(html: string)

  /** The index after the chunks that are handled together from index i on. */
  ghost function StretchEnd(p: Patterns, chunks: seq<string>, i: nat): (end: nat)
    requires i < |chunks|
    ensures i < end <= |chunks|
  {
    var chunk, name := chunks[i], TagName(chunks[i]);
    if IsMarkup(chunk) && !IsComment(chunk) && !IsBr(chunk) && p.isNoCodeTag(chunk)
       && name.Some? && HasSection(chunks, i, name.value.1) then
      var j: nat :| EndsSection(chunks, i, j, name.value.1);
      j + 1
    else i + 1
  }

  /** What they are handled as. */
  ghost function StretchAt(p: Patterns, chunks: seq<string>, i: nat): Result<(Stretch, nat)>
    requires i < |chunks|
    ensures StretchAt(p, chunks, i).Ok? ==> StretchAt(p, chunks, i).value.1 == StretchEnd(p, chunks, i)
  {
    var chunk, end := chunks[i], StretchEnd(p, chunks, i);
    if !IsMarkup(chunk) then Ok((Source(p.htmlToText(chunk)), end))
    else if IsComment(chunk) then Ok((Dropped, end))
    else if IsBr(chunk) then Ok((Source("\n"), end))
    else if p.isNoCodeTag(chunk) && TagName(chunk).None? then TypeError
    else Ok((Kept(if end > i + 1 then Concat(chunks[i..end]) else chunk), end))
  }

  lemma SectionEndUnique(chunks: seq<string>, i: nat, j: nat, k: nat, name: string)
    requires EndsSection(chunks, i, j, name) && EndsSection(chunks, i, k, name)
    ensures j == k
  {
    assert Depth(chunks, i, j + 1, name) == 0 && Depth(chunks, i, k + 1, name) == 0;
  }

  /** The stretches of the whole list, or the error of a nocode tag without a name. */
  ghost function Stretches(p: Patterns, chunks: seq<string>, i: nat): Result<seq<Stretch>>
    requires i <= |chunks|
    decreases |chunks| - i
  {
    if i == |chunks| then Ok([])
    else
      match StretchAt(p, chunks, i)
      case TypeError => TypeError
      case Ok(s) => After([s.0], Stretches(p, chunks, s.1))
  }

  /** Whether chunk k starts a stretch when chunk i does. */
  ghost predicate Starts(p: Patterns, chunks: seq<string>, i: nat, k: nat)
    decreases |chunks| - i
  {
    i < |chunks| && (i == k || Starts(p, chunks, StretchEnd(p, chunks, i), k))
  }

  /** Some CDATA section with the nocode class stands outside the nocode sections. */
  ghost predicate HasBareCdata(p: Patterns, chunks: seq<string>, i: nat) {
    exists k: nat :: k < |chunks| && Starts(p, chunks, i, k) && NoCodeCdata(p, chunks[k])
  }

  lemma {:induction false} FailsIff(p: Patterns, chunks: seq<string>, i: nat)
    requires i <= |chunks| && forall k :: 0 <= k < |chunks| ==> IsChunk(chunks[k])
    ensures Stretches(p, chunks, i).TypeError? <==> HasBareCdata(p, chunks, i)
    decreases |chunks| - i
  {
    if i < |chunks| {
      StretchFailsIff(p, chunks, i);
      var end := StretchEnd(p, chunks, i);
      FailsIff(p, chunks, end);
      if k: nat :| k < |chunks| && Starts(p, chunks, i, k) && NoCodeCdata(p, chunks[k]) && k != i {
        assert Starts(p, chunks, end, k);
      }
      if k: nat :| k < |chunks| && Starts(p, chunks, end, k) && NoCodeCdata(p, chunks[k]) {
        assert Starts(p, chunks, i, k);
      }
      assert Starts(p, chunks, i, i);
    }
  }

  lemma StretchFailsIff(p: Patterns, chunks: seq<string>, i: nat)
    requires i < |chunks| && IsChunk(chunks[i])
    ensures StretchAt(p, chunks, i).TypeError? <==> NoCodeCdata(p, chunks[i])
  {
    if IsMarkup(chunks[i]) && !IsComment(chunks[i]) {
      NamelessIsCdata(chunks[i]);
    }
    CdataIsMarkup(chunks[i]);
  }

  // ---- what is extracted, chunk by chunk ----

  /** What the chunks from index i on add to a source that has `base` characters so far: a
      break a newline, a comment nothing, anything else that is no tag its decoded text, and
      a tag or a nocode section its own characters as one tag. */
  ghost predicate Extracts(p: Patterns, chunks: seq<string>, i: nat, base: nat, source: string, tags: seq<Tag>)
    decreases |chunks| - i
  {
    if i >= |chunks| then source == "" && tags == []
    else
      var chunk, end := chunks[i], StretchEnd(p, chunks, i);
      if !IsMarkup(chunk) then
        var text := p.htmlToText(chunk);
        text <= source && Extracts(p, chunks, end, base + |text|, source[|text|..], tags)
      else if IsComment(chunk) then Extracts(p, chunks, end, base, source, tags)
      else if IsBr(chunk) then "\n" <= source && Extracts(p, chunks, end, base + 1, source[1..], tags)
      else
        && tags != [] && tags[0] == Tag(base, Concat(chunks[i..end]))
        && Extracts(p, chunks, end, base, source, tags[1..])
  }

  function Shifted(tags: seq<Tag>, shift: nat): seq<Tag> {
    seq(|tags|, i requires 0 <= i < |tags| => tags[i].(pos := tags[i].pos + shift))
  }

  function TextIn(s: Stretch): string { if s.Source? then s.text else [] }

  function TagsAt(s: Stretch, pos: nat): seq<Tag> { if s.Kept? then [Tag(pos, s.html)] else [] }

  lemma LastSource(stretches: seq<Stretch>, last: Stretch)
    ensures SourceOf(stretches + [last]) == SourceOf(stretches) + TextIn(last)
  {
    assert (stretches + [last])[..|stretches|] == stretches;
  }

  lemma LastTags(stretches: seq<Stretch>, last: Stretch)
    ensures TagsOf(stretches + [last]) == TagsOf(stretches) + TagsAt(last, |SourceOf(stretches)|)
  {
    assert (stretches + [last])[..|stretches|] == stretches;
  }

  lemma Regroup(s: Stretch, rest: seq<Stretch>) returns (init: seq<Stretch>, last: Stretch)
    requires rest != []
    ensures init == rest[..|rest| - 1] && rest == init + [last] && [s] + rest == ([s] + init) + [last]
  {
    init, last := rest[..|rest| - 1], rest[|rest| - 1];
  }

  /** The source of a list, from its first stretch on, and its tags. */
  lemma {:induction false} FirstSource(s: Stretch, rest: seq<Stretch>)
    ensures SourceOf([s] + rest) == TextIn(s) + SourceOf(rest)
    decreases |rest|
  {
    if rest == [] {
      LastSource([], s);
      assert [s] + rest == [] + [s];
    } else {
      var init, last := Regroup(s, rest);
      FirstSource(s, init);
      LastSource([s] + init, last);
      LastSource(init, last);
      Joined(TextIn(s), SourceOf(init), TextIn(last));
    }
  }

  lemma {:induction false} FirstTagsOf(s: Stretch, rest: seq<Stretch>)
    ensures TagsOf([s] + rest) == TagsAt(s, 0) + Shifted(TagsOf(rest), |TextIn(s)|)
    decreases |rest|
  {
    if rest == [] {
      LastTags([], s);
      assert [s] + rest == [] + [s];
    } else {
      var init, last := Regroup(s, rest);
      FirstTagsOf(s, init);
      FirstSource(s, init);
      LastTags([s] + init, last);
      LastTags(init, last);
      FirstTags(TagsAt(s, 0), TagsOf(init), last, |SourceOf(init)|, |TextIn(s)|);
    }
  }

  lemma Joined(a: string, b: string, c: string)
    ensures a + (b + c) == (a + b) + c
  {
  }

  lemma FirstTags(a: seq<Tag>, b: seq<Tag>, last: Stretch, pos: nat, shift: nat)
    ensures (a + Shifted(b, shift)) + TagsAt(last, shift + pos) == a + Shifted(b + TagsAt(last, pos), shift)
  {
  }

  lemma ConcatOne(chunk: string)
    ensures Concat([chunk]) == chunk
  {
    assert [chunk][..0] == [];
  }

  lemma ShiftFirst(s: Stretch, tags: seq<Tag>, base: nat)
    ensures Shifted(TagsAt(s, 0) + Shifted(tags, |TextIn(s)|), base)
         == TagsAt(s, base) + Shifted(tags, base + |TextIn(s)|)
  {
  }

  /** One stretch is extracted as described. */
  lemma StretchExtracts(p: Patterns, chunks: seq<string>, i: nat, base: nat, source: string, tags: seq<Tag>)
    requires i < |chunks| && StretchAt(p, chunks, i).Ok?
    requires var s := StretchAt(p, chunks, i).value.0;
      Extracts(p, chunks, StretchEnd(p, chunks, i), base + |TextIn(s)|, source, tags)
    ensures var s := StretchAt(p, chunks, i).value.0;
      Extracts(p, chunks, i, base, TextIn(s) + source, TagsAt(s, base) + tags)
  {
    var s, end := StretchAt(p, chunks, i).value.0, StretchEnd(p, chunks, i);
    if s.Source? {
      assert (s.text + source)[|s.text|..] == source;
    } else {
      assert TextIn(s) + source == source;
    }
    if s.Kept? {
      assert (TagsAt(s, base) + tags)[1..] == tags;
      if end == i + 1 {
        assert chunks[i..end] == [chunks[i]];
        ConcatOne(chunks[i]);
      }
    } else {
      assert TagsAt(s, base) + tags == tags;
    }
  }

  /** So are all. */
  lemma {:induction false} StretchesExtract(p: Patterns, chunks: seq<string>, i: nat, base: nat)
    requires i <= |chunks| && Stretches(p, chunks, i).Ok?
    ensures var all := Stretches(p, chunks, i).value;
      Extracts(p, chunks, i, base, SourceOf(all), Shifted(TagsOf(all), base))
    decreases |chunks| - i
  {
    if i < |chunks| {
      var s, end := StretchAt(p, chunks, i).value.0, StretchEnd(p, chunks, i);
      var rest := Stretches(p, chunks, end).value;
      assert Stretches(p, chunks, i).value == [s] + rest;
      StretchesExtract(p, chunks, end, base + |TextIn(s)|);
      StretchExtracts(p, chunks, i, base, SourceOf(rest), Shifted(TagsOf(rest), base + |TextIn(s)|));
      FirstSource(s, rest);
      FirstTagsOf(s, rest);
      ShiftFirst(s, TagsOf(rest), base);
    }
  }

  /** One such section is enough, whatever else the patterns say. */
  lemma CdataFails(p: Patterns)
    requires p.isNoCodeTag("<![CDATA[x class=\"nocode\"]]>")
    ensures Stretches(p, ["<![CDATA[x class=\"nocode\"]]>"], 0).TypeError?
  {
    var chunk := "<![CDATA[x class=\"nocode\"]]>";
    assert CDATA <= chunk && IsChunk(chunk);
    StretchFailsIff(p, [chunk], 0);
  }

  /** The html with comments dropped, breaks as newlines and text decoded, tags and
      sections as they were. */
  function Normalized(stretches: seq<Stretch>): string {
    if stretches == [] then []
    else Normalized(stretches[..|stretches| - 1]) + StretchHtml(stretches[|stretches| - 1])
  }

  function StretchHtml(s: Stretch): string {
    match s
    case Dropped => []
    case Source(text) => text
    case Kept(html) => html
  }

  function SourceOf(stretches: seq<Stretch>): string {
    if stretches == [] then []
    else
      var last := stretches[|stretches| - 1];
      SourceOf(stretches[..|stretches| - 1]) + if last.Source? then last.text else []
  }

  function TagsOf(stretches: seq<Stretch>): seq<Tag> {
    if stretches == [] then []
    else
      var init, last := stretches[..|stretches| - 1], stretches[|stretches| - 1];
      TagsOf(init) + if last.Kept? then [Tag(|SourceOf(init)|, last.html)] else []
  }

  /** Every tag put back into the source at its position. */
  function Weave(source: string, tags: seq<Tag>): string
    requires forall i :: 0 <= i < |tags| ==> tags[i].pos <= |source|
  {
    if tags == [] then source
    else
      var last := tags[|tags| - 1];
      assert forall i :: 0 <= i < |tags| - 1 ==> tags[i].pos <= |source|;
      WeaveUpTo(source, last.pos, tags[..|tags| - 1]) + last.html + source[last.pos..]
  }

  /** The source before a position with the tags up to there. */
  function WeaveUpTo(source: string, pos: nat, tags: seq<Tag>): string
    requires pos <= |source|
    decreases |tags|
  {
    if tags == [] then source[..pos]
    else
      var last := tags[|tags| - 1];
      if last.pos > pos then []
      else WeaveUpTo(source, last.pos, tags[..|tags| - 1]) + last.html + source[last.pos..pos]
  }

  lemma {:induction false} TagsBounded(stretches: seq<Stretch>)
    ensures TagsOk(TagsOf(stretches), SourceOf(stretches))
    decreases |stretches|
  {
    if stretches != [] {
      TagsBounded(stretches[..|stretches| - 1]);
    }
  }

  lemma {:induction false} WeaveUpToPrefix(source: string, more: string, pos: nat, tags: seq<Tag>)
    requires pos <= |source|
    ensures WeaveUpTo(source + more, pos, tags) == WeaveUpTo(source, pos, tags)
    decreases |tags|
  {
    if tags == [] {
      assert (source + more)[..pos] == source[..pos];
    } else {
      var last := tags[|tags| - 1];
      if last.pos <= pos {
        WeaveUpToPrefix(source, more, last.pos, tags[..|tags| - 1]);
        assert (source + more)[last.pos..pos] == source[last.pos..pos];
      }
    }
  }

  /** Nothing is lost: weaving the tags back into the source rebuilds the normalized html. */
  lemma {:induction false} WeaveRebuilds(stretches: seq<Stretch>)
    ensures TagsOk(TagsOf(stretches), SourceOf(stretches))
    ensures Weave(SourceOf(stretches), TagsOf(stretches)) == Normalized(stretches)
    decreases |stretches|
  {
    TagsBounded(stretches);
    if stretches != [] {
      var init, last := stretches[..|stretches| - 1], stretches[|stretches| - 1];
      WeaveRebuilds(init);
      var source, tags := SourceOf(init), TagsOf(init);
      match last
      case Dropped =>
        assert SourceOf(stretches) == source && TagsOf(stretches) == tags;
      case Source(text) =>
        assert TagsOf(stretches) == tags;
        WeaveExtend(source, text, tags);
      case Kept(html) =>
        assert SourceOf(stretches) == source;
        WeaveTag(source, tags, html);
    }
  }

  lemma WeaveTag(source: string, tags: seq<Tag>, html: string)
    requires TagsOk(tags, source)
    ensures TagsOk(tags + [Tag(|source|, html)], source)
    ensures Weave(source, tags + [Tag(|source|, html)]) == Weave(source, tags) + html
  {
    WeaveAll(source, tags);
    assert (tags + [Tag(|source|, html)])[..|tags|] == tags;
    assert source[|source|..] == [];
  }

  lemma WeaveExtend(source: string, text: string, tags: seq<Tag>)
    requires TagsOk(tags, source)
    ensures TagsOk(tags, source + text)
    ensures Weave(source + text, tags) == Weave(source, tags) + text
  {
    if tags != [] {
      var last := tags[|tags| - 1];
      WeaveUpToPrefix(source, text, last.pos, tags[..|tags| - 1]);
      assert (source + text)[last.pos..] == source[last.pos..] + text;
    }
  }

  lemma WeaveAll(source: string, tags: seq<Tag>)
    requires TagsOk(tags, source)
    ensures WeaveUpTo(source, |source|, tags) == Weave(source, tags)
  {
    assert source[..|source|] == source;
  }

  /** One turn of the loop at chunk i: what it adds to the source and to the tags, and
      where the next turn starts; an error when a nocode tag has no name. */
  method ExtractChunk(p: Patterns, matches: seq<string>, i: nat) returns (r: Result<(string, seq<string>, nat)>)
    requires i < |matches| && IsChunk(matches[i])
    ensures r.TypeError? <==> NoCodeCdata(p, matches[i])
    ensures r.Ok? ==>
      var stretch := StretchAt(p, matches, i).value;
      && r.value.0 == (if stretch.0.Source? then stretch.0.text else [])
      && r.value.1 == (if stretch.0.Kept? then [stretch.0.html] else [])
      && r.value.2 == stretch.1
  {
    var chunk := matches[i];
    CdataBranchIsDead(chunk);
    StretchFailsIff(p, matches, i);
    if |chunk| > 1 && chunk[0] == '<' {
      if "<!--" <= chunk {
        r := Ok(([], [], i + 1));
      } else if IsBr(chunk) {
        r := Ok(("\n", [], i + 1));
      } else if p.isNoCodeTag(chunk) {
        var name := TagName(chunk);
        if name.None? {
          return TypeError;
        }
        var j := FindSectionEnd(matches, i, name.value.1);
        if j < |matches| {
          SectionEndIs(matches, i, j, name.value.1);
          r := Ok(([], [Concat(matches[i..j + 1])], j + 1));
        } else {
          r := Ok(([], [chunk], i + 1));
        }
      } else {
        r := Ok(([], [chunk], i + 1));
      }
    } else {
      r := Ok((p.htmlToText(chunk), [], i + 1));
    }
  }

  lemma Whole(p: Patterns, chunks: seq<string>, stretches: seq<Stretch>)
    requires Stretches(p, chunks, 0) == Ok(stretches)
    ensures Extracts(p, chunks, 0, 0, SourceOf(stretches), TagsOf(stretches))
    ensures TagsOk(TagsOf(stretches), SourceOf(stretches))
    ensures Weave(SourceOf(stretches), TagsOf(stretches)) == Normalized(stretches)
  {
    StretchesExtract(p, chunks, 0, 0);
    assert Shifted(TagsOf(stretches), 0) == TagsOf(stretches);
    WeaveRebuilds(stretches);
  }

  /** The outer loop of `extractTags`, over the chunks the chunk pattern found. */
  method ExtractTags(p: Patterns, matches: seq<string>) returns (r: Result<(string, seq<Tag>)>)
    requires forall i :: 0 <= i < |matches| ==> IsChunk(matches[i])
    ensures r.TypeError? <==> HasBareCdata(p, matches, 0)
    ensures r.Ok? ==> Stretches(p, matches, 0).Ok?
    ensures r.Ok? ==>
      var stretches := Stretches(p, matches, 0).value;
      && r.value == (SourceOf(stretches), TagsOf(stretches))
      && Extracts(p, matches, 0, 0, r.value.0, r.value.1)
      && TagsOk(r.value.1, r.value.0)
      && Weave(r.value.0, r.value.1) == Normalized(stretches)
  {
    var sourceBuf: seq<string> := [];
    var sourceBufLen: nat := 0;
    var extractedTags: seq<Tag> := [];
    ghost var done: seq<Stretch> := [];
    var i := 0;
    ghost var all := Stretches(p, matches, 0);
    StretchesStart(all);
    FailsIff(p, matches, 0);
    while i < |matches|
      invariant 0 <= i <= |matches|
      invariant Concat(sourceBuf) == SourceOf(done) && sourceBufLen == |SourceOf(done)|
      invariant extractedTags == TagsOf(done)
      invariant all == After(done, Stretches(p, matches, i))
      decreases |matches| - i
    {
      var one := ExtractChunk(p, matches, i);
      StretchFailsIff(p, matches, i);
      if one.TypeError? {
        return TypeError;
      }
      ghost var stretch := StretchAt(p, matches, i).value.0;
      StretchesStep(done, stretch, Stretches(p, matches, one.value.2));
      assert (done + [stretch])[..|done|] == done;
      if one.value.1 != [] {
        extractedTags := extractedTags + [Tag(sourceBufLen, one.value.1[0])];
      }
      var text := one.value.0;
      ConcatPush(sourceBuf, text);
      sourceBuf := sourceBuf + [text];
      sourceBufLen := sourceBufLen + |text|;
      done := done + [stretch];
      i := one.value.2;
    }
    assert done + [] == done;
    Whole(p, matches, done);
    r := Ok((Concat(sourceBuf), extractedTags));
  }

  /** The stretches done, and then the ones to come. */
  function After(done: seq<Stretch>, rest: Result<seq<Stretch>>): Result<seq<Stretch>> {
    match rest
    case TypeError => TypeError
    case Ok(stretches) => Ok(done + stretches)
  }

  lemma StretchesStart(all: Result<seq<Stretch>>)
    ensures all == After([], all)
  {
    assert all.Ok? ==> [] + all.value == all.value;
  }

  lemma StretchesStep(done: seq<Stretch>, s: Stretch, rest: Result<seq<Stretch>>)
    ensures After(done, After([s], rest)) == After(done + [s], rest)
  {
    assert rest.Ok? ==> done + ([s] + rest.value) == (done + [s]) + rest.value;
  }

  /** The section end found is the one the stretch is defined by. */
  lemma SectionEndIs(chunks: seq<string>, i: nat, j: nat, name: string)
    requires EndsSection(chunks, i, j, name)
    ensures forall k: nat :: EndsSection(chunks, i, k, name) ==> k == j
  {
    forall k: nat | EndsSection(chunks, i, k, name) ensures k == j {
      SectionEndUnique(chunks, i, j, k, name);
    }
  }
}
