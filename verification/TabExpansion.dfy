/** `makeTabExpander`: a closure that expands tabs in successive chunks of text
    and keeps the column between chunks. */
module TabExpansion {

  function Spaces(n: nat): string { seq(n, _ => ' ') }

  /** Blanks from `column` to the next multiple of the tab width. */
  function TabSize(column: nat, tabWidth: nat): nat
    requires tabWidth > 0
  {
    tabWidth - column % tabWidth
  }

  /** The expansion of text that starts in `column`, character by character. */
  function Expand(text: string, column: nat, tabWidth: nat): string
    requires tabWidth > 0
    decreases |text|
  {
    if text == [] then []
    else if text[0] == '\t' then
      var n := TabSize(column, tabWidth);
      Spaces(n) + Expand(text[1..], column + n, tabWidth)
    else [text[0]] + Expand(text[1..], if text[0] == '\n' then 0 else column + 1, tabWidth)
  }

  function ColumnAfter(text: string, column: nat, tabWidth: nat): nat
    requires tabWidth > 0
    decreases |text|
  {
    if text == [] then column
    else if text[0] == '\t' then ColumnAfter(text[1..], column + TabSize(column, tabWidth), tabWidth)
    else ColumnAfter(text[1..], if text[0] == '\n' then 0 else column + 1, tabWidth)
  }

  /** Expanding chunk by chunk is expanding the whole. */
  lemma {:induction false} ExpandAppend(a: string, b: string, column: nat, tabWidth: nat)
    requires tabWidth > 0
    ensures Expand(a + b, column, tabWidth)
         == Expand(a, column, tabWidth) + Expand(b, ColumnAfter(a, column, tabWidth), tabWidth)
    ensures ColumnAfter(a + b, column, tabWidth) == ColumnAfter(b, ColumnAfter(a, column, tabWidth), tabWidth)
    decreases |a|
  {
    if a == [] {
      assert a + b == b;
    } else {
      assert (a + b)[1..] == a[1..] + b;
      var next :=
        if a[0] == '\t' then column + TabSize(column, tabWidth) else if a[0] == '\n' then 0 else column + 1;
      ExpandAppend(a[1..], b, next, tabWidth);
      var head := if a[0] == '\t' then Spaces(TabSize(column, tabWidth)) else [a[0]];
      assert head + (Expand(a[1..], next, tabWidth) + Expand(b, ColumnAfter(a[1..], next, tabWidth), tabWidth))
          == (head + Expand(a[1..], next, tabWidth)) + Expand(b, ColumnAfter(a[1..], next, tabWidth), tabWidth);
    }
  }

  /** Characters since the last newline, counted on plain text. */
  function LineLength(text: string, start: nat): nat
    decreases |text|
  {
    if text == [] then start
    else LineLength(text[1..], if text[0] == '\n' then 0 else start + 1)
  }

  lemma {:induction false} LineLengthSpaces(n: nat, rest: string, start: nat)
    ensures LineLength(Spaces(n) + rest, start) == LineLength(rest, start + n)
    decreases n
  {
    if n == 0 {
      assert Spaces(0) + rest == rest;
    } else {
      assert (Spaces(n) + rest)[1..] == Spaces(n - 1) + rest;
      LineLengthSpaces(n - 1, rest, start + 1);
    }
  }

  /** The kept column is the true column of the expanded text, and every tab ends on a
      multiple of the tab width. */
  lemma {:induction false} ExpandAligns(text: string, column: nat, tabWidth: nat)
    requires tabWidth > 0
    ensures ColumnAfter(text, column, tabWidth) == LineLength(Expand(text, column, tabWidth), column)
    ensures text != [] && text[|text| - 1] == '\t' ==> IsMultiple(ColumnAfter(text, column, tabWidth), tabWidth)
    decreases |text|
  {
    if text != [] {
      if text[0] == '\t' {
        var n := TabSize(column, tabWidth);
        ExpandAligns(text[1..], column + n, tabWidth);
        LineLengthSpaces(n, Expand(text[1..], column + n, tabWidth), column);
        NextMultiple(column, tabWidth);
      } else {
        var next := if text[0] == '\n' then 0 else column + 1;
        ExpandAligns(text[1..], next, tabWidth);
        assert Expand(text, column, tabWidth)[1..] == Expand(text[1..], next, tabWidth);
      }
    }
  }

  /** One more character, whatever stands before it: a tab moves to the next multiple of the
      tab width and adds that many blanks; every other character is kept. */
  lemma ExpandOneMore(text: string, c: char, column: nat, tabWidth: nat)
    requires tabWidth > 0
    ensures Expand([], column, tabWidth) == [] && ColumnAfter([], column, tabWidth) == column
    ensures var out, more := Expand(text, column, tabWidth), Expand(text + [c], column, tabWidth);
      var here, next := ColumnAfter(text, column, tabWidth), ColumnAfter(text + [c], column, tabWidth);
      && out <= more
      && (c == '\t' ==>
            && here < next <= here + tabWidth && IsMultiple(next, tabWidth)
            && |more| == |out| + (next - here) && forall i :: |out| <= i < |more| ==> more[i] == ' ')
      && (c != '\t' ==> more == out + [c] && next == (if c == '\n' then 0 else here + 1))
  {
    var here := ColumnAfter(text, column, tabWidth);
    ExpandAppend(text, [c], column, tabWidth);
    assert [c][1..] == [];
    if c == '\t' {
      NextMultiple(here, tabWidth);
      assert Expand([c], here, tabWidth) == Spaces(TabSize(here, tabWidth)) + [];
    } else {
      assert Expand([c], here, tabWidth) == [c] + [];
    }
  }

  /** No tab is left. */
  lemma {:induction false} ExpandLeavesNoTab(text: string, column: nat, tabWidth: nat)
    requires tabWidth > 0
    ensures '\t' !in Expand(text, column, tabWidth)
    decreases |text|
  {
    if text != [] {
      var c := text[0];
      var next := if c == '\t' then column + TabSize(column, tabWidth) else if c == '\n' then 0 else column + 1;
      ExpandLeavesNoTab(text[1..], next, tabWidth);
    }
  }

  lemma NextMultiple(column: nat, tabWidth: nat)
    requires tabWidth > 0
    ensures IsMultiple(column + TabSize(column, tabWidth), tabWidth)
  {
    assert column + TabSize(column, tabWidth) == (column / tabWidth + 1) * tabWidth;
  }

  ghost predicate IsMultiple(n: nat, d: nat) {
    exists k: nat :: n == k * d
  }

  function Concat(parts: seq<string>): string {
    if parts == [] then [] else Concat(parts[..|parts| - 1]) + parts[|parts| - 1]
  }

  lemma ConcatPush(parts: seq<string>, part: string)
    ensures Concat(parts + [part]) == Concat(parts) + part
  {
    assert (parts + [part])[..|parts|] == parts;
  }

  /** The inner loop: blanks are pushed from a string of sixteen at a time. */
  method PushSpaces(parts: seq<string>, size: nat) returns (out: seq<string>)
    ensures Concat(out) == Concat(parts) + Spaces(size)
  {
    var SPACES := Spaces(16);
    out := parts;
    var nSpaces: int := size;
    assert Concat(parts) == Concat(parts) + Spaces(0);
    while nSpaces >= 0
      invariant nSpaces <= size
      invariant Concat(out) == Concat(parts) + Spaces(if nSpaces >= 0 then size - nSpaces else size)
      decreases nSpaces + 16
    {
      var chunk := SPACES[..if nSpaces < 16 then nSpaces else 16];
      ConcatPush(out, chunk);
      out := out + [chunk];
      assert Spaces(size - nSpaces) + chunk == Spaces(size - nSpaces + |chunk|);
      assert Concat(parts) + Spaces(size - nSpaces) + chunk == Concat(parts) + (Spaces(size - nSpaces) + chunk);
      nSpaces := nSpaces - 16;
    }
  }

  class TabExpander {
    const tabWidth: nat
    var charInLine: nat

    constructor (tabWidth: nat)
      requires tabWidth > 0
      ensures this.tabWidth == tabWidth && charInLine == 0
    {
      this.tabWidth := tabWidth;
      charInLine := 0;
    }

    /** One chunk. `out` stays empty as long as no tab was seen; `pos` is the start
        of the text not copied yet. */
    method ExpandChunk(plainText: string) returns (r: string)
      requires tabWidth > 0
      modifies this
      ensures r == Expand(plainText, old(charInLine), tabWidth)
      ensures charInLine == ColumnAfter(plainText, old(charInLine), tabWidth)
    {
      var out: seq<string> := [];
      var pos := 0;
      var sawTab := false;
      assert plainText[..0] == [];
      for i := 0 to |plainText|
        invariant 0 <= pos <= i
        invariant charInLine == ColumnAfter(plainText[..i], old(charInLine), tabWidth)
        invariant Concat(out) + plainText[pos..i] == Expand(plainText[..i], old(charInLine), tabWidth)
        invariant !sawTab ==> out == [] && pos == 0
      {
        var ch := plainText[i];
        assert plainText[..i + 1] == plainText[..i] + [ch];
        ExpandAppend(plainText[..i], [ch], old(charInLine), tabWidth);
        if ch == '\t' {
          sawTab := true;
          ConcatPush(out, plainText[pos..i]);
          out := out + [plainText[pos..i]];
          var nSpaces := TabSize(charInLine, tabWidth);
          assert Expand([ch], charInLine, tabWidth) == Spaces(nSpaces) + [];
          charInLine := charInLine + nSpaces;
          out := PushSpaces(out, nSpaces);
          assert Spaces(nSpaces) + [] == Spaces(nSpaces);
          pos := i + 1;
          assert plainText[pos..i + 1] == [];
        } else {
          charInLine := if ch == '\n' then 0 else charInLine + 1;
          assert plainText[pos..i + 1] == plainText[pos..i] + [ch];
          assert Concat(out) + plainText[pos..i + 1] == Concat(out) + plainText[pos..i] + [ch];
        }
      }
      assert plainText[..|plainText|] == plainText;
      if !sawTab {
        assert plainText[0..|plainText|] == plainText;
        return plainText;
      }
      ConcatPush(out, plainText[pos..]);
      out := out + [plainText[pos..]];
      assert plainText[pos..] == plainText[pos..|plainText|];
      r := Concat(out);
    }
  }
}
