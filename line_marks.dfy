/**
 * Lines the comment, interface-tag and End patterns of
 * src/DoxyVB6/conv_vb6.py (lines 120-139) accept: documentation and module
 * comments, the `'# Interface` tag, and the lines that close a block.
 */
module LineMarks {
  import opened Wrappers
  import opened Vb6Regex
  import opened Vb6Accept

  /**
   * Blanks, an apostrophe and the marker, then text without a line feed: the
   * text is captured, with or without one final line feed after it.
   */
  lemma CommentLineAccepted(pad: string, marker: char, t: string)
    requires RestIsSpace(pad, 0) && forall k | 0 <= k < |t| :: t[k] != '\n'
    ensures MatchCommentLine(pad + ['\'', marker] + t, marker) == Some(t)
    ensures MatchCommentLine(pad + ['\'', marker] + t + "\n", marker) == Some(t)
  {
    var i := |pad|;
    var s := pad + ['\'', marker] + t;
    assert forall k | 0 <= k < i :: s[k] == pad[k];
    SkipSpacesTo(s, 0, i);
    assert s[i] == '\'' && s[i + 1] == marker && s[i + 2..] == t;
    var s2 := s + "\n";
    assert forall k | 0 <= k < i :: s2[k] == pad[k];
    SkipSpacesTo(s2, 0, i);
    assert s2[i] == '\'' && s2[i + 1] == marker && s2[i + 2..|s2| - 1] == t;
    assert forall k | i + 2 <= k < |s2| - 1 :: s2[k] == t[k - i - 2];
    assert s2[|s2| - 1] == '\n';
  }

  /** A `'*` line is a documentation comment and not a module comment (conv_vb6.py:120-121). */
  lemma DocCommentAccepted(pad: string, t: string)
    requires RestIsSpace(pad, 0) && forall k | 0 <= k < |t| :: t[k] != '\n'
    ensures MatchDocComment(pad + "'*" + t) == Some(t)
    ensures MatchModuleComment(pad + "'*" + t).None?
  {
    CommentLineAccepted(pad, '*', t);
    var s := pad + "'*" + t;
    assert forall k | 0 <= k < |pad| :: s[k] == pad[k];
    SkipSpacesTo(s, 0, |pad|);
    assert s[|pad| + 1] == '*';
  }

  /** A `'!` line is a module comment and not a documentation comment (conv_vb6.py:120-121). */
  lemma ModuleCommentAccepted(pad: string, t: string)
    requires RestIsSpace(pad, 0) && forall k | 0 <= k < |t| :: t[k] != '\n'
    ensures MatchModuleComment(pad + "'!" + t) == Some(t)
    ensures MatchDocComment(pad + "'!" + t).None?
  {
    CommentLineAccepted(pad, '!', t);
    var s := pad + "'!" + t;
    assert forall k | 0 <= k < |pad| :: s[k] == pad[k];
    SkipSpacesTo(s, 0, |pad|);
    assert s[|pad| + 1] == '!';
  }

  /**
   * `'#`, blanks, `Interface`, blanks: the tag. The pattern has no re.I, so
   * the same line with `interface` in lower case is not the tag.
   */
  lemma InterfaceTagAccepted(pad: string, gap: string, trail: string)
    requires RestIsSpace(pad, 0) && RestIsSpace(gap, 0) && RestIsSpace(trail, 0)
    ensures IsInterfaceTag(pad + "'#" + gap + "Interface" + trail)
    ensures !IsInterfaceTag(pad + "'#" + gap + "interface" + trail)
  {
    TagLayout(pad, gap, "Interface", trail);
    TagLayout(pad, gap, "interface", trail);
  }

  /** Where the parts of a tag-shaped line lie, for a nine-letter word. */
  lemma TagLayout(pad: string, gap: string, word: string, trail: string)
    requires RestIsSpace(pad, 0) && RestIsSpace(gap, 0) && RestIsSpace(trail, 0) && |word| == 9 && !IsSpace(word[0])
    ensures var s := pad + "'#" + gap + word + trail;
      var i := |pad|;
      var j := i + 2 + |gap|;
      SkipSpaces(s, 0) == i && LiteralAt(s, i, "'#") && SkipSpaces(s, i + 2) == j &&
      s[j..j + 9] == word && SkipSpaces(s, j + 9) == |s|
  {
    var i := |pad|;
    var j := i + 2 + |gap|;
    var s := pad + "'#" + gap + word + trail;
    assert forall k | 0 <= k < i :: s[k] == pad[k];
    assert s[i..i + 2] == "'#";
    SkipSpacesTo(s, 0, i);
    assert forall k | i + 2 <= k < j :: s[k] == gap[k - i - 2];
    assert s[j..j + 9] == word;
    SkipSpacesTo(s, i + 2, j);
    assert forall k | j + 9 <= k < |s| :: s[k] == trail[k - j - 9];
    SkipSpacesTo(s, j + 9, |s|);
  }

  /**
   * `End`, one blank and the block's keyword, in any case, at the start of
   * the line and followed by anything, ends the block (conv_vb6.py:129-139).
   */
  lemma EndsBlockAccepted(ew: string, kww: string, kw: string, rest: string)
    requires Spelled(ew, "end") && Spelled(kww, kw) && IsWord(kw)
    ensures EndsBlock(ew + " " + kww + rest, kw)
  {
    var s := ew + " " + kww + rest;
    SpelledWord(kww, kw);
    assert s[..|ew|] == ew && s[3] == ' ' && s[4..4 + |kww|] == kww;
    SpelledAt(s, 0, ew, "end");
    SkipSpacesTo(s, 3, 4);
    SpelledAt(s, 4, kww, kw);
  }
}
