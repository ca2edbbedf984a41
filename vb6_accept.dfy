/**
 * Lines the recognisers of src/DoxyVB6/conv_vb6.py accept, and what they
 * capture from them: for each pattern, a family of lines of the shape its
 * comment in the source describes (keywords in any case, one blank between
 * the parts), with the captured groups worked out.
 */
module Vb6Accept {
  import opened Wrappers
  import opened Vb6Regex

  // ---------------------------------------------------------------- shapes

  /** One or more word characters. */
  predicate IsWord(w: string) {
    w != [] && forall k | 0 <= k < |w| :: IsWordChar(w[k])
  }

  /** One or more type-name characters: a possibly dotted name. */
  predicate IsTypeName(t: string) {
    t != [] && forall k | 0 <= k < |t| :: IsTypeChar(t[k])
  }

  /** Text a bare argument list may hold: word characters, blanks and `= , + - * / .` */
  predicate IsPlainArgs(a: string) {
    forall k | 0 <= k < |a| :: IsArgsChar(a[k])
  }

  /** The character at i is c. */
  predicate CharAt(s: string, i: nat, c: char) {
    i < |s| && s[i] == c
  }

  /** w is the keyword kw written in any case. */
  predicate Spelled(w: string, kw: string) {
    Lower(w) == kw
  }

  // ---------------------------------------------------------------- layouts

  /** Text found in a line is still found there when more text is appended. */
  lemma LitLeft(a: string, b: string, i: nat, x: string)
    requires LiteralAt(a, i, x)
    ensures LiteralAt(a + b, i, x)
  {
    assert (a + b)[i..i + |x|] == a[i..i + |x|];
  }

  /** Text found in a line is found further on when text is put in front. */
  lemma LitRight(a: string, b: string, i: nat, x: string)
    requires LiteralAt(b, i, x)
    ensures LiteralAt(a + b, |a| + i, x)
  {
    assert (a + b)[|a| + i..|a| + i + |x|] == b[i..i + |x|];
  }

  /** Both halves of a concatenation are found in it. */
  lemma LitBoth(a: string, b: string)
    ensures LiteralAt(a + b, 0, a) && LiteralAt(a + b, |a|, b)
  {
    assert (a + b)[..|a|] == a;
    assert (a + b)[|a|..|a| + |b|] == b;
  }

  /** A one-character text found at i is the character there. */
  lemma LitChar(s: string, i: nat, c: char)
    requires LiteralAt(s, i, [c])
    ensures i < |s| && s[i] == c
  {
    assert s[i..i + 1][0] == s[i];
  }

  // ---------------------------------------------------------------- positions

  lemma SkipSpacesTo(s: string, i: nat, j: nat)
    requires i <= j <= |s| && forall k | i <= k < j :: IsSpace(s[k])
    requires j == |s| || !IsSpace(s[j])
    ensures SkipSpaces(s, i) == j
  {
  }

  lemma WordEndTo(s: string, i: nat, w: string)
    requires LiteralAt(s, i, w) && forall k | 0 <= k < |w| :: IsWordChar(w[k])
    requires i + |w| == |s| || !IsWordChar(s[i + |w|])
    ensures WordEnd(s, i) == i + |w|
  {
    assert forall k | i <= k < i + |w| :: s[k] == w[k - i];
  }

  lemma TypeEndTo(s: string, i: nat, t: string)
    requires LiteralAt(s, i, t) && forall k | 0 <= k < |t| :: IsTypeChar(t[k])
    requires i + |t| == |s| || !IsTypeChar(s[i + |t|])
    ensures TypeEnd(s, i) == i + |t|
  {
    assert forall k | i <= k < i + |t| :: s[k] == t[k - i];
  }

  /** A word spelling a keyword of word characters is itself made of word characters. */
  lemma SpelledWord(w: string, kw: string)
    requires Spelled(w, kw) && IsWord(kw)
    ensures IsWord(w)
  {
    assert forall k | 0 <= k < |w| :: LowerChar(w[k]) == kw[k];
  }

  /** A word spelling a keyword, in the text, is found there caselessly. */
  lemma SpelledAt(s: string, i: nat, w: string, kw: string)
    requires Spelled(w, kw) && LiteralAt(s, i, w)
    ensures CaselessAt(s, i, kw)
  {
    assert forall k | 0 <= k < |w| :: s[i + k] == w[k];
  }

  /**
   * At a word followed by a blank, a keyword of word characters followed by
   * blanks matches exactly when the word spells it.
   */
  lemma KeywordOnWord(s: string, i: nat, w: string, kw: string)
    requires IsWord(w) && LiteralAt(s, i, w) && i + |w| < |s| && IsSpace(s[i + |w|])
    requires forall k | 0 <= k < |kw| :: IsWordChar(kw[k])
    ensures KeywordThenSpaces(s, i, kw).Some? <==> Spelled(w, kw)
    ensures Spelled(w, kw) ==> KeywordThenSpaces(s, i, kw) == Some(SkipSpaces(s, i + |w|))
  {
    assert forall k | 0 <= k < |w| :: s[i + k] == w[k];
    assert !IsWordChar(LowerChar(s[i + |w|]));
    if |kw| < |w| {
      assert !IsSpace(s[i + |kw|]);
      assert Spaces1(s, i + |kw|).None?;
    } else if |kw| == |w| {
      assert CaselessAt(s, i, kw) <==> Lower(w) == kw by {
        assert forall k | 0 <= k < |w| :: Lower(w)[k] == LowerChar(s[i + k]);
      }
    } else {
      assert !CaselessAt(s, i, kw) by {
        assert IsWordChar(kw[|w|]);
      }
    }
  }

  /** A keyword written in any case and followed by one blank is read up to the next word. */
  lemma KeywordStep(s: string, i: nat, w: string, kw: string)
    requires Spelled(w, kw) && IsWord(kw) && LiteralAt(s, i, w)
    requires i + |w| + 1 < |s| && s[i + |w|] == ' ' && !IsSpace(s[i + |w| + 1])
    ensures KeywordThenSpaces(s, i, kw) == Some(i + |w| + 1)
  {
    SpelledWord(w, kw);
    KeywordOnWord(s, i, w, kw);
    SkipSpacesTo(s, i + |w|, i + |w| + 1);
  }

  /** At a word followed by a blank, an access keyword is read exactly when the word spells one. */
  lemma AccessOnWord(s: string, i: nat, w: string)
    requires IsWord(w) && LiteralAt(s, i, w) && i + |w| < |s| && IsSpace(s[i + |w|])
    ensures AccessAt(s, i).Some? <==> Lower(w) in AccessWords
    ensures AccessAt(s, i).Some? ==> AccessAt(s, i).value == SkipSpaces(s, i + |w|)
  {
    KeywordOnWord(s, i, w, "grobal");
    KeywordOnWord(s, i, w, "public");
    KeywordOnWord(s, i, w, "friend");
    KeywordOnWord(s, i, w, "private");
    KeywordOnWord(s, i, w, "static");
  }

  // ---------------------------------------------------------------- Implements, VB_Name, enumeration members

  /** `Implements Name` names the interface. */
  lemma ImplementsAccepted(name: string)
    requires IsWord(name)
    ensures MatchImplements("Implements " + name) == Some(name)
  {
    var s := "Implements " + name;
    SkipSpacesTo(s, 0, 0);
    assert s[..11] == "Implements ";
    assert LiteralAt(s, 0, "Implements");
    SkipSpacesTo(s, 10, 11);
    assert LiteralAt(s, 11, name);
    WordEndTo(s, 11, name);
    assert s[11..|s|] == name;
  }

  /** `Attribute VB_Name = "Name"`, in any case, names the module. */
  lemma VbNameAccepted(aw: string, vw: string, name: string)
    requires Spelled(aw, "attribute") && Spelled(vw, "vb_name") && IsWord(name)
    ensures MatchVbName(aw + " " + vw + " = \"" + name + "\"") == Some(name)
  {
    var s := aw + " " + vw + " = \"" + name + "\"";
    var j := |aw| + 1;
    var k := j + |vw| + 1;
    assert s[..|aw|] == aw && s[|aw|] == ' ';
    assert s[j..j + |vw|] == vw && s[j + |vw|] == ' ';
    assert s[k] == '=' && s[k + 1] == ' ' && s[k + 2] == '"';
    assert s[k + 3..k + 3 + |name|] == name && s[|s| - 1] == '"';
    VbNameAt(s, aw, vw, name);
  }

  /** The VB_Name line laid out position by position. */
  lemma VbNameAt(s: string, aw: string, vw: string, name: string)
    requires Spelled(aw, "attribute") && Spelled(vw, "vb_name") && IsWord(name)
    requires LiteralAt(s, 0, aw) && |aw| < |s| && s[|aw|] == ' '
    requires LiteralAt(s, |aw| + 1, vw)
    requires var k := |aw| + |vw| + 2;
      k + 3 + |name| < |s| && s[k - 1] == ' ' && s[k] == '=' && s[k + 1] == ' ' && s[k + 2] == '"' &&
      LiteralAt(s, k + 3, name) && s[k + 3 + |name|] == '"'
    ensures MatchVbName(s) == Some(name)
  {
    var j := |aw| + 1;
    var k := j + |vw| + 1;
    SpelledWord(aw, "attribute");
    SkipSpacesTo(s, 0, 0);
    KeywordOnWord(s, 0, aw, "attribute");
    SkipSpacesTo(s, |aw|, j);
    SpelledAt(s, j, vw, "vb_name");
    SkipSpacesTo(s, j + 7, k);
    SkipSpacesTo(s, k + 1, k + 2);
    WordEndTo(s, k + 3, name);
    VbNameSteps(s, j);
    QuotedValueSteps(s, j + 7, k, k + 2, k + 3 + |name|);
  }

  /** What MatchVbName reads once the keywords are found. */
  lemma VbNameSteps(s: string, j: nat)
    requires SkipSpaces(s, 0) == 0 && KeywordThenSpaces(s, 0, "attribute") == Some(j)
    requires CaselessAt(s, j, "vb_name")
    ensures MatchVbName(s) == QuotedValue(s, j + 7)
  {
  }

  /** What QuotedValue reads, step by step. */
  lemma QuotedValueSteps(s: string, p: nat, k: nat, m: nat, e: nat)
    requires p <= |s| && Spaces1(s, p) == Some(k) && k < |s| && s[k] == '='
    requires Spaces1(s, k + 1) == Some(m) && m < |s| && s[m] == '"'
    requires m + 1 <= |s| && WordEnd(s, m + 1) == e && m + 1 < e < |s| && s[e] == '"'
    ensures QuotedValue(s, p) == Some(s[m + 1..e])
  {
  }

  /** An enumeration member without a value. */
  lemma EnumMemberAccepted(name: string)
    requires IsWord(name)
    ensures MatchEnumMember(name) == Some(EnumMemberGroups(name, None))
  {
    SkipSpacesTo(name, 0, 0);
    assert LiteralAt(name, 0, name);
    WordEndTo(name, 0, name);
  }

  /** An enumeration member with `= value`. */
  lemma EnumMemberValueAccepted(name: string, value: string)
    requires IsWord(name) && IsWord(value)
    ensures MatchEnumMember(name + " = " + value) == Some(EnumMemberGroups(name, Some(value)))
  {
    var s := name + " = " + value;
    var e := |name|;
    assert s[..e] == name && s[e] == ' ' && s[e + 1] == '=' && s[e + 2] == ' ' && s[e + 3..] == value;
    EnumValueAt(s, name, value);
  }

  /** The member-with-value line laid out position by position. */
  lemma EnumValueAt(s: string, name: string, value: string)
    requires IsWord(name) && IsWord(value)
    requires var e := |name|;
      |s| == e + 3 + |value| && s[..e] == name && s[e] == ' ' && s[e + 1] == '=' && s[e + 2] == ' ' && s[e + 3..] == value
    ensures MatchEnumMember(s) == Some(EnumMemberGroups(name, Some(value)))
  {
    var e := |name|;
    SkipSpacesTo(s, 0, 0);
    WordEndTo(s, 0, name);
    SkipSpacesTo(s, e, e + 1);
    SkipSpacesTo(s, e + 2, e + 3);
    WordEndTo(s, e + 3, value);
    EnumValueSteps(s, e, e + 1, e + 3, |s|);
  }

  /** What MatchEnumMember reads on a member with a value, step by step. */
  lemma EnumValueSteps(s: string, e: nat, a: nat, b: nat, v: nat)
    requires SkipSpaces(s, 0) == 0 && 0 < e <= |s| && WordEnd(s, 0) == e
    requires e <= a < |s| && SkipSpaces(s, e) == a && s[a] == '='
    requires a < b <= |s| && SkipSpaces(s, a + 1) == b && b <= v && WordEnd(s, b) == v && v > b && RestIsSpace(s, v)
    ensures MatchEnumMember(s) == Some(EnumMemberGroups(s[..e], Some(s[b..v])))
  {
  }
  // ---------------------------------------------------------------- member declarations

  /** A name that ends the line: no array suffix, type or value. */
  lemma NameTailPlain(s: string, p: nat, name: string)
    requires IsWord(name) && LiteralAt(s, p, name) && p + |name| == |s|
    ensures NameTail(s, p) == Some((name, MemberTail(None, None, None)))
  {
    WordEndTo(s, p, name);
  }

  /** ` As Type` to the end of the line, the type names what `As` introduces. */
  lemma TypeTailTyped(s: string, e: nat, aw: string, ty: string)
    requires Spelled(aw, "as") && IsTypeName(ty)
    requires e < |s| && s[e] == ' ' && LiteralAt(s, e + 1, aw) && e + 3 < |s| && s[e + 3] == ' '
    requires LiteralAt(s, e + 4, ty) && |s| == e + 4 + |ty|
    ensures TypeTail(s, e) == Some((Some(ty), None))
  {
    assert IsTypeChar(s[e + 4]);
    SkipSpacesTo(s, e, e + 1);
    SpelledAt(s, e + 1, aw, "as");
    SkipSpacesTo(s, e + 3, e + 4);
    var q := e + 4;
    assert forall k | q <= k < |s| :: IsTypeChar(s[k]);
    assert KeywordThenSpaces(s, q, "new").None?;
    TypeEndTo(s, q, ty);
  }

  /** A name, then ` As Type` to the end of the line. */
  lemma NameTailTyped(s: string, p: nat, name: string, aw: string, ty: string)
    requires IsWord(name) && Spelled(aw, "as") && IsTypeName(ty)
    requires LiteralAt(s, p, name) && var e := p + |name|;
      e < |s| && s[e] == ' ' && LiteralAt(s, e + 1, aw) && e + 3 < |s| && s[e + 3] == ' ' &&
      LiteralAt(s, e + 4, ty) && |s| == e + 4 + |ty|
    ensures NameTail(s, p) == Some((name, MemberTail(None, Some(ty), None)))
  {
    WordEndTo(s, p, name);
    TypeTailTyped(s, p + |name|, aw, ty);
  }

  /** Stripping the blanks off the end of text that does not end in one leaves it as it is. */
  lemma TrimEndUnpadded(u: string)
    requires u == [] || !IsSpace(u[|u| - 1])
    ensures TrimEnd(u) == u
  {
  }

  /** ` = literal` to the end of the line: the value tail holds the literal. */
  lemma ValueTailValued(s: string, e: nat, lit: string)
    requires IsLiteral(lit) && lit != [] && !IsSpace(lit[0]) && !IsSpace(lit[|lit| - 1])
    requires e + 2 < |s| && s[e] == ' ' && s[e + 1] == '=' && s[e + 2] == ' ' && s[e + 3..] == lit
    ensures ValueTail(s, e) == Some(Some(lit))
  {
    SkipSpacesTo(s, e, e + 1);
    SkipSpacesTo(s, e + 2, e + 3);
    TrimEndUnpadded(lit);
  }

  /** ` = literal` is no `As` clause, so the type tail is the value tail. */
  lemma TypeTailValued(s: string, e: nat, lit: string)
    requires e + 2 < |s| && s[e] == ' ' && s[e + 1] == '=' && ValueTail(s, e) == Some(Some(lit))
    ensures TypeTail(s, e) == Some((None, Some(lit)))
  {
    SkipSpacesTo(s, e, e + 1);
    assert LowerChar(s[e + 1 + 0]) != "as"[0];
  }

  /** A name, then ` = literal` to the end of the line. */
  lemma NameTailValued(s: string, p: nat, name: string, lit: string)
    requires IsWord(name) && IsLiteral(lit) && lit != [] && !IsSpace(lit[0]) && !IsSpace(lit[|lit| - 1])
    requires LiteralAt(s, p, name) && var e := p + |name|;
      e + 2 < |s| && s[e] == ' ' && s[e + 1] == '=' && s[e + 2] == ' ' && s[e + 3..] == lit
    ensures NameTail(s, p) == Some((name, MemberTail(None, None, Some(lit))))
  {
    var e := p + |name|;
    WordEndTo(s, p, name);
    ValueTailValued(s, e, lit);
    TypeTailValued(s, e, lit);
  }

  /** The first alternative that reads the line decides the declaration. */
  lemma MatchMemberFirst(s: string)
    requires SkipSpaces(s, 0) == 0 && MemberAfterAccess(s, 0).Some?
    ensures MatchMember(s) == MemberAfterAccess(s, 0)
  {
  }

  lemma MatchMemberSecond(s: string)
    requires SkipSpaces(s, 0) == 0 && AccessAt(s, 0).None? && MemberAfterConst(s, 0).Some?
    ensures MatchMember(s) == MemberAfterConst(s, 0)
  {
  }

  lemma MatchMemberFourth(s: string)
    requires SkipSpaces(s, 0) == 0 && AccessAt(s, 0).None? && KeywordThenSpaces(s, 0, "const").None?
    ensures MatchMember(s) == MemberAfterDim(s, 0)
  {
  }

  /** The first alternative, once the access keyword is read up to j. */
  lemma AfterAccessStep(s: string, j: nat)
    requires j <= |s| && AccessAt(s, 0) == Some(j) && NameTail(s, j).Some?
    ensures var n := NameTail(s, j).value;
      MemberAfterAccess(s, 0) == Some(MemberGroups(Some(s[..j]), None, None, None,
                                                   n.0, n.1.arraySuffix, n.1.typeName, n.1.literal))
  {
  }

  /** A line starting with an access keyword, a blank and a declaration is read by the first alternative. */
  lemma MemberAccessPrefix(s: string, acc: string)
    requires IsWord(acc) && Lower(acc) in AccessWords && LiteralAt(s, 0, acc)
    requires |acc| + 1 < |s| && s[|acc|] == ' ' && !IsSpace(s[|acc| + 1])
    requires NameTail(s, |acc| + 1).Some?
    ensures var n := NameTail(s, |acc| + 1).value;
      MatchMember(s) == Some(MemberGroups(Some(s[..|acc| + 1]), None, None, None,
                                          n.0, n.1.arraySuffix, n.1.typeName, n.1.literal))
  {
    assert s[0] == acc[0] && IsWordChar(acc[0]);
    SkipSpacesTo(s, 0, 0);
    AccessOnWord(s, 0, acc);
    SkipSpacesTo(s, |acc|, |acc| + 1);
    AfterAccessStep(s, |acc| + 1);
    MatchMemberFirst(s);
  }

  /** `Dim` and a blank open the line: no access keyword and no `Const` is read there. */
  lemma DimStart(s: string, dw: string)
    requires Spelled(dw, "dim") && LiteralAt(s, 0, dw)
    requires |dw| + 1 < |s| && s[|dw|] == ' ' && !IsSpace(s[|dw| + 1])
    ensures SkipSpaces(s, 0) == 0 && AccessAt(s, 0).None? && KeywordThenSpaces(s, 0, "const").None?
    ensures KeywordThenSpaces(s, 0, "dim") == Some(|dw| + 1)
  {
    SpelledWord(dw, "dim");
    assert s[0] == dw[0] && IsWordChar(dw[0]);
    SkipSpacesTo(s, 0, 0);
    AccessOnWord(s, 0, dw);
    KeywordOnWord(s, 0, dw, "const");
    KeywordStep(s, 0, dw, "dim");
  }

  /** A line starting with `Dim`, a blank and a declaration is read by the fourth alternative. */
  lemma MemberDimPrefix(s: string, dw: string)
    requires Spelled(dw, "dim") && LiteralAt(s, 0, dw)
    requires |dw| + 1 < |s| && s[|dw|] == ' ' && !IsSpace(s[|dw| + 1])
    requires NameTail(s, |dw| + 1).Some?
    ensures var n := NameTail(s, |dw| + 1).value;
      MatchMember(s) == Some(MemberGroups(None, None, None, None, n.0, n.1.arraySuffix, n.1.typeName, n.1.literal))
  {
    DimStart(s, dw);
    MatchMemberFourth(s);
  }

  /** `Const` and a blank open the line: no access keyword is read there. */
  lemma ConstStart(s: string, cw: string)
    requires Spelled(cw, "const") && LiteralAt(s, 0, cw)
    requires |cw| + 1 < |s| && s[|cw|] == ' ' && !IsSpace(s[|cw| + 1])
    ensures SkipSpaces(s, 0) == 0 && AccessAt(s, 0).None?
    ensures KeywordThenSpaces(s, 0, "const") == Some(|cw| + 1)
  {
    SpelledWord(cw, "const");
    assert s[0] == cw[0] && IsWordChar(cw[0]);
    SkipSpacesTo(s, 0, 0);
    AccessOnWord(s, 0, cw);
    KeywordStep(s, 0, cw, "const");
  }

  /** A line starting with `Const`, a blank and a declaration is read by the second alternative. */
  lemma MemberConstPrefix(s: string, cw: string)
    requires Spelled(cw, "const") && LiteralAt(s, 0, cw)
    requires |cw| + 1 < |s| && s[|cw|] == ' ' && !IsSpace(s[|cw| + 1])
    requires NameTail(s, |cw| + 1).Some?
    ensures var n := NameTail(s, |cw| + 1).value;
      MatchMember(s) == Some(MemberGroups(None, Some(s[..|cw| + 1]), None, None,
                                          n.0, n.1.arraySuffix, n.1.typeName, n.1.literal))
  {
    ConstStart(s, cw);
    MatchMemberSecond(s);
  }

  /** `Public Test`: an access keyword and a bare name, the line of test_found_member4 in tests/test_conv_vb6.py. */
  lemma MemberAccessAccepted(acc: string, name: string)
    requires IsWord(acc) && Lower(acc) in AccessWords && IsWord(name)
    ensures MatchMember(acc + " " + name) == Some(MemberGroups(Some(acc + " "), None, None, None, name, None, None, None))
  {
    var s := acc + " " + name;
    var j := |acc| + 1;
    assert s[..j] == acc + " " && s[..|acc|] == acc && s[|acc|] == ' ' && s[j..] == name;
    NameTailPlain(s, j, name);
    MemberAccessPrefix(s, acc);
  }

  /** `Private Count As Long`: an access keyword, a name and its type. */
  lemma MemberAccessTypedAccepted(acc: string, name: string, aw: string, ty: string)
    requires IsWord(acc) && Lower(acc) in AccessWords && IsWord(name) && Spelled(aw, "as") && IsTypeName(ty)
    ensures MatchMember(acc + " " + name + " " + aw + " " + ty) ==
      Some(MemberGroups(Some(acc + " "), None, None, None, name, None, Some(ty), None))
  {
    var s := acc + " " + name + " " + aw + " " + ty;
    var j := |acc| + 1;
    var e := j + |name|;
    assert s[..j] == acc + " " && s[..|acc|] == acc && s[|acc|] == ' ';
    assert s[j..e] == name && s[e] == ' ' && s[e + 1..e + 3] == aw && s[e + 3] == ' ' && s[e + 4..] == ty;
    NameTailTyped(s, j, name, aw, ty);
    MemberAccessPrefix(s, acc);
  }

  /** `Dim x As Integer`: a local variable and its type. */
  lemma MemberDimAccepted(dw: string, name: string, aw: string, ty: string)
    requires Spelled(dw, "dim") && IsWord(name) && Spelled(aw, "as") && IsTypeName(ty)
    ensures MatchMember(dw + " " + name + " " + aw + " " + ty) ==
      Some(MemberGroups(None, None, None, None, name, None, Some(ty), None))
  {
    var s := dw + " " + name + " " + aw + " " + ty;
    var j := |dw| + 1;
    var e := j + |name|;
    assert s[..|dw|] == dw && s[|dw|] == ' ';
    assert s[j..e] == name && s[e] == ' ' && s[e + 1..e + 3] == aw && s[e + 3] == ' ' && s[e + 4..] == ty;
    NameTailTyped(s, j, name, aw, ty);
    MemberDimPrefix(s, dw);
  }

  /** `Const Max = 10`: a constant and its literal value. */
  lemma MemberConstAccepted(cw: string, name: string, lit: string)
    requires Spelled(cw, "const") && IsWord(name)
    requires IsLiteral(lit) && lit != [] && !IsSpace(lit[0]) && !IsSpace(lit[|lit| - 1])
    ensures MatchMember(cw + " " + name + " = " + lit) ==
      Some(MemberGroups(None, Some(cw + " "), None, None, name, None, None, Some(lit)))
  {
    var s := cw + " " + name + " = " + lit;
    var j := |cw| + 1;
    var e := j + |name|;
    var head := cw + " " + name + " = ";
    assert s == head + lit && |head| == e + 3;
    assert s[..e] == cw + " " + name;
    assert s[..j] == cw + " " && s[..|cw|] == cw && s[|cw|] == ' ';
    assert s[j..e] == name && s[e] == ' ' && s[e + 1] == '=' && s[e + 2] == ' ' && s[e + 3..] == lit;
    NameTailValued(s, j, name, lit);
    MemberConstPrefix(s, cw);
  }

  // ---------------------------------------------------------------- procedure headers

  /** A word found at i starts there with a word character, which is no blank. */
  lemma WordStart(s: string, i: nat, w: string)
    requires IsWord(w) && LiteralAt(s, i, w)
    ensures i < |s| && s[i] == w[0] && IsWordChar(s[i]) && !IsSpace(s[i])
  {
    assert s[i..i + |w|][0] == s[i];
  }

  /** A bare argument text followed by `)` closes there. */
  lemma {:induction false} ArgsClosePlain(s: string, i: nat, j: nat)
    requires i <= j < |s| && s[j] == ')' && forall k | i <= k < j :: IsArgsChar(s[k])
    ensures ArgsClose(s, i) == Some(j)
    decreases j - i
  {
    if i < j {
      assert IsArgsChar(s[i]);
      ArgsClosePlain(s, i + 1, j);
    }
  }

  /** `(args)` at e, with bare argument text, is the argument group. */
  lemma ArgsGroupPlain(s: string, e: nat, args: string)
    requires IsPlainArgs(args) && CharAt(s, e, '(') && LiteralAt(s, e + 1, args) && CharAt(s, e + 1 + |args|, ')')
    ensures ArgsGroup(s, e) == Some((args, e + 2 + |args|))
  {
    SkipSpacesTo(s, e, e);
    assert forall k | e + 1 <= k < e + 1 + |args| :: s[k] == args[k - (e + 1)];
    ArgsClosePlain(s, e + 1, e + 1 + |args|);
  }

  /** Nothing after the header: no return type. */
  lemma ReturnNone(s: string, r: nat)
    requires r == |s|
    ensures ReturnTail(s, r) == Some((None, None))
  {
  }

  /** ` As Type` to the end of the line is the return type. */
  lemma ReturnTyped(s: string, r: nat, aw: string, ty: string)
    requires Spelled(aw, "as") && IsTypeName(ty)
    requires CharAt(s, r, ' ') && LiteralAt(s, r + 1, aw) && CharAt(s, r + 3, ' ') && LiteralAt(s, r + 4, ty)
    requires |s| == r + 4 + |ty|
    ensures ReturnTail(s, r) == Some((Some(ty), None))
  {
    assert s[r + 1] == aw[0] && LowerChar(aw[0]) == 'a';
    assert s[r + 4] == ty[0] && IsTypeChar(ty[0]);
    SkipSpacesTo(s, r, r + 1);
    SpelledAt(s, r + 1, aw, "as");
    SkipSpacesTo(s, r + 3, r + 4);
    TypeEndTo(s, r + 4, ty);
  }

  /** A first word that is not an access keyword: the optional access group is left out. */
  lemma NoAccessStart(s: string, w: string)
    requires IsWord(w) && Lower(w) !in AccessWords && LiteralAt(s, 0, w) && CharAt(s, |w|, ' ')
    ensures AccessOptions(s) == [(None, 0)]
  {
    WordStart(s, 0, w);
    SkipSpacesTo(s, 0, 0);
    AccessOnWord(s, 0, w);
  }

  /** An access keyword and a blank before a word: the access group is tried first, then left out. */
  lemma AccessStart(s: string, acc: string, w: string)
    requires IsWord(acc) && Lower(acc) in AccessWords && IsWord(w)
    requires LiteralAt(s, 0, acc + " ") && LiteralAt(s, |acc| + 1, w)
    ensures AccessOptions(s) == [(Some(acc + " "), |acc| + 1), (None, 0)]
  {
    assert s[..|acc| + 1] == acc + " ";
    assert LiteralAt(s, 0, acc) && s[|acc|] == ' ' by { assert s[..|acc|] == s[..|acc| + 1][..|acc|]; }
    WordStart(s, |acc| + 1, w);
    WordStart(s, 0, acc);
    SkipSpacesTo(s, 0, 0);
    AccessOnWord(s, 0, acc);
    SkipSpacesTo(s, |acc|, |acc| + 1);
  }

  /** A keyword that is a word but not an access keyword, spelled in any case, is not one either. */
  lemma SpelledNotAccess(w: string, kw: string)
    requires Spelled(w, kw) && IsWord(kw) && kw !in AccessWords
    ensures IsWord(w) && Lower(w) !in AccessWords
  {
    SpelledWord(w, kw);
  }

  /** A keyword, a blank and a word: the keyword is read up to the word. */
  lemma KeywordBeforeWord(s: string, i: nat, kw: string, w: string, x: string)
    requires Spelled(w, kw) && IsWord(kw) && IsWord(x)
    requires LiteralAt(s, i, w) && CharAt(s, i + |w|, ' ') && LiteralAt(s, i + |w| + 1, x)
    ensures KeywordThenSpaces(s, i, kw) == Some(i + |w| + 1)
  {
    WordStart(s, i + |w| + 1, x);
    KeywordStep(s, i, w, kw);
  }

  /** A name, then `(args)`: the name ends at the parenthesis and the group holds args. */
  lemma NameThenArgs(s: string, q: nat, name: string, args: string)
    requires IsWord(name) && IsPlainArgs(args)
    requires LiteralAt(s, q, name) && var e := q + |name|;
      CharAt(s, e, '(') && LiteralAt(s, e + 1, args) && CharAt(s, e + 1 + |args|, ')')
    ensures WordEnd(s, q) == q + |name|
    ensures ArgsGroup(s, q + |name|) == Some((args, q + |name| + 2 + |args|))
  {
    WordEndTo(s, q, name);
    ArgsGroupPlain(s, q + |name|, args);
  }

  /** What FunctionAt reads, step by step. */
  lemma FunctionSteps(s: string, p: nat, q: nat, e: nat, args: string, r: nat,
                      access: Option<string>, rt: Option<string>, ra: Option<string>)
    requires p <= |s| && KeywordThenSpaces(s, p, "function") == Some(q) && q < e == WordEnd(s, q)
    requires ArgsGroup(s, e) == Some((args, r)) && ReturnTail(s, r) == Some((rt, ra))
    ensures FunctionAt(s, access, p) == Some(FunctionGroups(access, s[q..e], args, rt, ra))
  {
  }

  lemma MatchFunctionOne(s: string)
    requires AccessOptions(s) == [(None, 0)]
    ensures MatchFunction(s) == FunctionAt(s, None, 0)
  {
  }

  lemma MatchFunctionTwo(s: string, a: string, j: nat)
    requires AccessOptions(s) == [(Some(a), j), (None, 0)] && j <= |s| && FunctionAt(s, Some(a), j).Some?
    ensures MatchFunction(s) == FunctionAt(s, Some(a), j)
  {
  }

  /** The parts of a header line `kw name(args)`, position by position. */
  predicate HeadAt(s: string, kw: string, name: string, args: string)
  {
    var q := |kw| + 1; var e := q + |name|;
    LiteralAt(s, 0, kw) && CharAt(s, |kw|, ' ') && LiteralAt(s, q, name) &&
    CharAt(s, e, '(') && LiteralAt(s, e + 1, args) && CharAt(s, e + 1 + |args|, ')')
  }

  lemma HeadLayout(head: string, kw: string, name: string, args: string)
    requires head == kw + " " + name + "(" + args + ")"
    ensures |head| == |kw| + |name| + 3 + |args| && HeadAt(head, kw, name, args)
  {
    var q := |kw| + 1;
    var e := q + |name|;
    assert head[..|kw|] == kw && head[|kw|] == ' ' && head[q..e] == name && head[e] == '(';
    assert head[e + 1..e + 1 + |args|] == args && head[e + 1 + |args|] == ')';
  }

  /** A header followed by more text still has its parts where they were. */
  lemma HeadAtLonger(head: string, rest: string, kw: string, name: string, args: string)
    requires HeadAt(head, kw, name, args)
    ensures HeadAt(head + rest, kw, name, args)
  {
    var q := |kw| + 1; var e := q + |name|;
    LitLeft(head, rest, 0, kw);
    LitLeft(head, rest, q, name);
    LitLeft(head, rest, e + 1, args);
  }

  /** ` As Type` after a header, position by position. */
  lemma ReturnLayout(head: string, aw: string, ty: string)
    ensures var s := head + " " + aw + " " + ty; var r := |head|;
      |s| == r + 2 + |aw| + |ty| && CharAt(s, r, ' ') && LiteralAt(s, r + 1, aw) &&
      CharAt(s, r + 1 + |aw|, ' ') && LiteralAt(s, r + 2 + |aw|, ty)
  {
    var s := head + " " + aw + " " + ty;
    var r := |head|;
    assert s[r] == ' ' && s[r + 1..r + 1 + |aw|] == aw;
    assert s[r + 1 + |aw|] == ' ' && s[r + 2 + |aw|..] == ty;
  }

  /** Two keywords separated by a blank, position by position. */
  lemma PairLayout(s: string, w1: string, w2: string)
    requires LiteralAt(s, 0, w1 + " " + w2)
    ensures LiteralAt(s, 0, w1) && CharAt(s, |w1|, ' ') && LiteralAt(s, |w1| + 1, w2)
  {
    var k := w1 + " " + w2;
    assert s[..|k|] == k;
    assert s[..|w1|] == k[..|w1|] == w1;
    assert s[|w1|] == k[|w1|] == ' ';
    assert s[|w1| + 1..|k|] == k[|w1| + 1..] == w2;
  }

  // Function

  /** After the keyword: the name, `(args)` and the return part, read step by step. */
  lemma FunctionTail(s: string, q: nat, name: string, args: string, rt: Option<string>, ra: Option<string>)
    requires IsWord(name) && IsPlainArgs(args) && KeywordThenSpaces(s, 0, "function") == Some(q)
    requires LiteralAt(s, q, name) && var e := q + |name|;
      CharAt(s, e, '(') && LiteralAt(s, e + 1, args) && CharAt(s, e + 1 + |args|, ')') &&
      ReturnTail(s, e + 2 + |args|) == Some((rt, ra))
    ensures FunctionAt(s, None, 0) == Some(FunctionGroups(None, name, args, rt, ra))
  {
    NameThenArgs(s, q, name, args);
    FunctionSteps(s, 0, q, q + |name|, args, q + |name| + 2 + |args|, None, rt, ra);
  }

  /** `Function name(args)` from the start, whatever its return part reads as. */
  lemma FunctionFound(s: string, fw: string, name: string, args: string, rt: Option<string>, ra: Option<string>)
    requires Spelled(fw, "function") && IsWord(name) && IsPlainArgs(args) && HeadAt(s, fw, name, args)
    requires |fw| + |name| + 3 + |args| <= |s| && ReturnTail(s, |fw| + |name| + 3 + |args|) == Some((rt, ra))
    ensures FunctionAt(s, None, 0) == Some(FunctionGroups(None, name, args, rt, ra))
  {
    KeywordBeforeWord(s, 0, "function", fw, name);
    FunctionTail(s, |fw| + 1, name, args, rt, ra);
  }

  /** A function header with no access keyword, whatever its return part reads as. */
  lemma FunctionWith(s: string, fw: string, name: string, args: string, rt: Option<string>, ra: Option<string>)
    requires Spelled(fw, "function") && IsWord(name) && IsPlainArgs(args) && HeadAt(s, fw, name, args)
    requires |fw| + |name| + 3 + |args| <= |s| && ReturnTail(s, |fw| + |name| + 3 + |args|) == Some((rt, ra))
    ensures MatchFunction(s) == Some(FunctionGroups(None, name, args, rt, ra))
  {
    assert AccessOptions(s) == [(None, 0)] by {
      SpelledNotAccess(fw, "function");
      NoAccessStart(s, fw);
    }
    assert FunctionAt(s, None, 0) == Some(FunctionGroups(None, name, args, rt, ra)) by {
      FunctionFound(s, fw, name, args, rt, ra);
    }
    MatchFunctionOne(s);
  }

  lemma FunctionLine(s: string, fw: string, name: string, args: string)
    requires Spelled(fw, "function") && IsWord(name) && IsPlainArgs(args) && HeadAt(s, fw, name, args)
    requires |s| == |fw| + |name| + 3 + |args|
    ensures MatchFunction(s) == Some(FunctionGroups(None, name, args, None, None))
  {
    ReturnNone(s, |s|);
    FunctionWith(s, fw, name, args, None, None);
  }

  /** `Function Test()` and the like: a function header with no access keyword and no return type. */
  lemma FunctionAccepted(fw: string, name: string, args: string)
    requires Spelled(fw, "function") && IsWord(name) && IsPlainArgs(args)
    ensures MatchFunction(fw + " " + name + "(" + args + ")") == Some(FunctionGroups(None, name, args, None, None))
  {
    var s := fw + " " + name + "(" + args + ")";
    HeadLayout(s, fw, name, args);
    FunctionLine(s, fw, name, args);
  }

  lemma FunctionTypedLine(s: string, fw: string, name: string, args: string, aw: string, ty: string)
    requires Spelled(fw, "function") && IsWord(name) && IsPlainArgs(args) && HeadAt(s, fw, name, args)
    requires Spelled(aw, "as") && IsTypeName(ty)
    requires var r := |fw| + |name| + 3 + |args|;
      CharAt(s, r, ' ') && LiteralAt(s, r + 1, aw) && CharAt(s, r + 3, ' ') && LiteralAt(s, r + 4, ty) &&
      |s| == r + 4 + |ty|
    ensures MatchFunction(s) == Some(FunctionGroups(None, name, args, Some(ty), None))
  {
    ReturnTyped(s, |fw| + |name| + 3 + |args|, aw, ty);
    FunctionWith(s, fw, name, args, Some(ty), None);
  }

  /** `Function Test(a As Long) As String` and the like: the return type is captured. */
  lemma FunctionTypedAccepted(fw: string, name: string, args: string, aw: string, ty: string)
    requires Spelled(fw, "function") && IsWord(name) && IsPlainArgs(args) && Spelled(aw, "as") && IsTypeName(ty)
    ensures MatchFunction(fw + " " + name + "(" + args + ")" + " " + aw + " " + ty) ==
      Some(FunctionGroups(None, name, args, Some(ty), None))
  {
    var head := fw + " " + name + "(" + args + ")";
    HeadLayout(head, fw, name, args);
    ReturnLayout(head, aw, ty);
    HeadAtLonger(head, " " + aw + " " + ty, fw, name, args);
    assert head + " " + aw + " " + ty == head + (" " + aw + " " + ty);
    FunctionTypedLine(head + " " + aw + " " + ty, fw, name, args, aw, ty);
  }

  // Sub

  /** After the keyword: the name, `(args)` and the end of the line, read step by step. */
  lemma SubTail(s: string, q: nat, name: string, args: string)
    requires IsWord(name) && IsPlainArgs(args) && KeywordThenSpaces(s, 0, "sub") == Some(q)
    requires LiteralAt(s, q, name) && var e := q + |name|;
      CharAt(s, e, '(') && LiteralAt(s, e + 1, args) && CharAt(s, e + 1 + |args|, ')') && |s| == e + 2 + |args|
    ensures SubAt(s, None, 0) == Some(SubGroups(None, name, args))
  {
    NameThenArgs(s, q, name, args);
  }

  lemma MatchSubOne(s: string)
    requires AccessOptions(s) == [(None, 0)]
    ensures MatchSub(s) == SubAt(s, None, 0)
  {
  }

  lemma SubLine(s: string, sw: string, name: string, args: string)
    requires Spelled(sw, "sub") && IsWord(name) && IsPlainArgs(args) && HeadAt(s, sw, name, args)
    requires |s| == |sw| + |name| + 3 + |args|
    ensures MatchSub(s) == Some(SubGroups(None, name, args))
  {
    SpelledNotAccess(sw, "sub");
    NoAccessStart(s, sw);
    KeywordBeforeWord(s, 0, "sub", sw, name);
    SubTail(s, |sw| + 1, name, args);
    MatchSubOne(s);
  }

  /** `Sub Main()` and the like: the name and the argument text are captured. */
  lemma SubAccepted(sw: string, name: string, args: string)
    requires Spelled(sw, "sub") && IsWord(name) && IsPlainArgs(args)
    ensures MatchSub(sw + " " + name + "(" + args + ")") == Some(SubGroups(None, name, args))
  {
    var s := sw + " " + name + "(" + args + ")";
    HeadLayout(s, sw, name, args);
    SubLine(s, sw, name, args);
  }

  // Type and Enum

  /** After the keyword: the name and the end of the line. */
  lemma BlockTail(s: string, kw: string, q: nat, name: string)
    requires IsWord(name) && KeywordThenSpaces(s, 0, kw) == Some(q) && LiteralAt(s, q, name) && |s| == q + |name|
    ensures BlockAt(s, kw, None, 0) == Some(BlockGroups(None, name))
  {
    WordEndTo(s, q, name);
  }

  lemma MatchBlockOne(s: string, kw: string)
    requires AccessOptions(s) == [(None, 0)]
    ensures MatchBlock(s, kw) == BlockAt(s, kw, None, 0)
  {
  }

  lemma BlockLine(s: string, kw: string, w: string, name: string)
    requires IsWord(kw) && kw !in AccessWords && Spelled(w, kw) && IsWord(name)
    requires LiteralAt(s, 0, w) && CharAt(s, |w|, ' ') && LiteralAt(s, |w| + 1, name) && |s| == |w| + 1 + |name|
    ensures MatchBlock(s, kw) == Some(BlockGroups(None, name))
  {
    SpelledNotAccess(w, kw);
    NoAccessStart(s, w);
    KeywordBeforeWord(s, 0, kw, w, name);
    BlockTail(s, kw, |w| + 1, name);
    MatchBlockOne(s, kw);
  }

  /**
   * `Type Point`, `Enum Colour` and the like: a block header whose keyword
   * is a word and not an access keyword captures the name.
   */
  lemma BlockAccepted(kw: string, w: string, name: string)
    requires IsWord(kw) && kw !in AccessWords && Spelled(w, kw) && IsWord(name)
    ensures MatchBlock(w + " " + name, kw) == Some(BlockGroups(None, name))
  {
    var s := w + " " + name;
    assert s[..|w|] == w && s[|w|] == ' ' && s[|w| + 1..] == name;
    BlockLine(s, kw, w, name);
  }

  // Property Get

  /** What PropertyGetName reads, step by step (b is the position of `)`). */
  lemma PropertyGetSteps(s: string, g: nat, e: nat, b: nat, rt: Option<string>, ra: Option<string>)
    requires g <= |s| && g < e == WordEnd(s, g) && SkipSpaces(s, e) == e && e < |s| && s[e] == '('
    requires SkipSpaces(s, e + 1) == b && b < |s| && s[b] == ')' && ReturnTail(s, b + 1) == Some((rt, ra))
    ensures PropertyGetName(s, None, g) == Some(PropertyGetGroups(None, s[g..e], rt, ra))
  {
  }

  lemma PropertyGetKeywords(s: string, q: nat, g: nat)
    requires KeywordThenSpaces(s, 0, "property") == Some(q) && KeywordThenSpaces(s, q, "get") == Some(g)
    ensures PropertyGetAt(s, None, 0) == PropertyGetName(s, None, g)
  {
  }

  /** After `Property Get`: the name, `()` and the return part, read step by step. */
  lemma PropertyGetTail(s: string, q: nat, g: nat, name: string, rt: Option<string>, ra: Option<string>)
    requires IsWord(name) && KeywordThenSpaces(s, 0, "property") == Some(q) && KeywordThenSpaces(s, q, "get") == Some(g)
    requires LiteralAt(s, g, name) && CharAt(s, g + |name|, '(') && CharAt(s, g + |name| + 1, ')')
    requires ReturnTail(s, g + |name| + 2) == Some((rt, ra))
    ensures PropertyGetAt(s, None, 0) == Some(PropertyGetGroups(None, name, rt, ra))
  {
    var e := g + |name|;
    WordEndTo(s, g, name);
    SkipSpacesTo(s, e, e);
    SkipSpacesTo(s, e + 1, e + 1);
    PropertyGetSteps(s, g, e, e + 1, rt, ra);
    PropertyGetKeywords(s, q, g);
  }

  lemma MatchPropertyGetOne(s: string)
    requires AccessOptions(s) == [(None, 0)]
    ensures MatchPropertyGet(s) == PropertyGetAt(s, None, 0)
  {
  }

  lemma PropertyGetLine(s: string, pw: string, gw: string, name: string)
    requires Spelled(pw, "property") && Spelled(gw, "get") && IsWord(name) && HeadAt(s, pw + " " + gw, name, "")
    requires |s| == |pw| + |gw| + |name| + 4
    ensures MatchPropertyGet(s) == Some(PropertyGetGroups(None, name, None, None))
  {
    PairLayout(s, pw, gw);
    SpelledNotAccess(pw, "property");
    NoAccessStart(s, pw);
    SpelledWord(gw, "get");
    KeywordBeforeWord(s, 0, "property", pw, gw);
    KeywordBeforeWord(s, |pw| + 1, "get", gw, name);
    ReturnNone(s, |s|);
    PropertyGetTail(s, |pw| + 1, |pw| + |gw| + 2, name, None, None);
    MatchPropertyGetOne(s);
  }

  /** `Property Get Name()` and the like: the property name is captured. */
  lemma PropertyGetAccepted(pw: string, gw: string, name: string)
    requires Spelled(pw, "property") && Spelled(gw, "get") && IsWord(name)
    ensures MatchPropertyGet(pw + " " + gw + " " + name + "()") == Some(PropertyGetGroups(None, name, None, None))
  {
    var s := pw + " " + gw + " " + name + "()";
    assert s == (pw + " " + gw) + " " + name + "(" + "" + ")";
    HeadLayout(s, pw + " " + gw, name, "");
    PropertyGetLine(s, pw, gw, name);
  }

  // Property Set and Let

  /** Of `set` and `let`, the one the word spells is read. */
  lemma SetOrLet(s: string, i: nat, w: string, x: string)
    requires (Spelled(w, "set") || Spelled(w, "let")) && IsWord(x)
    requires LiteralAt(s, i, w) && CharAt(s, i + |w|, ' ') && LiteralAt(s, i + |w| + 1, x)
    ensures Or(KeywordThenSpaces(s, i, "set"), KeywordThenSpaces(s, i, "let")) == Some(i + 4)
  {
    if Spelled(w, "set") {
      KeywordBeforeWord(s, i, "set", w, x);
    } else {
      assert !CaselessAt(s, i, "set") by {
        SpelledAt(s, i, w, "let");
      }
      KeywordBeforeWord(s, i, "let", w, x);
    }
  }

  /** After `Property Set` or `Property Let`: the name, `(args)` and the end of the line, read step by step. */
  lemma PropertySetTail(s: string, q: nat, g: nat, name: string, args: string)
    requires IsWord(name) && IsPlainArgs(args) && KeywordThenSpaces(s, 0, "property") == Some(q)
    requires Or(KeywordThenSpaces(s, q, "set"), KeywordThenSpaces(s, q, "let")) == Some(g) && q + 3 <= |s|
    requires LiteralAt(s, g, name) && var e := g + |name|;
      CharAt(s, e, '(') && LiteralAt(s, e + 1, args) && CharAt(s, e + 1 + |args|, ')') && |s| == e + 2 + |args|
    ensures PropertySetAt(s, None, 0) == Some(PropertySetGroups(None, s[q..q + 3], name, args))
  {
    NameThenArgs(s, g, name, args);
  }

  lemma MatchPropertySetOne(s: string)
    requires AccessOptions(s) == [(None, 0)]
    ensures MatchPropertySet(s) == PropertySetAt(s, None, 0)
  {
  }

  lemma PropertySetLine(s: string, pw: string, sw: string, name: string, args: string)
    requires Spelled(pw, "property") && (Spelled(sw, "set") || Spelled(sw, "let")) && IsWord(name) && IsPlainArgs(args)
    requires HeadAt(s, pw + " " + sw, name, args) && |s| == |pw| + |sw| + |name| + 4 + |args|
    ensures MatchPropertySet(s) == Some(PropertySetGroups(None, sw, name, args))
  {
    PairLayout(s, pw, sw);
    SpelledNotAccess(pw, "property");
    NoAccessStart(s, pw);
    assert |sw| == 3;
    SpelledWord(sw, Lower(sw));
    KeywordBeforeWord(s, 0, "property", pw, sw);
    SetOrLet(s, |pw| + 1, sw, name);
    PropertySetTail(s, |pw| + 1, |pw| + 5, name, args);
    MatchPropertySetOne(s);
  }

  /** `Property Let Name(ByVal v As Long)` and the like: Set or Let, the name and the argument text are captured. */
  lemma PropertySetAccepted(pw: string, sw: string, name: string, args: string)
    requires Spelled(pw, "property") && (Spelled(sw, "set") || Spelled(sw, "let")) && IsWord(name) && IsPlainArgs(args)
    ensures MatchPropertySet(pw + " " + sw + " " + name + "(" + args + ")") == Some(PropertySetGroups(None, sw, name, args))
  {
    var s := pw + " " + sw + " " + name + "(" + args + ")";
    assert s == (pw + " " + sw) + " " + name + "(" + args + ")";
    HeadLayout(s, pw + " " + sw, name, args);
    PropertySetLine(s, pw, sw, name, args);
  }

  // ---------------------------------------------------------------- arguments

  /** At a word followed by a blank, a keyword of word characters the word does not spell is not read. */
  lemma KeywordMissesWord(s: string, i: nat, w: string, kw: string)
    requires IsWord(w) && LiteralAt(s, i, w) && CharAt(s, i + |w|, ' ') && IsWord(kw) && !Spelled(w, kw)
    ensures KeywordThenSpaces(s, i, kw).None?
  {
    KeywordOnWord(s, i, w, kw);
  }

  /** A keyword choice that does not match: the matcher goes on to the next one. */
  lemma ModifiersSkip(s: string, w: nat, c: nat)
    requires w <= |s| && c < 8 && ModifiersThenName(s, w, c < 4, c < 2 || 4 <= c < 6, c == 0 || c == 2 || c == 4 || c == 6).None?
    ensures ModifiersFrom(s, w, c) == ModifiersFrom(s, w, c + 1)
  {
  }

  /** A keyword choice that matches is the one taken. */
  lemma ModifiersHit(s: string, w: nat, c: nat)
    requires w <= |s| && c < 8 && ModifiersThenName(s, w, c < 4, c < 2 || 4 <= c < 6, c == 0 || c == 2 || c == 4 || c == 6).Some?
    ensures ModifiersFrom(s, w, c) == ModifiersThenName(s, w, c < 4, c < 2 || 4 <= c < 6, c == 0 || c == 2 || c == 4 || c == 6)
  {
  }

  /** No `Optional` at w: every choice that asks for it fails. */
  lemma OptionalAbsent(s: string, w: nat, pass: bool, pa: bool)
    requires w <= |s| && KeywordThenSpaces(s, w, "optional").None?
    ensures ModifiersThenName(s, w, true, pass, pa).None?
  {
  }

  /** No `ByVal` or `ByRef` at w: the choices that ask for one without `Optional` fail. */
  lemma PassingAbsent(s: string, w: nat, pa: bool)
    requires w <= |s| && KeywordThenSpaces(s, w, "byval").None? && KeywordThenSpaces(s, w, "byref").None?
    ensures ModifiersThenName(s, w, false, true, pa).None?
  {
  }

  /** `ByVal` or `ByRef` read up to n, then no `ParamArray`, then a name up to e. */
  lemma PassingThenName(s: string, w: nat, n: nat, e: nat)
    requires w <= n < e <= |s|
    requires Or(KeywordThenSpaces(s, w, "byval"), KeywordThenSpaces(s, w, "byref")) == Some(n)
    requires KeywordThenSpaces(s, n, "paramarray").None? && WordEnd(s, n) == e
    ensures ModifiersThenName(s, w, false, true, true).None?
    ensures ModifiersThenName(s, w, false, true, false) == Some((w, n, n, e))
  {
  }

  /** Of `byval` and `byref`, the one the word spells is read. */
  lemma ByValOrByRef(s: string, w: string, x: string)
    requires (Spelled(w, "byval") || Spelled(w, "byref")) && IsWord(x)
    requires LiteralAt(s, 0, w) && CharAt(s, |w|, ' ') && LiteralAt(s, |w| + 1, x)
    ensures Or(KeywordThenSpaces(s, 0, "byval"), KeywordThenSpaces(s, 0, "byref")) == Some(|w| + 1)
  {
    if Spelled(w, "byval") {
      KeywordBeforeWord(s, 0, "byval", w, x);
    } else {
      SpelledWord(w, "byref");
      KeywordMissesWord(s, 0, w, "byval");
      KeywordBeforeWord(s, 0, "byref", w, x);
    }
  }

  /** None of the keywords at the start: only the last choice, a bare name, matches. */
  lemma ModifiersBare(s: string, e: nat)
    requires KeywordThenSpaces(s, 0, "optional").None? && KeywordThenSpaces(s, 0, "paramarray").None?
    requires KeywordThenSpaces(s, 0, "byval").None? && KeywordThenSpaces(s, 0, "byref").None?
    requires 0 < e <= |s| && WordEnd(s, 0) == e
    ensures Modifiers(s, 0) == Some((0 as nat, 0 as nat, 0 as nat, e))
  {
    OptionalAbsent(s, 0, true, true);
    ModifiersSkip(s, 0, 0);
    OptionalAbsent(s, 0, true, false);
    ModifiersSkip(s, 0, 1);
    OptionalAbsent(s, 0, false, true);
    ModifiersSkip(s, 0, 2);
    OptionalAbsent(s, 0, false, false);
    ModifiersSkip(s, 0, 3);
    PassingAbsent(s, 0, true);
    ModifiersSkip(s, 0, 4);
    PassingAbsent(s, 0, false);
    ModifiersSkip(s, 0, 5);
    ModifiersSkip(s, 0, 6);
    ModifiersHit(s, 0, 7);
  }

  /** A bare name that is none of the argument keywords: only the last choice, no keyword at all, matches. */
  lemma ModifiersOfName(s: string, name: string)
    requires IsWord(name) && LiteralAt(s, 0, name) && CharAt(s, |name|, ' ')
    requires !Spelled(name, "optional") && !Spelled(name, "byval") && !Spelled(name, "byref") && !Spelled(name, "paramarray")
    ensures Modifiers(s, 0) == Some((0 as nat, 0 as nat, 0 as nat, |name| as nat))
  {
    KeywordMissesWord(s, 0, name, "optional");
    KeywordMissesWord(s, 0, name, "byval");
    KeywordMissesWord(s, 0, name, "byref");
    KeywordMissesWord(s, 0, name, "paramarray");
    WordEndTo(s, 0, name);
    ModifiersBare(s, |name|);
  }

  /** No `Optional`, then `ByVal` or `ByRef` up to n, then no `ParamArray` and a name up to e: the sixth choice matches. */
  lemma ModifiersPassing(s: string, n: nat, e: nat)
    requires 0 < n < e <= |s| && KeywordThenSpaces(s, 0, "optional").None?
    requires Or(KeywordThenSpaces(s, 0, "byval"), KeywordThenSpaces(s, 0, "byref")) == Some(n)
    requires KeywordThenSpaces(s, n, "paramarray").None? && WordEnd(s, n) == e
    ensures Modifiers(s, 0) == Some((0 as nat, n, n, e))
  {
    PassingThenName(s, 0, n, e);
    OptionalAbsent(s, 0, true, true);
    ModifiersSkip(s, 0, 0);
    OptionalAbsent(s, 0, true, false);
    ModifiersSkip(s, 0, 1);
    OptionalAbsent(s, 0, false, true);
    ModifiersSkip(s, 0, 2);
    OptionalAbsent(s, 0, false, false);
    ModifiersSkip(s, 0, 3);
    ModifiersSkip(s, 0, 4);
    ModifiersHit(s, 0, 5);
  }

  /** `ByVal` or `ByRef`, a blank and a name that is not `ParamArray`: the passing keyword and the name are read. */
  lemma ModifiersOfPassing(s: string, pw: string, name: string)
    requires (Spelled(pw, "byval") || Spelled(pw, "byref")) && IsWord(name) && !Spelled(name, "paramarray")
    requires LiteralAt(s, 0, pw) && CharAt(s, |pw|, ' ') && LiteralAt(s, |pw| + 1, name)
    requires CharAt(s, |pw| + 1 + |name|, ' ')
    ensures Modifiers(s, 0) == Some((0 as nat, (|pw| + 1) as nat, (|pw| + 1) as nat, (|pw| + 1 + |name|) as nat))
  {
    var n := |pw| + 1;
    SpelledWord(pw, Lower(pw));
    KeywordMissesWord(s, 0, pw, "optional");
    ByValOrByRef(s, pw, name);
    KeywordMissesWord(s, n, name, "paramarray");
    WordEndTo(s, n, name);
    ModifiersPassing(s, n, n + |name|);
  }

  /** ` As ` at e, before a type name: the type starts after the second blank. */
  lemma AsClauseAt(s: string, e: nat, aw: string, ty: string)
    requires Spelled(aw, "as") && IsTypeName(ty)
    requires CharAt(s, e, ' ') && LiteralAt(s, e + 1, aw) && CharAt(s, e + 3, ' ') && LiteralAt(s, e + 4, ty)
    ensures AsClause(s, e) == Some(e + 4)
  {
    assert s[e + 1] == aw[0] && LowerChar(aw[0]) == 'a';
    assert s[e + 4] == ty[0] && IsTypeChar(ty[0]);
    SkipSpacesTo(s, e, e + 1);
    SpelledAt(s, e + 1, aw, "as");
    SkipSpacesTo(s, e + 3, e + 4);
  }

  /** ` As Type` to the end of the line, after an argument's name. */
  lemma ArgTypeTail(s: string, e: nat, aw: string, ty: string)
    requires Spelled(aw, "as") && IsTypeName(ty)
    requires CharAt(s, e, ' ') && LiteralAt(s, e + 1, aw) && CharAt(s, e + 3, ' ') && LiteralAt(s, e + 4, ty)
    requires |s| == e + 4 + |ty|
    ensures ArgTailAt(s, e) == ArgTail("", ty, "", |s|)
  {
    AsClauseAt(s, e, aw, ty);
    TypeEndTo(s, e + 4, ty);
  }

  /** What ArgMatchAt reads from the start, step by step. */
  lemma ArgMatchSteps(s: string, p1: nat, p2: nat, p3: nat, e: nat, t: ArgTail)
    requires SkipSpaces(s, 0) == 0 && Modifiers(s, 0) == Some((p1, p2, p3, e)) && ArgTailAt(s, e) == t
    ensures ArgMatchAt(s, 0) == Some((ArgGroups(s[..p1], s[p1..p2], s[p2..p3], s[p3..e], t.arraySuffix, t.typeName, t.default), t.end))
  {
  }

  /** What ArgMatchAt reads from the start, with the text of each keyword group and of the name. */
  lemma ArgMatchGroups(s: string, p1: nat, p2: nat, p3: nat, e: nat, t: ArgTail,
                       opt: string, pass: string, pa: string, name: string)
    requires SkipSpaces(s, 0) == 0 && Modifiers(s, 0) == Some((p1, p2, p3, e)) && ArgTailAt(s, e) == t
    requires s[..p1] == opt && s[p1..p2] == pass && s[p2..p3] == pa && s[p3..e] == name
    ensures ArgMatchAt(s, 0) == Some((ArgGroups(opt, pass, pa, name, t.arraySuffix, t.typeName, t.default), t.end))
  {
    ArgMatchSteps(s, p1, p2, p3, e, t);
  }

  /** A match that reaches the end of the text is the only one findall reports. */
  lemma FindAllOne(s: string, g: ArgGroups)
    requires |s| > 0 && ArgMatchAt(s, 0) == Some((g, |s|))
    ensures FindAllArgs(s, 0) == [g]
  {
  }

  /** `name As Type`, position by position. */
  lemma ArgLayout(name: string, aw: string, ty: string)
    requires |aw| == 2
    ensures var s := name + " " + aw + " " + ty; var e := |name|;
      LiteralAt(s, 0, name) && CharAt(s, e, ' ') && LiteralAt(s, e + 1, aw) && CharAt(s, e + 3, ' ') &&
      LiteralAt(s, e + 4, ty) && |s| == e + 4 + |ty|
  {
    var s := name + " " + aw + " " + ty;
    ReturnLayout(name, aw, ty);
    assert s == name + (" " + aw + " " + ty);
    LitBoth(name, " " + aw + " " + ty);
  }

  /** `ByVal name As Type`, position by position. */
  lemma ArgPassingLayout(pw: string, name: string, aw: string, ty: string)
    requires |aw| == 2
    ensures var s := pw + " " + name + " " + aw + " " + ty; var e := |pw| + 1 + |name|;
      LiteralAt(s, 0, pw) && CharAt(s, |pw|, ' ') && LiteralAt(s, |pw| + 1, name) &&
      CharAt(s, e, ' ') && LiteralAt(s, e + 1, aw) && CharAt(s, e + 3, ' ') &&
      LiteralAt(s, e + 4, ty) && |s| == e + 4 + |ty|
  {
    var head := pw + " " + name;
    var s := head + " " + aw + " " + ty;
    ReturnLayout(head, aw, ty);
    assert s == head + (" " + aw + " " + ty);
    LitBoth(head, " " + aw + " " + ty);
    PairLayout(s, pw, name);
  }

  lemma ArgTypedLine(s: string, name: string, aw: string, ty: string)
    requires IsWord(name) && Spelled(aw, "as") && IsTypeName(ty)
    requires !Spelled(name, "optional") && !Spelled(name, "byval") && !Spelled(name, "byref") && !Spelled(name, "paramarray")
    requires var e := |name|;
      LiteralAt(s, 0, name) && CharAt(s, e, ' ') && LiteralAt(s, e + 1, aw) && CharAt(s, e + 3, ' ') &&
      LiteralAt(s, e + 4, ty) && |s| == e + 4 + |ty|
    ensures ArgMatchAt(s, 0) == Some((ArgGroups("", "", "", name, "", ty, ""), |s|))
  {
    WordStart(s, 0, name);
    SkipSpacesTo(s, 0, 0);
    ModifiersOfName(s, name);
    ArgTypeTail(s, |name|, aw, ty);
    BareGroups(s, name);
    ArgMatchGroups(s, 0, 0, 0, |name|, ArgTail("", ty, "", |s|), "", "", "", name);
  }

  /** `count As Long` and the like: one argument, with neither keyword, its name and its type. */
  lemma ArgAccepted(name: string, aw: string, ty: string)
    requires IsWord(name) && Spelled(aw, "as") && IsTypeName(ty)
    requires !Spelled(name, "optional") && !Spelled(name, "byval") && !Spelled(name, "byref") && !Spelled(name, "paramarray")
    ensures ArgMatchAt(name + " " + aw + " " + ty, 0) == Some((ArgGroups("", "", "", name, "", ty, ""), |name + " " + aw + " " + ty|))
    ensures FindAllArgs(name + " " + aw + " " + ty, 0) == [ArgGroups("", "", "", name, "", ty, "")]
  {
    var s := name + " " + aw + " " + ty;
    ArgLayout(name, aw, ty);
    ArgTypedLine(s, name, aw, ty);
    FindAllOne(s, ArgGroups("", "", "", name, "", ty, ""));
  }

  /** The groups of a bare name: no keyword groups, then the name. */
  lemma BareGroups(s: string, name: string)
    requires LiteralAt(s, 0, name)
    ensures s[..0] == [] && s[0..0] == [] && s[0..|name|] == name
  {
  }

  /** The groups of `ByVal name`: no `Optional`, the passing keyword with its blank, no `ParamArray`, the name. */
  lemma PassingGroups(s: string, pw: string, name: string)
    requires LiteralAt(s, 0, pw) && CharAt(s, |pw|, ' ') && LiteralAt(s, |pw| + 1, name)
    ensures var n := |pw| + 1;
      s[..0] == [] && s[0..n] == pw + " " && s[n..n] == [] && s[n..n + |name|] == name
  {
    assert s[0..|pw|] == pw;
  }

  lemma ArgPassingTypedLine(s: string, pw: string, name: string, aw: string, ty: string)
    requires (Spelled(pw, "byval") || Spelled(pw, "byref")) && IsWord(name) && !Spelled(name, "paramarray")
    requires Spelled(aw, "as") && IsTypeName(ty)
    requires LiteralAt(s, 0, pw) && CharAt(s, |pw|, ' ') && LiteralAt(s, |pw| + 1, name)
    requires var e := |pw| + 1 + |name|;
      CharAt(s, e, ' ') && LiteralAt(s, e + 1, aw) && CharAt(s, e + 3, ' ') &&
      LiteralAt(s, e + 4, ty) && |s| == e + 4 + |ty|
    ensures ArgMatchAt(s, 0) == Some((ArgGroups("", pw + " ", "", name, "", ty, ""), |s|))
  {
    var n := |pw| + 1;
    SpelledWord(pw, Lower(pw));
    WordStart(s, 0, pw);
    SkipSpacesTo(s, 0, 0);
    ModifiersOfPassing(s, pw, name);
    ArgTypeTail(s, n + |name|, aw, ty);
    PassingGroups(s, pw, name);
    ArgMatchGroups(s, 0, n, n, n + |name|, ArgTail("", ty, "", |s|), "", pw + " ", "", name);
  }

  /** `ByVal v As Long` and the like: one argument, its passing keyword with the blank after it, its name and its type. */
  lemma ArgPassingAccepted(pw: string, name: string, aw: string, ty: string)
    requires (Spelled(pw, "byval") || Spelled(pw, "byref")) && IsWord(name) && !Spelled(name, "paramarray")
    requires Spelled(aw, "as") && IsTypeName(ty)
    ensures var s := pw + " " + name + " " + aw + " " + ty;
      ArgMatchAt(s, 0) == Some((ArgGroups("", pw + " ", "", name, "", ty, ""), |s|)) &&
      FindAllArgs(s, 0) == [ArgGroups("", pw + " ", "", name, "", ty, "")]
  {
    var s := pw + " " + name + " " + aw + " " + ty;
    ArgPassingLayout(pw, name, aw, ty);
    ArgPassingTypedLine(s, pw, name, aw, ty);
    FindAllOne(s, ArgGroups("", pw + " ", "", name, "", ty, ""));
  }

}
