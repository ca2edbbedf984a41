/**
 * Hand-written recognisers for the regular expressions of
 * src/DoxyVB6/conv_vb6.py (lines 17-139). Each returns the captured groups,
 * or None when the pattern does not match. Optional parts and alternatives
 * are tried in the order Python's backtracking engine tries them, and a
 * repetition is taken at its longest where no shorter choice can lead to a
 * match. `\s` is Python's whitespace (see IsSpace).
 *
 * A restriction of this model: the source compiles its patterns from str
 * with re.I and without re.ASCII, so there `\w` is every Unicode letter and
 * digit and the underscore, case is folded the Unicode way (the Kelvin sign
 * matches `k`), and str.lower lowers every letter. Here `\w` is the ASCII
 * letters, digits and underscore, and only ASCII letters are folded. A
 * declaration whose name holds a non-ASCII letter (`Function 名前()`) is
 * therefore not recognised, and the lines of its block are scanned as
 * class-level lines. Likewise the `\d` of the numeric literal (line 39) is
 * every Unicode decimal digit in the source but only `0`-`9` here, so a
 * constant written with other digits (`Const X = １２３`, fullwidth) is not
 * recognised and its declaration is dropped. The spelled-out ranges
 * `[0-9A-F]`, `[0-7]` and `[01]` of the hexadecimal, octal and binary
 * literals are ASCII in both.
 */
module Vb6Regex {
  import opened Wrappers

  // ---------------------------------------------------------------- characters

  /**
   * Python's whitespace, for both `\s` in a text pattern and str.strip: the
   * ASCII blanks, the four separators U+001C..U+001F, and the Unicode spaces
   * and line and paragraph separators.
   */
  predicate IsSpace(c: char) {
    if c <= ' ' then c == ' ' || '\t' <= c <= '\r' || '\U{001C}' <= c
    else '\U{0085}' <= c && IsWideSpace(c)
  }

  /** The whitespace characters beyond ASCII. */
  predicate IsWideSpace(c: char) {
    c == '\U{0085}' || c == '\U{00A0}' || c == '\U{1680}' || '\U{2000}' <= c <= '\U{200A}' ||
    c == '\U{2028}' || c == '\U{2029}' || c == '\U{202F}' || c == '\U{205F}' || c == '\U{3000}'
  }

  /** `\w`, restricted to ASCII: Python's `\w` on str also takes every Unicode letter and digit. */
  predicate IsWordChar(c: char) {
    'a' <= c <= 'z' || 'A' <= c <= 'Z' || '0' <= c <= '9' || c == '_'
  }

  /** A character of a dotted type name. */
  predicate IsTypeChar(c: char) {
    IsWordChar(c) || c == '.'
  }

  /** A character allowed bare inside an argument list: word, blank, `= , + - * / .` */
  predicate IsArgsChar(c: char) {
    IsWordChar(c) || IsSpace(c) || c == '=' || c == ',' || c == '+' || c == '-' || c == '*' || c == '/' || c == '.'
  }

  function LowerChar(c: char): char {
    if 'A' <= c <= 'Z' then (c as int + 32) as char else c
  }

  /** str.lower, restricted to the ASCII letters. */
  function Lower(s: string): (r: string)
    ensures |r| == |s| && forall k | 0 <= k < |s| :: r[k] == LowerChar(s[k])
  {
    seq(|s|, k requires 0 <= k < |s| => LowerChar(s[k]))
  }

  // ---------------------------------------------------------------- scanning

  /** The end of the run of blanks starting at i. */
  function SkipSpaces(s: string, i: nat): (j: nat)
    requires i <= |s|
    ensures i <= j <= |s|
    ensures forall k | i <= k < j :: IsSpace(s[k])
    ensures j == |s| || !IsSpace(s[j])
    decreases |s| - i
  {
    if i < |s| && IsSpace(s[i]) then SkipSpaces(s, i + 1) else i
  }

  /** The end of the run of word characters starting at i. */
  function WordEnd(s: string, i: nat): (j: nat)
    requires i <= |s|
    ensures i <= j <= |s|
    ensures forall k | i <= k < j :: IsWordChar(s[k])
    ensures j == |s| || !IsWordChar(s[j])
    decreases |s| - i
  {
    if i < |s| && IsWordChar(s[i]) then WordEnd(s, i + 1) else i
  }

  /** The end of the run of type-name characters starting at i. */
  function TypeEnd(s: string, i: nat): (j: nat)
    requires i <= |s|
    ensures i <= j <= |s|
    ensures forall k | i <= k < j :: IsTypeChar(s[k])
    ensures j == |s| || !IsTypeChar(s[j])
    decreases |s| - i
  {
    if i < |s| && IsTypeChar(s[i]) then TypeEnd(s, i + 1) else i
  }

  /** Only blanks from i to the end of the line. */
  predicate RestIsSpace(s: string, i: nat)
    requires i <= |s|
  {
    SkipSpaces(s, i) == |s|
  }

  /** s without its trailing blanks. */
  function TrimEnd(s: string): (r: string)
    ensures |r| <= |s| && r == s[..|r|]
    ensures r == [] || !IsSpace(r[|r| - 1])
    ensures forall k | |r| <= k < |s| :: IsSpace(s[k])
  {
    if s != [] && IsSpace(s[|s| - 1]) then TrimEnd(s[..|s| - 1]) else s
  }

  /** str.strip: s without its leading and trailing blanks. */
  function Strip(s: string): string {
    TrimEnd(s[SkipSpaces(s, 0)..])
  }

  /**
   * Strip leaves the middle of s: what it removes at either end is blank,
   * and what it keeps neither starts nor ends with a blank.
   */
  lemma StripMeaning(s: string)
    ensures var i := SkipSpaces(s, 0); var r := Strip(s);
      i + |r| <= |s| && r == s[i..i + |r|] &&
      (forall k | 0 <= k < i :: IsSpace(s[k])) &&
      (forall k | i + |r| <= k < |s| :: IsSpace(s[k])) &&
      (r == [] || (!IsSpace(r[0]) && !IsSpace(r[|r| - 1])))
  {
    var i := SkipSpaces(s, 0);
    var t := s[i..];
    var r := Strip(s);
    assert r == t[..|r|];
    assert forall k | i + |r| <= k < |s| :: s[k] == t[k - i];
    if r != [] {
      assert r[0] == s[i];
    }
  }

  /** The text at i is kw, ignoring the case of ASCII letters (kw is lower case). */
  predicate CaselessAt(s: string, i: nat, kw: string) {
    i + |kw| <= |s| && forall k | 0 <= k < |kw| :: LowerChar(s[i + k]) == kw[k]
  }

  /** The text at i is exactly t. */
  predicate LiteralAt(s: string, i: nat, t: string) {
    i + |t| <= |s| && s[i..i + |t|] == t
  }

  /** One or more blanks at i; the position after them. */
  function Spaces1(s: string, i: nat): (r: Option<nat>)
    requires i <= |s|
    ensures r.Some? ==> i < r.value <= |s| && r.value == SkipSpaces(s, i)
  {
    var j := SkipSpaces(s, i);
    if j > i then Some(j) else None
  }

  /** A keyword (any case) followed by one or more blanks; the position after the blanks. */
  function KeywordThenSpaces(s: string, i: nat, kw: string): (r: Option<nat>)
    requires i <= |s|
    ensures r.Some? ==> CaselessAt(s, i, kw) && i + |kw| < r.value <= |s|
    ensures r.Some? ==> r.value == SkipSpaces(s, i + |kw|)
  {
    if CaselessAt(s, i, kw) then Spaces1(s, i + |kw|) else None
  }

  /** The first position at or after i holding c. */
  function NextChar(s: string, i: nat, c: char): (r: Option<nat>)
    requires i <= |s|
    ensures r.Some? ==> i <= r.value < |s| && s[r.value] == c
    ensures r.Some? ==> forall k | i <= k < r.value :: s[k] != c
    ensures r.None? ==> forall k | i <= k < |s| :: s[k] != c
    decreases |s| - i
  {
    if i == |s| then None else if s[i] == c then Some(i) else NextChar(s, i + 1, c)
  }

  // ---------------------------------------------------------------- access keywords

  /** The access keywords, as written by the source (including its spelling `Grobal`). */
  const AccessWords: set<string> := {"grobal", "public", "friend", "private", "static"}

  /** An access keyword followed by blanks at i; the position after the blanks. */
  function AccessAt(s: string, i: nat): (r: Option<nat>)
    requires i <= |s|
    ensures r.Some? ==> i < r.value <= |s|
  {
    Or(KeywordThenSpaces(s, i, "grobal"),
    Or(KeywordThenSpaces(s, i, "public"),
    Or(KeywordThenSpaces(s, i, "friend"),
    Or(KeywordThenSpaces(s, i, "private"),
       KeywordThenSpaces(s, i, "static")))))
  }

  /** Stripping blanks off the end of text that ends in a non-blank followed by blanks. */
  lemma {:induction false} TrimEndOfPadded(x: string, w: string)
    requires x == [] || !IsSpace(x[|x| - 1])
    requires forall k | 0 <= k < |w| :: IsSpace(w[k])
    ensures TrimEnd(x + w) == x
  {
    if w == [] {
      assert x + w == x;
    } else {
      assert (x + w)[..|x + w| - 1] == x + w[..|w| - 1];
      TrimEndOfPadded(x, w[..|w| - 1]);
    }
  }

  /** The captured text of a keyword followed by blanks, stripped and lowered, is the keyword. */
  lemma KeywordText(s: string, i: nat, kw: string)
    requires i <= |s| && KeywordThenSpaces(s, i, kw).Some?
    requires |kw| > 0 && forall k | 0 <= k < |kw| :: 'a' <= kw[k] <= 'z' || kw[k] == '_'
    ensures Lower(Strip(s[i..KeywordThenSpaces(s, i, kw).value])) == kw
  {
    var j := KeywordThenSpaces(s, i, kw).value;
    var t := s[i..j];
    assert LowerChar(t[0]) == kw[0];
    assert !IsSpace(t[0]);
    assert SkipSpaces(t, 0) == 0;
    assert t[0..] == t;
    var x, w := s[i..i + |kw|], s[i + |kw|..j];
    assert t == x + w;
    assert LowerChar(x[|x| - 1]) == kw[|kw| - 1];
    TrimEndOfPadded(x, w);
    assert Strip(t) == x;
    assert forall k | 0 <= k < |kw| :: Lower(x)[k] == LowerChar(s[i + k]);
  }

  /** What AccessAt captures is, stripped and lowered, one of the access keywords. */
  lemma AccessText(s: string, i: nat)
    requires i <= |s| && AccessAt(s, i).Some?
    ensures Lower(Strip(s[i..AccessAt(s, i).value])) in AccessWords
  {
    if KeywordThenSpaces(s, i, "grobal").Some? {
      KeywordText(s, i, "grobal");
    } else if KeywordThenSpaces(s, i, "public").Some? {
      KeywordText(s, i, "public");
    } else if KeywordThenSpaces(s, i, "friend").Some? {
      KeywordText(s, i, "friend");
    } else if KeywordThenSpaces(s, i, "private").Some? {
      KeywordText(s, i, "private");
    } else {
      KeywordText(s, i, "static");
    }
  }

  /** What `Const` followed by blanks captures is, stripped and lowered, `const`. */
  lemma ConstText(s: string, i: nat)
    requires i <= |s| && KeywordThenSpaces(s, i, "const").Some?
    ensures Lower(Strip(s[i..KeywordThenSpaces(s, i, "const").value])) == "const"
  {
    KeywordText(s, i, "const");
  }

  // ---------------------------------------------------------------- comments

  /**
   * The first apostrophe at or after i that is outside a double-quoted run;
   * inString says whether i is inside one. A doubled quote closes and reopens
   * the run, so it stays open.
   */
  function CommentStart(s: string, i: nat, inString: bool): (r: Option<nat>)
    requires i <= |s|
    ensures r.Some? ==> i <= r.value < |s| && s[r.value] == '\''
    decreases |s| - i
  {
    if i == |s| then None
    else if s[i] == '"' then CommentStart(s, i + 1, !inString)
    else if s[i] == '\'' && !inString then Some(i)
    else CommentStart(s, i + 1, inString)
  }

  /** The number of double quotes in t. */
  function Quotes(t: string): nat {
    if t == [] then 0 else Quotes(t[..|t| - 1]) + (if t[|t| - 1] == '"' then 1 else 0)
  }

  /** Position p of s is outside every double-quoted run. */
  predicate Outside(s: string, p: nat)
    requires p <= |s|
  {
    Quotes(s[..p]) % 2 == 0
  }

  lemma {:induction false} CommentStartFrom(s: string, i: nat, inString: bool)
    requires i <= |s| && inString == !Outside(s, i)
    ensures CommentStart(s, i, inString).Some? ==>
      var p := CommentStart(s, i, inString).value;
      Outside(s, p) && forall q | i <= q < p && s[q] == '\'' :: !Outside(s, q)
    ensures CommentStart(s, i, inString).None? ==>
      forall q | i <= q < |s| && s[q] == '\'' :: !Outside(s, q)
    decreases |s| - i
  {
    if i < |s| {
      assert s[..i + 1][..i] == s[..i];
      if s[i] == '"' {
        CommentStartFrom(s, i + 1, !inString);
      } else if s[i] == '\'' && !inString {
      } else {
        CommentStartFrom(s, i + 1, inString);
      }
    }
  }

  /**
   * The comment of a line starts at the first apostrophe outside double
   * quotes, counting quotes from the start of the line; there is none when
   * every apostrophe is inside quotes.
   */
  lemma CommentStartMeaning(s: string)
    ensures CommentStart(s, 0, false).Some? ==>
      var p := CommentStart(s, 0, false).value;
      s[p] == '\'' && Outside(s, p) && forall q | 0 <= q < p && s[q] == '\'' :: !Outside(s, q)
    ensures CommentStart(s, 0, false).None? <==>
      forall q | 0 <= q < |s| && s[q] == '\'' :: !Outside(s, q)
  {
    assert s[..0] == [];
    CommentStartFrom(s, 0, false);
  }

  // ---------------------------------------------------------------- whole-line comments and tags

  /**
   * The rest of a line from i up to the end, or up to a single final line
   * feed; None when a line feed comes earlier (a dot does not match it).
   */
  function RestOfLine(s: string, i: nat): (r: Option<string>)
    requires i <= |s|
    ensures r.Some? ==> forall k | 0 <= k < |r.value| :: r.value[k] != '\n'
  {
    if forall k | i <= k < |s| :: s[k] != '\n' then Some(s[i..])
    else if i < |s| && s[|s| - 1] == '\n' && forall k | i <= k < |s| - 1 :: s[k] != '\n' then Some(s[i..|s| - 1])
    else None
  }

  /** A line made of blanks, an apostrophe, the marker, then the captured text. */
  function MatchCommentLine(s: string, marker: char): Option<string> {
    var i := SkipSpaces(s, 0);
    if i + 1 < |s| && s[i] == '\'' && s[i + 1] == marker then RestOfLine(s, i + 2) else None
  }

  /** A documentation comment, marked with an asterisk (conv_vb6.py:120). */
  function MatchDocComment(s: string): Option<string> {
    MatchCommentLine(s, '*')
  }

  /** A module-level documentation comment, marked with an exclamation mark (conv_vb6.py:121). */
  function MatchModuleComment(s: string): Option<string> {
    MatchCommentLine(s, '!')
  }

  /** The interface tag: an apostrophe, a hash, then only the exact word Interface (conv_vb6.py:124). */
  predicate IsInterfaceTag(s: string) {
    var i := SkipSpaces(s, 0);
    LiteralAt(s, i, "'#") &&
    var j := SkipSpaces(s, i + 2);
    LiteralAt(s, j, "Interface") && RestIsSpace(s, j + 9)
  }

  /** `Implements` (exact case), blanks, a name, then only blanks (conv_vb6.py:125). */
  function MatchImplements(s: string): (r: Option<string>)
    ensures r.Some? ==> r.value != [] && forall k | 0 <= k < |r.value| :: IsWordChar(r.value[k])
  {
    var i := SkipSpaces(s, 0);
    if LiteralAt(s, i, "Implements") then
      match Spaces1(s, i + 10)
      case None => None
      case Some(j) =>
        var e := WordEnd(s, j);
        if e > j && RestIsSpace(s, e) then Some(s[j..e]) else None
    else None
  }

  /**
   * The start of an `Attribute VB_Name = "Name"` line, in any case, with
   * blanks on both sides of the equals sign; the quoted name (conv_vb6.py:123).
   */
  function MatchVbName(s: string): (r: Option<string>)
    ensures r.Some? ==> r.value != [] && forall k | 0 <= k < |r.value| :: IsWordChar(r.value[k])
  {
    var i := SkipSpaces(s, 0);
    match KeywordThenSpaces(s, i, "attribute")
    case None => None
    case Some(j) =>
      if !CaselessAt(s, j, "vb_name") then None
      else QuotedValue(s, j + 7)
  }

  /** Blanks, `=`, blanks, then a quoted word from position p on; the word. */
  function QuotedValue(s: string, p: nat): (r: Option<string>)
    requires p <= |s|
    ensures r.Some? ==> r.value != [] && forall k | 0 <= k < |r.value| :: IsWordChar(r.value[k])
  {
    match Spaces1(s, p)
    case None => None
    case Some(k) =>
      if !(k < |s| && s[k] == '=') then None
      else match Spaces1(s, k + 1)
      case None => None
      case Some(m) =>
        if !(m < |s| && s[m] == '"') then None
        else
          var e := WordEnd(s, m + 1);
          if e > m + 1 && e < |s| && s[e] == '"' then Some(s[m + 1..e]) else None
  }

  /**
   * A block end: `End`, blanks, then the keyword, in any case, at the very
   * start of the line; leading blanks defeat it (conv_vb6.py:129-139).
   */
  predicate EndsBlock(s: string, kw: string) {
    CaselessAt(s, 0, "end") &&
    match Spaces1(s, 3)
    case None => false
    case Some(q) => CaselessAt(s, q, kw)
  }

  // ---------------------------------------------------------------- literals

  /** The interior of a quoted literal: any character but a quote, or a doubled quote. */
  predicate QuotedBody(t: string)
    decreases |t|
  {
    t == [] ||
    (t[0] != '"' && QuotedBody(t[1..])) ||
    (|t| >= 2 && t[0] == '"' && t[1] == '"' && QuotedBody(t[2..]))
  }

  predicate IsStringLiteral(u: string) {
    |u| >= 2 && u[0] == '"' && u[|u| - 1] == '"' && QuotedBody(u[1..|u| - 1])
  }

  predicate IsDateLiteral(u: string) {
    |u| >= 2 && u[0] == '#' && u[|u| - 1] == '#' && forall k | 1 <= k < |u| - 1 :: u[k] != '#'
  }

  predicate IsBoolLiteral(u: string) {
    Lower(u) == "true" || Lower(u) == "false"
  }

  /** `\d`, restricted to ASCII: Python's `\d` on str takes every Unicode decimal digit. */
  predicate IsDigit(c: char) { '0' <= c <= '9' }

  predicate IsHexDigit(c: char) { IsDigit(c) || 'a' <= LowerChar(c) <= 'f' }

  /** The end of the run of decimal digits starting at i. */
  function DigitsEnd(t: string, i: nat): (j: nat)
    requires i <= |t|
    ensures i <= j <= |t|
    decreases |t| - i
  {
    if i < |t| && IsDigit(t[i]) then DigitsEnd(t, i + 1) else i
  }

  /** Digits, an optional fraction, an optional exponent marked E or D with an optional sign. */
  predicate IsDecimalBody(t: string) {
    var a := DigitsEnd(t, 0);
    a > 0 &&
    var b := if a < |t| && t[a] == '.' && DigitsEnd(t, a + 1) > a + 1 then DigitsEnd(t, a + 1) else a;
    b == |t| ||
    ((LowerChar(t[b]) == 'e' || LowerChar(t[b]) == 'd') &&
     var c := if b + 1 < |t| && (t[b + 1] == '+' || t[b + 1] == '-') then b + 2 else b + 1;
     c < |t| && DigitsEnd(t, c) == |t|)
  }

  /** An ampersand, the radix letter, then digits of that radix. */
  predicate IsRadixBody(t: string, letter: char) {
    |t| >= 3 && t[0] == '&' && LowerChar(t[1]) == letter &&
    forall k | 2 <= k < |t| ::
      if letter == 'h' then IsHexDigit(t[k])
      else if letter == 'o' then '0' <= t[k] <= '7'
      else t[k] == '0' || t[k] == '1'
  }

  predicate IsNumberBody(t: string) {
    IsDecimalBody(t) || IsRadixBody(t, 'h') || IsRadixBody(t, 'o') || IsRadixBody(t, 'b')
  }

  predicate IsTypeSuffix(c: char) { c == '!' || c == '#' || c == '@' || c == '%' || c == '&' }

  /** An optional sign, a number, and an optional type-suffix character. */
  predicate IsNumberLiteral(u: string) {
    var t := if |u| > 0 && (u[0] == '+' || u[0] == '-') then u[1..] else u;
    IsNumberBody(t) || (|t| > 0 && IsTypeSuffix(t[|t| - 1]) && IsNumberBody(t[..|t| - 1]))
  }

  /** The literals an initial value may be: string, date, boolean or number (conv_vb6.py:34-48). */
  predicate IsLiteral(u: string) {
    IsStringLiteral(u) || IsDateLiteral(u) || IsBoolLiteral(u) || IsNumberLiteral(u)
  }

  // ---------------------------------------------------------------- member declarations

  /**
   * The groups of the member-declaration pattern (conv_vb6.py:50-64): the
   * access keyword and `Const` keyword of the first alternative (groups 1
   * and 2), those of the access-then-Const alternative (3 and 4), the name,
   * the array suffix, the type and the initial literal (5 to 8).
   */
  datatype MemberGroups = MemberGroups(
    access1: Option<string>, const2: Option<string>,
    access3: Option<string>, const4: Option<string>,
    name: string, arraySuffix: Option<string>, typeName: Option<string>, literal: Option<string>)

  /** The part after the name: array suffix, type and literal. */
  datatype MemberTail = MemberTail(arraySuffix: Option<string>, typeName: Option<string>, literal: Option<string>)

  /** An optional `= literal`, then only blanks; the literal if present. */
  function ValueTail(s: string, p: nat): (r: Option<Option<string>>)
    requires p <= |s|
    ensures r.Some? && r.value.Some? ==> IsLiteral(r.value.value)
  {
    var a := SkipSpaces(s, p);
    var present :=
      if a < |s| && s[a] == '=' then
        var u := TrimEnd(s[SkipSpaces(s, a + 1)..]);
        if IsLiteral(u) then Some(Some(u)) else None
      else None;
    Or(present, if RestIsSpace(s, p) then Some(None) else None)
  }

  /** `As` between blanks; the position after the second blanks. */
  function AsClause(s: string, p: nat): (r: Option<nat>)
    requires p <= |s|
    ensures r.Some? ==> p < r.value <= |s|
  {
    var a := SkipSpaces(s, p);
    if a > p && CaselessAt(s, a, "as") then Spaces1(s, a + 2) else None
  }

  /** A type name at r followed by the value tail. */
  function TypeThenValue(s: string, r: nat): (res: Option<(string, Option<string>)>)
    requires r <= |s|
    ensures res.Some? && res.value.1.Some? ==> IsLiteral(res.value.1.value)
  {
    var t := TypeEnd(s, r);
    if t == r then None
    else match ValueTail(s, t)
      case None => None
      case Some(v) => Some((s[r..t], v))
  }

  /** An optional `As [New] Type`, then the value tail. */
  function TypeTail(s: string, p: nat): (res: Option<(Option<string>, Option<string>)>)
    requires p <= |s|
    ensures res.Some? && res.value.1.Some? ==> IsLiteral(res.value.1.value)
  {
    var present: Option<(string, Option<string>)> :=
      match AsClause(s, p)
      case None => None
      case Some(q) =>
        var viaNew := match KeywordThenSpaces(s, q, "new")
          case None => None
          case Some(r) => TypeThenValue(s, r);
        Or(viaNew, TypeThenValue(s, q));
    match present
    case Some((t, v)) => Some((Some(t), v))
    case None =>
      match ValueTail(s, p)
      case Some(v) => Some((None, v))
      case None => None
  }

  /** An optional parenthesised array suffix (no nested closing parenthesis), then the type tail. */
  function ArrayTail(s: string, e: nat): (res: Option<MemberTail>)
    requires e <= |s|
    ensures res.Some? && res.value.literal.Some? ==> IsLiteral(res.value.literal.value)
  {
    var withArray :=
      if e < |s| && s[e] == '(' then
        match NextChar(s, e + 1, ')')
        case None => None
        case Some(q) =>
          match TypeTail(s, q + 1)
          case None => None
          case Some((t, v)) => Some(MemberTail(Some(s[e..q + 1]), t, v))
      else None;
    Or(withArray,
      match TypeTail(s, e)
      case None => None
      case Some((t, v)) => Some(MemberTail(None, t, v)))
  }

  /** A name at p and the rest of a member declaration. */
  function NameTail(s: string, p: nat): (res: Option<(string, MemberTail)>)
    requires p <= |s|
    ensures res.Some? ==> res.value.0 != [] && forall k | 0 <= k < |res.value.0| :: IsWordChar(res.value.0[k])
    ensures res.Some? && res.value.1.literal.Some? ==> IsLiteral(res.value.1.literal.value)
  {
    var e := WordEnd(s, p);
    if e == p then None
    else match ArrayTail(s, e)
      case None => None
      case Some(t) => Some((s[p..e], t))
  }

  /** The captured name is a word, a captured Const group reads `const`, and a captured literal is a literal. */
  predicate WellFormedMember(g: MemberGroups) {
    g.name != [] && (forall k | 0 <= k < |g.name| :: IsWordChar(g.name[k])) &&
    (g.const2.Some? ==> Lower(Strip(g.const2.value)) == "const") &&
    (g.const4.Some? ==> Lower(Strip(g.const4.value)) == "const") &&
    (g.literal.Some? ==> IsLiteral(g.literal.value))
  }

  function MemberOf(access1: Option<string>, const2: Option<string>, access3: Option<string>,
                    const4: Option<string>, rest: Option<(string, MemberTail)>): (r: Option<MemberGroups>)
    requires const2.Some? ==> Lower(Strip(const2.value)) == "const"
    requires const4.Some? ==> Lower(Strip(const4.value)) == "const"
    requires rest.Some? ==> rest.value.0 != [] && forall k | 0 <= k < |rest.value.0| :: IsWordChar(rest.value.0[k])
    requires rest.Some? && rest.value.1.literal.Some? ==> IsLiteral(rest.value.1.literal.value)
    ensures r.Some? ==> WellFormedMember(r.value)
    ensures r.Some? ==> r.value.access1 == access1 && r.value.const2 == const2 && r.value.access3 == access3 && r.value.const4 == const4
  {
    match rest
    case None => None
    case Some((n, t)) => Some(MemberGroups(access1, const2, access3, const4, n, t.arraySuffix, t.typeName, t.literal))
  }

  /** First alternative: an access keyword, then the declaration. */
  function MemberAfterAccess(s: string, i: nat): (r: Option<MemberGroups>)
    requires i <= |s|
    ensures r.Some? ==> WellFormedMember(r.value) && r.value.access1.Some? && r.value.access3.None?
    ensures r.Some? ==> Lower(Strip(r.value.access1.value)) in AccessWords
  {
    match AccessAt(s, i)
    case None => None
    case Some(j) => (AccessText(s, i); MemberOf(Some(s[i..j]), None, None, None, NameTail(s, j)))
  }

  /** Second alternative: `Const`, then the declaration. */
  function MemberAfterConst(s: string, i: nat): (r: Option<MemberGroups>)
    requires i <= |s|
    ensures r.Some? ==> WellFormedMember(r.value) && r.value.access1.None? && r.value.const2.Some? && r.value.access3.None?
  {
    match KeywordThenSpaces(s, i, "const")
    case None => None
    case Some(j) => (ConstText(s, i); MemberOf(None, Some(s[i..j]), None, None, NameTail(s, j)))
  }

  /** Third alternative: an access keyword and `Const`, then the declaration. */
  function MemberAfterAccessConst(s: string, i: nat): (r: Option<MemberGroups>)
    requires i <= |s|
    ensures r.Some? ==> WellFormedMember(r.value) && r.value.access1.None? && r.value.const2.None?
    ensures r.Some? ==> r.value.access3.Some? && r.value.const4.Some?
    ensures r.Some? ==> Lower(Strip(r.value.access3.value)) in AccessWords
  {
    match AccessAt(s, i)
    case None => None
    case Some(j) => (AccessText(s, i); ConstAfterAccess(s, i, j))
  }

  /** The rest of the third alternative, once the access keyword s[i..j] is read: `Const`, then the declaration. */
  function ConstAfterAccess(s: string, i: nat, j: nat): (r: Option<MemberGroups>)
    requires i <= j <= |s| && Lower(Strip(s[i..j])) in AccessWords
    ensures r.Some? ==> WellFormedMember(r.value) && r.value.access1.None? && r.value.const2.None?
    ensures r.Some? ==> r.value.access3 == Some(s[i..j]) && r.value.const4.Some?
  {
    match KeywordThenSpaces(s, j, "const")
    case None => None
    case Some(k) => (ConstText(s, j); MemberOf(None, None, Some(s[i..j]), Some(s[j..k]), NameTail(s, k)))
  }

  /** Fourth alternative: `Dim`, then the declaration. */
  function MemberAfterDim(s: string, i: nat): (r: Option<MemberGroups>)
    requires i <= |s|
    ensures r.Some? ==> WellFormedMember(r.value)
    ensures r.Some? ==> r.value.access1.None? && r.value.const2.None? && r.value.access3.None? && r.value.const4.None?
  {
    match KeywordThenSpaces(s, i, "dim")
    case None => None
    case Some(j) => MemberOf(None, None, None, None, NameTail(s, j))
  }

  /**
   * A variable or constant declaration (conv_vb6.py:50-64): after leading
   * blanks, an access keyword, or `Const`, or an access keyword then
   * `Const`, or `Dim`; then the name, an optional array suffix, an optional
   * `As [New] Type`, an optional `= literal`, and only blanks.
   */
  function MatchMember(s: string): (r: Option<MemberGroups>)
    ensures r.Some? ==> WellFormedMember(r.value)
    ensures r.Some? && r.value.access1.Some? ==> Lower(Strip(r.value.access1.value)) in AccessWords
    ensures r.Some? && r.value.access1.None? && r.value.access3.Some? ==> Lower(Strip(r.value.access3.value)) in AccessWords
  {
    var i := SkipSpaces(s, 0);
    Or(MemberAfterAccess(s, i), Or(MemberAfterConst(s, i), Or(MemberAfterAccessConst(s, i), MemberAfterDim(s, i))))
  }

  // ---------------------------------------------------------------- procedure headers

  /**
   * The closing parenthesis of an argument list whose text starts at i: the
   * text may hold word characters, blanks, `= , + - * / .`, the pair `()`,
   * and double-quoted literals. Outside quotes the first other closing
   * parenthesis is the only place the list can end.
   */
  function ArgsClose(s: string, i: nat): (r: Option<nat>)
    requires i <= |s|
    ensures r.Some? ==> i <= r.value < |s| && s[r.value] == ')'
    decreases |s| - i
  {
    if i == |s| then None
    else if s[i] == ')' then Some(i)
    else if s[i] == '"' then
      match NextChar(s, i + 1, '"')
      case None => None
      case Some(j) => ArgsClose(s, j + 1)
    else if s[i] == '(' then
      if i + 1 < |s| && s[i + 1] == ')' then ArgsClose(s, i + 2) else None
    else if IsArgsChar(s[i]) then ArgsClose(s, i + 1)
    else None
  }

  /** Optional blanks and a parenthesised argument list; its inner text and the position after it. */
  function ArgsGroup(s: string, e: nat): (r: Option<(string, nat)>)
    requires e <= |s|
    ensures r.Some? ==> e < r.value.1 <= |s|
  {
    var a := SkipSpaces(s, e);
    if a < |s| && s[a] == '(' then
      match ArgsClose(s, a + 1)
      case None => None
      case Some(q) => Some((s[a + 1..q], q + 1))
    else None
  }

  /**
   * An optional return type `As Type` with an optional `()` array marker,
   * then only blanks; the type and the marker.
   */
  function ReturnTail(s: string, r: nat): Option<(Option<string>, Option<string>)>
    requires r <= |s|
  {
    Or(ReturnType(s, SkipSpaces(s, r)), if RestIsSpace(s, r) then Some((None, None)) else None)
  }

  /** `As`, blanks, then the type and its marker, from a on. */
  function ReturnType(s: string, a: nat): Option<(Option<string>, Option<string>)>
    requires a <= |s|
  {
    if CaselessAt(s, a, "as") then
      match Spaces1(s, a + 2)
      case None => None
      case Some(b) => TypeAndMarker(s, b)
    else None
  }

  /** A type name at b, an optional `()`, then only blanks. */
  function TypeAndMarker(s: string, b: nat): Option<(Option<string>, Option<string>)>
    requires b <= |s|
  {
    var t := TypeEnd(s, b);
    if t == b then None
    else Or(if LiteralAt(s, t, "()") && RestIsSpace(s, t + 2) then Some((Some(s[b..t]), Some("()"))) else None,
            if RestIsSpace(s, t) then Some((Some(s[b..t]), None)) else None)
  }

  /** A reading of the optional leading access keyword: first with it, then without it. */
  function AccessOptions(s: string): seq<(Option<string>, nat)> {
    var i := SkipSpaces(s, 0);
    match AccessAt(s, i)
    case None => [(None, i)]
    case Some(j) => [(Some(s[i..j]), j), (None, i)]
  }

  lemma AccessOptionsText(s: string, k: nat)
    requires k < |AccessOptions(s)|
    ensures AccessOptions(s)[k].1 <= |s|
    ensures AccessOptions(s)[k].0.Some? ==> Lower(Strip(AccessOptions(s)[k].0.value)) in AccessWords
  {
    var i := SkipSpaces(s, 0);
    if AccessAt(s, i).Some? {
      AccessText(s, i);
    }
  }

  /** Groups of the Function header (conv_vb6.py:71-80). */
  datatype FunctionGroups = FunctionGroups(
    access: Option<string>, name: string, args: string,
    returnType: Option<string>, returnArray: Option<string>)

  function FunctionAt(s: string, access: Option<string>, p: nat): Option<FunctionGroups>
    requires p <= |s|
  {
    match KeywordThenSpaces(s, p, "function")
    case None => None
    case Some(q) =>
      var e := WordEnd(s, q);
      if e == q then None
      else match ArgsGroup(s, e)
        case None => None
        case Some((args, r)) =>
          match ReturnTail(s, r)
          case None => None
          case Some((rt, ra)) => Some(FunctionGroups(access, s[q..e], args, rt, ra))
  }

  /** A Function header: optional access, `Function`, name, argument list, optional return type. */
  function MatchFunction(s: string): (r: Option<FunctionGroups>)
    ensures r.Some? && r.value.access.Some? ==> Lower(Strip(r.value.access.value)) in AccessWords
  {
    var opts := AccessOptions(s);
    AccessOptionsText(s, 0);
    if |opts| == 2 then
      AccessOptionsText(s, 1);
      Or(FunctionAt(s, opts[0].0, opts[0].1), FunctionAt(s, opts[1].0, opts[1].1))
    else FunctionAt(s, opts[0].0, opts[0].1)
  }

  /** Groups of the Sub header (conv_vb6.py:81-89). */
  datatype SubGroups = SubGroups(access: Option<string>, name: string, args: string)

  function SubAt(s: string, access: Option<string>, p: nat): Option<SubGroups>
    requires p <= |s|
  {
    match KeywordThenSpaces(s, p, "sub")
    case None => None
    case Some(q) =>
      var e := WordEnd(s, q);
      if e == q then None
      else match ArgsGroup(s, e)
        case None => None
        case Some((args, r)) => if RestIsSpace(s, r) then Some(SubGroups(access, s[q..e], args)) else None
  }

  /** A Sub header: optional access, `Sub`, name, argument list, then only blanks. */
  function MatchSub(s: string): (r: Option<SubGroups>)
    ensures r.Some? && r.value.access.Some? ==> Lower(Strip(r.value.access.value)) in AccessWords
  {
    var opts := AccessOptions(s);
    AccessOptionsText(s, 0);
    if |opts| == 2 then
      AccessOptionsText(s, 1);
      Or(SubAt(s, opts[0].0, opts[0].1), SubAt(s, opts[1].0, opts[1].1))
    else SubAt(s, opts[0].0, opts[0].1)
  }

  /** Groups of the Type and Enum headers (conv_vb6.py:65-70). */
  datatype BlockGroups = BlockGroups(access: Option<string>, name: string)

  function BlockAt(s: string, kw: string, access: Option<string>, p: nat): Option<BlockGroups>
    requires p <= |s|
  {
    match KeywordThenSpaces(s, p, kw)
    case None => None
    case Some(q) =>
      var e := WordEnd(s, q);
      if e > q && RestIsSpace(s, e) then Some(BlockGroups(access, s[q..e])) else None
  }

  /** A Type or Enum header: optional access, the keyword, a name, then only blanks. */
  function MatchBlock(s: string, kw: string): (r: Option<BlockGroups>)
    ensures r.Some? && r.value.access.Some? ==> Lower(Strip(r.value.access.value)) in AccessWords
  {
    var opts := AccessOptions(s);
    AccessOptionsText(s, 0);
    if |opts| == 2 then
      AccessOptionsText(s, 1);
      Or(BlockAt(s, kw, opts[0].0, opts[0].1), BlockAt(s, kw, opts[1].0, opts[1].1))
    else BlockAt(s, kw, opts[0].0, opts[0].1)
  }

  /** Groups of the Property Get header (conv_vb6.py:90-99). */
  datatype PropertyGetGroups = PropertyGetGroups(
    access: Option<string>, name: string, returnType: Option<string>, returnArray: Option<string>)

  function PropertyGetAt(s: string, access: Option<string>, p: nat): Option<PropertyGetGroups>
    requires p <= |s|
  {
    match KeywordThenSpaces(s, p, "property")
    case None => None
    case Some(q) =>
      match KeywordThenSpaces(s, q, "get")
      case None => None
      case Some(g) => PropertyGetName(s, access, g)
  }

  /** After `Property Get`: a name, `(`, `)` and the return part. */
  function PropertyGetName(s: string, access: Option<string>, g: nat): Option<PropertyGetGroups>
    requires g <= |s|
  {
    var e := WordEnd(s, g);
    var a := SkipSpaces(s, e);
    if e == g || !(a < |s| && s[a] == '(') then None
    else
      var b := SkipSpaces(s, a + 1);
      if !(b < |s| && s[b] == ')') then None
      else match ReturnTail(s, b + 1)
        case None => None
        case Some((rt, ra)) => Some(PropertyGetGroups(access, s[g..e], rt, ra))
  }

  /** A Property Get header: optional access, `Property Get`, a name, empty parentheses, optional return type. */
  function MatchPropertyGet(s: string): (r: Option<PropertyGetGroups>)
    ensures r.Some? && r.value.access.Some? ==> Lower(Strip(r.value.access.value)) in AccessWords
  {
    var opts := AccessOptions(s);
    AccessOptionsText(s, 0);
    if |opts| == 2 then
      AccessOptionsText(s, 1);
      Or(PropertyGetAt(s, opts[0].0, opts[0].1), PropertyGetAt(s, opts[1].0, opts[1].1))
    else PropertyGetAt(s, opts[0].0, opts[0].1)
  }

  /** Groups of the Property Set/Let header (conv_vb6.py:100-108). */
  datatype PropertySetGroups = PropertySetGroups(access: Option<string>, setOrLet: string, name: string, args: string)

  function PropertySetAt(s: string, access: Option<string>, p: nat): Option<PropertySetGroups>
    requires p <= |s|
  {
    match KeywordThenSpaces(s, p, "property")
    case None => None
    case Some(q) =>
      match Or(KeywordThenSpaces(s, q, "set"), KeywordThenSpaces(s, q, "let"))
      case None => None
      case Some(g) =>
        var e := WordEnd(s, g);
        if e == g then None
        else match ArgsGroup(s, e)
          case None => None
          case Some((args, r)) =>
            if RestIsSpace(s, r) then Some(PropertySetGroups(access, s[q..q + 3], s[g..e], args)) else None
  }

  /** A Property Set or Let header: optional access, `Property Set|Let`, a name, an argument list. */
  function MatchPropertySet(s: string): (r: Option<PropertySetGroups>)
    ensures r.Some? && r.value.access.Some? ==> Lower(Strip(r.value.access.value)) in AccessWords
  {
    var opts := AccessOptions(s);
    AccessOptionsText(s, 0);
    if |opts| == 2 then
      AccessOptionsText(s, 1);
      Or(PropertySetAt(s, opts[0].0, opts[0].1), PropertySetAt(s, opts[1].0, opts[1].1))
    else PropertySetAt(s, opts[0].0, opts[0].1)
  }

  /** Groups of an enumeration member line (conv_vb6.py:135). */
  datatype EnumMemberGroups = EnumMemberGroups(name: string, value: Option<string>)

  /** A name, an optional `= word`, then only blanks. */
  function MatchEnumMember(s: string): (r: Option<EnumMemberGroups>)
    ensures r.Some? ==> r.value.name != [] && forall k | 0 <= k < |r.value.name| :: IsWordChar(r.value.name[k])
  {
    var i := SkipSpaces(s, 0);
    var e := WordEnd(s, i);
    if e == i then None
    else
      var a := SkipSpaces(s, e);
      var withValue :=
        if a < |s| && s[a] == '=' then
          var b := SkipSpaces(s, a + 1);
          var v := WordEnd(s, b);
          if v > b && RestIsSpace(s, v) then Some(EnumMemberGroups(s[i..e], Some(s[b..v]))) else None
        else None;
      Or(withValue, if RestIsSpace(s, e) then Some(EnumMemberGroups(s[i..e], None)) else None)
  }

  // ---------------------------------------------------------------- arguments

  /**
   * The seven groups of one argument (conv_vb6.py:110-118), as findall
   * reports them: a group that did not take part is the empty string.
   */
  datatype ArgGroups = ArgGroups(
    optional: string, passing: string, paramArray: string, name: string,
    arraySuffix: string, typeName: string, default: string)

  /**
   * With the given choice of the three optional keywords (`Optional`,
   * `ByVal`/`ByRef`, `ParamArray`), the ends of the three keyword groups and
   * of the name that must follow them.
   */
  function ModifiersThenName(s: string, w: nat, opt: bool, pass: bool, pa: bool): (r: Option<(nat, nat, nat, nat)>)
    requires w <= |s|
    ensures r.Some? ==> w <= r.value.0 <= r.value.1 <= r.value.2 < r.value.3 <= |s|
    ensures r.Some? ==> forall k | r.value.2 <= k < r.value.3 :: IsWordChar(s[k])
  {
    var p1 := if opt then KeywordThenSpaces(s, w, "optional") else Some(w);
    if p1.None? then None
    else
      var p2 := if pass then Or(KeywordThenSpaces(s, p1.value, "byval"), KeywordThenSpaces(s, p1.value, "byref")) else Some(p1.value);
      if p2.None? then None
      else
        var p3 := if pa then KeywordThenSpaces(s, p2.value, "paramarray") else Some(p2.value);
        if p3.None? then None
        else
          var e := WordEnd(s, p3.value);
          if e > p3.value then Some((p1.value, p2.value, p3.value, e)) else None
  }

  /** The keyword choices in the order the matcher tries them: each optional group first present, then absent. */
  function Modifiers(s: string, w: nat): (r: Option<(nat, nat, nat, nat)>)
    requires w <= |s|
    ensures r.Some? ==> w <= r.value.0 <= r.value.1 <= r.value.2 < r.value.3 <= |s|
    ensures r.Some? ==> forall k | r.value.2 <= k < r.value.3 :: IsWordChar(s[k])
  {
    ModifiersFrom(s, w, 0)
  }

  /**
   * The choices from number c on: `Optional` present for the first four,
   * `ByVal`/`ByRef` for choices 0, 1, 4 and 5, `ParamArray` for the even
   * ones.
   */
  function ModifiersFrom(s: string, w: nat, c: nat): (r: Option<(nat, nat, nat, nat)>)
    requires w <= |s| && c <= 8
    ensures r.Some? ==> w <= r.value.0 <= r.value.1 <= r.value.2 < r.value.3 <= |s|
    ensures r.Some? ==> forall k | r.value.2 <= k < r.value.3 :: IsWordChar(s[k])
    decreases 8 - c
  {
    if c == 8 then None
    else Or(ModifiersThenName(s, w, c < 4, c < 2 || 4 <= c < 6, c == 0 || c == 2 || c == 4 || c == 6), ModifiersFrom(s, w, c + 1))
  }

  /**
   * A double-quoted literal starting at b. When no lone closing quote is
   * found, the matcher backs off to the first quote of the last doubled
   * quote it took; lastPair records that position. The end of the literal.
   */
  function QuotedEnd(s: string, j: nat, lastPair: Option<nat>): (r: Option<nat>)
    requires j <= |s|
    requires lastPair.Some? ==> lastPair.value < j
    ensures r.Some? ==> r.value <= |s| && (r.value > j || (lastPair.Some? && r.value == lastPair.value + 1))
    decreases |s| - j
  {
    if j == |s| then (match lastPair case Some(q) => Some(q + 1) case None => None)
    else if s[j] != '"' then QuotedEnd(s, j + 1, lastPair)
    else if j + 1 < |s| && s[j + 1] == '"' then QuotedEnd(s, j + 2, Some(j))
    else Some(j + 1)
  }

  /** The end of the run of characters other than comma and closing parenthesis. */
  function PlainEnd(s: string, i: nat): (j: nat)
    requires i <= |s|
    ensures i <= j <= |s|
    decreases |s| - i
  {
    if i < |s| && s[i] != ',' && s[i] != ')' then PlainEnd(s, i + 1) else i
  }

  /**
   * An optional `= default`, the default being a quoted literal or a run of
   * characters other than comma and closing parenthesis; the text and the
   * position after it.
   */
  function DefaultPart(s: string, p: nat): (r: (string, nat))
    requires p <= |s|
    ensures p <= r.1 <= |s|
  {
    var a := SkipSpaces(s, p);
    if a < |s| && s[a] == '=' then
      var b := SkipSpaces(s, a + 1);
      var quoted := if b < |s| && s[b] == '"' then QuotedEnd(s, b + 1, None) else None;
      match quoted
      case Some(c) => (s[b..c], c)
      case None =>
        var c := PlainEnd(s, b);
        if c > b then (s[b..c], c)
        // The blanks after `=` give one back, and the plain run takes it.
        else if b > a + 1 then (s[b - 1..b], b)
        else ("", p)
    else ("", p)
  }

  /** The part of an argument after its name: array suffix, type, default, and where it ends. */
  datatype ArgTail = ArgTail(arraySuffix: string, typeName: string, default: string, end: nat)

  /** An optional `(...)` suffix, an optional `As Type`, an optional default and an optional comma. */
  function ArgTailAt(s: string, e: nat): (r: ArgTail)
    requires e <= |s|
    ensures e <= r.end <= |s|
  {
    var q := if e < |s| && s[e] == '(' then NextChar(s, e + 1, ')') else None;
    var arr := if q.Some? then s[e..q.value + 1] else "";
    var a1 := if q.Some? then q.value + 1 else e;
    var b := AsClause(s, a1);
    var t := if b.Some? then TypeEnd(s, b.value) else a1;
    var hasType := b.Some? && t > b.value;
    var ty := if hasType then s[b.value..t] else "";
    var a2 := if hasType then t else a1;
    var d := DefaultPart(s, a2);
    var end := if d.1 < |s| && s[d.1] == ',' then d.1 + 1 else d.1;
    ArgTail(arr, ty, d.0, end)
  }

  /** One argument matched at p: its groups and the position after it and an optional comma. */
  function ArgMatchAt(s: string, p: nat): (r: Option<(ArgGroups, nat)>)
    requires p <= |s|
    ensures r.Some? ==> p < r.value.1 <= |s|
    ensures r.Some? ==> r.value.0.name != [] && forall k | 0 <= k < |r.value.0.name| :: IsWordChar(r.value.0.name[k])
    ensures r.Some? ==> exists k | p <= k < |s| :: IsWordChar(s[k])
  {
    var w := SkipSpaces(s, p);
    match Modifiers(s, w)
    case None => None
    case Some((p1, p2, p3, e)) =>
      assert IsWordChar(s[p3]);
      var t := ArgTailAt(s, e);
      Some((ArgGroups(s[w..p1], s[p1..p2], s[p2..p3], s[p3..e], t.arraySuffix, t.typeName, t.default), t.end))
  }

  /** findall over an argument list from position p: each match, then the search resumes after it. */
  function FindAllArgs(s: string, p: nat): seq<ArgGroups>
    requires p <= |s|
    decreases |s| - p
  {
    if p == |s| then []
    else match ArgMatchAt(s, p)
      case Some((g, e)) => [g] + FindAllArgs(s, e)
      case None => FindAllArgs(s, p + 1)
  }
}
