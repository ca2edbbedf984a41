/**
 * The VB6 parser (src/DoxyVB6/conv_vb6.py): token helpers, the declarations
 * each recognised line produces, and the line scanner that builds the tree.
 */
module ConvVb6 {
  import opened Wrappers
  import opened CodeConv
  import opened Vb6Regex

  /** Access assumed for procedures, types and enumerations with no keyword. */
  const ElemDefaultAccessLevel: string := "public"
  /** Access assumed for variables and constants with no keyword. */
  const VarDefaultAccessLevel: string := "private"

  /** The kind of module a file holds: .bas, .cls or .frm. */
  datatype Vb6ModuleType = StandardModule | ClassModule | FormModule

  // ---------------------------------------------------------------- comments

  /**
   * _strip_comments: the code of a line, without the comment that starts at
   * the first apostrophe outside double quotes; the line itself when there
   * is no such apostrophe.
   */
  function StripComments(s: string): (r: string)
    ensures |r| <= |s| && r == s[..|r|]
    ensures |r| < |s| ==>
      s[|r|] == '\'' && Outside(s, |r|) && forall q | 0 <= q < |r| && s[q] == '\'' :: !Outside(s, q)
    ensures |r| == |s| ==> forall q | 0 <= q < |s| && s[q] == '\'' :: !Outside(s, q)
  {
    CommentStartMeaning(s);
    match CommentStart(s, 0, false)
    case Some(p) => s[..p]
    case None => s
  }

  /** The comment pattern matches the line: it has an apostrophe outside double quotes. */
  predicate HasComment(s: string) {
    CommentStart(s, 0, false).Some?
  }

  /** The line ends with a blank, an underscore and a line feed. */
  predicate EndsWithContinuation(s: string) {
    |s| >= 3 && s[|s| - 3..] == " _\n"
  }

  /** A physical line joins the next one: it ends with ` _` and has no comment. */
  predicate Continues(s: string) {
    !HasComment(s) && EndsWithContinuation(s)
  }

  // ---------------------------------------------------------------- string literals

  /** str.replace('""', '"'): each doubled quote, scanning left to right, becomes one. */
  function ReplaceDoubled(t: string): string
    decreases |t|
  {
    if |t| >= 2 && t[0] == '"' && t[1] == '"' then "\"" + ReplaceDoubled(t[2..])
    else if t == [] then []
    else [t[0]] + ReplaceDoubled(t[1..])
  }

  /** How VB6 writes text inside a string literal: every quote is doubled. */
  function DoubleQuotes(t: string): string
    decreases |t|
  {
    if t == [] then []
    else (if t[0] == '"' then "\"\"" else [t[0]]) + DoubleQuotes(t[1..])
  }

  /** Undoubling undoes doubling. */
  lemma {:induction false} ReplaceDoubledOfDoubleQuotes(t: string)
    ensures ReplaceDoubled(DoubleQuotes(t)) == t
    decreases |t|
  {
    if t != [] {
      ReplaceDoubledOfDoubleQuotes(t[1..]);
      var rest := DoubleQuotes(t[1..]);
      if t[0] == '"' {
        assert DoubleQuotes(t) == "\"\"" + rest;
        assert (("\"\"" + rest)[2..]) == rest;
      } else {
        assert DoubleQuotes(t) == [t[0]] + rest;
        assert ([t[0]] + rest)[1..] == rest;
      }
      assert t == [t[0]] + t[1..];
    }
  }

  /** Doubling gives the interior of a literal, and on such an interior it undoes undoubling. */
  lemma {:induction false} DoubleQuotesOfReplaceDoubled(t: string)
    requires QuotedBody(t)
    ensures DoubleQuotes(ReplaceDoubled(t)) == t
    decreases |t|
  {
    if t != [] {
      if |t| >= 2 && t[0] == '"' && t[1] == '"' {
        DoubleQuotesOfReplaceDoubled(t[2..]);
        assert ReplaceDoubled(t) == "\"" + ReplaceDoubled(t[2..]);
        assert ("\"" + ReplaceDoubled(t[2..]))[1..] == ReplaceDoubled(t[2..]);
        assert t == "\"\"" + t[2..];
      } else {
        DoubleQuotesOfReplaceDoubled(t[1..]);
        assert ([t[0]] + ReplaceDoubled(t[1..]))[1..] == ReplaceDoubled(t[1..]);
        assert t == [t[0]] + t[1..];
      }
    }
  }

  lemma {:induction false} DoubleQuotesIsQuotedBody(t: string)
    ensures QuotedBody(DoubleQuotes(t))
    decreases |t|
  {
    if t != [] {
      DoubleQuotesIsQuotedBody(t[1..]);
      var rest := DoubleQuotes(t[1..]);
      if t[0] == '"' {
        assert ("\"\"" + rest)[2..] == rest;
      } else {
        assert ([t[0]] + rest)[1..] == rest;
      }
    }
  }

  /** Python's `x[1:-1]`: x without its first and last characters ("" when shorter than 2). */
  function Inner(x: string): string {
    if |x| >= 2 then x[1..|x| - 1] else ""
  }

  /**
   * _extract_string_literal: the value of a captured literal and whether it
   * is a string. None gives the empty text; text starting with a quote loses
   * its outer characters and has doubled quotes undoubled; other text is
   * kept as it is.
   */
  function ExtractStringLiteral(target: Option<string>): (r: (string, bool))
    ensures target.None? ==> r == ("", false)
    ensures target.Some? ==> (r.1 <==> |target.value| > 0 && target.value[0] == '"')
    ensures target.Some? && !r.1 ==> r.0 == target.value
    ensures target.Some? && r.1 ==> r.0 == ReplaceDoubled(Inner(target.value))
  {
    match target
    case None => ("", false)
    case Some(x) =>
      if |x| > 0 && x[0] == '"' then (ReplaceDoubled(Inner(x)), true) else (x, false)
  }

  /** The VB6 string literal whose value is t. */
  function VbQuote(t: string): string {
    "\"" + DoubleQuotes(t) + "\""
  }

  /** Writing a value as a VB6 literal and extracting it gives the value back. */
  lemma ExtractOfQuoted(t: string)
    ensures IsStringLiteral(VbQuote(t))
    ensures ExtractStringLiteral(Some(VbQuote(t))) == (t, true)
  {
    var q := VbQuote(t);
    assert Inner(q) == DoubleQuotes(t);
    DoubleQuotesIsQuotedBody(t);
    ReplaceDoubledOfDoubleQuotes(t);
  }

  /** Every string literal the member pattern accepts is the quoted form of its extracted value. */
  lemma QuotedOfExtract(u: string)
    requires IsStringLiteral(u)
    ensures ExtractStringLiteral(Some(u)).1
    ensures VbQuote(ExtractStringLiteral(Some(u)).0) == u
  {
    DoubleQuotesOfReplaceDoubled(Inner(u));
    assert u == "\"" + Inner(u) + "\"";
  }

  // ---------------------------------------------------------------- types

  /** A captured group, stripped; an absent group is empty. */
  function OptStrip(o: Option<string>): string {
    Strip(if o.None? then "" else o.value)
  }

  /** The element type of a declaration: the given type, or Variant when none is given. */
  function TypeOrVariant(varType: Option<string>): (r: string)
    ensures r != []
    ensures OptStrip(varType) == "" ==> r == "Variant"
    ensures OptStrip(varType) != "" ==> r == OptStrip(varType)
  {
    if OptStrip(varType) == "" then "Variant" else OptStrip(varType)
  }

  /**
   * _format_array_type: the element type, followed by `[]` exactly when the
   * stripped array suffix is not empty.
   */
  function FormatArrayType(varType: Option<string>, arrStr: Option<string>): (r: string)
    ensures |r| > 0
    ensures OptStrip(arrStr) == "" ==> r == TypeOrVariant(varType)
    ensures OptStrip(arrStr) != "" ==> r == TypeOrVariant(varType) + "[]"
  {
    var base := TypeOrVariant(varType);
    if OptStrip(arrStr) == "" then base else base + "[]"
  }

  /** Text made of word and dot characters only. */
  predicate IsTypeName(t: string) {
    forall k | 0 <= k < |t| :: IsTypeChar(t[k])
  }

  /**
   * For the type names the recognisers capture, the formatted type ends in
   * `[]` if and only if an array suffix was given.
   */
  lemma FormatArrayTypeMarksArrays(varType: Option<string>, arrStr: Option<string>)
    requires varType.Some? ==> IsTypeName(varType.value)
    ensures var r := FormatArrayType(varType, arrStr);
      (|r| >= 2 && r[|r| - 2..] == "[]") <==> OptStrip(arrStr) != ""
  {
    var r := FormatArrayType(varType, arrStr);
    var base := TypeOrVariant(varType);
    if OptStrip(arrStr) == "" && base != "Variant" {
      var t := varType.value;
      var i := SkipSpaces(t, 0);
      assert base == TrimEnd(t[i..]);
      assert forall k | 0 <= k < |base| :: base[k] == t[i + k];
      assert IsTypeChar(base[|base| - 1]);
    }
  }

  // ---------------------------------------------------------------- access

  /** The text _get_accessibility looks up: the default when nothing was captured. */
  function AccessKey(s: Option<string>, defaultAccess: string): string {
    if s.None? || s.value == "" then defaultAccess else Lower(Strip(s.value))
  }

  /**
   * _get_accessibility: the accessibility and the static flag. Private maps
   * to private, Grobal and Public to public, Friend to internal, and Static
   * to public and static. Any other text gives nothing.
   */
  function GetAccessibility(s: Option<string>, defaultAccess: string): (r: Option<(Accessibility, bool)>)
    ensures var key := AccessKey(s, defaultAccess);
      (key == "private" ==> r == Some((Private, false))) &&
      (key == "grobal" || key == "public" ==> r == Some((Public, false))) &&
      (key == "friend" ==> r == Some((Internal, false))) &&
      (key == "static" ==> r == Some((Public, true))) &&
      (r.Some? <==> key in AccessWords)
  {
    var key := AccessKey(s, defaultAccess);
    if key == "private" then Some((Private, false))
    else if key == "grobal" then Some((Public, false))
    else if key == "public" then Some((Public, false))
    else if key == "friend" then Some((Internal, false))
    else if key == "static" then Some((Public, true))
    else None
  }

  /** Stripping twice is stripping once. */
  lemma StripStrip(t: string)
    ensures Strip(Strip(t)) == Strip(t)
  {
    var i := SkipSpaces(t, 0);
    var u := Strip(t);
    if u != [] {
      assert u[0] == t[i..][0];
      assert SkipSpaces(u, 0) == 0;
      assert u[0..] == u;
    }
  }

  /** An access keyword captured by a recogniser is always known, stripped or not. */
  lemma CapturedAccessKnown(t: string, defaultAccess: string)
    requires Lower(Strip(t)) in AccessWords
    ensures GetAccessibility(Some(t), defaultAccess).Some?
    ensures GetAccessibility(Some(Strip(t)), defaultAccess) == GetAccessibility(Some(t), defaultAccess)
  {
    StripStrip(t);
    var key := Lower(Strip(t));
    assert Strip(t) != "" by { assert |key| == |Strip(t)|; }
    assert t != "";
    assert AccessKey(Some(t), defaultAccess) == key;
    assert AccessKey(Some(Strip(t)), defaultAccess) == key;
  }

  // ---------------------------------------------------------------- arguments

  /** A captured keyword group, stripped and lowered, is kw. */
  predicate KeywordIs(t: string, kw: string) {
    Lower(Strip(t)) == kw
  }

  /**
   * One argument of _build_args_list: by reference unless ByVal, optional
   * iff Optional, variadic iff ParamArray; the "default" sentinel is kept
   * unless the default text is non-empty or a string literal.
   */
  function ArgumentOf(g: ArgGroups): (a: Argument)
    ensures a.name == Strip(g.name)
    ensures a.argType == FormatArrayType(Some(Strip(g.typeName)), Some(Strip(g.arraySuffix)))
    ensures a.isReference <==> !KeywordIs(g.passing, "byval")
    ensures a.isOptional <==> KeywordIs(g.optional, "optional")
    ensures a.isVlargs <==> KeywordIs(g.paramArray, "paramarray")
    ensures !a.isKwargs
    ensures a.isStr <==> ExtractStringLiteral(Some(Strip(g.default))).1
    ensures a.defaultValue == "default" || a.defaultValue == ExtractStringLiteral(Some(Strip(g.default))).0
    ensures a.defaultValue != ExtractStringLiteral(Some(Strip(g.default))).0 ==>
      ExtractStringLiteral(Some(Strip(g.default))) == ("", false)
  {
    var lit := ExtractStringLiteral(Some(Strip(g.default)));
    var a := Argument(
      Strip(g.name),
      FormatArrayType(Some(Strip(g.typeName)), Some(Strip(g.arraySuffix))),
      isReference := !KeywordIs(g.passing, "byval"),
      isOptional := KeywordIs(g.optional, "optional"),
      isVlargs := KeywordIs(g.paramArray, "paramarray"),
      isStr := lit.1);
    if lit.0 != "" || lit.1 then a.(defaultValue := lit.0) else a
  }

  /** The arguments made of a sequence of matches, in order. */
  function Arguments(ms: seq<ArgGroups>): (r: seq<Argument>)
    ensures |r| == |ms|
  {
    if ms == [] then [] else Arguments(ms[..|ms| - 1]) + [ArgumentOf(ms[|ms| - 1])]
  }

  /** The argument at each position is the one made of the match at that position. */
  lemma {:induction false} ArgumentsAt(ms: seq<ArgGroups>)
    ensures forall i | 0 <= i < |ms| :: Arguments(ms)[i] == ArgumentOf(ms[i])
  {
    if ms != [] {
      var front := ms[..|ms| - 1];
      ArgumentsAt(front);
      var r := Arguments(ms);
      assert r == Arguments(front) + [ArgumentOf(ms[|ms| - 1])];
      forall i | 0 <= i < |ms|
        ensures r[i] == ArgumentOf(ms[i])
      {
        if i < |front| {
          assert r[i] == Arguments(front)[i] && front[i] == ms[i];
        } else {
          assert i == |front|;
        }
      }
    }
  }

  /** The arguments _build_args_list makes of an argument-list text, in order. */
  function ArgumentsOf(argsText: Option<string>): seq<Argument> {
    Arguments(FindAllArgs(OptStrip(argsText), 0))
  }

  /** Text without a word character holds no argument. */
  lemma {:induction false} NoWordNoArgs(s: string, p: nat)
    requires p <= |s|
    requires forall k | p <= k < |s| :: !IsWordChar(s[k])
    ensures FindAllArgs(s, p) == []
    decreases |s| - p
  {
    if p < |s| {
      assert ArgMatchAt(s, p).None?;
      assert FindAllArgs(s, p) == FindAllArgs(s, p + 1);
      NoWordNoArgs(s, p + 1);
    }
  }

  /** An empty argument list, as `()` captures it, yields no arguments. */
  lemma EmptyArgumentList(argsText: Option<string>)
    requires argsText.None? || forall k | 0 <= k < |argsText.value| :: IsSpace(argsText.value[k])
    ensures ArgumentsOf(argsText) == []
  {
    var t := OptStrip(argsText);
    if argsText.Some? {
      var x := argsText.value;
      assert SkipSpaces(x, 0) == |x|;
      assert t == [];
    }
    NoWordNoArgs(t, 0);
  }

  /** The loop of _build_args_list: one argument per match, in order. */
  method ArgumentsFromMatches(matches: seq<ArgGroups>) returns (result: seq<Argument>)
    ensures result == Arguments(matches)
    ensures forall i | 0 <= i < |matches| :: result[i] == ArgumentOf(matches[i])
  {
    result := [];
    var i := 0;
    while i < |matches|
      invariant 0 <= i <= |matches|
      invariant result == Arguments(matches[..i])
    {
      var argObj := ArgumentOf(matches[i]);
      assert matches[..i + 1][..i] == matches[..i];
      result := result + [argObj];
      i := i + 1;
    }
    assert matches[..i] == matches;
    ArgumentsAt(matches);
  }

  /**
   * _build_args_list: the arguments of an argument-list text (None counts as
   * empty, other text is stripped), in the order findall reports them.
   */
  method BuildArgsList(argsText: Option<string>) returns (result: seq<Argument>)
    ensures result == ArgumentsOf(argsText)
  {
    var text := OptStrip(argsText);
    var matches := FindAllArgs(text, 0);
    result := ArgumentsFromMatches(matches);
  }

  // ---------------------------------------------------------------- declarations

  /** The access text of a declaration: group 1, else group 3, stripped; empty when neither. */
  function MemberAccessText(g: MemberGroups): string {
    if g.access1.Some? then Strip(g.access1.value)
    else if g.access3.Some? then Strip(g.access3.value)
    else ""
  }

  /** The Const text of a declaration: group 2, else group 4, stripped; empty when neither. */
  function MemberConstText(g: MemberGroups): string {
    if g.const2.Some? then Strip(g.const2.value)
    else if g.const4.Some? then Strip(g.const4.value)
    else ""
  }

  /** The access of a member declaration is known whenever the member pattern matched. */
  lemma MatchedMemberAccess(s: string)
    requires MatchMember(s).Some?
    ensures GetAccessibility(Some(MemberAccessText(MatchMember(s).value)), VarDefaultAccessLevel).Some?
  {
    var g := MatchMember(s).value;
    if g.access1.Some? {
      CapturedAccessKnown(g.access1.value, VarDefaultAccessLevel);
    } else if g.access3.Some? {
      CapturedAccessKnown(g.access3.value, VarDefaultAccessLevel);
    }
  }

  /** The access of a header with an optional access group is known whenever the group is an access keyword. */
  lemma MatchedAccess(access: Option<string>)
    requires access.Some? ==> Lower(Strip(access.value)) in AccessWords
    ensures GetAccessibility(access, ElemDefaultAccessLevel).Some?
  {
    if access.Some? {
      CapturedAccessKnown(access.value, ElemDefaultAccessLevel);
    }
  }

  /**
   * The element _found_member adds: with `Const`, a constant holding the
   * extracted value; otherwise a variable with no value and one by-value
   * argument of the variable's own type. Neither keeps the static flag.
   */
  function MemberDecl(g: MemberGroups): (d: Decl)
    requires GetAccessibility(Some(MemberAccessText(g)), VarDefaultAccessLevel).Some?
    ensures d.name == Strip(g.name) && d.returnType == FormatArrayType(g.typeName, g.arraySuffix)
    ensures d.accessibility == GetAccessibility(Some(MemberAccessText(g)), VarDefaultAccessLevel).value.0
    ensures !d.isStatic && d.others == map[]
    ensures d.kind == Const <==> Lower(MemberConstText(g)) == "const"
    ensures d.kind == Const ==> (d.value, d.isStr) == ExtractStringLiteral(g.literal) && d.arguments == []
    ensures d.kind != Const ==>
      d.kind == Var && d.value == "" && !d.isStr &&
      d.arguments == [Argument("", d.returnType, isReference := false)]
  {
    var access := GetAccessibility(Some(MemberAccessText(g)), VarDefaultAccessLevel).value.0;
    var varType := FormatArrayType(g.typeName, g.arraySuffix);
    var lit := ExtractStringLiteral(g.literal);
    if Lower(MemberConstText(g)) == "const" then
      Decl(Strip(g.name), Const, varType, accessibility := access, value := lit.0, isStr := lit.1)
    else
      Decl(Strip(g.name), Var, varType, accessibility := access,
           arguments := [Argument("", varType, isReference := false)])
  }

  /** A declaration the member pattern accepts is a constant exactly when it has a Const keyword. */
  lemma MemberConstIffKeyword(s: string)
    requires MatchMember(s).Some?
    ensures var g := MatchMember(s).value;
      GetAccessibility(Some(MemberAccessText(g)), VarDefaultAccessLevel).Some? &&
      (MemberDecl(g).kind == Const <==> g.const2.Some? || g.const4.Some?)
  {
    MatchedMemberAccess(s);
    var g := MatchMember(s).value;
    if g.const2.Some? {
      StripStrip(g.const2.value);
    } else if g.const4.Some? {
      StripStrip(g.const4.value);
    }
  }

  /** The element _find_function adds: a function with the formatted return type and the arguments. */
  function FunctionDecl(g: FunctionGroups, args: seq<Argument>): (d: Decl)
    requires GetAccessibility(g.access, ElemDefaultAccessLevel).Some?
    ensures d.kind == Func && d.name == Strip(g.name) && d.arguments == args
    ensures d.returnType == FormatArrayType(g.returnType, g.returnArray)
    ensures (d.accessibility, d.isStatic) == GetAccessibility(g.access, ElemDefaultAccessLevel).value
  {
    var acc := GetAccessibility(g.access, ElemDefaultAccessLevel).value;
    Decl(Strip(g.name), Func, FormatArrayType(g.returnType, g.returnArray), acc.1, acc.0, arguments := args)
  }

  /** The element _find_sub adds: a function returning void with the arguments. */
  function SubDecl(g: SubGroups, args: seq<Argument>): (d: Decl)
    requires GetAccessibility(g.access, ElemDefaultAccessLevel).Some?
    ensures d.kind == Func && d.name == Strip(g.name) && d.arguments == args && d.returnType == "void"
    ensures (d.accessibility, d.isStatic) == GetAccessibility(g.access, ElemDefaultAccessLevel).value
  {
    var acc := GetAccessibility(g.access, ElemDefaultAccessLevel).value;
    Decl(Strip(g.name), Func, isStatic := acc.1, accessibility := acc.0, arguments := args)
  }

  /** The element _find_type or _find_enum adds: a struct or enum that does not keep the static flag. */
  function BlockDecl(g: BlockGroups, kind: ElementType): (d: Decl)
    requires GetAccessibility(g.access, ElemDefaultAccessLevel).Some?
    ensures d.kind == kind && d.name == Strip(g.name) && d.returnType == "void" && !d.isStatic
    ensures d.accessibility == GetAccessibility(g.access, ElemDefaultAccessLevel).value.0
  {
    Decl(Strip(g.name), kind, accessibility := GetAccessibility(g.access, ElemDefaultAccessLevel).value.0)
  }

  /** The element _process_enum adds for a member line: a constant whose value is "" when none is given. */
  function EnumMemberDecl(g: EnumMemberGroups): (d: Decl)
    ensures d.kind == Const && d.name == Strip(g.name) && d.accessibility == Undef
    ensures d.value == (if g.value.Some? then g.value.value else "")
    ensures d.returnType == "void" && !d.isStatic && !d.isStr && d.others == map[] && d.arguments == []
  {
    Decl(Strip(g.name), Const, value := if g.value.Some? then g.value.value else "")
  }

  /** The element a documentation comment becomes. */
  function DocDecl(text: string): Decl {
    Decl("", DocCommentLine, value := text)
  }

  // ---------------------------------------------------------------- properties

  /** The property _find_property_get adds when it does not merge: the getter's formatted type, no arguments. */
  function GetterDecl(g: PropertyGetGroups): (d: Decl)
    requires GetAccessibility(g.access, ElemDefaultAccessLevel).Some?
    ensures d.kind == Property && d.name == Strip(g.name) && d.arguments == []
    ensures d.returnType == FormatArrayType(g.returnType, g.returnArray)
    ensures (d.accessibility, d.isStatic) == GetAccessibility(g.access, ElemDefaultAccessLevel).value
  {
    var acc := GetAccessibility(g.access, ElemDefaultAccessLevel).value;
    Decl(Strip(g.name), Property, FormatArrayType(g.returnType, g.returnArray), acc.1, acc.0)
  }

  /**
   * The property _find_property_set adds when it does not merge: return
   * type void and the first argument; an empty argument list raises IndexError.
   */
  function SetterDecl(g: PropertySetGroups, args: seq<Argument>): (r: Result<Decl, Failure>)
    requires GetAccessibility(g.access, ElemDefaultAccessLevel).Some?
    ensures r.Err? <==> args == []
    ensures r.Err? ==> r.error == IndexError
    ensures r.Ok? ==> (r.value.kind == Property && r.value.name == Strip(g.name) &&
      r.value.returnType == "void" && r.value.arguments == [args[0]])
    ensures r.Ok? ==> (r.value.accessibility, r.value.isStatic) == GetAccessibility(g.access, ElemDefaultAccessLevel).value
  {
    var acc := GetAccessibility(g.access, ElemDefaultAccessLevel).value;
    if args == [] then Err(IndexError)
    else Ok(Decl(Strip(g.name), Property, isStatic := acc.1, accessibility := acc.0, arguments := [args[0]]))
  }

  /**
   * A getter merged into the previous property of the same name: the return
   * type becomes the type of its first argument, which must exist.
   */
  function MergeGetter(prev: Decl): (r: Result<Decl, Failure>)
    ensures r.Err? <==> prev.arguments == []
    ensures r.Err? ==> r.error == IndexError
    ensures r.Ok? ==> r.value == prev.(returnType := prev.arguments[0].argType)
  {
    if prev.arguments == [] then Err(IndexError) else Ok(prev.(returnType := prev.arguments[0].argType))
  }

  /**
   * A setter merged into the previous property of the same name: a property
   * with no arguments takes the setter's first argument, which must exist;
   * then the return type becomes the type of the first argument.
   */
  function MergeSetter(prev: Decl, args: seq<Argument>): (r: Result<Decl, Failure>)
    ensures r.Err? <==> prev.arguments == [] && args == []
    ensures r.Err? ==> r.error == IndexError
    ensures r.Ok? ==> var a := if prev.arguments == [] then [args[0]] else prev.arguments;
      r.value == prev.(arguments := a, returnType := a[0].argType)
  {
    if prev.arguments == [] then
      if args == [] then Err(IndexError)
      else Ok(prev.(arguments := [args[0]], returnType := args[0].argType))
    else Ok(prev.(returnType := prev.arguments[0].argType))
  }

  /**
   * A Get and a Set/Let of the same name, in either order, leave one
   * property whose only argument is the setter's first and whose return type
   * is that argument's type; the getter's declared type is lost. The two
   * orders agree except that each keeps the access of whichever came first.
   */
  lemma PropertyPairCollapses(g: PropertyGetGroups, h: PropertySetGroups, args: seq<Argument>)
    requires GetAccessibility(g.access, ElemDefaultAccessLevel).Some?
    requires GetAccessibility(h.access, ElemDefaultAccessLevel).Some?
    requires Strip(g.name) == Strip(h.name) && args != []
    ensures var getFirst := MergeSetter(GetterDecl(g), args);
      getFirst.Ok? && getFirst.value.arguments == [args[0]] && getFirst.value.returnType == args[0].argType &&
      getFirst.value.kind == Property && getFirst.value.name == Strip(g.name)
    ensures var setFirst := MergeGetter(SetterDecl(h, args).value);
      setFirst.Ok? && setFirst.value.arguments == [args[0]] && setFirst.value.returnType == args[0].argType &&
      setFirst.value.kind == Property && setFirst.value.name == Strip(g.name)
    ensures GetAccessibility(g.access, ElemDefaultAccessLevel) == GetAccessibility(h.access, ElemDefaultAccessLevel) ==>
      MergeSetter(GetterDecl(g), args) == MergeGetter(SetterDecl(h, args).value)
  {
  }

  /** A second getter of the same name raises IndexError: the property it merges into has no argument. */
  lemma GetterTwiceFails(g: PropertyGetGroups)
    requires GetAccessibility(g.access, ElemDefaultAccessLevel).Some?
    ensures MergeGetter(GetterDecl(g)) == Err(IndexError)
  {
  }
}
