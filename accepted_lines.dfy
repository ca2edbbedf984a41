/**
 * What the parser of src/DoxyVB6/conv_vb6.py builds from the lines its
 * recognisers accept: for each family of lines in Vb6Accept, the arguments
 * _build_args_list returns, or the element the scanner for that construct
 * appends to the current scope.
 */
module AcceptedLines {
  import opened Wrappers
  import opened CodeConv
  import opened Vb6Regex
  import opened ConvVb6
  import opened ConvVb6Parser
  import A = Vb6Accept

  // ---------------------------------------------------------------- stripping

  /** Text that neither starts nor ends with a blank is its own strip. */
  lemma StripUnpadded(s: string)
    requires s != [] && !IsSpace(s[0]) && !IsSpace(s[|s| - 1])
    ensures Strip(s) == s
  {
    A.SkipSpacesTo(s, 0, 0);
    assert s[0..] == s;
    A.TrimEndUnpadded(s);
  }

  /** A keyword with the blank after it, as a keyword group captures it, strips to the keyword. */
  lemma StripKeywordGroup(w: string)
    requires A.IsWord(w)
    ensures Strip(w + " ") == w
  {
    var s := w + " ";
    A.SkipSpacesTo(s, 0, 0);
    assert s[0..] == s;
    assert s[..|s| - 1] == w;
    A.TrimEndUnpadded(w);
  }

  /** The formatted type of a captured type name and no array suffix is the name. */
  lemma PlainType(ty: string)
    requires A.IsTypeName(ty)
    ensures FormatArrayType(Some(ty), None) == ty
    ensures FormatArrayType(Some(Strip(ty)), Some(Strip(""))) == ty
  {
    StripUnpadded(ty);
    assert Strip("") == "";
  }

  /** The element type of a declaration without `As` is Variant. */
  lemma NoType()
    ensures FormatArrayType(None, None) == "Variant"
  {
    assert Strip("") == "";
  }

  // ---------------------------------------------------------------- argument lists

  /** The one argument a match without keywords, suffix or default gives. */
  lemma BareArgument(name: string, pass: string, ty: string)
    requires A.IsWord(name) && A.IsTypeName(ty)
    ensures ArgumentOf(ArgGroups("", pass, "", name, "", ty, "")) ==
      Argument(name, ty, isReference := !KeywordIs(pass, "byval"))
  {
    StripUnpadded(name);
    PlainType(ty);
    assert Strip("") == "";
    assert ExtractStringLiteral(Some("")) == ("", false);
  }

  /** An unpadded argument text of exactly one match gives the argument of that match. */
  lemma OneArgument(s: string, g: ArgGroups)
    requires Strip(s) == s && FindAllArgs(s, 0) == [g]
    ensures ArgumentsOf(Some(s)) == [ArgumentOf(g)]
  {
    assert OptStrip(Some(s)) == s;
    ArgumentsAt([g]);
  }

  /**
   * `count As Long`: one argument, passed by reference (VB6's default),
   * mandatory, of that type and without a default.
   */
  lemma TypedArgumentList(name: string, aw: string, ty: string)
    requires A.IsWord(name) && A.Spelled(aw, "as") && A.IsTypeName(ty)
    requires !A.Spelled(name, "optional") && !A.Spelled(name, "byval") && !A.Spelled(name, "byref") &&
             !A.Spelled(name, "paramarray")
    ensures ArgumentsOf(Some(name + " " + aw + " " + ty)) == [Argument(name, ty, isReference := true)]
  {
    var s := name + " " + aw + " " + ty;
    var g := ArgGroups("", "", "", name, "", ty, "");
    assert Strip(s) == s by {
      assert s[0] == name[0] && s[|s| - 1] == ty[|ty| - 1];
      StripUnpadded(s);
    }
    assert FindAllArgs(s, 0) == [g] by { A.ArgAccepted(name, aw, ty); }
    OneArgument(s, g);
    assert ArgumentOf(g) == Argument(name, ty, isReference := true) by {
      BareArgument(name, "", ty);
      assert Strip("") == "";
    }
  }

  /**
   * `ByVal v As Long` or `ByRef v As Long`: one mandatory argument of that
   * type without a default, passed by reference exactly when the keyword is
   * ByRef.
   */
  lemma PassingArgumentList(pw: string, name: string, aw: string, ty: string)
    requires (A.Spelled(pw, "byval") || A.Spelled(pw, "byref")) && A.IsWord(name) && !A.Spelled(name, "paramarray")
    requires A.Spelled(aw, "as") && A.IsTypeName(ty)
    ensures ArgumentsOf(Some(pw + " " + name + " " + aw + " " + ty)) ==
      [Argument(name, ty, isReference := A.Spelled(pw, "byref"))]
  {
    var s := pw + " " + name + " " + aw + " " + ty;
    var g := ArgGroups("", pw + " ", "", name, "", ty, "");
    A.SpelledWord(pw, Lower(pw));
    assert Strip(s) == s by {
      assert s[0] == pw[0] && s[|s| - 1] == ty[|ty| - 1];
      StripUnpadded(s);
    }
    assert FindAllArgs(s, 0) == [g] by { A.ArgPassingAccepted(pw, name, aw, ty); }
    OneArgument(s, g);
    assert ArgumentOf(g) == Argument(name, ty, isReference := A.Spelled(pw, "byref")) by {
      BareArgument(name, pw + " ", ty);
      StripKeywordGroup(pw);
    }
  }

  // ---------------------------------------------------------------- procedure headers

  /** Two texts allowed bare in an argument list, joined by a blank, are one. */
  lemma PlainJoin(x: string, y: string)
    requires A.IsPlainArgs(x) && A.IsPlainArgs(y)
    ensures A.IsPlainArgs(x + " " + y)
  {
    var s := x + " " + y;
    forall k | 0 <= k < |s|
      ensures IsArgsChar(s[k])
    {
      if k < |x| {
        assert s[k] == x[k];
      } else if k > |x| {
        assert s[k] == y[k - |x| - 1];
      }
    }
  }

  /** A type name is allowed bare in an argument list; so is a word. */
  lemma TypePlain(t: string)
    requires A.IsTypeName(t)
    ensures A.IsPlainArgs(t)
  {
    forall k | 0 <= k < |t|
      ensures IsArgsChar(t[k])
    {
      assert IsTypeChar(t[k]);
    }
  }

  /** A keyword spelled in any case is a word, and so allowed bare in an argument list. */
  lemma KeywordPlain(w: string, kw: string)
    requires A.Spelled(w, kw) && A.IsWord(kw)
    ensures A.IsWord(w) && A.IsPlainArgs(w)
  {
    A.SpelledWord(w, kw);
    TypePlain(w);
  }

  /** The characters of an argument list of one typed argument are all allowed bare. */
  lemma TypedArgsPlain(name: string, aw: string, ty: string)
    requires A.IsWord(name) && A.Spelled(aw, "as") && A.IsTypeName(ty)
    ensures A.IsPlainArgs(name + " " + aw + " " + ty)
  {
    TypePlain(name);
    KeywordPlain(aw, "as");
    TypePlain(ty);
    PlainJoin(name, aw);
    PlainJoin(name + " " + aw, ty);
  }

  /** The same with a leading ByVal or ByRef. */
  lemma PassingArgsPlain(pw: string, name: string, aw: string, ty: string)
    requires (A.Spelled(pw, "byval") || A.Spelled(pw, "byref")) && A.IsWord(name) && A.Spelled(aw, "as") && A.IsTypeName(ty)
    ensures A.IsPlainArgs(pw + " " + name + " " + aw + " " + ty)
  {
    KeywordPlain(pw, Lower(pw));
    TypedArgsPlain(name, aw, ty);
    PlainJoin(pw, name + " " + aw + " " + ty);
    assert pw + " " + (name + " " + aw + " " + ty) == pw + " " + name + " " + aw + " " + ty;
  }

  /**
   * `Function Test()` outside any block: the scope moves to a new function
   * child of the class element, public, returning Variant, with the
   * arguments of its list.
   */
  lemma FunctionLineOpens(sc: Scope, fw: string, name: string, args: string)
    requires A.Spelled(fw, "function") && A.IsWord(name) && A.IsPlainArgs(args)
    ensures var s := fw + " " + name + "(" + args + ")";
      MatchFunction(s).Some? &&
      FunctionOpened(sc, s).kids ==
        sc.kids + [Node(Decl(name, Func, "Variant", accessibility := Public, arguments := ArgumentsOf(Some(args))), [])] &&
      FunctionOpened(sc, s).target == Some(|sc.kids|) && FunctionOpened(sc, s).flags == NoFlags.(inFunction := true)
  {
    var s := fw + " " + name + "(" + args + ")";
    A.FunctionAccepted(fw, name, args);
    StripUnpadded(name);
    NoType();
  }

  /** The header `Function name(an As at) As ty` is read with its argument text and return type. */
  lemma TypedFunctionMatch(fw: string, name: string, an: string, aw: string, at: string, ty: string)
    requires A.Spelled(fw, "function") && A.IsWord(name) && A.Spelled(aw, "as") && A.IsTypeName(ty)
    requires A.IsWord(an) && A.IsTypeName(at)
    ensures MatchFunction(fw + " " + name + "(" + an + " " + aw + " " + at + ")" + " " + aw + " " + ty) ==
      Some(FunctionGroups(None, name, an + " " + aw + " " + at, Some(ty), None))
  {
    var args := an + " " + aw + " " + at;
    assert fw + " " + name + "(" + args + ")" + " " + aw + " " + ty ==
      fw + " " + name + "(" + an + " " + aw + " " + at + ")" + " " + aw + " " + ty;
    TypedArgsPlain(an, aw, at);
    A.FunctionTypedAccepted(fw, name, args, aw, ty);
  }

  /** The function element made of those groups. */
  lemma TypedFunctionDecl(name: string, an: string, aw: string, at: string, ty: string)
    requires A.IsWord(name) && A.Spelled(aw, "as") && A.IsTypeName(ty) && A.IsWord(an) && A.IsTypeName(at)
    requires !A.Spelled(an, "optional") && !A.Spelled(an, "byval") && !A.Spelled(an, "byref") && !A.Spelled(an, "paramarray")
    ensures FunctionDecl(FunctionGroups(None, name, an + " " + aw + " " + at, Some(ty), None), ArgumentsOf(Some(an + " " + aw + " " + at))) ==
      Decl(name, Func, ty, accessibility := Public, arguments := [Argument(an, at, isReference := true)])
  {
    StripUnpadded(name);
    PlainType(ty);
    TypedArgumentList(an, aw, at);
  }

  /**
   * `Function Add(a As Integer) As Integer`: the function returns the
   * declared type and has the one by-reference argument of its list.
   */
  lemma TypedFunctionLineOpens(sc: Scope, fw: string, name: string, an: string, aw: string, at: string, ty: string)
    requires A.Spelled(fw, "function") && A.IsWord(name) && A.Spelled(aw, "as") && A.IsTypeName(ty)
    requires A.IsWord(an) && A.IsTypeName(at)
    requires !A.Spelled(an, "optional") && !A.Spelled(an, "byval") && !A.Spelled(an, "byref") && !A.Spelled(an, "paramarray")
    ensures var s := fw + " " + name + "(" + an + " " + aw + " " + at + ")" + " " + aw + " " + ty;
      MatchFunction(s).Some? &&
      FunctionOpened(sc, s).kids ==
        sc.kids + [Node(Decl(name, Func, ty, accessibility := Public, arguments := [Argument(an, at, isReference := true)]), [])]
  {
    TypedFunctionMatch(fw, name, an, aw, at, ty);
    TypedFunctionDecl(name, an, aw, at, ty);
  }

  /** `Sub Main()` outside any block: the scope moves to a new public function child returning void. */
  lemma SubLineOpens(sc: Scope, sw: string, name: string, args: string)
    requires A.Spelled(sw, "sub") && A.IsWord(name) && A.IsPlainArgs(args)
    ensures var s := sw + " " + name + "(" + args + ")";
      MatchSub(s).Some? &&
      SubOpened(sc, s).kids ==
        sc.kids + [Node(Decl(name, Func, "void", accessibility := Public, arguments := ArgumentsOf(Some(args))), [])] &&
      SubOpened(sc, s).target == Some(|sc.kids|) && SubOpened(sc, s).flags == NoFlags.(inSub := true)
  {
    A.SubAccepted(sw, name, args);
    StripUnpadded(name);
  }

  /** `Type Point` outside any block: the scope moves to a new public structure. */
  lemma TypeLineOpens(sc: Scope, w: string, name: string)
    requires A.Spelled(w, "type") && A.IsWord(name)
    ensures MatchBlock(w + " " + name, "type").Some? &&
      TypeOpened(sc, w + " " + name).kids == sc.kids + [Node(Decl(name, Struct, accessibility := Public), [])] &&
      TypeOpened(sc, w + " " + name).flags == NoFlags.(inType := true)
  {
    A.BlockAccepted("type", w, name);
    StripUnpadded(name);
  }

  /** `Enum Color` outside any block: the scope moves to a new public enumeration. */
  lemma EnumLineOpens(sc: Scope, w: string, name: string)
    requires A.Spelled(w, "enum") && A.IsWord(name)
    ensures MatchBlock(w + " " + name, "enum").Some? &&
      EnumOpened(sc, w + " " + name).kids == sc.kids + [Node(Decl(name, Enum, accessibility := Public), [])] &&
      EnumOpened(sc, w + " " + name).flags == NoFlags.(inEnum := true)
  {
    A.BlockAccepted("enum", w, name);
    StripUnpadded(name);
  }

  // ---------------------------------------------------------------- members

  /**
   * `Dim x As Integer` at class level: a private variable of that type is
   * appended, with the one by-value argument that carries its type.
   */
  lemma DimLineAdded(sc: Scope, dw: string, name: string, aw: string, ty: string)
    requires sc.target.None?
    requires A.Spelled(dw, "dim") && A.IsWord(name) && A.Spelled(aw, "as") && A.IsTypeName(ty)
    ensures var s := dw + " " + name + " " + aw + " " + ty;
      MatchMember(s).Some? &&
      MemberAdded(sc, s).kids ==
        sc.kids + [Node(Decl(name, Var, ty, accessibility := Private, arguments := [Argument("", ty)]), [])]
  {
    A.MemberDimAccepted(dw, name, aw, ty);
    StripUnpadded(name);
    PlainType(ty);
    assert Strip("") == "";
  }

  /**
   * `Public Test` at class level: a variable of type Variant is appended,
   * with the accessibility and static flag of the keyword.
   */
  lemma AccessLineAdded(sc: Scope, acc: string, name: string)
    requires sc.target.None?
    requires A.IsWord(acc) && Lower(acc) in AccessWords && A.IsWord(name)
    ensures var s := acc + " " + name;
      MatchMember(s).Some? && GetAccessibility(Some(acc), VarDefaultAccessLevel).Some? &&
      var (access, _) := GetAccessibility(Some(acc), VarDefaultAccessLevel).value;
      MemberAdded(sc, s).kids ==
        sc.kids + [Node(Decl(name, Var, "Variant", accessibility := access, arguments := [Argument("", "Variant")]), [])]
  {
    A.MemberAccessAccepted(acc, name);
    AccessDecl(acc, name);
  }

  /** The variable element made of the groups of `acc name`. */
  lemma AccessDecl(acc: string, name: string)
    requires A.IsWord(acc) && Lower(acc) in AccessWords && A.IsWord(name)
    ensures var g := MemberGroups(Some(acc + " "), None, None, None, name, None, None, None);
      GetAccessibility(Some(acc), VarDefaultAccessLevel).Some? &&
      GetAccessibility(Some(MemberAccessText(g)), VarDefaultAccessLevel).Some? &&
      MemberDecl(g) == Decl(name, Var, "Variant", accessibility := GetAccessibility(Some(acc), VarDefaultAccessLevel).value.0,
                            arguments := [Argument("", "Variant")])
  {
    StripUnpadded(name);
    StripKeywordGroup(acc);
    NoType();
    CapturedAccessKnown(acc, VarDefaultAccessLevel);
  }

  /** The constant element made of the groups of `Const name = lit`. */
  lemma ConstDecl(cw: string, name: string, lit: string)
    requires A.Spelled(cw, "const") && A.IsWord(name)
    ensures MemberDecl(MemberGroups(None, Some(cw + " "), None, None, name, None, None, Some(lit))) ==
      Decl(name, Const, "Variant", accessibility := Private,
           value := ExtractStringLiteral(Some(lit)).0, isStr := ExtractStringLiteral(Some(lit)).1)
  {
    A.SpelledWord(cw, "const");
    StripUnpadded(name);
    StripKeywordGroup(cw);
    NoType();
  }

  /**
   * `Const Max = 10` at class level: a private constant is appended whose
   * value and string flag are those the literal extracts to.
   */
  lemma ConstLineAdded(sc: Scope, cw: string, name: string, lit: string)
    requires sc.target.None?
    requires A.Spelled(cw, "const") && A.IsWord(name)
    requires IsLiteral(lit) && lit != [] && !IsSpace(lit[0]) && !IsSpace(lit[|lit| - 1])
    ensures var s := cw + " " + name + " = " + lit;
      MatchMember(s).Some? &&
      MemberAdded(sc, s).kids ==
        sc.kids + [Node(Decl(name, Const, "Variant", accessibility := Private,
                             value := ExtractStringLiteral(Some(lit)).0, isStr := ExtractStringLiteral(Some(lit)).1), [])]
  {
    A.MemberConstAccepted(cw, name, lit);
    ConstDecl(cw, name, lit);
  }

  /**
   * A member line `Red` inside an Enum block: a constant `Red` with the
   * empty value is appended to the enumeration, which stays the scope.
   */
  lemma EnumMemberLineAdded(sc: Scope, name: string)
    requires sc.target.Some? && sc.target.value < |sc.kids|
    requires A.IsWord(name)
    ensures var t := sc.target.value;
      EnumLine(sc, name).kids[t] == Node(sc.kids[t].decl, sc.kids[t].children + [Node(Decl(name, Const), [])]) &&
      EnumLine(sc, name).target == sc.target && EnumLine(sc, name).flags == sc.flags
  {
    A.EnumMemberAccepted(name);
    StripUnpadded(name);
    WordHasNoComment(name);
    WordNeverEnds(name, "enum");
  }

  /** A line of word characters has no comment to strip. */
  lemma WordHasNoComment(w: string)
    requires A.IsWord(w)
    ensures StripComments(w) == w
  {
    forall k | 0 <= k < |w|
      ensures w[k] != '\''
    {
      assert IsWordChar(w[k]);
    }
    assert StripComments(w) == w[..|w|];
  }

  /** A line of word characters is never a closing line: it has no blank after `End`. */
  lemma WordNeverEnds(w: string, kw: string)
    requires A.IsWord(w)
    ensures !EndsBlock(w, kw)
  {
    if 3 < |w| {
      assert IsWordChar(w[3]);
    }
  }

  // ---------------------------------------------------------------- properties

  /**
   * `Property Get Name()` outside any block, when lastProperty has another
   * name: a public property returning Variant is appended and becomes the
   * open block and lastProperty.
   */
  lemma GetterLineOpens(sc: Scope, pw: string, gw: string, name: string)
    requires A.Spelled(pw, "property") && A.Spelled(gw, "get") && A.IsWord(name)
    requires SameNamed(sc, name).None?
    ensures var s := pw + " " + gw + " " + name + "()";
      MatchPropertyGet(s).Some? &&
      PropertyGetLine(sc, s) ==
        Ok(Scope(sc.kids + [Node(Decl(name, Property, "Variant", accessibility := Public), [])],
                 NoFlags.(inProperty := true), Some(|sc.kids|), Some(|sc.kids|)))
  {
    A.PropertyGetAccepted(pw, gw, name);
    StripUnpadded(name);
    NoType();
  }

  /** The header `Property Let name(ByVal v As T)` is read with its argument text. */
  lemma SetterMatch(pw: string, sw: string, name: string, vw: string, v: string, aw: string, ty: string)
    requires A.Spelled(pw, "property") && (A.Spelled(sw, "set") || A.Spelled(sw, "let")) && A.IsWord(name)
    requires (A.Spelled(vw, "byval") || A.Spelled(vw, "byref")) && A.IsWord(v) && A.Spelled(aw, "as") && A.IsTypeName(ty)
    ensures var args := vw + " " + v + " " + aw + " " + ty;
      MatchPropertySet(pw + " " + sw + " " + name + "(" + args + ")") == Some(PropertySetGroups(None, sw, name, args))
  {
    PassingArgsPlain(vw, v, aw, ty);
    A.PropertySetAccepted(pw, sw, name, vw + " " + v + " " + aw + " " + ty);
  }

  /** A new setter whose argument list holds one argument: the property takes it and returns void. */
  lemma SetterDeclOf(sw: string, name: string, text: string, args: seq<Argument>)
    requires A.IsWord(name) && |args| == 1
    ensures SetterDecl(PropertySetGroups(None, sw, name, text), args) ==
      Ok(Decl(name, Property, accessibility := Public, arguments := args))
  {
    StripUnpadded(name);
    assert args == [args[0]];
  }

  /** A setter line whose header is read as g adds the property SetterDecl makes of g, as the open block. */
  lemma SetterLineNew(sc: Scope, s: string, g: PropertySetGroups, d: Decl)
    requires MatchPropertySet(s) == Some(g) && g.access.None? && SameNamed(sc, Strip(g.name)).None?
    requires SetterDecl(g, ArgumentsOf(Some(g.args))) == Ok(d)
    ensures PropertySetLine(sc, s) == Ok(Scope(sc.kids + [Node(d, [])], NoFlags.(inProperty := true), Some(|sc.kids|), Some(|sc.kids|)))
  {
  }

  /** The setter a `Property Let name(ByVal v As T)` header is read as, and the property it makes. */
  lemma SetterParts(pw: string, sw: string, name: string, vw: string, v: string, aw: string, ty: string)
    requires A.Spelled(pw, "property") && (A.Spelled(sw, "set") || A.Spelled(sw, "let")) && A.IsWord(name)
    requires (A.Spelled(vw, "byval") || A.Spelled(vw, "byref")) && A.IsWord(v) && !A.Spelled(v, "paramarray")
    requires A.Spelled(aw, "as") && A.IsTypeName(ty)
    ensures var args := vw + " " + v + " " + aw + " " + ty;
      var g := PropertySetGroups(None, sw, name, args);
      MatchPropertySet(pw + " " + sw + " " + name + "(" + args + ")") == Some(g) && Strip(name) == name &&
      SetterDecl(g, ArgumentsOf(Some(args))) ==
        Ok(Decl(name, Property, accessibility := Public, arguments := [Argument(v, ty, isReference := A.Spelled(vw, "byref"))]))
  {
    SetterMatch(pw, sw, name, vw, v, aw, ty);
    SetterOfPassing(sw, name, vw, v, aw, ty);
    StripUnpadded(name);
  }

  /** The property a new setter with the argument list `ByVal v As T` makes. */
  lemma SetterOfPassing(sw: string, name: string, vw: string, v: string, aw: string, ty: string)
    requires A.IsWord(name) && (A.Spelled(vw, "byval") || A.Spelled(vw, "byref")) && A.IsWord(v) && !A.Spelled(v, "paramarray")
    requires A.Spelled(aw, "as") && A.IsTypeName(ty)
    ensures var args := vw + " " + v + " " + aw + " " + ty;
      SetterDecl(PropertySetGroups(None, sw, name, args), ArgumentsOf(Some(args))) ==
        Ok(Decl(name, Property, accessibility := Public, arguments := [Argument(v, ty, isReference := A.Spelled(vw, "byref"))]))
  {
    var args := vw + " " + v + " " + aw + " " + ty;
    var arg := Argument(v, ty, isReference := A.Spelled(vw, "byref"));
    assert ArgumentsOf(Some(args)) == [arg] by { PassingArgumentList(vw, v, aw, ty); }
    SetterDeclOf(sw, name, args, [arg]);
  }

  /**
   * `Property Let Name(ByVal v As T)` outside any block, when lastProperty
   * has another name: a public property returning void, whose one argument
   * is v, is appended and becomes the open block and lastProperty.
   */
  lemma SetterLineOpens(sc: Scope, pw: string, sw: string, name: string, vw: string, v: string, aw: string, ty: string)
    requires A.Spelled(pw, "property") && (A.Spelled(sw, "set") || A.Spelled(sw, "let")) && A.IsWord(name)
    requires (A.Spelled(vw, "byval") || A.Spelled(vw, "byref")) && A.IsWord(v) && !A.Spelled(v, "paramarray")
    requires A.Spelled(aw, "as") && A.IsTypeName(ty)
    requires SameNamed(sc, name).None?
    ensures var s := pw + " " + sw + " " + name + "(" + vw + " " + v + " " + aw + " " + ty + ")";
      MatchPropertySet(s).Some? &&
      PropertySetLine(sc, s) ==
        Ok(Scope(sc.kids + [Node(Decl(name, Property, accessibility := Public,
                                      arguments := [Argument(v, ty, isReference := A.Spelled(vw, "byref"))]), [])],
                 NoFlags.(inProperty := true), Some(|sc.kids|), Some(|sc.kids|)))
  {
    var args := vw + " " + v + " " + aw + " " + ty;
    var s := pw + " " + sw + " " + name + "(" + args + ")";
    assert s == pw + " " + sw + " " + name + "(" + vw + " " + v + " " + aw + " " + ty + ")";
    SetterParts(pw, sw, name, vw, v, aw, ty);
    SetterLineNew(sc, s, PropertySetGroups(None, sw, name, args),
                  Decl(name, Property, accessibility := Public, arguments := [Argument(v, ty, isReference := A.Spelled(vw, "byref"))]));
  }

  /** A setter line whose header names lastProperty is merged into it by MergeSetter. */
  lemma SetterLineMerged(sc: Scope, s: string, g: PropertySetGroups, i: nat, d: Decl)
    requires MatchPropertySet(s) == Some(g) && SameNamed(sc, Strip(g.name)) == Some(i)
    requires MergeSetter(sc.kids[i].decl, ArgumentsOf(Some(g.args))) == Ok(d)
    ensures PropertySetLine(sc, s) == Ok(Reopen(sc, i, d))
  {
  }

  /** A getter line whose header names lastProperty is merged into it by MergeGetter. */
  lemma GetterLineMerged(sc: Scope, s: string, i: nat, d: Decl)
    requires MatchPropertyGet(s).Some? && SameNamed(sc, Strip(MatchPropertyGet(s).value.name)) == Some(i)
    requires MergeGetter(sc.kids[i].decl) == Ok(d)
    ensures PropertyGetLine(sc, s) == Ok(Reopen(sc, i, d))
  {
  }

  /** Replacing the element just appended is appending the replacement. */
  lemma ReplaceLast(kids: seq<Node>, a: Node, b: Node)
    ensures (kids + [a])[|kids| := b] == kids + [b]
  {
  }

  /**
   * `Property Get Name()`, `End Property`, then `Property Let Name(ByVal v
   * As T)`: one property is left, public, of type T, whose one argument is v.
   */
  lemma GetThenLetCollapse(sc: Scope, pw: string, gw: string, sw: string, name: string, vw: string, v: string, aw: string, ty: string)
    requires A.Spelled(pw, "property") && A.Spelled(gw, "get") && (A.Spelled(sw, "set") || A.Spelled(sw, "let"))
    requires A.IsWord(name) && (A.Spelled(vw, "byval") || A.Spelled(vw, "byref")) && A.IsWord(v) && !A.Spelled(v, "paramarray")
    requires A.Spelled(aw, "as") && A.IsTypeName(ty)
    requires SameNamed(sc, name).None?
    ensures var get := pw + " " + gw + " " + name + "()";
      var let := pw + " " + sw + " " + name + "(" + vw + " " + v + " " + aw + " " + ty + ")";
      MatchPropertyGet(get).Some? && PropertyGetLine(sc, get).Ok? && MatchPropertySet(let).Some? &&
      PropertySetLine(Close(PropertyGetLine(sc, get).value), let) ==
        Ok(Scope(sc.kids + [Node(Decl(name, Property, ty, accessibility := Public,
                                      arguments := [Argument(v, ty, isReference := A.Spelled(vw, "byref"))]), [])],
                 NoFlags.(inProperty := true), Some(|sc.kids|), Some(|sc.kids|)))
  {
    var args := vw + " " + v + " " + aw + " " + ty;
    var get := pw + " " + gw + " " + name + "()";
    var let := pw + " " + sw + " " + name + "(" + args + ")";
    assert let == pw + " " + sw + " " + name + "(" + vw + " " + v + " " + aw + " " + ty + ")";
    var arg := Argument(v, ty, isReference := A.Spelled(vw, "byref"));
    var getter := Decl(name, Property, "Variant", accessibility := Public);
    var merged := Decl(name, Property, ty, accessibility := Public, arguments := [arg]);
    GetterLineOpens(sc, pw, gw, name);
    var sc2 := Close(PropertyGetLine(sc, get).value);
    assert sc2 == Scope(sc.kids + [Node(getter, [])], NoFlags, None, Some(|sc.kids|));
    SetterParts(pw, sw, name, vw, v, aw, ty);
    PassingArgumentList(vw, v, aw, ty);
    SetterLineMerged(sc2, let, PropertySetGroups(None, sw, name, args), |sc.kids|, merged);
    ReplaceLast(sc.kids, Node(getter, []), Node(merged, []));
  }

  /**
   * `Property Let Name(ByVal v As T)`, `End Property`, then `Property Get
   * Name()`: the same single property as in the other order.
   */
  lemma LetThenGetCollapse(sc: Scope, pw: string, gw: string, sw: string, name: string, vw: string, v: string, aw: string, ty: string)
    requires A.Spelled(pw, "property") && A.Spelled(gw, "get") && (A.Spelled(sw, "set") || A.Spelled(sw, "let"))
    requires A.IsWord(name) && (A.Spelled(vw, "byval") || A.Spelled(vw, "byref")) && A.IsWord(v) && !A.Spelled(v, "paramarray")
    requires A.Spelled(aw, "as") && A.IsTypeName(ty)
    requires SameNamed(sc, name).None?
    ensures var get := pw + " " + gw + " " + name + "()";
      var let := pw + " " + sw + " " + name + "(" + vw + " " + v + " " + aw + " " + ty + ")";
      var arg := Argument(v, ty, isReference := A.Spelled(vw, "byref"));
      var sc1 := Scope(sc.kids + [Node(Decl(name, Property, accessibility := Public, arguments := [arg]), [])],
                      NoFlags.(inProperty := true), Some(|sc.kids|), Some(|sc.kids|));
      MatchPropertySet(let).Some? && PropertySetLine(sc, let) == Ok(sc1) && MatchPropertyGet(get).Some? &&
      PropertyGetLine(Close(sc1), get) ==
        Ok(Scope(sc.kids + [Node(Decl(name, Property, ty, accessibility := Public, arguments := [arg]), [])],
                 NoFlags.(inProperty := true), Some(|sc.kids|), Some(|sc.kids|)))
  {
    var get := pw + " " + gw + " " + name + "()";
    assert MatchPropertyGet(get) == Some(PropertyGetGroups(None, name, None, None)) && Strip(name) == name by {
      A.PropertyGetAccepted(pw, gw, name);
      StripUnpadded(name);
    }
    SetterLineOpens(sc, pw, sw, name, vw, v, aw, ty);
    GetterMergesClosed(sc.kids, get, name, Argument(v, ty, isReference := A.Spelled(vw, "byref")));
  }

  /** A getter line naming the setter just closed merges into it in place and takes its argument's type. */
  lemma GetterMergesClosed(kids: seq<Node>, get: string, name: string, arg: Argument)
    requires MatchPropertyGet(get) == Some(PropertyGetGroups(None, name, None, None)) && Strip(name) == name
    ensures var setter := Decl(name, Property, accessibility := Public, arguments := [arg]);
      PropertyGetLine(Close(Scope(kids + [Node(setter, [])], NoFlags.(inProperty := true), Some(|kids|), Some(|kids|))), get) ==
        Ok(Scope(kids + [Node(Decl(name, Property, arg.argType, accessibility := Public, arguments := [arg]), [])],
                 NoFlags.(inProperty := true), Some(|kids|), Some(|kids|)))
  {
    var setter := Decl(name, Property, accessibility := Public, arguments := [arg]);
    var merged := Decl(name, Property, arg.argType, accessibility := Public, arguments := [arg]);
    var sc := Scope(kids + [Node(setter, [])], NoFlags, None, Some(|kids|));
    assert Close(Scope(kids + [Node(setter, [])], NoFlags.(inProperty := true), Some(|kids|), Some(|kids|))) == sc;
    assert sc.kids[|kids|] == Node(setter, []);
    assert SameNamed(sc, name) == Some(|kids|);
    assert MergeGetter(setter) == Ok(merged);
    GetterLineMerged(sc, get, |kids|, merged);
    ReplaceLast(kids, Node(setter, []), Node(merged, []));
  }

}
