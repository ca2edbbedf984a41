/**
 * The C# generator (src/DoxyVB6/conv_csharp.py, CsharpGenerator): a
 * depth-first walk over the declaration tree that appends C# skeleton lines
 * to a list. Gen states, over values, the lines each element produces or the
 * exception it raises; the methods at the end walk the elements on the heap
 * and are proved to produce exactly those lines.
 */
module ConvCsharp {
  import opened Wrappers
  import opened CodeConv

  // ---------------------------------------------------------------- text helpers

  predicate StartsWith(s: string, p: string) {
    |p| <= |s| && s[..|p|] == p
  }

  predicate EndsWith(s: string, q: string) {
    |q| <= |s| && s[|s| - |q|..] == q
  }

  lemma StartsWithConcat(p: string, t: string)
    ensures StartsWith(p + t, p)
  {
    assert (p + t)[..|p|] == p;
  }

  lemma StartsWithExtend(s: string, p: string, t: string)
    requires StartsWith(s, p)
    ensures StartsWith(s + t, p)
  {
    assert (s + t)[..|p|] == s[..|p|];
  }

  lemma EndsWithConcat(t: string, q: string)
    ensures EndsWith(t + q, q)
  {
    assert (t + q)[|t + q| - |q|..] == q;
  }

  lemma EndsWithExtend(p: string, s: string, q: string)
    requires EndsWith(s, q)
    ensures EndsWith(p + s, q)
  {
    assert (p + s)[|p + s| - |q|..] == s[|s| - |q|..];
  }

  lemma EndsWithGrow(s: string, q: string, t: string)
    requires EndsWith(s, q)
    ensures EndsWith(s + t, q + t)
  {
    assert (s + t)[|s + t| - |q + t|..] == s[|s| - |q|..] + t;
  }

  /** str.join: the parts with sep between each two neighbours. */
  function Join(sep: string, parts: seq<string>): string
    decreases |parts|
  {
    if parts == [] then ""
    else if |parts| == 1 then parts[0]
    else Join(sep, parts[..|parts| - 1]) + sep + parts[|parts| - 1]
  }

  /** _get_indent_str: four blanks per level. */
  function IndentStr(indent: nat): (r: string)
    ensures |r| == 4 * indent && forall k | 0 <= k < |r| :: r[k] == ' '
  {
    if indent == 0 then "" else IndentStr(indent - 1) + "    "
  }

  /** One level deeper is the same indent followed by four blanks. */
  lemma IndentDeeper(indent: nat)
    ensures IndentStr(indent + 1) == IndentStr(indent) + "    "
  {
  }

  // ---------------------------------------------------------------- modifiers

  /** _get_access_str: the C# modifier for each accessibility, followed by a blank; nothing for Undef. */
  function AccessStr(a: Accessibility): (r: string)
    ensures r == "" <==> a == Undef
    ensures r != "" ==> r[|r| - 1] == ' '
  {
    match a
    case Public => "public "
    case Protected => "protected "
    case Internal => "internal "
    case Private => "private "
    case Undef => ""
  }

  /** The accessibility a modifier prints, read back. */
  function AccessOf(s: string): Accessibility {
    if s == "public " then Public
    else if s == "protected " then Protected
    else if s == "internal " then Internal
    else if s == "private " then Private
    else Undef
  }

  /** Different accessibilities print differently, so the modifier determines the accessibility. */
  lemma AccessStrInjective(a: Accessibility, b: Accessibility)
    requires AccessStr(a) == AccessStr(b)
    ensures a == b
  {
    assert AccessOf(AccessStr(a)) == a;
    assert AccessOf(AccessStr(b)) == b;
  }

  /** _get_static_str. */
  function StaticStr(isStatic: bool): (r: string)
    ensures r == "static " <==> isStatic
    ensures !isStatic ==> r == ""
  {
    if isStatic then "static " else ""
  }

  /** _get_valref_str: `ref ` for a by-reference argument. */
  function ValRefStr(a: Argument): (r: string)
    ensures r == "ref " <==> a.isReference
    ensures !a.isReference ==> r == ""
  {
    if a.isReference then "ref " else ""
  }

  // ---------------------------------------------------------------- string literals

  /** The code points of the control characters in the escape table. */
  const Null: char := 0 as char
  const Bell: char := 7 as char
  const Backspace: char := 8 as char
  const FormFeed: char := 12 as char
  const VerticalTab: char := 11 as char

  /**
   * The escape letter of each character of the replacement table, which is
   * ten of the simple escape sequences of C# (ECMA-334, section 6.4.5.5).
   */
  function EscapeLetter(c: char): Option<char> {
    if c == '\\' then Some('\\')
    else if c == '"' then Some('"')
    else if c == Null then Some('0')
    else if c == Bell then Some('a')
    else if c == Backspace then Some('b')
    else if c == FormFeed then Some('f')
    else if c == '\n' then Some('n')
    else if c == '\r' then Some('r')
    else if c == '\t' then Some('t')
    else if c == VerticalTab then Some('v')
    else None
  }

  /** The character a C# simple escape letter stands for, for the letters of the table. */
  function UnescapeLetter(l: char): Option<char> {
    if l == '\\' then Some('\\')
    else if l == '"' then Some('"')
    else if l == '0' then Some(Null)
    else if l == 'a' then Some(Bell)
    else if l == 'b' then Some(Backspace)
    else if l == 'f' then Some(FormFeed)
    else if l == 'n' then Some('\n')
    else if l == 'r' then Some('\r')
    else if l == 't' then Some('\t')
    else if l == 'v' then Some(VerticalTab)
    else None
  }

  /** A character of the table: a backslash and its letter; any other character is kept. */
  function EscapeChar(c: char): (r: string)
    ensures EscapeLetter(c).None? ==> r == [c]
    ensures EscapeLetter(c).Some? ==> r == ['\\', EscapeLetter(c).value] && UnescapeLetter(r[1]) == Some(c)
  {
    match EscapeLetter(c)
    case Some(l) => ['\\', l]
    case None => [c]
  }

  /** The escaped characters of a string value, joined. */
  function Escaped(t: string): string
    decreases |t|
  {
    if t == [] then "" else EscapeChar(t[0]) + Escaped(t[1..])
  }

  /** _get_value_str: a string value quoted with its characters escaped; any other value verbatim. */
  function ValueStr(value: string, isStr: bool): (r: string)
    ensures !isStr ==> r == value
    ensures isStr ==> |r| >= 2 && r[0] == '"' && r[|r| - 1] == '"'
  {
    if isStr then "\"" + Escaped(value) + "\"" else value
  }

  /**
   * How a C# compiler reads the body of a regular string literal, for the
   * escapes of the table; a backslash before any other character is kept.
   */
  function Unescape(u: string): string
    decreases |u|
  {
    if u == [] then ""
    else if |u| >= 2 && u[0] == '\\' && UnescapeLetter(u[1]).Some? then [UnescapeLetter(u[1]).value] + Unescape(u[2..])
    else [u[0]] + Unescape(u[1..])
  }

  /** Reading one escaped character back gives the character. */
  lemma UnescapeChar(c: char, rest: string)
    ensures Unescape(EscapeChar(c) + rest) == [c] + Unescape(rest)
  {
    var u := EscapeChar(c) + rest;
    if EscapeLetter(c).Some? {
      assert u[2..] == rest;
    } else {
      assert c != '\\';
      assert u[1..] == rest;
    }
  }

  /** The literal C# reads back from an escaped value is the value: escaping loses nothing. */
  lemma {:induction false} UnescapeEscaped(t: string)
    ensures Unescape(Escaped(t)) == t
    decreases |t|
  {
    if t != [] {
      UnescapeEscaped(t[1..]);
      UnescapeChar(t[0], Escaped(t[1..]));
    }
  }

  /** A control character of the table, which a C# literal may not hold as it is. */
  predicate IsTableControl(c: char) {
    EscapeLetter(c).Some? && c != '\\' && c != '"'
  }

  /** No control character of the table is left in the escaped text. */
  lemma {:induction false} EscapedNoControl(t: string)
    ensures forall k | 0 <= k < |Escaped(t)| :: !IsTableControl(Escaped(t)[k])
    decreases |t|
  {
    if t != [] {
      EscapedNoControl(t[1..]);
      var e, rest := EscapeChar(t[0]), Escaped(t[1..]);
      assert Escaped(t) == e + rest;
      forall k | 0 <= k < |e + rest|
        ensures !IsTableControl((e + rest)[k])
      {
        if k >= |e| {
          assert (e + rest)[k] == rest[k - |e|];
        }
      }
    }
  }

  /** One more character adds its escape at the end. */
  lemma {:induction false} EscapedSnoc(t: string, c: char)
    ensures Escaped(t + [c]) == Escaped(t) + EscapeChar(c)
    decreases |t|
  {
    if t == [] {
      assert [c][1..] == [];
    } else {
      assert (t + [c])[1..] == t[1..] + [c];
      EscapedSnoc(t[1..], c);
    }
  }

  // ---------------------------------------------------------------- arguments and accessors

  /** One argument: `[ref ]type name`, and ` = literal` for an optional one. */
  function ArgStr(a: Argument): (r: string)
    ensures StartsWith(r, ValRefStr(a) + a.argType + " " + a.name)
    ensures !a.isOptional ==> r == ValRefStr(a) + a.argType + " " + a.name
    ensures a.isOptional ==> EndsWith(r, " = " + ValueStr(a.defaultValue, a.isStr))
  {
    var head := ValRefStr(a) + a.argType + " " + a.name;
    if a.isOptional then
      var tail := " = " + ValueStr(a.defaultValue, a.isStr);
      assert (head + tail)[..|head|] == head;
      assert (head + tail)[|head + tail| - |tail|..] == tail;
      head + tail
    else head
  }

  /** Each argument's text, in order. */
  function ArgTexts(args: seq<Argument>): (r: seq<string>)
    ensures |r| == |args| && forall i | 0 <= i < |args| :: r[i] == ArgStr(args[i])
  {
    seq(|args|, i requires 0 <= i < |args| => ArgStr(args[i]))
  }

  /** _get_args_str: the arguments, each as ArgStr, separated by `, `; nothing for no arguments. */
  function ArgsStr(args: seq<Argument>): string {
    Join(", ", ArgTexts(args))
  }

  /** The argument text is empty exactly when there are no arguments. */
  lemma ArgsStrEmpty(args: seq<Argument>)
    ensures ArgsStr(args) == "" <==> args == []
  {
    if args != [] {
      var texts := ArgTexts(args);
      JoinEndsWithLast(", ", texts);
      var last := args[|args| - 1];
      assert |ArgStr(last)| >= |last.argType + " " + last.name| > 0;
    }
  }

  /** The argument texts of two lists side by side are joined by one `, `. */
  lemma ArgsStrAppend(xs: seq<Argument>, ys: seq<Argument>)
    requires xs != [] && ys != []
    ensures ArgsStr(xs + ys) == ArgsStr(xs) + ", " + ArgsStr(ys)
  {
    assert ArgTexts(xs + ys) == ArgTexts(xs) + ArgTexts(ys);
    JoinAppend(", ", ArgTexts(xs), ArgTexts(ys));
  }

  /** A joined text ends with its last part. */
  lemma JoinEndsWithLast(sep: string, parts: seq<string>)
    requires parts != []
    ensures EndsWith(Join(sep, parts), parts[|parts| - 1])
  {
    var j, last := Join(sep, parts), parts[|parts| - 1];
    assert j[|j| - |last|..] == last;
  }

  /** Joining two non-empty lists of parts puts one separator between the two joined texts. */
  lemma {:induction false} JoinAppend(sep: string, xs: seq<string>, ys: seq<string>)
    requires xs != [] && ys != []
    ensures Join(sep, xs + ys) == Join(sep, xs) + sep + Join(sep, ys)
    decreases |ys|
  {
    var init, last := ys[..|ys| - 1], ys[|ys| - 1];
    ConcatLast(xs, ys);
    if |ys| > 1 {
      JoinAppend(sep, xs, init);
    } else {
      assert xs + init == xs;
    }
  }

  /** The last element of a concatenation, and what comes before it. */
  lemma ConcatLast<T>(xs: seq<T>, ys: seq<T>)
    requires ys != []
    ensures (xs + ys)[..|xs + ys| - 1] == xs + ys[..|ys| - 1]
    ensures (xs + ys)[|xs + ys| - 1] == ys[|ys| - 1]
  {
  }

  /** The property has a getter: a return type other than void or empty. */
  predicate HasGetter(d: Decl) {
    d.returnType != "void" && d.returnType != ""
  }

  /** The property has a setter: at least one argument. */
  predicate HasSetter(d: Decl) {
    |d.arguments| != 0
  }

  /** _get_getset_str: the accessors a property has; neither raises CannotGenerateException. */
  function GetSetStr(d: Decl): (r: Result<string, Failure>)
    ensures r.Err? <==> !HasGetter(d) && !HasSetter(d)
    ensures r.Err? ==> r.error == CannotGenerate("The property has neither a getter nor a setter.")
    ensures r.Ok? ==> (StartsWith(r.value, "get;") <==> HasGetter(d)) && (EndsWith(r.value, "set;") <==> HasSetter(d))
  {
    if HasGetter(d) && !HasSetter(d) then Ok(assert !EndsWith("get;", "set;") by { assert "get;"[0] != "set;"[0]; } "get;")
    else if !HasGetter(d) && HasSetter(d) then Ok(assert !StartsWith("set;", "get;") by { assert "set;"[0] != "get;"[0]; } "set;")
    else if HasGetter(d) && HasSetter(d) then Ok("get; set;")
    else Err(CannotGenerate("The property has neither a getter nor a setter."))
  }

  // ---------------------------------------------------------------- one element's lines

  /** _generate_var: the field declaration, then a line holding only the indent. */
  function VarLines(d: Decl, indent: nat): (r: seq<string>)
    ensures |r| == 2 && StartsWith(r[0], IndentStr(indent)) && EndsWith(r[0], " " + d.name + ";") && r[1] == IndentStr(indent)
    ensures r[0] == IndentStr(indent) + AccessStr(d.accessibility) + StaticStr(d.isStatic) + d.returnType + " " + d.name + ";"
  {
    var ind := IndentStr(indent);
    var tail := " " + d.name + ";";
    var line := ind + AccessStr(d.accessibility) + StaticStr(d.isStatic) + d.returnType + tail;
    assert line[..|ind|] == ind && line[|line| - |tail|..] == tail;
    [line, ind]
  }

  /** _generate_const: `const type name = value;` with the value as ValueStr prints it, then the indent. */
  function ConstLines(d: Decl, indent: nat): (r: seq<string>)
    ensures |r| == 2 && StartsWith(r[0], IndentStr(indent)) && r[1] == IndentStr(indent)
    ensures EndsWith(r[0], " = " + ValueStr(d.value, d.isStr) + ";")
    ensures r[0] == IndentStr(indent) + AccessStr(d.accessibility) + "const " + d.returnType + " " + d.name + " = " +
                    ValueStr(d.value, d.isStr) + ";"
  {
    var ind := IndentStr(indent);
    var tail := " = " + ValueStr(d.value, d.isStr) + ";";
    var line := ind + AccessStr(d.accessibility) + "const " + d.returnType + " " + d.name + tail;
    assert line[..|ind|] == ind && line[|line| - |tail|..] == tail;
    [line, ind]
  }

  /** _generate_doc_line: `///` and the comment text. */
  function DocLines(d: Decl, indent: nat): (r: seq<string>)
    ensures |r| == 1 && r[0] == IndentStr(indent) + "///" + d.value
  {
    [IndentStr(indent) + "///" + d.value]
  }

  /** The signature of a function: modifiers, return type, name, and the arguments in parentheses. */
  function Signature(d: Decl): (r: string)
    ensures EndsWith(r, ")")
    ensures r == AccessStr(d.accessibility) + StaticStr(d.isStatic) + d.returnType + " " + d.name + "(" + ArgsStr(d.arguments) + ")"
  {
    var head := AccessStr(d.accessibility) + StaticStr(d.isStatic) + d.returnType + " " + d.name + "(" + ArgsStr(d.arguments);
    EndsWithConcat(head, ")");
    head + ")"
  }

  /**
   * _generate_func: in an interface the signature and `;`; elsewhere the
   * signature and an empty body; then the indent alone.
   */
  function FuncLines(d: Decl, indent: nat, asIntf: bool): (r: seq<string>)
    ensures forall k | 0 <= k < |r| :: StartsWith(r[k], IndentStr(indent))
    ensures asIntf ==> |r| == 2 && EndsWith(r[0], ");") && r[1] == IndentStr(indent)
    ensures !asIntf ==>
              |r| == 4 && EndsWith(r[0], ")") &&
              r[1] == IndentStr(indent) + "{" && r[2] == IndentStr(indent) + "}" && r[3] == IndentStr(indent)
    ensures asIntf ==> r[0] == IndentStr(indent) + Signature(d) + ";"
    ensures !asIntf ==> r[0] == IndentStr(indent) + Signature(d)
  {
    var ind := IndentStr(indent);
    var sig := ind + Signature(d);
    FuncLineShapes(ind, Signature(d));
    if asIntf then [sig + ";", ind] else [sig, ind + "{", ind + "}", ind]
  }

  /** The line shapes of FuncLines, for any indent and any signature ending in `)`. */
  lemma FuncLineShapes(ind: string, s: string)
    requires EndsWith(s, ")")
    ensures StartsWith(ind + s, ind) && StartsWith(ind + s + ";", ind)
    ensures StartsWith(ind + "{", ind) && StartsWith(ind + "}", ind) && StartsWith(ind, ind)
    ensures EndsWith(ind + s, ")") && EndsWith(ind + s + ";", ");")
  {
    StartsWithConcat(ind, s);
    StartsWithExtend(ind + s, ind, ";");
    StartsWithConcat(ind, "{");
    StartsWithConcat(ind, "}");
    EndsWithExtend(ind, s, ")");
    EndsWithGrow(ind + s, ")", ";");
    assert ind + "" == ind;
    StartsWithConcat(ind, "");
  }

  /** _generate_property: one line, the accessors in braces, closed by ` })`. */
  function PropertyLines(d: Decl, indent: nat): (r: Result<seq<string>, Failure>)
    ensures r.Err? <==> GetSetStr(d).Err?
    ensures r.Err? ==> r.error == GetSetStr(d).error
    ensures r.Ok? ==> |r.value| == 1 && StartsWith(r.value[0], IndentStr(indent)) && EndsWith(r.value[0], " })")
    ensures r.Ok? ==> r.value[0] == IndentStr(indent) + PropertyDecl(d) + " { " + GetSetStr(d).value + " })"
    ensures r.Ok? ==> EndsWith(r.value[0], " { " + GetSetStr(d).value + " })")
  {
    match GetSetStr(d)
    case Err(e) => Err(e)
    case Ok(gs) =>
      var ind := IndentStr(indent);
      var head := ind + PropertyDecl(d) + " { " + gs;
      StartsWithConcat(ind, PropertyDecl(d));
      StartsWithExtend(ind + PropertyDecl(d), ind, " { ");
      StartsWithExtend(ind + PropertyDecl(d) + " { ", ind, gs);
      StartsWithExtend(head, ind, " })");
      EndsWithConcat(head, " })");
      ConcatAssoc(ind + PropertyDecl(d) + " { ", gs, " })");
      ConcatAssoc(ind + PropertyDecl(d), " { ", gs + " })");
      EndsWithConcat(ind + PropertyDecl(d), " { " + (gs + " })"));
      ConcatAssoc(" { ", gs, " })");
      Ok([head + " })"])
  }

  /** A property's modifiers, type and name: what precedes its accessors. */
  function PropertyDecl(d: Decl): string {
    AccessStr(d.accessibility) + StaticStr(d.isStatic) + d.returnType + " " + d.name
  }

  lemma ConcatAssoc(a: string, b: string, c: string)
    ensures a + b + c == a + (b + c)
  {
  }

  /**
   * A child of a structure or an enumeration: a documentation line one
   * level deeper; a multi-line comment raises; otherwise a public field and
   * the indent of the structure, or the enumeration member with `,`.
   */
  function MemberLines(d: Decl, indent: nat, isEnum: bool): (r: Result<seq<string>, Failure>)
    ensures r.Err? <==> d.kind == DocCommentMulti
    ensures r.Err? ==> r.error == NotImplemented
    ensures d.kind == DocCommentLine ==> r == Ok(DocLines(d, indent + 1))
    ensures r.Ok? && d.kind != DocCommentLine && isEnum ==>
              |r.value| == 1 && StartsWith(r.value[0], IndentStr(indent + 1) + d.name) && EndsWith(r.value[0], ",") &&
              (r.value[0] == IndentStr(indent + 1) + d.name + "," <==> d.value == "")
    ensures r.Ok? && d.kind != DocCommentLine && !isEnum ==>
              |r.value| == 2 && StartsWith(r.value[0], IndentStr(indent + 1) + "public ") &&
              EndsWith(r.value[0], " " + d.name + ";") && r.value[1] == IndentStr(indent)
    ensures r.Ok? && d.kind != DocCommentLine && isEnum ==>
              r.value == [IndentStr(indent + 1) + d.name + (if d.value == "" then "" else " = " + d.value) + ","]
    ensures r.Ok? && d.kind != DocCommentLine && !isEnum ==>
              r.value == [IndentStr(indent + 1) + "public " + d.returnType + " " + d.name + ";", IndentStr(indent)]
  {
    var mem := IndentStr(indent + 1);
    if d.kind == DocCommentLine then Ok(DocLines(d, indent + 1))
    else if d.kind == DocCommentMulti then Err(NotImplemented)
    else if isEnum then
      var head := mem + d.name;
      var mid := if d.value == "" then "" else " = " + d.value;
      assert d.value == "" ==> head + mid == head;
      StartsWithConcat(head, mid);
      StartsWithExtend(head + mid, head, ",");
      EndsWithConcat(head + mid, ",");
      Ok([head + mid + ","])
    else
      var pub := mem + "public ";
      var tail := " " + d.name + ";";
      var line := pub + d.returnType + " " + d.name + ";";
      assert line == pub + d.returnType + tail;
      StartsWithConcat(pub, d.returnType);
      StartsWithExtend(pub + d.returnType, pub, tail);
      EndsWithConcat(pub + d.returnType, tail);
      Ok([line, IndentStr(indent)])
  }

  /** The lines of the children of a structure or enumeration, in order; the first failure ends them. */
  function MembersLines(cs: seq<Node>, indent: nat, isEnum: bool): (r: Result<seq<string>, Failure>)
    decreases |cs|
  {
    if cs == [] then Ok([])
    else
      match MembersLines(cs[..|cs| - 1], indent, isEnum)
      case Err(e) => Err(e)
      case Ok(a) =>
        match MemberLines(cs[|cs| - 1].decl, indent, isEnum)
        case Err(e) => Err(e)
        case Ok(b) => Ok(a + b)
  }

  /** The part after the class name: `extends` when "super" is present, then `implements`. */
  function InheritStr(others: map<string, seq<string>>): (r: Result<string, Failure>)
    ensures r.Err? <==> "super" in others && "extends" !in others
    ensures r.Err? ==> r.error == KeyError("extends")
  {
    var sup :=
      if "super" !in others then Ok("")
      else if "extends" in others then Ok(" : " + Join(", ", others["extends"]))
      else Err(KeyError("extends"));
    match sup
    case Err(e) => Err(e)
    case Ok(s) =>
      if "implements" !in others then Ok(s)
      else if s == "" then Ok(" : " + Join(", ", others["implements"]))
      else Ok(s + ", " + Join(", ", others["implements"]))
  }

  /** The header of a class or interface: modifiers, the keyword, the name and what it inherits. */
  function HeaderLine(d: Decl, indent: nat, keyword: string): (r: Result<string, Failure>)
    ensures r.Err? <==> InheritStr(d.others).Err?
    ensures r.Err? ==> r.error == InheritStr(d.others).error
    ensures r.Ok? ==> StartsWith(r.value, IndentStr(indent) + AccessStr(d.accessibility) + StaticStr(d.isStatic) + keyword + d.name)
    ensures r.Ok? ==> r.value == IndentStr(indent) + AccessStr(d.accessibility) + StaticStr(d.isStatic) + keyword + d.name +
                                 InheritStr(d.others).value
  {
    match InheritStr(d.others)
    case Err(e) => Err(e)
    case Ok(s) =>
      var head := IndentStr(indent) + AccessStr(d.accessibility) + StaticStr(d.isStatic) + keyword + d.name;
      assert (head + s)[..|head|] == head;
      Ok(head + s)
  }

  // ---------------------------------------------------------------- the walk

  /**
   * _generate_common: the lines of an element and everything below it at
   * the given indent; asIntf reaches only a function, and only an interface
   * passes it on, to its direct children. Kinds without a generator (OTHER,
   * and a multi-line comment) raise NotImplementedError.
   */
  function Gen(n: Node, indent: nat, asIntf: bool): Result<seq<string>, Failure>
    decreases n, 1
  {
    var d := n.decl;
    var ind := IndentStr(indent);
    match d.kind
    case Var => Ok(VarLines(d, indent))
    case Const => Ok(ConstLines(d, indent))
    case Func => Ok(FuncLines(d, indent, asIntf))
    case Struct => Block(ind + AccessStr(d.accessibility) + "struct " + d.name, MembersLines(n.children, indent, false), "}")
    case DocCommentLine => Ok(DocLines(d, indent))
    case DocCommentMulti => Err(NotImplemented)
    case Class => ClassLike(n, indent, "class ", false)
    case Interface => ClassLike(n, indent, "interface ", true)
    case Enum => Block(ind + AccessStr(d.accessibility) + "enum " + d.name, MembersLines(n.children, indent, true), "}")
    case NameSpace => Block(ind + "namespace " + d.name, GenChildren(n.children, indent + 1, false), "}")
    case Property => PropertyLines(d, indent)
    case Other => Err(NotImplemented)
  }

  /** A header, an unindented `{`, the body, then the closing line. */
  function Block(header: string, body: Result<seq<string>, Failure>, close: string): (r: Result<seq<string>, Failure>)
    ensures r.Err? <==> body.Err?
    ensures r.Err? ==> r.error == body.error
    ensures r.Ok? ==>
              |r.value| == |body.value| + 3 && r.value[0] == header && r.value[1] == "{" &&
              r.value[|r.value| - 1] == close && r.value[2..|r.value| - 1] == body.value
  {
    match body
    case Err(e) => Err(e)
    case Ok(b) => Ok([header, "{"] + b + [close])
  }

  /** _generate_class and _generate_intf: the header, the children one level deeper, then the indent. */
  function ClassLike(n: Node, indent: nat, keyword: string, asIntf: bool): Result<seq<string>, Failure>
    decreases n, 0
  {
    var ind := IndentStr(indent);
    match HeaderLine(n.decl, indent, keyword)
    case Err(e) => Err(e)
    case Ok(h) =>
      match GenChildren(n.children, indent + 1, asIntf)
      case Err(e) => Err(e)
      case Ok(b) => Ok([h, ind + "{"] + b + [ind + "}", ind])
  }

  /** The lines of the children in order, the first exception ending the walk. */
  function GenChildren(cs: seq<Node>, indent: nat, asIntf: bool): Result<seq<string>, Failure>
    decreases cs
  {
    if cs == [] then Ok([])
    else
      match GenChildren(cs[..|cs| - 1], indent, asIntf)
      case Err(e) => Err(e)
      case Ok(a) =>
        match Gen(cs[|cs| - 1], indent, asIntf)
        case Err(e) => Err(e)
        case Ok(b) => Ok(a + b)
  }

  // ---------------------------------------------------------------- properties of the walk

  /** asIntf changes only the lines of a function; every other element ignores it. */
  lemma AsIntfOnlyFunctions(n: Node, indent: nat)
    requires n.decl.kind != Func
    ensures Gen(n, indent, true) == Gen(n, indent, false)
  {
  }

  /**
   * A class generates its functions with bodies whatever asIntf it is given,
   * under any parent; so inside an interface, whose children get asIntf, the
   * flag stops at the interface's direct children.
   */
  lemma AsIntfStopsAtDirectChildren(cls: Node, indent: nat)
    requires cls.decl.kind == Class
    ensures Gen(cls, indent, true) == ClassLike(cls, indent, "class ", false)
  {
  }

  /** The element kinds without a generator raise NotImplementedError. */
  lemma UnsupportedKindsRaise(n: Node, indent: nat, asIntf: bool)
    requires n.decl.kind == Other || n.decl.kind == DocCommentMulti
    ensures Gen(n, indent, asIntf) == Err(NotImplemented)
  {
  }

  /**
   * The children of a structure or an enumeration fail exactly when one of
   * them is a multi-line comment, and then with NotImplementedError.
   */
  lemma {:induction false} MembersFailOnMulti(cs: seq<Node>, indent: nat, isEnum: bool)
    ensures MembersLines(cs, indent, isEnum).Err? <==> exists j | 0 <= j < |cs| :: cs[j].decl.kind == DocCommentMulti
    ensures MembersLines(cs, indent, isEnum).Err? ==> MembersLines(cs, indent, isEnum).error == NotImplemented
    decreases |cs|
  {
    if cs != [] {
      var init := cs[..|cs| - 1];
      MembersFailOnMulti(init, indent, isEnum);
      assert forall j | 0 <= j < |init| :: init[j] == cs[j];
      if MembersLines(init, indent, isEnum).Err? {
        var j :| 0 <= j < |init| && init[j].decl.kind == DocCommentMulti;
        assert cs[j].decl.kind == DocCommentMulti;
      }
    }
  }

  /**
   * Structures, enumerations and namespaces put their braces in column 0
   * whatever the indent; classes and interfaces indent theirs.
   */
  lemma BraceIndentation(n: Node, indent: nat, asIntf: bool)
    requires Gen(n, indent, asIntf).Ok?
    ensures var r := Gen(n, indent, asIntf).value;
      (n.decl.kind == Struct || n.decl.kind == Enum || n.decl.kind == NameSpace ==>
         |r| >= 3 && r[1] == "{" && r[|r| - 1] == "}") &&
      (n.decl.kind == Class || n.decl.kind == Interface ==>
         |r| >= 4 && r[1] == IndentStr(indent) + "{" && r[|r| - 2] == IndentStr(indent) + "}" && r[|r| - 1] == IndentStr(indent))
  {
  }

  /** With only `implements` present, the header adds ` : ` and the interfaces joined with `, `. */
  lemma ImplementsOnlyHeader(others: map<string, seq<string>>)
    requires "super" !in others && "implements" in others
    ensures InheritStr(others) == Ok(" : " + Join(", ", others["implements"]))
  {
  }

  /** Without "super", an `extends` entry is never read; with it, its absence raises KeyError. */
  lemma ExtendsReadOnlyUnderSuper(others: map<string, seq<string>>)
    ensures "super" !in others ==> InheritStr(others) == InheritStr(others - {"extends"})
    ensures "super" in others && "extends" in others && "implements" !in others ==>
      InheritStr(others) == Ok(" : " + Join(", ", others["extends"]))
  {
  }

  // ---------------------------------------------------------------- lists of children

  /** The children up to i + 1 continue those up to i with child i. */
  lemma GenChildrenSnoc(cs: seq<Node>, i: nat, indent: nat, asIntf: bool)
    requires i < |cs|
    ensures GenChildren(cs[..i], indent, asIntf).Err? ==>
              GenChildren(cs[..i + 1], indent, asIntf) == GenChildren(cs[..i], indent, asIntf)
    ensures GenChildren(cs[..i], indent, asIntf).Ok? ==>
              GenChildren(cs[..i + 1], indent, asIntf) == Appended(GenChildren(cs[..i], indent, asIntf).value, Gen(cs[i], indent, asIntf))
  {
    TakeOfTake(cs, i);
  }

  /** A failure among the first i children is the failure of all of them. */
  lemma {:induction false} GenChildrenErrSticks(cs: seq<Node>, i: nat, indent: nat, asIntf: bool)
    requires i <= |cs| && GenChildren(cs[..i], indent, asIntf).Err?
    ensures GenChildren(cs, indent, asIntf) == GenChildren(cs[..i], indent, asIntf)
    decreases |cs| - i
  {
    if i < |cs| {
      GenChildrenSnoc(cs, i, indent, asIntf);
      GenChildrenErrSticks(cs, i + 1, indent, asIntf);
    } else {
      TakeEnds(cs);
    }
  }

  /** The members up to i + 1 continue those up to i with member i. */
  lemma MembersSnoc(cs: seq<Node>, i: nat, indent: nat, isEnum: bool)
    requires i < |cs|
    ensures MembersLines(cs[..i], indent, isEnum).Err? ==>
              MembersLines(cs[..i + 1], indent, isEnum) == MembersLines(cs[..i], indent, isEnum)
    ensures MembersLines(cs[..i], indent, isEnum).Ok? ==>
              MembersLines(cs[..i + 1], indent, isEnum) == Appended(MembersLines(cs[..i], indent, isEnum).value, MemberLines(cs[i].decl, indent, isEnum))
  {
    TakeOfTake(cs, i);
  }

  /** A failure among the first i members is the failure of all of them. */
  lemma {:induction false} MembersErrSticks(cs: seq<Node>, i: nat, indent: nat, isEnum: bool)
    requires i <= |cs| && MembersLines(cs[..i], indent, isEnum).Err?
    ensures MembersLines(cs, indent, isEnum) == MembersLines(cs[..i], indent, isEnum)
    decreases |cs| - i
  {
    if i < |cs| {
      MembersSnoc(cs, i, indent, isEnum);
      MembersErrSticks(cs, i + 1, indent, isEnum);
    } else {
      TakeEnds(cs);
    }
  }

  /** The lines of g after those already in the list; an exception leaves no list. */
  function Appended(lines: seq<string>, g: Result<seq<string>, Failure>): Result<seq<string>, Failure> {
    match g
    case Err(e) => Err(e)
    case Ok(l) => Ok(lines + l)
  }

  /** The subtree of e: its own fields, and one subtree per member, one level less deep. */
  lemma ChildTrees(e: CodeElement, d: nat)
    requires Within(e, d + 1)
    ensures Tree(e, d).decl == e.Snapshot() && |Tree(e, d).children| == |e.childs.members|
    ensures e.childs.members != [] ==> d > 0
    ensures forall i | 0 <= i < |e.childs.members| ::
      d > 0 && Tree(e, d).children[i] == Tree(e.childs.members[i], d - 1) && Within(e.childs.members[i], d) &&
      Tree(e, d).children[i].decl == e.childs.members[i].Snapshot()
  {
    if e.childs.members != [] {
      assert e.childs.members[0] in e.childs.members;
    }
    if d > 0 {
      TreesLength(e.childs.members, d - 1);
      forall i | 0 <= i < |e.childs.members|
        ensures Tree(e, d).children[i] == Tree(e.childs.members[i], d - 1) && Within(e.childs.members[i], d)
      {
        assert e.childs.members[i] in e.childs.members;
        TreesAt(e.childs.members, d - 1, i);
      }
    }
  }

  /** The members' own fields, one per subtree: all a structure or an enumeration prints of them. */
  lemma ChildDecls(e: CodeElement, d: nat)
    requires Within(e, d + 1)
    ensures |Tree(e, d).children| == |e.childs.members|
    ensures forall i | 0 <= i < |e.childs.members| :: Tree(e, d).children[i].decl == e.childs.members[i].Snapshot()
  {
    ChildTrees(e, d);
  }

  // ---------------------------------------------------------------- the walk on the heap

  /** _get_value_str, with its loop over the characters. */
  method GetValueStr(value: string, isStr: bool) returns (r: string)
    ensures r == ValueStr(value, isStr)
  {
    if !isStr {
      return value;
    }
    var escaped := "";
    var i := 0;
    while i < |value|
      invariant 0 <= i <= |value|
      invariant escaped == Escaped(value[..i])
    {
      assert value[..i + 1] == value[..i] + [value[i]];
      EscapedSnoc(value[..i], value[i]);
      escaped := escaped + EscapeChar(value[i]);
      i := i + 1;
    }
    assert value[..i] == value;
    r := "\"" + escaped + "\"";
  }

  /** _get_args_str_core: one argument, its default value printed by GetValueStr. */
  method GetArgStr(a: Argument) returns (r: string)
    ensures r == ArgStr(a)
  {
    var valRef := ValRefStr(a);
    if a.isOptional {
      var defaultValue := GetValueStr(a.defaultValue, a.isStr);
      r := valRef + a.argType + " " + a.name + " = " + defaultValue;
    } else {
      r := valRef + a.argType + " " + a.name;
    }
  }

  /** _get_args_str: the first argument, then `, ` and each further one. */
  method GetArgsStr(args: seq<Argument>) returns (r: string)
    ensures r == ArgsStr(args)
  {
    if |args| == 0 {
      return "";
    }
    r := GetArgStr(args[0]);
    ArgsStrFirst(args);
    var i := 1;
    while i < |args|
      invariant 1 <= i <= |args|
      invariant r == ArgsStr(args[..i])
    {
      var item := GetArgStr(args[i]);
      ArgsStrStep(args, i);
      r := r + ", " + item;
      i := i + 1;
    }
    TakeEnds(args);
  }

  /** The first argument alone is printed as itself. */
  lemma ArgsStrFirst(args: seq<Argument>)
    requires |args| > 0
    ensures ArgsStr(args[..1]) == ArgStr(args[0])
  {
    assert ArgTexts(args[..1]) == [ArgStr(args[0])];
  }

  /** The arguments up to i + 1: those up to i, `, `, then argument i. */
  lemma ArgsStrStep(args: seq<Argument>, i: nat)
    requires 1 <= i < |args|
    ensures ArgsStr(args[..i + 1]) == ArgsStr(args[..i]) + ", " + ArgStr(args[i])
  {
    var before := ArgTexts(args[..i]);
    assert ArgTexts(args[..i + 1]) == before + [ArgStr(args[i])];
    JoinAppend(", ", before, [ArgStr(args[i])]);
  }

  /** _generate_var. */
  method GenerateVar(lines: seq<string>, indent: nat, e: CodeElement) returns (r: seq<string>)
    ensures r == lines + VarLines(e.Snapshot(), indent)
  {
    var indentStr := IndentStr(indent);
    var tail := " " + e.name + ";";
    r := lines + [indentStr + AccessStr(e.accessibility) + StaticStr(e.isStatic) + e.returnType + tail];
    r := r + [indentStr];
  }

  /** _generate_const. */
  method GenerateConst(lines: seq<string>, indent: nat, e: CodeElement) returns (r: seq<string>)
    ensures r == lines + ConstLines(e.Snapshot(), indent)
  {
    var indentStr := IndentStr(indent);
    var value := GetValueStr(e.value, e.isStr);
    var tail := " = " + value + ";";
    r := lines + [indentStr + AccessStr(e.accessibility) + "const " + e.returnType + " " + e.name + tail];
    r := r + [indentStr];
  }

  /** _generate_doc_line. */
  method GenerateDocLine(lines: seq<string>, indent: nat, e: CodeElement) returns (r: seq<string>)
    ensures r == lines + DocLines(e.Snapshot(), indent)
  {
    r := lines + [IndentStr(indent) + "///" + e.value];
  }

  /** _generate_func. */
  method GenerateFunc(lines: seq<string>, indent: nat, e: CodeElement, asIntf: bool) returns (r: seq<string>)
    ensures r == lines + FuncLines(e.Snapshot(), indent, asIntf)
  {
    var indentStr := IndentStr(indent);
    var args := GetArgsStr(e.arguments);
    var signature := AccessStr(e.accessibility) + StaticStr(e.isStatic) + e.returnType + " " + e.name + "(" + args + ")";
    if asIntf {
      r := lines + [indentStr + signature + ";", indentStr];
    } else {
      r := lines + [indentStr + signature, indentStr + "{", indentStr + "}", indentStr];
    }
  }

  /** _generate_property. */
  method GenerateProperty(lines: seq<string>, indent: nat, e: CodeElement) returns (r: Result<seq<string>, Failure>)
    ensures r == Appended(lines, PropertyLines(e.Snapshot(), indent))
  {
    var getset := GetSetStr(e.Snapshot());
    if getset.Err? {
      return Err(getset.error);
    }
    var line := IndentStr(indent) + PropertyDecl(e.Snapshot()) + " { " + getset.value + " })";
    return Ok(lines + [line]);
  }

  /** One child of a structure or enumeration, as _generate_struct and _generate_enum print it. */
  method GenerateMember(lines: seq<string>, indent: nat, c: CodeElement, isEnum: bool) returns (r: Result<seq<string>, Failure>)
    ensures r == Appended(lines, MemberLines(c.Snapshot(), indent, isEnum))
  {
    var mem := IndentStr(indent + 1);
    if c.kind == DocCommentLine {
      var out := GenerateDocLine(lines, indent + 1, c);
      return Ok(out);
    } else if c.kind == DocCommentMulti {
      return Err(NotImplemented);
    } else if isEnum {
      var mid := if c.value == "" then "" else " = " + c.value;
      return Ok(lines + [mem + c.name + mid + ","]);
    }
    return Ok(lines + [mem + "public " + c.returnType + " " + c.name + ";", IndentStr(indent)]);
  }

  /** Member i of e after the lines of the members before it. */
  method GenerateMemberAt(body: seq<string>, indent: nat, e: CodeElement, isEnum: bool, ghost d: nat, i: nat)
    returns (g: Result<seq<string>, Failure>)
    requires Within(e, d + 1) && i < |e.childs.members| == |Tree(e, d).children|
    requires MembersLines(Tree(e, d).children[..i], indent, isEnum) == Ok(body)
    ensures g == MembersLines(Tree(e, d).children[..i + 1], indent, isEnum)
  {
    ChildDecls(e, d);
    g := GenerateMember(body, indent, e.childs.members[i], isEnum);
    MembersSnoc(Tree(e, d).children, i, indent, isEnum);
  }

  /** _generate_struct and _generate_enum: the header, `{`, each child as a member, then `}`. */
  method GenerateMembers(lines: seq<string>, indent: nat, e: CodeElement, isEnum: bool, ghost d: nat)
    returns (r: Result<seq<string>, Failure>)
    requires Within(e, d + 1)
    ensures r == Appended(lines, Block(IndentStr(indent) + AccessStr(e.accessibility) + (if isEnum then "enum " else "struct ") + e.name,
                                       MembersLines(Tree(e, d).children, indent, isEnum), "}"))
  {
    ChildDecls(e, d);
    ghost var kids := Tree(e, d).children;
    var header := IndentStr(indent) + AccessStr(e.accessibility) + (if isEnum then "enum " else "struct ") + e.name;
    var body := [];
    var members := e.childs.members;
    var i := 0;
    while i < |members|
      invariant 0 <= i <= |members| == |kids|
      invariant MembersLines(kids[..i], indent, isEnum) == Ok(body)
    {
      var g := GenerateMemberAt(body, indent, e, isEnum, d, i);
      if g.Err? {
        MembersErrSticks(kids, i + 1, indent, isEnum);
        return Err(g.error);
      }
      body := g.value;
      i := i + 1;
    }
    TakeEnds(kids);
    ConcatBlock(lines, [header, "{"], body, ["}"]);
    r := Ok(lines + [header, "{"] + body + ["}"]);
  }

  /** The children of a class, interface or namespace in order, each walked one level deeper. */
  method GenerateChildren(indent: nat, e: CodeElement, asIntf: bool, ghost d: nat)
    returns (r: Result<seq<string>, Failure>)
    requires Within(e, d + 1)
    ensures r == GenChildren(Tree(e, d).children, indent, asIntf)
    decreases d, 1
  {
    ChildDecls(e, d);
    ghost var kids := Tree(e, d).children;
    var body := [];
    var members := e.childs.members;
    var i := 0;
    while i < |members|
      invariant 0 <= i <= |members| == |kids|
      invariant GenChildren(kids[..i], indent, asIntf) == Ok(body)
    {
      var g := GenerateChildAt(body, indent, e, asIntf, d, i);
      if g.Err? {
        GenChildrenErrSticks(kids, i + 1, indent, asIntf);
        return Err(g.error);
      }
      body := g.value;
      i := i + 1;
    }
    TakeEnds(kids);
    r := Ok(body);
  }

  /** Child i of e after the lines of the children before it. */
  method GenerateChildAt(body: seq<string>, indent: nat, e: CodeElement, asIntf: bool, ghost d: nat, i: nat)
    returns (g: Result<seq<string>, Failure>)
    requires Within(e, d + 1) && i < |e.childs.members| == |Tree(e, d).children|
    requires GenChildren(Tree(e, d).children[..i], indent, asIntf) == Ok(body)
    ensures g == GenChildren(Tree(e, d).children[..i + 1], indent, asIntf)
    decreases d, 0
  {
    ChildTrees(e, d);
    g := GenerateCommon(body, indent, e.childs.members[i], asIntf, d - 1);
    GenChildrenSnoc(Tree(e, d).children, i, indent, asIntf);
  }

  /** Four pieces appended one after another are the first and the other three together. */
  lemma ConcatBlock(lines: seq<string>, a: seq<string>, b: seq<string>, c: seq<string>)
    ensures lines + a + b + c == lines + (a + b + c)
  {
  }

  /** _generate_class and _generate_intf: the header, `{`, the children one level deeper, `}`, then the indent. */
  method GenerateClassLike(lines: seq<string>, indent: nat, e: CodeElement, keyword: string, asIntf: bool, ghost d: nat)
    returns (r: Result<seq<string>, Failure>)
    requires Within(e, d + 1)
    ensures r == Appended(lines, ClassLike(Tree(e, d), indent, keyword, asIntf))
    decreases d, 2
  {
    ChildTrees(e, d);
    var header := HeaderLine(e.Snapshot(), indent, keyword);
    if header.Err? {
      return Err(header.error);
    }
    var indentStr := IndentStr(indent);
    var body := GenerateChildren(indent + 1, e, asIntf, d);
    if body.Err? {
      return Err(body.error);
    }
    ConcatBlock(lines, [header.value, indentStr + "{"], body.value, [indentStr + "}", indentStr]);
    r := Ok(lines + [header.value, indentStr + "{"] + body.value + [indentStr + "}", indentStr]);
  }

  /** _generate_namespace: the header, `{`, the children one level deeper, then `}`. */
  method GenerateNamespace(lines: seq<string>, indent: nat, e: CodeElement, ghost d: nat)
    returns (r: Result<seq<string>, Failure>)
    requires Within(e, d + 1)
    ensures r == Appended(lines, Block(IndentStr(indent) + "namespace " + e.name, GenChildren(Tree(e, d).children, indent + 1, false), "}"))
    decreases d, 2
  {
    ChildTrees(e, d);
    var header := IndentStr(indent) + "namespace " + e.name;
    var body := GenerateChildren(indent + 1, e, false, d);
    if body.Err? {
      return Err(body.error);
    }
    ConcatBlock(lines, [header, "{"], body.value, ["}"]);
    r := Ok(lines + [header, "{"] + body.value + ["}"]);
  }

  /** _generate_common: the generator of the element's kind; OTHER and multi-line comments raise. */
  method GenerateCommon(lines: seq<string>, indent: nat, e: CodeElement, asIntf: bool, ghost d: nat)
    returns (r: Result<seq<string>, Failure>)
    requires Within(e, d + 1)
    ensures r == Appended(lines, Gen(Tree(e, d), indent, asIntf))
    decreases d, 3
  {
    assert Tree(e, d).decl == e.Snapshot();
    var out: seq<string>;
    if e.kind == Var {
      out := GenerateVar(lines, indent, e);
    } else if e.kind == Const {
      out := GenerateConst(lines, indent, e);
    } else if e.kind == Func {
      out := GenerateFunc(lines, indent, e, asIntf);
    } else if e.kind == Struct {
      r := GenerateMembers(lines, indent, e, false, d);
      return;
    } else if e.kind == DocCommentLine {
      out := GenerateDocLine(lines, indent, e);
    } else if e.kind == DocCommentMulti {
      return Err(NotImplemented);
    } else if e.kind == Class {
      r := GenerateClassLike(lines, indent, e, "class ", false, d);
      return;
    } else if e.kind == Interface {
      r := GenerateClassLike(lines, indent, e, "interface ", true, d);
      return;
    } else if e.kind == Enum {
      r := GenerateMembers(lines, indent, e, true, d);
      return;
    } else if e.kind == NameSpace {
      r := GenerateNamespace(lines, indent, e, d);
      return;
    } else if e.kind == Property {
      r := GenerateProperty(lines, indent, e);
      return;
    } else {
      return Err(NotImplemented);
    }
    r := Ok(out);
  }

  /** generate: a fresh list, and the walk from the root of the parse at indent 0. */
  method Generate(parseResult: CodeParseResult, ghost d: nat) returns (r: Result<seq<string>, Failure>)
    requires Within(parseResult.root, d + 1)
    ensures r == Gen(Tree(parseResult.root, d), 0, false)
  {
    r := GenerateCommon([], 0, parseResult.root, false, d);
    ghost var spec := Gen(Tree(parseResult.root, d), 0, false);
    if spec.Ok? {
      assert [] + spec.value == spec.value;
    }
  }
}
