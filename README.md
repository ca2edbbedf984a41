# DoxyVB6 core in Dafny

DoxyVB6 turns Visual Basic 6 modules (`.bas`, `.cls`, `.frm`) into C#
declaration skeletons, so that a documentation tool built for C# can read
them. This project models the three files that do that work and proves
properties of the model:

- **The declaration tree** (`src/DoxyVB6/codeconv.py`), in `codeconv.dfy`
  (module `CodeConv`).
  - `CodeElement` and `CodeElementList` are classes whose fields the
    methods update in place.
  - Every child keeps a reference to its parent. The predicate `Owns` says that it
    agrees with membership, and each list operation keeps it.
  - `CodeElementArgument` is the datatype `Argument`. Its defaults are those
    of the constructor: by value, mandatory, and the sentinel `"default"`.
  - `split_args` is a loop with a partition proof.
- **The VB6 parser** (`src/DoxyVB6/conv_vb6.py`), in four files:
  - `vb6_regex.dfy` (`Vb6Regex`) holds the regular expressions, written as
    recognisers whose word characters and case folding are restricted to ASCII. Each returns the captured groups or
    nothing.
  - `conv_vb6.py`'s pure helpers are in `conv_vb6.dfy` (`ConvVb6`): comment
    stripping, literal extraction, type formatting, the access table, the
    argument rules, and the declarations a matched line becomes.
  - `conv_vb6_parser.dfy` (`ConvVb6Parser`) gives the scan loop of
    `_parse_cls`/`_parse_bas` first as a state machine over values:
    `ScanStep` handles one logical line, `NextState` one physical line, and
    `ScanLines` a whole module. The `Vb6Parser` class then rebuilds the same
    tree on the heap, with the same flags, `target_elem` and `lastProperty`
    variables, and each method is proved to produce the value model's tree.
  - `scan_properties.dfy` (`ScanProperties`) holds the lemmas about the scan.
  - `vb6_accept.dfy` (`Vb6Accept`) proves, for each recogniser, that whole
    families of lines match and what they capture: headers, declarations,
    enumeration members, arguments, `Implements` and `VB_Name`.
  - `line_marks.dfy` (`LineMarks`) does the same for the comment lines, the
    `'# Interface` tag and the lines that close a block.
  - `accepted_lines.dfy` (`AcceptedLines`) follows such lines through the
    scan and states the element each one adds. It also follows a property's
    getter and setter, in either order, to the single property they leave.
- **The C# generator** (`src/DoxyVB6/conv_csharp.py`), in `conv_csharp.dfy`
  (module `ConvCsharp`).
  - `Gen` is the output of an element tree, as a pure function over `Node`
    values.
  - The `Generate*` methods walk the `CodeElement` heap the way the
    `_generate_*` methods do. Each is proved to return the lines `Gen`
    gives for the element's subtree (`Tree(e, d)`).
- **Parser and generator together**: `pipeline.dfy` (`Pipeline`) proves that
  the generator raises on every tree the parser returns.

Exceptions are values of the datatype `Failure` (`IndexError`,
`KeyError(key)`, `NotImplemented`, `CannotGenerate(message)`), returned in a
`Result` or `Outcome`.

The source's quirks are kept as written:
- the keyword `Grobal`;
- no property handling in standard modules;
- closing keywords defeated by leading blanks;
- the extra argument on variables;
- the unguarded `arguments[0]` and `args_list[0]`;
- properties ending with ` })`;
- the `"super"`/`"extends"` mismatch;
- `as_intf` reaching only an interface's direct children;
- a root of kind OTHER that the generator cannot dispatch.

## Model

| member | source | states |
|---|---|---|
| CodeConv.CodeElementList.constructor | src/DoxyVB6/codeconv.py:96-105 | A new list belongs to the given element and has no members. |
| CodeConv.CodeElementList.Length | src/DoxyVB6/codeconv.py:130-131 | `len` is the number of members. |
| CodeConv.CodeElementList.Contains | src/DoxyVB6/codeconv.py:127-128 | `in` holds exactly when some position holds that element. |
| CodeConv.CodeElementList.Get | src/DoxyVB6/codeconv.py:116-117 | `lst[k]` returns member k for 0 <= k < n and member k + n for -n <= k < 0. Any other key is an IndexError. |
| CodeConv.CodeElementList.Append | src/DoxyVB6/codeconv.py:136-144 | The element's parent becomes the owner. The element becomes the last member, the earlier members are unchanged, and the parent invariant `Owns` is kept. |
| CodeConv.CodeElementList.Insert | src/DoxyVB6/codeconv.py:146-155 | The element's parent becomes the owner. The element is placed at Python's clamped insert position, the members after it shift right, and `Owns` is kept. |
| CodeConv.CodeElementList.SetItem | src/DoxyVB6/codeconv.py:119-121 | The new element's parent is set even when the key is out of range; the list is then unchanged and the result is IndexError. Otherwise exactly that position is replaced. The replaced element keeps its parent. |
| CodeConv.CodeElementList.DelItem | src/DoxyVB6/codeconv.py:123-125 | An out-of-range key fails with IndexError and changes nothing. Otherwise the element's parent becomes None and exactly that position is removed. Every other parent is unchanged. |
| CodeConv.CodeElementList.Clear | src/DoxyVB6/codeconv.py:157-161 | The list is empty and every former member's parent is None. |
| CodeConv.CodeElement.constructor | src/DoxyVB6/codeconv.py:167-201 | A new element has the given fields. The defaults are return type "void", not static, UNDEF, value "" and not a string. It has no parent and no arguments, and a new empty child list that it owns. |
| CodeConv.PyIndex | src/DoxyVB6/codeconv.py:116-125 | A key refers to a position exactly when -n <= key < n. That position is the key itself or key + n. |
| CodeConv.InsertPosition | src/DoxyVB6/codeconv.py:146-155 | Python's `list.insert` position: an index in range is kept, a negative index counts from the end, and indices past either end clamp to that end. |
| CodeConv.SelectAppend | src/DoxyVB6/codeconv.py:319-332 | Selecting one group from a concatenation concatenates the selections, so input order is kept. |
| CodeConv.SelectMembers | src/DoxyVB6/codeconv.py:319-332 | Every selected argument belongs to the group and comes from the input. |
| CodeConv.SelectPartition | src/DoxyVB6/codeconv.py:319-332 | The four groups together are a permutation (as multisets) of the input. |
| CodeConv.SelectSizes | src/DoxyVB6/codeconv.py:319-332 | The four group sizes add up to the number of arguments. |
| CodeConv.SplitArgs | src/DoxyVB6/codeconv.py:301-334 | Each argument goes to one list, chosen by the first true flag among optional, vlargs and kwargs, else mandatory. Order is kept within each list, the sizes add up to the input length, and the lists together are a permutation of the input. |
| ConvCsharp.IndentStr | src/DoxyVB6/conv_csharp.py:78-80 | The indent is exactly 4 × depth blanks. |
| ConvCsharp.IndentDeeper | src/DoxyVB6/conv_csharp.py:78-80 | One level deeper is the same indent followed by four blanks. |
| ConvCsharp.AccessStr | src/DoxyVB6/conv_csharp.py:82-94 | The modifier is empty exactly for UNDEF. Otherwise it ends with a blank. |
| ConvCsharp.AccessStrInjective | src/DoxyVB6/conv_csharp.py:82-94 | Different accessibilities print differently, so the modifier determines the accessibility. |
| ConvCsharp.StaticStr | src/DoxyVB6/conv_csharp.py:96-101 | The text is `static ` exactly when the element is static, and empty otherwise. |
| ConvCsharp.ValRefStr | src/DoxyVB6/conv_csharp.py:129-134 | The text is `ref ` exactly for a by-reference argument, and empty otherwise. |
| ConvCsharp.EscapeChar | src/DoxyVB6/conv_csharp.py:17-29 | A character of the ten-entry table becomes a backslash and its letter, which reads back as that character. Any other character is kept. |
| ConvCsharp.Escaped | src/DoxyVB6/conv_csharp.py:116-125 | Defined as the EscapeChar texts of the characters, in order. UnescapeEscaped proves that reading the escapes back gives the original text, and EscapedNoControl that no control character of the table survives. |
| ConvCsharp.ValueStr | src/DoxyVB6/conv_csharp.py:103-127 | A non-string value is printed verbatim. A string value is printed between double quotes. |
| ConvCsharp.UnescapeEscaped | src/DoxyVB6/conv_csharp.py:103-127 | Reading the escaped text back as C# simple escapes gives the original value: escaping loses nothing. |
| ConvCsharp.EscapedNoControl | src/DoxyVB6/conv_csharp.py:17-29 | The escaped text contains none of the table's control characters. |
| ConvCsharp.GetValueStr | src/DoxyVB6/conv_csharp.py:103-127 | The character loop computes ValueStr: quoting, and the table escapes in order. |
| ConvCsharp.ArgStr | src/DoxyVB6/conv_csharp.py:139-148 | One argument prints as `[ref ]type name`. Only an optional argument adds ` = ` and its value as ValueStr prints it. |
| ConvCsharp.ArgsStr | src/DoxyVB6/conv_csharp.py:136-160 | Defined as the ArgStr texts of the arguments joined by `, `. ArgsStrEmpty proves it is empty exactly when there are no arguments, ArgsStrAppend that two non-empty lists are joined by exactly one `, `, and GetArgsStr that the loop computes it. |
| ConvCsharp.ArgsStrEmpty | src/DoxyVB6/conv_csharp.py:136-160 | The argument text is empty exactly when there are no arguments. |
| ConvCsharp.ArgsStrAppend | src/DoxyVB6/conv_csharp.py:136-160 | The texts of two non-empty argument lists are joined by exactly one `, `. |
| ConvCsharp.GetArgStr | src/DoxyVB6/conv_csharp.py:139-148 | `_get_args_str_core` computes ArgStr. |
| ConvCsharp.GetArgsStr | src/DoxyVB6/conv_csharp.py:136-160 | The loop produces the arguments' texts joined by `, `, and nothing when there are none. |
| ConvCsharp.GetSetStr | src/DoxyVB6/conv_csharp.py:162-176 | The call raises CannotGenerateException, with its message, exactly when there is neither a getter (return type other than void or "") nor a setter (an argument). Otherwise the text starts with `get;` exactly when there is a getter and ends with `set;` exactly when there is a setter. |
| ConvCsharp.VarLines | src/DoxyVB6/conv_csharp.py:178-188 | A field is two lines. The first is the indent, the access and static modifiers as AccessStr and StaticStr print them, the type, a blank, the name and `;`. The second is the indent alone. |
| ConvCsharp.ConstLines | src/DoxyVB6/conv_csharp.py:190-200 | A constant is two lines. The first is the indent, the access modifier, `const `, the type, the name, ` = `, the value as ValueStr prints it, and `;`. The second is the indent alone. |
| ConvCsharp.Signature | src/DoxyVB6/conv_csharp.py:213-238 | A function signature is the access and static modifiers, the return type, a blank, the name, and the argument text ArgsStr prints between parentheses. |
| ConvCsharp.DocLines | src/DoxyVB6/conv_csharp.py:202-206 | A documentation line is exactly indent + `///` + text. |
| ConvCsharp.FuncLines | src/DoxyVB6/conv_csharp.py:213-238 | In interface mode a function is two lines: the indent, the Signature and `;`, then the indent. Otherwise it is four: the indent and the Signature, `{` and `}` at the indent, then the indent. |
| ConvCsharp.PropertyLines | src/DoxyVB6/conv_csharp.py:240-250 | A property fails exactly when GetSetStr does, with its error. Otherwise it is one line: the indent, the access and static modifiers, the type and the name, then ` { `, GetSetStr's accessors and ` })`. |
| ConvCsharp.MemberLines | src/DoxyVB6/conv_csharp.py:252-293 | A member of a struct or enum fails exactly for a multi-line comment (NotImplementedError). A doc line is one level deeper. An enum member is one line one level deeper: `name,` when its value is empty, else `name = value,`. A struct field is `public type name;` one level deeper, then the struct's indent. |
| ConvCsharp.InheritStr | src/DoxyVB6/conv_csharp.py:301-312 | The inheritance text raises KeyError("extends") exactly when "super" is present and "extends" is not. |
| ConvCsharp.HeaderLine | src/DoxyVB6/conv_csharp.py:295-351 | A class or interface header fails exactly when InheritStr does, with its error. Otherwise it is the indent, access, static, keyword and name followed by InheritStr's text. |
| ConvCsharp.Block | src/DoxyVB6/conv_csharp.py:252-293 | A failing body fails the block. Otherwise the block is the header, an unindented `{`, the body, then the closing line. |
| ConvCsharp.MembersLines | src/DoxyVB6/conv_csharp.py:252-293 | Defined as the MemberLines of the children of a structure or enumeration, in order, the first exception ending the walk. MembersErrSticks proves the first failure is the result, MembersFailOnMulti that it fails exactly when some member is a multi-line comment, and GenerateMembers that the heap loop equals it. |
| ConvCsharp.Gen | src/DoxyVB6/conv_csharp.py:46-76 | The reference for `_generate_common`, defined by dispatch on the kind: VarLines, ConstLines, FuncLines in the given mode, a struct or enum Block over MembersLines, DocLines, ClassLike for a class or an interface, a namespace block one level deeper, PropertyLines, and NotImplementedError for OTHER and multi-line comments. AsIntfOnlyFunctions, AsIntfStopsAtDirectChildren, UnsupportedKindsRaise and BraceIndentation state its properties, and GenerateCommon and Generate prove the heap methods equal to it. |
| ConvCsharp.ClassLike | src/DoxyVB6/conv_csharp.py:295-351 | Defined as HeaderLine, `{` at the indent, GenChildren one level deeper in the given mode, then `}` and the indent alone; an exception from the header or a child is the result. GenerateClassLike proves the heap method equal to it. |
| ConvCsharp.GenChildren | src/DoxyVB6/conv_csharp.py:319-320 | Defined as the Gen lines of the children, in order, the first exception ending the walk. GenChildrenErrSticks proves that the first exception is the result, and GenerateChildren that the heap loop equals it. |
| ConvCsharp.AsIntfOnlyFunctions | src/DoxyVB6/conv_csharp.py:46-76 | Interface mode changes only the lines of a function. Every other kind prints the same either way. |
| ConvCsharp.AsIntfStopsAtDirectChildren | src/DoxyVB6/conv_csharp.py:295-351 | A class that is a direct child of an interface prints as an ordinary class: its functions have bodies. |
| ConvCsharp.UnsupportedKindsRaise | src/DoxyVB6/conv_csharp.py:46-76 | Kind OTHER and multi-line comments raise NotImplementedError. |
| ConvCsharp.MembersFailOnMulti | src/DoxyVB6/conv_csharp.py:252-293 | A struct's or enum's members fail exactly when some member is a multi-line comment, and then with NotImplementedError. |
| ConvCsharp.BraceIndentation | src/DoxyVB6/conv_csharp.py:252-361 | Struct, enum and namespace braces sit in column 0. Class and interface braces are at the element's indent, followed by a line holding only the indent. |
| ConvCsharp.ImplementsOnlyHeader | src/DoxyVB6/conv_csharp.py:301-312 | With "implements" and no "super", the header adds ` : ` and the interface names joined by `, `. |
| ConvCsharp.ExtendsReadOnlyUnderSuper | src/DoxyVB6/conv_csharp.py:301-304 | Without "super", an "extends" entry is never read. With "super" and "extends" (and no implements), the header has ` : ` and the extends names. |
| ConvCsharp.GenChildrenErrSticks | src/DoxyVB6/conv_csharp.py:319-320 | The first exception among the children is the result of the whole walk. |
| ConvCsharp.MembersErrSticks | src/DoxyVB6/conv_csharp.py:262-268 | The first failing member is the result for the whole struct or enum. |
| ConvCsharp.GenerateVar | src/DoxyVB6/conv_csharp.py:178-188 | The element's lines are appended: VarLines of its fields. |
| ConvCsharp.GenerateConst | src/DoxyVB6/conv_csharp.py:190-200 | ConstLines of the element are appended. |
| ConvCsharp.GenerateDocLine | src/DoxyVB6/conv_csharp.py:202-206 | DocLines of the element are appended. |
| ConvCsharp.GenerateFunc | src/DoxyVB6/conv_csharp.py:213-238 | FuncLines of the element, in the given mode, are appended. |
| ConvCsharp.GenerateProperty | src/DoxyVB6/conv_csharp.py:240-250 | PropertyLines of the element are appended, or its exception is returned. |
| ConvCsharp.GenerateMember | src/DoxyVB6/conv_csharp.py:252-293 | One member of a struct or enum is appended as MemberLines prints it, or its exception is returned. |
| ConvCsharp.GenerateMembers | src/DoxyVB6/conv_csharp.py:252-293 | `_generate_struct`/`_generate_enum` over the heap append the header, `{`, each member in order, then `}`, or return the first exception. |
| ConvCsharp.GenerateMemberAt | src/DoxyVB6/conv_csharp.py:262-268 | One pass of the member loop extends MembersLines of the members before it by member i. |
| ConvCsharp.GenerateChildren | src/DoxyVB6/conv_csharp.py:319-320 | The heap walk over the children gives exactly GenChildren of the element's subtree. |
| ConvCsharp.GenerateChildAt | src/DoxyVB6/conv_csharp.py:319-320 | One pass of the child loop extends GenChildren of the children before it by child i. |
| ConvCsharp.GenerateClassLike | src/DoxyVB6/conv_csharp.py:295-351 | `_generate_class`/`_generate_intf` over the heap append ClassLike of the element's subtree: the header, the indented braces around the children one level deeper, then the indent. |
| ConvCsharp.GenerateNamespace | src/DoxyVB6/conv_csharp.py:353-361 | `_generate_namespace` over the heap appends the header, an unindented `{`, the children one level deeper, then `}`. |
| ConvCsharp.GenerateCommon | src/DoxyVB6/conv_csharp.py:46-76 | Dispatch on the heap appends exactly Gen of the element's subtree, or returns its exception. |
| ConvCsharp.Generate | src/DoxyVB6/conv_csharp.py:32-44 | `generate` returns Gen of the root's subtree at indent 0, starting from a fresh list. |
| ConvVb6.StripComments | src/DoxyVB6/conv_vb6.py:382-388 | The code is a prefix of the line. When it is shorter, the next character is the first apostrophe outside double-quoted runs. When it is the whole line, every apostrophe lies inside quotes. |
| ConvVb6.Continues | src/DoxyVB6/conv_vb6.py:220 | Defined as: the comment pattern does not match the line and the line ends with ` _` and a line feed. ContinuedLineJoined and CommentedLineNotJoined state what the scan does with such a line and with a commented one. |
| ConvVb6.ReplaceDoubled | src/DoxyVB6/conv_vb6.py:493 | Defined as `str.replace('""', '"')`: scanning left to right, each doubled quote becomes one and every other character is kept. ReplaceDoubledOfDoubleQuotes and DoubleQuotesOfReplaceDoubled prove it is the inverse of VB6's quote doubling. |
| ConvVb6.ReplaceDoubledOfDoubleQuotes | src/DoxyVB6/conv_vb6.py:493 | Replacing `""` by `"` undoes VB6's quote doubling. |
| ConvVb6.DoubleQuotesOfReplaceDoubled | src/DoxyVB6/conv_vb6.py:493 | On the interior of a literal the pattern accepts, doubling undoes the replacement. |
| ConvVb6.DoubleQuotesIsQuotedBody | src/DoxyVB6/conv_vb6.py:34 | Doubling quotes gives text the string-literal pattern accepts between quotes. |
| ConvVb6.ExtractStringLiteral | src/DoxyVB6/conv_vb6.py:477-497 | None gives ("", false). Text is a string exactly when it starts with `"`. A string loses its first and last characters and has `""` replaced by `"`. Anything else is returned unchanged. |
| ConvVb6.ExtractOfQuoted | src/DoxyVB6/conv_vb6.py:477-497 | Quoting a value as a VB6 literal and extracting it returns the value, flagged as a string. |
| ConvVb6.QuotedOfExtract | src/DoxyVB6/conv_vb6.py:477-497 | Every accepted string literal is the quoted form of the value extracted from it. |
| ConvVb6.FormatArrayType | src/DoxyVB6/conv_vb6.py:499-526 | An empty or absent type gives `Variant`. `[]` is appended exactly when the stripped array suffix is non-empty. |
| ConvVb6.FormatArrayTypeMarksArrays | src/DoxyVB6/conv_vb6.py:499-526 | For captured type names, the formatted type ends in `[]` exactly when an array suffix was given. |
| ConvVb6.GetAccessibility | src/DoxyVB6/conv_vb6.py:457-475 | Empty or absent text takes the default. Otherwise: private → PRIVATE; grobal and public → PUBLIC; friend → INTERNAL; static → PUBLIC and static. Any other text gives no result. |
| ConvVb6.CapturedAccessKnown | src/DoxyVB6/conv_vb6.py:457-475 | An access keyword a recogniser captured always has an accessibility, whether stripped or not. |
| ConvVb6.ArgumentOf | src/DoxyVB6/conv_vb6.py:418-451 | One argument is by reference unless ByVal, optional exactly with Optional and variadic exactly with ParamArray. It keeps the "default" sentinel unless the default text is non-empty or a string literal. Name and type are stripped, and the type is formatted. |
| ConvVb6.Arguments | src/DoxyVB6/conv_vb6.py:416-453 | One argument per match, in order: its contract gives the count, and ArgumentsFromMatches that argument i is ArgumentOf of match i. |
| ConvVb6.ArgumentsOf | src/DoxyVB6/conv_vb6.py:390-455 | Defined as Arguments of the findall matches (FindAllArgs) in the stripped text, an absent text counting as "". EmptyArgumentList, NoWordNoArgs, AcceptedLines.TypedArgumentList and AcceptedLines.PassingArgumentList state what it yields. |
| ConvVb6.NoWordNoArgs | src/DoxyVB6/conv_vb6.py:413 | Text without a word character yields no argument match. |
| ConvVb6.EmptyArgumentList | src/DoxyVB6/conv_vb6.py:390-455 | An absent or blank argument list (as `()` captures it) yields no arguments. |
| ConvVb6.ArgumentsFromMatches | src/DoxyVB6/conv_vb6.py:416-453 | The loop makes one argument per match, in order: argument i is ArgumentOf of match i. |
| ConvVb6.BuildArgsList | src/DoxyVB6/conv_vb6.py:390-455 | `_build_args_list` returns the arguments of the stripped text (None counts as empty), in findall's order. |
| ConvVb6.MatchedMemberAccess | src/DoxyVB6/conv_vb6.py:600-610 | Whenever the member pattern matches, its access text has an accessibility. |
| ConvVb6.MatchedAccess | src/DoxyVB6/conv_vb6.py:663-665 | An optional access group captured by a header pattern always has an accessibility. |
| ConvVb6.MemberDecl | src/DoxyVB6/conv_vb6.py:588-646 | With `Const`, the line gives a CONST element holding the extracted value and string flag. Otherwise it gives a VAR element with value "" and one by-value argument of the variable's type. The type is formatted, the default access is private, and the static flag is dropped. |
| ConvVb6.MemberConstIffKeyword | src/DoxyVB6/conv_vb6.py:602-632 | A matched declaration is a constant exactly when it has a Const keyword. |
| ConvVb6.FunctionDecl | src/DoxyVB6/conv_vb6.py:648-682 | A Function header gives a FUNC element with the formatted return type, the access and static flag, and the arguments. |
| ConvVb6.SubDecl | src/DoxyVB6/conv_vb6.py:692-720 | A Sub header gives a FUNC element returning void, with the access and static flag and the arguments. |
| ConvVb6.BlockDecl | src/DoxyVB6/conv_vb6.py:730-789 | A Type or Enum header gives a STRUCT or ENUM element with the access. The static flag is not kept. |
| ConvVb6.EnumMemberDecl | src/DoxyVB6/conv_vb6.py:798-812 | An enum member gives a CONST element with UNDEF access, whose value is "" when none is given. |
| ConvVb6.DocDecl | src/DoxyVB6/conv_vb6.py:577-586 | Defined as the DOC_COMMENT_LINE element with an empty name and the comment text as its value, every other field at its default. FoundDoxyComment and ScanProperties.DocCommentFirst state when it is appended. |
| ConvVb6.GetterDecl | src/DoxyVB6/conv_vb6.py:849-857 | A new getter is a PROPERTY with the getter's formatted type, its access and static flag, and no arguments. |
| ConvVb6.SetterDecl | src/DoxyVB6/conv_vb6.py:886-894 | A new setter is a PROPERTY returning void whose only argument is the setter's first. An empty argument list raises IndexError. |
| ConvVb6.MergeGetter | src/DoxyVB6/conv_vb6.py:846-848 | A getter merged into lastProperty sets its return type to its first argument's type. A property without arguments raises IndexError. |
| ConvVb6.MergeSetter | src/DoxyVB6/conv_vb6.py:881-885 | A setter merged into lastProperty: a property without arguments takes the setter's first, then the return type becomes the first argument's type. IndexError when neither has an argument. |
| ConvVb6.PropertyPairCollapses | src/DoxyVB6/conv_vb6.py:846-894 | Get then Set/Let of the same name, or the reverse, leaves one property whose only argument is the setter's first and whose return type is that argument's type. The two orders differ only in whose access is kept. |
| ConvVb6.GetterTwiceFails | src/DoxyVB6/conv_vb6.py:846-847 | A second getter of the same name raises IndexError, because the getter it merges into has no argument. |
| Vb6Regex.CommentStartMeaning | src/DoxyVB6/conv_vb6.py:122 | The comment starts at the first apostrophe outside double-quoted runs (a doubled quote keeps the run open). When there is none, every apostrophe is inside quotes. |
| Vb6Regex.CommentStart | src/DoxyVB6/conv_vb6.py:122 | A comment start that is found is an apostrophe at or after the starting position. |
| Vb6Regex.Strip | src/DoxyVB6/conv_vb6.py:409 | `str.strip`, defined as the text after its leading blanks with its trailing blanks removed; StripMeaning states what it keeps. |
| Vb6Regex.StripMeaning | src/DoxyVB6/conv_vb6.py:409 | What Strip removes at either end is blank, what it keeps is the middle of the text, and that neither starts nor ends with a blank. |
| Vb6Regex.MatchDocComment | src/DoxyVB6/conv_vb6.py:120 | Defined as blanks, `'*`, then the rest of the line, which is captured. DocCommentAccepted proves which lines it accepts. |
| Vb6Regex.MatchModuleComment | src/DoxyVB6/conv_vb6.py:121 | Defined as blanks, `'!`, then the rest of the line, which is captured. ModuleCommentAccepted proves which lines it accepts. |
| Vb6Regex.IsInterfaceTag | src/DoxyVB6/conv_vb6.py:124 | Defined as blanks, `'#`, blanks, `Interface` in exactly that case, then only blanks. InterfaceTagAccepted proves which lines it accepts and that the lower-case word is refused. |
| Vb6Regex.EndsBlock | src/DoxyVB6/conv_vb6.py:129-139 | Defined as `End`, one or more blanks and the block keyword, in any case, at the very start of the line, followed by anything. EndsBlockAccepted proves which lines it accepts, and ScanProperties.IndentedNeverEnds that a line with leading blanks is refused. |
| Vb6Regex.KeywordText | src/DoxyVB6/conv_vb6.py:17-25 | A captured keyword followed by blanks, stripped and lowered, is the keyword. |
| Vb6Regex.AccessText | src/DoxyVB6/conv_vb6.py:17 | A captured access group, stripped and lowered, is one of grobal, public, friend, private and static. |
| Vb6Regex.ConstText | src/DoxyVB6/conv_vb6.py:19 | A captured Const group, stripped and lowered, is `const`. |
| Vb6Regex.MatchImplements | src/DoxyVB6/conv_vb6.py:125 | A captured interface name is a non-empty word. |
| Vb6Regex.MatchVbName | src/DoxyVB6/conv_vb6.py:123 | A captured module name is a non-empty word. |
| Vb6Regex.MatchMember | src/DoxyVB6/conv_vb6.py:50-64 | A match has a word as its name, a `const` Const group and a literal value. Whichever access group is present is an access keyword. |
| Vb6Regex.MatchFunction | src/DoxyVB6/conv_vb6.py:71-80 | A captured access group is an access keyword. |
| Vb6Regex.MatchSub | src/DoxyVB6/conv_vb6.py:81-89 | A captured access group is an access keyword. |
| Vb6Regex.MatchBlock | src/DoxyVB6/conv_vb6.py:65-70 | A captured access group is an access keyword. |
| Vb6Regex.MatchPropertyGet | src/DoxyVB6/conv_vb6.py:90-99 | A captured access group is an access keyword. |
| Vb6Regex.MatchPropertySet | src/DoxyVB6/conv_vb6.py:100-108 | A captured access group is an access keyword. |
| Vb6Regex.MatchEnumMember | src/DoxyVB6/conv_vb6.py:135 | A captured member name is a non-empty word. |
| Vb6Regex.ArgMatchAt | src/DoxyVB6/conv_vb6.py:110-118 | One argument match advances past its start, captures a word as its name, and needs a word character. |
| Vb6Regex.FindAllArgs | src/DoxyVB6/conv_vb6.py:413 | `re.findall`, defined as: the argument match at each position, then the search again from its end, or from the next position when none matches. Vb6Accept.ArgAccepted and ArgPassingAccepted prove what it yields for one argument, and ConvVb6.NoWordNoArgs that text without a word character yields nothing. |
| Vb6Accept.ImplementsAccepted | src/DoxyVB6/conv_vb6.py:125 | `Implements Name` matches for every word Name, and captures Name. |
| Vb6Accept.VbNameAccepted | src/DoxyVB6/conv_vb6.py:123 | `Attribute VB_Name = "Name"`, with the keywords in any case, matches and captures Name. |
| Vb6Accept.EnumMemberAccepted | src/DoxyVB6/conv_vb6.py:135 | A bare word is an enumeration member without a value. |
| Vb6Accept.EnumMemberValueAccepted | src/DoxyVB6/conv_vb6.py:135 | `name = value` is a member with both words captured. |
| Vb6Accept.MemberAccessAccepted | src/DoxyVB6/conv_vb6.py:50-64 | `acc name`, for every access keyword in any case, matches with the access group (and its blank) and the name captured, and nothing else. |
| Vb6Accept.MemberAccessTypedAccepted | src/DoxyVB6/conv_vb6.py:50-64 | `acc name As T` also captures the type name T. |
| Vb6Accept.MemberDimAccepted | src/DoxyVB6/conv_vb6.py:50-64 | `Dim name As T` matches with the name and type captured, and no access or Const group. |
| Vb6Accept.MemberConstAccepted | src/DoxyVB6/conv_vb6.py:50-64 | `Const name = lit`, for a literal the pattern accepts, captures the Const group, the name and the literal. |
| Vb6Accept.FunctionAccepted | src/DoxyVB6/conv_vb6.py:71-80 | `Function name(args)`, with argument text of word characters, blanks and `= , + - * / .`, captures the name and that text, with no access and no return type. |
| Vb6Accept.FunctionTypedAccepted | src/DoxyVB6/conv_vb6.py:71-80 | The same header followed by ` As T` also captures the return type T. |
| Vb6Accept.SubAccepted | src/DoxyVB6/conv_vb6.py:81-89 | `Sub name(args)` captures the name and the argument text. |
| Vb6Accept.BlockAccepted | src/DoxyVB6/conv_vb6.py:65-70 | `Type name` and `Enum name`, keyword in any case, capture the name with no access. |
| Vb6Accept.PropertyGetAccepted | src/DoxyVB6/conv_vb6.py:90-99 | `Property Get name()` captures the name, with no access and no return type. |
| Vb6Accept.PropertySetAccepted | src/DoxyVB6/conv_vb6.py:100-108 | `Property Set name(args)` and `Property Let name(args)` capture the keyword, the name and the argument text. |
| Vb6Accept.ArgAccepted | src/DoxyVB6/conv_vb6.py:110-118 | `name As T` is one argument match covering the whole text, with the name and type captured. findall yields exactly that match. |
| Vb6Accept.ArgPassingAccepted | src/DoxyVB6/conv_vb6.py:110-118 | `ByVal name As T` and `ByRef name As T` likewise, with the passing keyword and its blank captured. |
| LineMarks.CommentLineAccepted | src/DoxyVB6/conv_vb6.py:120-121 | Blanks, an apostrophe and the marker, then text without a line feed: the text is captured, with or without one final line feed after it. |
| LineMarks.DocCommentAccepted | src/DoxyVB6/conv_vb6.py:120-121 | A `'*` line after blanks is a documentation comment capturing its text, and is not a module comment. |
| LineMarks.ModuleCommentAccepted | src/DoxyVB6/conv_vb6.py:120-121 | A `'!` line after blanks is a module comment capturing its text, and is not a documentation comment. |
| LineMarks.InterfaceTagAccepted | src/DoxyVB6/conv_vb6.py:124 | `'#`, blanks, `Interface` and blanks form the tag. The same line with `interface` does not, since the pattern has no re.I. |
| LineMarks.EndsBlockAccepted | src/DoxyVB6/conv_vb6.py:129-139 | `End`, a blank and the block keyword, in any case, at the start of the line and followed by anything, end the block. |
| AcceptedLines.BareArgument | src/DoxyVB6/conv_vb6.py:418-451 | A match with only a name, a passing keyword and a type gives a mandatory argument of that name and type, without a default, by reference unless the keyword is ByVal. |
| AcceptedLines.TypedArgumentList | src/DoxyVB6/conv_vb6.py:390-455 | The argument text `name As T` yields exactly one argument: that name and type, by reference (VB6's default), mandatory, without a default. |
| AcceptedLines.PassingArgumentList | src/DoxyVB6/conv_vb6.py:390-455 | `ByVal name As T` or `ByRef name As T` yields exactly one argument of that name and type, by reference exactly with ByRef. |
| AcceptedLines.FunctionLineOpens | src/DoxyVB6/conv_vb6.py:648-682 | `Function Test()` and the like outside a block append a public FUNC element returning Variant, with the arguments of its list. It becomes the scope with the Function flag. |
| AcceptedLines.TypedFunctionLineOpens | src/DoxyVB6/conv_vb6.py:648-682 | `Function Add(a As Integer) As Integer` and the like append a public FUNC element returning the declared type, whose one argument is a, by reference, of its declared type. |
| AcceptedLines.SubLineOpens | src/DoxyVB6/conv_vb6.py:692-720 | `Sub Main()` and the like append a public FUNC element returning void, with the arguments of its list. It becomes the scope with the Sub flag. |
| AcceptedLines.TypeLineOpens | src/DoxyVB6/conv_vb6.py:730-754 | `Type Point` appends a public STRUCT element named Point, and the Type flag is set. |
| AcceptedLines.EnumLineOpens | src/DoxyVB6/conv_vb6.py:765-789 | `Enum Color` appends a public ENUM element named Color, and the Enum flag is set. |
| AcceptedLines.DimLineAdded | src/DoxyVB6/conv_vb6.py:588-646 | `Dim x As Integer` at class level appends a private VAR element of that type, with the one by-value argument that carries its type. |
| AcceptedLines.AccessLineAdded | src/DoxyVB6/conv_vb6.py:588-646 | `Public Test` and the like at class level append a VAR element named Test of type Variant, with the accessibility of the keyword. |
| AcceptedLines.ConstLineAdded | src/DoxyVB6/conv_vb6.py:588-646 | `Const Max = 10` at class level appends a private CONST element whose value and string flag are those the literal extracts to. |
| AcceptedLines.EnumMemberLineAdded | src/DoxyVB6/conv_vb6.py:791-814 | A member line `Red` inside an Enum block appends a CONST element `Red` with the empty value to the enumeration, which stays the scope. |
| AcceptedLines.GetterLineOpens | src/DoxyVB6/conv_vb6.py:816-859 | `Property Get Name()`, when lastProperty has another name, appends a public PROPERTY returning Variant. It becomes the open block and lastProperty. |
| AcceptedLines.SetterLineOpens | src/DoxyVB6/conv_vb6.py:861-896 | `Property Let Name(ByVal v As T)`, when lastProperty has another name, appends a public PROPERTY returning void whose one argument is v. It becomes the open block and lastProperty. |
| AcceptedLines.GetterLineMerged | src/DoxyVB6/conv_vb6.py:846-848 | A getter line naming lastProperty is merged into that child by MergeGetter. |
| AcceptedLines.SetterLineMerged | src/DoxyVB6/conv_vb6.py:881-885 | A setter line naming lastProperty is merged into that child by MergeSetter. |
| AcceptedLines.GetThenLetCollapse | src/DoxyVB6/conv_vb6.py:816-896 | `Property Get Name()`, `End Property`, then `Property Let Name(ByVal v As T)` leave one public PROPERTY of type T whose one argument is v. |
| AcceptedLines.LetThenGetCollapse | src/DoxyVB6/conv_vb6.py:816-896 | In the other order the setter first adds the property returning void; the getter then merges into it, leaving the same single property of type T. |
| ConvVb6Parser.ModuleComments | src/DoxyVB6/conv_vb6.py:528-537 | There are at most as many module comments as lines. |
| ConvVb6Parser.ModuleCommentsFromLines | src/DoxyVB6/conv_vb6.py:528-537 | Every module comment is the text of some `'!` line. There are none exactly when no line is one. |
| ConvVb6Parser.ModuleCommentsSnoc | src/DoxyVB6/conv_vb6.py:529-537 | One more line adds its `'!` text at the end, if it has one, and keeps the comments before it. |
| ConvVb6Parser.ClassName | src/DoxyVB6/conv_vb6.py:546-562 | The class name comes from the first line with a VB_Name attribute (comments stripped), else it is DummyName. |
| ConvVb6Parser.FirstImplements | src/DoxyVB6/conv_vb6.py:564-575 | The recorded interface is that of the first `Implements` line, if any. |
| ConvVb6Parser.ImplementsOthers | src/DoxyVB6/conv_vb6.py:564-575 | `others` is empty without an Implements line, else exactly {"implements": [name]}. |
| ConvVb6Parser.AddToTarget | src/DoxyVB6/conv_vb6.py:584-585 | An element is appended to the current scope, and its flags, scope and lastProperty are kept. Every reachable state stays reachable. |
| ConvVb6Parser.Open | src/DoxyVB6/conv_vb6.py:258-296 | An opener appends a child of the class element that becomes the scope, with the block's flag set. |
| ConvVb6Parser.Close | src/DoxyVB6/conv_vb6.py:684-690 | A closing keyword returns the scope to the class element and clears every flag. The children are kept. |
| ConvVb6Parser.Reopen | src/DoxyVB6/conv_vb6.py:846-848 | A merged property line changes only that child. It becomes the scope and lastProperty, with the property flag set. |
| ConvVb6Parser.SameNamed | src/DoxyVB6/conv_vb6.py:846 | The property is merged exactly when lastProperty exists and has the name. |
| ConvVb6Parser.MemberAdded | src/DoxyVB6/conv_vb6.py:588-646 | A member declaration adds MemberDecl of the match. At class level it is appended to the children. Inside a block it is appended to the open child's children and no other child changes. Flags, scope and lastProperty are kept. |
| ConvVb6Parser.TypeLine | src/DoxyVB6/conv_vb6.py:756-763 | Inside a Type block, `End Type` clears the flags and returns to the class element, keeping the children. A line the member pattern accepts adds its field as MemberAdded does. Any other line changes nothing. |
| ConvVb6Parser.EnumLine | src/DoxyVB6/conv_vb6.py:791-814 | Inside an Enum block, `End Enum` clears the flags and returns to the class element. A member line appends EnumMemberDecl of the match to the enumeration's children, and no other child changes. Any other line changes nothing. |
| ConvVb6Parser.BodyLine | src/DoxyVB6/conv_vb6.py:684-690 | Inside a Sub, Function or Property block the closing line clears the flags and returns to the class element. Any other line leaves the state unchanged. |
| ConvVb6Parser.PropertyGetLine | src/DoxyVB6/conv_vb6.py:816-859 | A `Property Get` line is merged into a same-named lastProperty, else it adds a property. The state stays reachable. |
| ConvVb6Parser.PropertySetLine | src/DoxyVB6/conv_vb6.py:861-896 | A `Property Set`/`Let` line is merged into a same-named lastProperty, else it adds a property. The state stays reachable. |
| ConvVb6Parser.TypeOpened | src/DoxyVB6/conv_vb6.py:730-754 | A Type header appends BlockDecl of the match as a STRUCT child, which becomes the scope with the Type flag. lastProperty is kept. |
| ConvVb6Parser.FunctionOpened | src/DoxyVB6/conv_vb6.py:648-682 | A Function header appends FunctionDecl of the match, with the arguments of its argument text. It becomes the scope with the Function flag, and lastProperty is kept. |
| ConvVb6Parser.SubOpened | src/DoxyVB6/conv_vb6.py:692-720 | A Sub header appends SubDecl of the match, with the arguments of its argument text. It becomes the scope with the Sub flag, and lastProperty is kept. |
| ConvVb6Parser.EnumOpened | src/DoxyVB6/conv_vb6.py:765-789 | An Enum header appends BlockDecl of the match as an ENUM child, which becomes the scope with the Enum flag. lastProperty is kept. |
| ConvVb6Parser.OpenerLine | src/DoxyVB6/conv_vb6.py:258-296 | The openers in their fixed order keep the state reachable. |
| ConvVb6Parser.OpenerLineGet | src/DoxyVB6/conv_vb6.py:258-263 | Where properties are scanned, a `Property Get` line is handled by the getter scanner. |
| ConvVb6Parser.OpenerLineSet | src/DoxyVB6/conv_vb6.py:265-270 | Where properties are scanned, a Set/Let line that is not a getter is handled by the setter scanner. |
| ConvVb6Parser.OpenerLineOther | src/DoxyVB6/conv_vb6.py:272-296 | Any other line goes to Type, member, Function, Sub, then Enum. |
| ConvVb6Parser.OtherOpenerLine | src/DoxyVB6/conv_vb6.py:272-296 | The non-property openers keep the state reachable. |
| ConvVb6Parser.ScanStep | src/DoxyVB6/conv_vb6.py:234-296 | One logical line keeps the scan in a reachable state. |
| ConvVb6Parser.ScanStepOpeners | src/DoxyVB6/conv_vb6.py:258-296 | Outside every block, a line that is not a doc comment goes to the openers, on its code without the comment. |
| ConvVb6Parser.ScanStepInBlock | src/DoxyVB6/conv_vb6.py:238-256 | Inside a block, a non-doc line never fails and leaves lastProperty alone. |
| ConvVb6Parser.NextState | src/DoxyVB6/conv_vb6.py:218-232 | A line ending in ` _` without a comment is held back and joined less its last two characters. Any other line completes the logical line, which is then scanned. |
| ConvVb6Parser.JoinedText | src/DoxyVB6/conv_vb6.py:221-230 | Defined as the pending text when continuing, followed by the line, with the line's final `_` and line feed removed when it Continues. ContinuedLineJoined states the logical line this gives. |
| ConvVb6Parser.ScanLinesErrSticks | src/DoxyVB6/conv_vb6.py:217-296 | The first exception of the scan is the result for the whole module. |
| ConvVb6Parser.ScanLines | src/DoxyVB6/conv_vb6.py:217-296 | The scan of a module keeps the state reachable. |
| ConvVb6Parser.Attach | src/DoxyVB6/conv_vb6.py:584-585 | On the heap, a new element with the given fields is appended to the current scope, and the class element mirrors AddToTarget. |
| ConvVb6Parser.SetReturnType | src/DoxyVB6/conv_vb6.py:847 | `prev.return_type = t` changes that one field of that one child. |
| ConvVb6Parser.AppendArgument | src/DoxyVB6/conv_vb6.py:883 | `prev.arguments.append(a)` changes only that child's arguments. |
| ConvVb6Parser.ReuseForSetter | src/DoxyVB6/conv_vb6.py:881-885 | The setter merge on the heap succeeds exactly when MergeSetter does, and leaves the child with MergeSetter's result. |
| ConvVb6Parser.Vb6Parser.constructor | src/DoxyVB6/conv_vb6.py:170-177 | The parser records its module type. |
| ConvVb6Parser.Vb6Parser.FoundDoxyComment | src/DoxyVB6/conv_vb6.py:577-586 | The method reports a `'*` line found exactly when the doc pattern matches, and then appends a doc line to the current scope. Otherwise nothing changes. |
| ConvVb6Parser.Vb6Parser.FoundMember | src/DoxyVB6/conv_vb6.py:588-646 | The method reports found exactly when the member pattern matches the code, and then appends MemberDecl. A line that does not match appends nothing. |
| ConvVb6Parser.Vb6Parser.FindType | src/DoxyVB6/conv_vb6.py:730-754 | Found exactly when the Type pattern matches. The structure is appended and becomes the scope; otherwise nothing changes. |
| ConvVb6Parser.Vb6Parser.FindEnum | src/DoxyVB6/conv_vb6.py:765-789 | Found exactly when the Enum pattern matches. The enumeration is appended and becomes the scope; otherwise nothing changes. |
| ConvVb6Parser.Vb6Parser.FindFunction | src/DoxyVB6/conv_vb6.py:648-682 | Found exactly when the Function pattern matches. The function is appended and becomes the scope; otherwise nothing changes. |
| ConvVb6Parser.Vb6Parser.FindSub | src/DoxyVB6/conv_vb6.py:692-720 | Found exactly when the Sub pattern matches. The function is appended and becomes the scope; otherwise nothing changes. |
| ConvVb6Parser.Vb6Parser.ProcessBody | src/DoxyVB6/conv_vb6.py:684-690 | The block is still searched exactly when the line is not `End` + keyword. On the closing line the scope returns to the parent. |
| ConvVb6Parser.Vb6Parser.ProcessType | src/DoxyVB6/conv_vb6.py:756-763 | The block is still searched exactly when the line is not `End Type`. Any other line may add a field, as TypeLine says. |
| ConvVb6Parser.Vb6Parser.ProcessEnum | src/DoxyVB6/conv_vb6.py:791-814 | The block is still searched exactly when the line is not `End Enum`. Any other line may add a member, as EnumLine says. |
| ConvVb6Parser.Vb6Parser.FindPropertyGet | src/DoxyVB6/conv_vb6.py:816-859 | A line that does not match changes nothing. A match fails exactly when PropertyGetLine fails, with the same error. Otherwise the heap holds its scope, target and lastProperty. |
| ConvVb6Parser.Vb6Parser.FindPropertySet | src/DoxyVB6/conv_vb6.py:861-896 | The same, for PropertySetLine. |
| ConvVb6Parser.Vb6Parser.SetterFound | src/DoxyVB6/conv_vb6.py:876-896 | Once the setter pattern has matched, the heap update fails exactly when PropertySetLine does. Otherwise it leaves PropertySetLine's children, scope and lastProperty. |
| ConvVb6Parser.Vb6Parser.ScanSetterOpener | src/DoxyVB6/conv_vb6.py:265-296 | A line that is not a getter goes to the setter scanner or the other openers, and the heap holds OpenerLine's result. |
| ConvVb6Parser.Vb6Parser.ScanSetter | src/DoxyVB6/conv_vb6.py:265-270 | A Set/Let header outside any block fails exactly when OpenerLine does. Otherwise it leaves OpenerLine's state with the property flag. |
| ConvVb6Parser.Vb6Parser.ScanOpeners | src/DoxyVB6/conv_vb6.py:258-296 | The openers on the heap fail exactly when OpenerLine does. Otherwise they leave its scope, target, lastProperty and flags. |
| ConvVb6Parser.Vb6Parser.ScanOtherOpeners | src/DoxyVB6/conv_vb6.py:272-296 | The non-property openers on the heap leave OtherOpenerLine's state. |
| ConvVb6Parser.Vb6Parser.ScanInBlock | src/DoxyVB6/conv_vb6.py:238-256 | Inside a block only that block's scanner runs, and the heap holds ScanStep's state. |
| ConvVb6Parser.Vb6Parser.ScanBlockLine | src/DoxyVB6/conv_vb6.py:238-256 | A line inside a block never fails. The heap holds ScanStep's state, and lastProperty is unchanged. |
| ConvVb6Parser.Vb6Parser.ScanCode | src/DoxyVB6/conv_vb6.py:238-296 | A line that is not a doc comment fails exactly when ScanStep does. Otherwise the heap holds ScanStep's state. |
| ConvVb6Parser.Vb6Parser.ScanLine | src/DoxyVB6/conv_vb6.py:234-296 | One logical line on the heap fails exactly when ScanStep does. Otherwise it leaves ScanStep's state. |
| ConvVb6Parser.Vb6Parser.ScanPhysical | src/DoxyVB6/conv_vb6.py:218-296 | One physical line on the heap gives exactly NextState's result: pending text, continuation flag, scope and flags. |
| ConvVb6Parser.Vb6Parser.ScanLineAt | src/DoxyVB6/conv_vb6.py:217-296 | Line i of the loop: a failure is the failure of ScanLines on the whole module. Otherwise the heap and the loop variables hold ScanLines of the first i + 1 lines. |
| ConvVb6Parser.Vb6Parser.ScanBody | src/DoxyVB6/conv_vb6.py:217-296 | The scan loop fails exactly when ScanLines does, with its error. Otherwise the class element's children mirror ScanLines' result. |
| ConvVb6Parser.Vb6Parser.ProcessGlobalComments | src/DoxyVB6/conv_vb6.py:528-537 | Each `'!` line appends a new doc line to the target, in order. The earlier children are kept. |
| ConvVb6Parser.Vb6Parser.AppendDocLeaf | src/DoxyVB6/conv_vb6.py:534-537 | One pass of that loop appends a new doc line holding the text and keeps the doc lines before it. |
| ConvVb6Parser.HasInterfaceTag | src/DoxyVB6/conv_vb6.py:539-544 | Defined as: some line is the interface tag (IsInterfaceTag). HasIntfTag proves the loop decides exactly it, and ClassDecl makes the class an INTERFACE exactly when it holds. |
| ConvVb6Parser.Vb6Parser.HasIntfTag | src/DoxyVB6/conv_vb6.py:539-544 | Holds exactly when some line is the `'# Interface` tag. |
| ConvVb6Parser.Vb6Parser.ProcessClassName | src/DoxyVB6/conv_vb6.py:546-562 | A new class or interface element, named by ClassName, is appended to the target. |
| ConvVb6Parser.Vb6Parser.AddClassElement | src/DoxyVB6/conv_vb6.py:555-560 | A new element with the given name and kind is the target's last child, with its parent set and no children. |
| ConvVb6Parser.Vb6Parser.FindClassName | src/DoxyVB6/conv_vb6.py:548-553 | The loop finds ClassName. |
| ConvVb6Parser.Vb6Parser.ProcessImpl | src/DoxyVB6/conv_vb6.py:564-575 | The first Implements line's name is stored under "implements". Without one, `others` is unchanged. |
| ConvVb6Parser.Vb6Parser.FindImplements | src/DoxyVB6/conv_vb6.py:565-570 | The loop finds FirstImplements. |
| ConvVb6Parser.Vb6Parser.ClsHead | src/DoxyVB6/conv_vb6.py:196-208 | root (OTHER) → the Form or Class namespace → the module comments, then the class element with its name, interface tag and implements. |
| ConvVb6Parser.Vb6Parser.ClassIn | src/DoxyVB6/conv_vb6.py:206-208 | In a class or form module, the class element is named, tagged and given its interface. |
| ConvVb6Parser.Vb6Parser.BasHead | src/DoxyVB6/conv_vb6.py:300-309 | root → the `using` element and the Standard namespace → the module comments, then an untagged class without implements. |
| ConvVb6Parser.Vb6Parser.UsingIn | src/DoxyVB6/conv_vb6.py:302-304 | The `using` element, with using=["Class"], is the root's first child. |
| ConvVb6Parser.Vb6Parser.NamespaceIn | src/DoxyVB6/conv_vb6.py:199-208 | A new namespace is appended to root, holding the module comments. |
| ConvVb6Parser.CommentLeaves | src/DoxyVB6/conv_vb6.py:528-537 | Each module comment becomes one doc leaf, in order. |
| ConvVb6Parser.NamespaceTree | src/DoxyVB6/conv_vb6.py:199-208 | The namespace built on the heap has as its subtree the comment leaves, then the class element mirroring the scan. |
| ConvVb6Parser.ModuleTree | src/DoxyVB6/conv_vb6.py:196-208 | A class or form module's root subtree is one namespace holding the comment leaves and the class element. |
| ConvVb6Parser.BasModuleTree | src/DoxyVB6/conv_vb6.py:300-310 | A standard module's root subtree is the childless `using` element, then the namespace. |
| ConvVb6Parser.Vb6Parser.ParseCls | src/DoxyVB6/conv_vb6.py:196-298 | `_parse_cls` fails exactly when ClsTree does. Otherwise it returns a fresh root whose subtree is ClsTree. |
| ConvVb6Parser.Vb6Parser.ParseBas | src/DoxyVB6/conv_vb6.py:300-380 | `_parse_bas` fails exactly when BasTree does. Otherwise it returns a fresh root whose subtree is BasTree. |
| ConvVb6Parser.Vb6Parser.Parse | src/DoxyVB6/conv_vb6.py:179-194 | Class and form modules go to `_parse_cls` and all others to `_parse_bas`. The result's root subtree is ParseTree. |
| ConvVb6Parser.ClassDecl | src/DoxyVB6/conv_vb6.py:555-560 | The class element is named by ClassName, is an INTERFACE when tagged and a CLASS otherwise, and carries the given `others`. |
| ConvVb6Parser.ClsTree | src/DoxyVB6/conv_vb6.py:196-298 | The tree of a class or form module fails exactly when the scan with properties fails. Its root is ("root", OTHER). |
| ConvVb6Parser.UsingDecl | src/DoxyVB6/conv_vb6.py:302-304 | The `using` element is ("using", OTHER) with using=["Class"]. |
| ConvVb6Parser.BasTree | src/DoxyVB6/conv_vb6.py:300-380 | The tree of a standard module fails exactly when the scan without properties fails. Its root is ("root", OTHER). |
| ConvVb6Parser.ParseTree | src/DoxyVB6/conv_vb6.py:179-194 | The parse fails exactly when the scan does, and properties are scanned in every module but a standard one. The root is ("root", OTHER). |
| ScanProperties.DocCommentFirst | src/DoxyVB6/conv_vb6.py:234-236 | A `'*` line is always taken first, in any block. It is appended to the current scope, and flags, scope and lastProperty stay. |
| ScanProperties.InBlockOnlyThatScanner | src/DoxyVB6/conv_vb6.py:238-256 | While a block is open only its scanner runs. Its closing line returns to the class element with every flag cleared. Any other line changes no child but the open one. |
| ScanProperties.ClosingLine | src/DoxyVB6/conv_vb6.py:684-690 | A closing line clears the flag and returns the scope to the class element, keeping the children. |
| ScanProperties.IndentedNeverEnds | src/DoxyVB6/conv_vb6.py:129-139 | A line starting with a blank is never a closing line. |
| ScanProperties.IndentedEndStaysOpen | src/DoxyVB6/conv_vb6.py:129-139 | An indented `End …` line leaves the block open in the same scope. |
| ScanProperties.EnumMemberWithoutValue | src/DoxyVB6/conv_vb6.py:798-812 | Inside an Enum, a member without `= value` adds a CONST element with value "". |
| ScanProperties.GetterLineCollapses | src/DoxyVB6/conv_vb6.py:846-857 | A `Property Get` line adds no element exactly when lastProperty has its name. Either way the property becomes the scope and lastProperty. |
| ScanProperties.SetterLineCollapses | src/DoxyVB6/conv_vb6.py:881-894 | The same for a `Property Set`/`Let` line. |
| ScanProperties.ContinuedLineJoined | src/DoxyVB6/conv_vb6.py:220-232 | A line ending in ` _` without a comment leaves the scope as it is. The next line is scanned joined to it, less the underscore and line feed. |
| ScanProperties.CommentedLineNotJoined | src/DoxyVB6/conv_vb6.py:220 | A line with a comment is never held back, even when it ends in ` _`. |
| Pipeline.ParsedModuleNotGenerated | src/DoxyVB6/conv_csharp.py:32-44 | Generating any tree the parser returns raises NotImplementedError, because its root has kind OTHER. |

## Left out

- `src/DoxyVB6/main.py` is not part of this model. It covers argument handling, reading files in cp932, writing to stdout and stderr, and exit codes, all of which are I/O.
- The general semantics of Python's `re` are not modelled. Each pattern is a hand-written recogniser. `\s` and `str.strip` treat as blank exactly the characters `str.isspace` does: the ASCII blanks, `\x1c`-`\x1f` and the Unicode spaces. The model restricts `\w`, `\d`, `re.I` and `str.lower` to ASCII, which the source does not: its patterns are compiled from `str` with `re.I` and without `re.ASCII`, so there `\w` takes every Unicode letter and digit, `\d` every Unicode decimal digit, case folding is Unicode's (the Kelvin sign matches `k`), and `str.lower` lowers every letter. Japanese identifiers are expected input, since `main.py` reads sources as cp932. As a consequence a declaration whose name holds a non-ASCII letter, such as `Function 名前()`, is not recognised by the model, and the lines of its block are scanned as class-level lines: a `Dim x As Long` in its body becomes a class-level VAR, where the source skips the body. Likewise a numeric literal written with non-ASCII digits, such as `Const X = １２３` with fullwidth digits, is not recognised by the model, so that declaration adds nothing where the source adds a CONST `X` with value `１２３`. The ranges `[0-9A-F]`, `[0-7]` and `[01]` spelled out for hexadecimal, octal and binary literals are ASCII in the source too. Where an alternation or a repetition could backtrack, the recogniser tries the alternatives in the engine's order for the token shapes the patterns accept.
- MatchImplements, MatchVbName, MatchMember, MatchFunction, MatchSub, MatchBlock, MatchPropertyGet, MatchPropertySet, MatchEnumMember, ArgMatchAt, FindAllArgs, MatchDocComment, MatchModuleComment, IsInterfaceTag and EndsBlock: each recogniser's own contract states at most that a match it returns is well-formed, and the last five have no contract of their own. Which lines it accepts is proved separately, by the `Vb6Accept.*Accepted` and `LineMarks.*Accepted` lemmas, for the shapes named there: keywords in any case, one blank between the parts, argument text of word characters, blanks and `= , + - * / .`. For FindAllArgs this covers a single argument only: lists of several arguments are not covered by an acceptance lemma. Lines with extra blanks, string literals in the argument list, or an access keyword before Function, Sub, Type, Enum or Property are accepted by the patterns but not covered by an acceptance lemma.
- ModuleComments: its own contract bounds only the number of comments. What they are is stated by ModuleCommentsFromLines and ModuleCommentsSnoc, kept as lemmas so that the proofs of the module heads, which mention the comments often, stay small.
- BuildArgsList: its contract ties the result to ArgumentsOf. What ArgumentsOf yields is proved for one argument, with or without ByVal/ByRef, by `AcceptedLines.TypedArgumentList` and `AcceptedLines.PassingArgumentList`. Lists of several arguments, Optional, ParamArray and defaults are not covered by such a lemma.
- ConvCsharp.GenerateCommon: the caller's `code_lines` list is threaded through as a value, so aliasing of that list is not modelled. After an exception the model returns no lines, whereas the source leaves the partly extended list with the caller. The same holds for every other `Generate*` method.
- ConvVb6Parser.Vb6Parser.ScanBody: after an exception the model says nothing of the partly built tree, which the source discards when it raises.
- ConvCsharp.Generate: the tree must have a finite depth (a ghost bound `d`). Python's recursion limit is not modelled.
- ConvVb6.GetAccessibility: for unknown text the source returns None, and the tuple unpacking at its callers then raises TypeError. The model returns no result. The lemmas MatchedAccess and MatchedMemberAccess prove that every recogniser captures a known keyword, so the callers require it.
- The `others` keyword dictionary is a map from strings to sequences of strings. Only the keys the pipeline uses ("implements", "using", "super", "extends") are given meaning.
- The numeric values of the CodeElementType and CodeElementAccessibility enums are not modelled, since nothing reads them.
- AbstractCodeParser, AbstractCodeGenerator and CannotParseException are not modelled: they are abstract plumbing, and CannotParseException is never raised.
- CodeElementList's iterator and its `parent` property are modelled as the `members` and `owner` fields.
- Exception messages are not modelled, except CannotGenerateException's. IndexError, KeyError (with its key) and NotImplementedError are modelled by kind only.
- `_generate_doc_multi` is modelled only as the NotImplementedError it raises. The parser never produces a multi-line comment.
