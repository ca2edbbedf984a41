/**
 * The scan of Vb6Parser (conv_vb6.py): the module-level scans, the block
 * state machine over logical lines, and the tree it builds. The state
 * machine is first given as a function over values (Scope, ScanState); the
 * class Vb6Parser builds the same tree on the heap and is proved to agree
 * with it.
 */
module ConvVb6Parser {
  import opened Wrappers
  import opened CodeConv
  import opened Vb6Regex
  import opened ConvVb6

  // ---------------------------------------------------------------- module-level scans

  /** The texts of the `'!` comment lines, in order (_process_global_comments). */
  function ModuleComments(lines: seq<string>): (r: seq<string>)
    ensures |r| <= |lines|
    decreases |lines|
  {
    if lines == [] then []
    else
      var rest := ModuleComments(lines[..|lines| - 1]);
      match MatchModuleComment(lines[|lines| - 1])
      case Some(t) => rest + [t]
      case None => rest
  }

  /** Every module comment comes from a line that matches, and a module without such lines has none. */
  lemma {:induction false} ModuleCommentsFromLines(lines: seq<string>)
    ensures forall t | t in ModuleComments(lines) :: exists i | 0 <= i < |lines| :: MatchModuleComment(lines[i]) == Some(t)
    ensures (forall i | 0 <= i < |lines| :: MatchModuleComment(lines[i]).None?) <==> ModuleComments(lines) == []
    decreases |lines|
  {
    if lines != [] {
      var init := lines[..|lines| - 1];
      ModuleCommentsFromLines(init);
      assert forall i | 0 <= i < |init| :: init[i] == lines[i];
      if MatchModuleComment(lines[|lines| - 1]).None? && ModuleComments(lines) == [] {
        assert ModuleComments(init) == [];
      }
    }
  }

  /** Some line is the `'# Interface` tag (_has_intf_tag). */
  predicate HasInterfaceTag(lines: seq<string>) {
    exists i | 0 <= i < |lines| :: IsInterfaceTag(lines[i])
  }

  /** The index of the first element that is present. */
  function FirstSome<T>(ms: seq<Option<T>>): (r: Option<nat>)
    ensures r.Some? ==> r.value < |ms| && ms[r.value].Some? && forall j | 0 <= j < r.value :: ms[j].None?
    ensures r.None? ==> forall j | 0 <= j < |ms| :: ms[j].None?
    decreases |ms|
  {
    if ms == [] then None
    else if ms[0].Some? then Some(0)
    else
      match FirstSome(ms[1..])
      case Some(k) => (assert forall j | 1 <= j <= k :: ms[j] == ms[1..][j - 1]; Some(k + 1))
      case None => (assert forall j | 1 <= j < |ms| :: ms[j] == ms[1..][j - 1]; None)
  }

  /** What the VB_Name recogniser captures on each line, comments stripped. */
  function VbNames(lines: seq<string>): (r: seq<Option<string>>)
    ensures |r| == |lines| && forall i | 0 <= i < |lines| :: r[i] == MatchVbName(StripComments(lines[i]))
  {
    seq(|lines|, i requires 0 <= i < |lines| => MatchVbName(StripComments(lines[i])))
  }

  /** What the Implements recogniser captures on each line, comments stripped. */
  function ImplementsNames(lines: seq<string>): (r: seq<Option<string>>)
    ensures |r| == |lines| && forall i | 0 <= i < |lines| :: r[i] == MatchImplements(StripComments(lines[i]))
  {
    seq(|lines|, i requires 0 <= i < |lines| => MatchImplements(StripComments(lines[i])))
  }

  /** The class name: that of the first `Attribute VB_Name` line, else DummyName (_process_class_name). */
  function ClassName(lines: seq<string>): (r: string)
    ensures FirstSome(VbNames(lines)).None? ==> r == "DummyName"
    ensures FirstSome(VbNames(lines)).Some? ==>
      Some(r) == MatchVbName(StripComments(lines[FirstSome(VbNames(lines)).value]))
  {
    var names := VbNames(lines);
    match FirstSome(names)
    case None => "DummyName"
    case Some(i) => names[i].value
  }

  /** The first `Implements` line's interface name, if any (_process_impl). */
  function FirstImplements(lines: seq<string>): (r: Option<string>)
    ensures FirstSome(ImplementsNames(lines)).None? ==> r.None?
    ensures FirstSome(ImplementsNames(lines)).Some? ==>
      r == MatchImplements(StripComments(lines[FirstSome(ImplementsNames(lines)).value])) && r.Some?
  {
    var names := ImplementsNames(lines);
    match FirstSome(names)
    case None => None
    case Some(i) => names[i]
  }

  /** The class element's `others`: the implemented interface, when there is one. */
  function ImplementsOthers(lines: seq<string>): (r: map<string, seq<string>>)
    ensures FirstImplements(lines).None? ==> r == map[]
    ensures FirstImplements(lines).Some? ==> r == map["implements" := [FirstImplements(lines).value]]
  {
    match FirstImplements(lines)
    case None => map[]
    case Some(n) => map["implements" := [n]]
  }

  // ---------------------------------------------------------------- scope

  /** The five block flags: at most one is set, for the block being scanned. */
  datatype Flags = Flags(inType: bool, inSub: bool, inFunction: bool, inProperty: bool, inEnum: bool)

  const NoFlags := Flags(false, false, false, false, false)

  predicate AtMostOne(f: Flags) {
    (if f.inType then 1 else 0) + (if f.inSub then 1 else 0) + (if f.inFunction then 1 else 0) +
    (if f.inProperty then 1 else 0) + (if f.inEnum then 1 else 0) <= 1
  }

  /**
   * The class element's children as values, with the scan's indices into
   * them. `target` is the current scope: None for the class element itself,
   * or the index of the child whose block is open. `last` is lastProperty.
   */
  datatype Scope = Scope(kids: seq<Node>, flags: Flags, target: Option<nat>, last: Option<nat>)

  /** The kind of element the block of each flag is. */
  predicate FlagKind(f: Flags, k: ElementType) {
    (f.inType ==> k == Struct) && (f.inEnum ==> k == Enum) &&
    (f.inSub || f.inFunction ==> k == Func) && (f.inProperty ==> k == Property)
  }

  /**
   * The states the scan can reach: a block flag is set exactly when the scope
   * is a child, whose kind is the block's; lastProperty is a property child;
   * elements below a child have no children of their own.
   */
  ghost predicate ScopeOk(sc: Scope) {
    AtMostOne(sc.flags) &&
    (sc.flags == NoFlags <==> sc.target.None?) &&
    (sc.target.Some? ==> sc.target.value < |sc.kids| && FlagKind(sc.flags, sc.kids[sc.target.value].decl.kind)) &&
    (sc.last.Some? ==> sc.last.value < |sc.kids| && sc.kids[sc.last.value].decl.kind == Property) &&
    forall i, j | 0 <= i < |sc.kids| && 0 <= j < |sc.kids[i].children| :: sc.kids[i].children[j].children == []
  }

  const InitialScope := Scope([], NoFlags, None, None)

  /** A new element without children in the current scope. */
  function AddToTarget(sc: Scope, d: Decl): (r: Scope)
    requires sc.target.Some? ==> sc.target.value < |sc.kids|
    ensures r.flags == sc.flags && r.target == sc.target && r.last == sc.last
    ensures sc.target.None? ==> r.kids == sc.kids + [Node(d, [])]
    ensures sc.target.Some? ==> var t := sc.target.value;
      |r.kids| == |sc.kids| && r.kids[t] == Node(sc.kids[t].decl, sc.kids[t].children + [Node(d, [])]) &&
      forall i | 0 <= i < |sc.kids| && i != t :: r.kids[i] == sc.kids[i]
    ensures ScopeOk(sc) ==> ScopeOk(r)
  {
    match sc.target
    case None => sc.(kids := sc.kids + [Node(d, [])])
    case Some(t) => sc.(kids := sc.kids[t := Node(sc.kids[t].decl, sc.kids[t].children + [Node(d, [])])])
  }

  /** A new child of the class element that becomes the scope of an open block. */
  function Open(sc: Scope, d: Decl, flags: Flags): (r: Scope)
    ensures r.kids == sc.kids + [Node(d, [])] && r.target == Some(|sc.kids|) && r.flags == flags && r.last == sc.last
    ensures ScopeOk(sc) && AtMostOne(flags) && flags != NoFlags && FlagKind(flags, d.kind) ==> ScopeOk(r)
  {
    Scope(sc.kids + [Node(d, [])], flags, Some(|sc.kids|), sc.last)
  }

  /** A closing keyword: the scope returns to the class element and the flag is cleared. */
  function Close(sc: Scope): (r: Scope)
    ensures r.kids == sc.kids && r.target.None? && r.flags == NoFlags && r.last == sc.last
    ensures ScopeOk(sc) ==> ScopeOk(r)
  {
    sc.(flags := NoFlags, target := None)
  }

  /** A property line merged into child i, which becomes the scope and stays lastProperty. */
  function Reopen(sc: Scope, i: nat, d: Decl): (r: Scope)
    requires i < |sc.kids|
    ensures |r.kids| == |sc.kids| && r.kids[i] == Node(d, sc.kids[i].children)
    ensures forall j | 0 <= j < |sc.kids| && j != i :: r.kids[j] == sc.kids[j]
    ensures r.target == Some(i) && r.last == Some(i) && r.flags == NoFlags.(inProperty := true)
    ensures ScopeOk(sc) && d.kind == Property ==> ScopeOk(r)
  {
    Scope(sc.kids[i := Node(d, sc.kids[i].children)], NoFlags.(inProperty := true), Some(i), Some(i))
  }

  /** The property lastProperty refers to, when it has the given name. */
  function SameNamed(sc: Scope, name: string): (r: Option<nat>)
    ensures r.Some? ==> sc.last == r && r.value < |sc.kids| && sc.kids[r.value].decl.name == name
    ensures r.None? ==> sc.last.None? || sc.last.value >= |sc.kids| || sc.kids[sc.last.value].decl.name != name
  {
    if sc.last.Some? && sc.last.value < |sc.kids| && sc.kids[sc.last.value].decl.name == name then sc.last else None
  }

  // ---------------------------------------------------------------- one logical line

  /** A member declaration added to the current scope (_found_member). */
  function MemberAdded(sc: Scope, code: string): (r: Scope)
    requires sc.target.Some? ==> sc.target.value < |sc.kids|
    requires MatchMember(code).Some?
    ensures r.flags == sc.flags && r.target == sc.target && r.last == sc.last
    ensures (MatchedMemberAccess(code);
      sc.target.None? ==> r.kids == sc.kids + [Node(MemberDecl(MatchMember(code).value), [])])
    ensures (MatchedMemberAccess(code);
      sc.target.Some? ==>
        var t := sc.target.value;
        var d := MemberDecl(MatchMember(code).value);
        |r.kids| == |sc.kids| && r.kids[t] == Node(sc.kids[t].decl, sc.kids[t].children + [Node(d, [])]) &&
        forall i | 0 <= i < |sc.kids| && i != t :: r.kids[i] == sc.kids[i])
    ensures ScopeOk(sc) ==> ScopeOk(r)
  {
    MatchedMemberAccess(code);
    AddToTarget(sc, MemberDecl(MatchMember(code).value))
  }

  /** Inside a Type block: the closing line, or a member declaration of the structure (_process_type). */
  function TypeLine(sc: Scope, s: string): (r: Scope)
    requires sc.target.Some? && sc.target.value < |sc.kids|
    ensures EndsBlock(StripComments(s), "type") ==>
      r.kids == sc.kids && r.target.None? && r.flags == NoFlags && r.last == sc.last
    ensures !EndsBlock(StripComments(s), "type") && MatchMember(StripComments(s)).Some? ==>
      r == MemberAdded(sc, StripComments(s))
    ensures !EndsBlock(StripComments(s), "type") && MatchMember(StripComments(s)).None? ==> r == sc
    ensures ScopeOk(sc) ==> ScopeOk(r)
  {
    var code := StripComments(s);
    if EndsBlock(code, "type") then Close(sc)
    else if MatchMember(code).Some? then MemberAdded(sc, code)
    else sc
  }

  /** Inside an Enum block: the closing line, or a member with an optional value (_process_enum). */
  function EnumLine(sc: Scope, s: string): (r: Scope)
    requires sc.target.Some? && sc.target.value < |sc.kids|
    ensures EndsBlock(StripComments(s), "enum") ==>
      r.kids == sc.kids && r.target.None? && r.flags == NoFlags && r.last == sc.last
    ensures !EndsBlock(StripComments(s), "enum") && MatchEnumMember(StripComments(s)).Some? ==>
      var t := sc.target.value;
      r.flags == sc.flags && r.target == sc.target && r.last == sc.last && |r.kids| == |sc.kids| &&
      r.kids[t] == Node(sc.kids[t].decl, sc.kids[t].children + [Node(EnumMemberDecl(MatchEnumMember(StripComments(s)).value), [])]) &&
      forall i | 0 <= i < |sc.kids| && i != t :: r.kids[i] == sc.kids[i]
    ensures !EndsBlock(StripComments(s), "enum") && MatchEnumMember(StripComments(s)).None? ==> r == sc
    ensures ScopeOk(sc) ==> ScopeOk(r)
  {
    var code := StripComments(s);
    if EndsBlock(code, "enum") then Close(sc)
    else match MatchEnumMember(code)
      case None => sc
      case Some(g) => AddToTarget(sc, EnumMemberDecl(g))
  }

  /** Inside a Sub, Function or Property block only the closing line counts (_process_sub/function/property). */
  function BodyLine(sc: Scope, s: string, kw: string): (r: Scope)
    ensures EndsBlock(StripComments(s), kw) ==>
      r.kids == sc.kids && r.target.None? && r.flags == NoFlags && r.last == sc.last
    ensures !EndsBlock(StripComments(s), kw) ==> r == sc
    ensures ScopeOk(sc) ==> ScopeOk(r)
  {
    if EndsBlock(StripComments(s), kw) then Close(sc) else sc
  }

  /** `Property Get`: merged into lastProperty of the same name, else a new property (_find_property_get). */
  function PropertyGetLine(sc: Scope, code: string): (r: Result<Scope, Failure>)
    requires MatchPropertyGet(code).Some?
    ensures ScopeOk(sc) && sc.target.None? && r.Ok? ==> ScopeOk(r.value)
  {
    var g := MatchPropertyGet(code).value;
    MatchedAccess(g.access);
    match SameNamed(sc, Strip(g.name))
    case Some(i) =>
      (match MergeGetter(sc.kids[i].decl)
       case Err(e) => Err(e)
       case Ok(d) => Ok(Reopen(sc, i, d)))
    case None =>
      var r := Open(sc, GetterDecl(g), NoFlags.(inProperty := true));
      Ok(r.(last := r.target))
  }

  /** `Property Set` or `Let`: merged into lastProperty of the same name, else a new property (_find_property_set). */
  function PropertySetLine(sc: Scope, code: string): (r: Result<Scope, Failure>)
    requires MatchPropertySet(code).Some?
    ensures ScopeOk(sc) && sc.target.None? && r.Ok? ==> ScopeOk(r.value)
  {
    var g := MatchPropertySet(code).value;
    MatchedAccess(g.access);
    var args := ArgumentsOf(Some(g.args));
    match SameNamed(sc, Strip(g.name))
    case Some(i) =>
      (match MergeSetter(sc.kids[i].decl, args)
       case Err(e) => Err(e)
       case Ok(d) => Ok(Reopen(sc, i, d)))
    case None =>
      match SetterDecl(g, args)
      case Err(e) => Err(e)
      case Ok(d) =>
        var r := Open(sc, d, NoFlags.(inProperty := true));
        Ok(r.(last := r.target))
  }

  /** `Type`: a structure becomes the scope (_find_type). */
  function TypeOpened(sc: Scope, code: string): (r: Scope)
    requires MatchBlock(code, "type").Some?
    ensures (var g := MatchBlock(code, "type").value;
             MatchedAccess(g.access);
             r.kids == sc.kids + [Node(BlockDecl(g, Struct), [])])
    ensures r.target == Some(|sc.kids|) && r.flags == NoFlags.(inType := true) && r.last == sc.last
    ensures ScopeOk(sc) && sc.target.None? ==> ScopeOk(r)
  {
    var g := MatchBlock(code, "type").value;
    MatchedAccess(g.access);
    Open(sc, BlockDecl(g, Struct), NoFlags.(inType := true))
  }

  /** `Function`: a function with its arguments becomes the scope (_find_function). */
  function FunctionOpened(sc: Scope, code: string): (r: Scope)
    requires MatchFunction(code).Some?
    ensures (var g := MatchFunction(code).value;
             MatchedAccess(g.access);
             r.kids == sc.kids + [Node(FunctionDecl(g, ArgumentsOf(Some(g.args))), [])])
    ensures r.target == Some(|sc.kids|) && r.flags == NoFlags.(inFunction := true) && r.last == sc.last
    ensures ScopeOk(sc) && sc.target.None? ==> ScopeOk(r)
  {
    var g := MatchFunction(code).value;
    MatchedAccess(g.access);
    Open(sc, FunctionDecl(g, ArgumentsOf(Some(g.args))), NoFlags.(inFunction := true))
  }

  /** `Sub`: a function returning void with its arguments becomes the scope (_find_sub). */
  function SubOpened(sc: Scope, code: string): (r: Scope)
    requires MatchSub(code).Some?
    ensures (var g := MatchSub(code).value;
             MatchedAccess(g.access);
             r.kids == sc.kids + [Node(SubDecl(g, ArgumentsOf(Some(g.args))), [])])
    ensures r.target == Some(|sc.kids|) && r.flags == NoFlags.(inSub := true) && r.last == sc.last
    ensures ScopeOk(sc) && sc.target.None? ==> ScopeOk(r)
  {
    var g := MatchSub(code).value;
    MatchedAccess(g.access);
    Open(sc, SubDecl(g, ArgumentsOf(Some(g.args))), NoFlags.(inSub := true))
  }

  /** `Enum`: an enumeration becomes the scope (_find_enum). */
  function EnumOpened(sc: Scope, code: string): (r: Scope)
    requires MatchBlock(code, "enum").Some?
    ensures (var g := MatchBlock(code, "enum").value;
             MatchedAccess(g.access);
             r.kids == sc.kids + [Node(BlockDecl(g, Enum), [])])
    ensures r.target == Some(|sc.kids|) && r.flags == NoFlags.(inEnum := true) && r.last == sc.last
    ensures ScopeOk(sc) && sc.target.None? ==> ScopeOk(r)
  {
    var g := MatchBlock(code, "enum").value;
    MatchedAccess(g.access);
    Open(sc, BlockDecl(g, Enum), NoFlags.(inEnum := true))
  }

  /** Outside any block: the openers in their fixed order; Property lines only where they are scanned. */
  function OpenerLine(sc: Scope, code: string, withProperties: bool): (r: Result<Scope, Failure>)
    requires sc.target.Some? ==> sc.target.value < |sc.kids|
    ensures ScopeOk(sc) && sc.target.None? && r.Ok? ==> ScopeOk(r.value)
  {
    if withProperties && MatchPropertyGet(code).Some? then PropertyGetLine(sc, code)
    else if withProperties && MatchPropertySet(code).Some? then PropertySetLine(sc, code)
    else Ok(OtherOpenerLine(sc, code))
  }

  /** Where Property lines are scanned, a `Property Get` line is the getter's step. */
  lemma OpenerLineGet(sc: Scope, code: string, withProperties: bool)
    requires sc.target.None? && withProperties && MatchPropertyGet(code).Some?
    ensures OpenerLine(sc, code, withProperties) == PropertyGetLine(sc, code)
  {
  }

  /** Where Property lines are scanned, a `Property Set` or `Let` line that is no getter is the setter's step. */
  lemma OpenerLineSet(sc: Scope, code: string, withProperties: bool)
    requires sc.target.None? && withProperties && MatchPropertyGet(code).None? && MatchPropertySet(code).Some?
    ensures OpenerLine(sc, code, withProperties) == PropertySetLine(sc, code)
  {
  }

  /** Any other line goes to the remaining openers. */
  lemma OpenerLineOther(sc: Scope, code: string, withProperties: bool)
    requires sc.target.None?
    requires withProperties ==> MatchPropertyGet(code).None? && MatchPropertySet(code).None?
    ensures OpenerLine(sc, code, withProperties) == Ok(OtherOpenerLine(sc, code))
  {
  }

  /** The openers after the property ones: Type, a member declaration, Function, Sub, Enum. */
  function OtherOpenerLine(sc: Scope, code: string): (r: Scope)
    requires sc.target.Some? ==> sc.target.value < |sc.kids|
    ensures ScopeOk(sc) && sc.target.None? ==> ScopeOk(r)
  {
    if MatchBlock(code, "type").Some? then TypeOpened(sc, code)
    else if MatchMember(code).Some? then MemberAdded(sc, code)
    else if MatchFunction(code).Some? then FunctionOpened(sc, code)
    else if MatchSub(code).Some? then SubOpened(sc, code)
    else if MatchBlock(code, "enum").Some? then EnumOpened(sc, code)
    else sc
  }

  /**
   * One logical line: a documentation comment first, in whatever scope;
   * then the scanner of the open block alone; otherwise the openers. Every
   * step keeps the scope in a reachable state.
   */
  function ScanStep(sc: Scope, s: string, withProperties: bool): (r: Result<Scope, Failure>)
    requires ScopeOk(sc)
    ensures r.Ok? ==> ScopeOk(r.value)
  {
    if MatchDocComment(s).Some? then Ok(AddToTarget(sc, DocDecl(MatchDocComment(s).value)))
    else if sc.flags.inType then Ok(TypeLine(sc, s))
    else if sc.flags.inSub then Ok(BodyLine(sc, s, "sub"))
    else if sc.flags.inFunction then Ok(BodyLine(sc, s, "function"))
    else if sc.flags.inProperty then Ok(BodyLine(sc, s, "property"))
    else if sc.flags.inEnum then Ok(EnumLine(sc, s))
    else OpenerLine(sc, StripComments(s), withProperties)
  }

  /** Outside every block, a line that is not a documentation comment is scanned by the openers. */
  lemma ScanStepOpeners(sc: Scope, s: string, withProperties: bool)
    requires ScopeOk(sc) && sc.flags == NoFlags && MatchDocComment(s).None?
    ensures ScanStep(sc, s, withProperties) == OpenerLine(sc, StripComments(s), withProperties)
  {
  }

  /** Inside a block, a line that is not a documentation comment is scanned by that block and leaves lastProperty. */
  lemma ScanStepInBlock(sc: Scope, s: string, withProperties: bool)
    requires ScopeOk(sc) && sc.flags != NoFlags && MatchDocComment(s).None?
    ensures sc.target.Some?
    ensures ScanStep(sc, s, withProperties).Ok? && ScanStep(sc, s, withProperties).value.last == sc.last
  {
  }

  // ---------------------------------------------------------------- physical lines

  /** The scan between lines: the scope, the logical line s, and whether it continues. */
  datatype ScanState = ScanState(scope: Scope, pending: string, continuing: bool)

  const InitialState := ScanState(InitialScope, "", false)

  /**
   * One physical line: a line ending in ` _` without a comment is joined,
   * less its last two characters, to the logical line being collected;
   * any other line completes it, and the completed line is scanned.
   */
  function NextState(st: ScanState, ln: string, withProperties: bool): (r: Result<ScanState, Failure>)
    requires ScopeOk(st.scope)
    ensures r.Ok? ==> ScopeOk(r.value.scope)
    ensures Continues(ln) ==> r == Ok(ScanState(st.scope, JoinedText(st, ln), true))
  {
    var s := JoinedText(st, ln);
    if Continues(ln) then Ok(ScanState(st.scope, s, true))
    else
      match ScanStep(st.scope, s, withProperties)
      case Err(e) => Err(e)
      case Ok(sc) => Ok(ScanState(sc, s, false))
  }

  /** The logical line after ln: the pending text (when continuing) followed by ln, less ` _` markers' `_\n`. */
  function JoinedText(st: ScanState, ln: string): string {
    (if st.continuing then st.pending else "") + (if Continues(ln) then ln[..|ln| - 2] else ln)
  }

  /** The scan of one more line continues the scan of the lines before it. */
  lemma ScanLinesSnoc(lines: seq<string>, i: nat, withProperties: bool)
    requires i < |lines|
    ensures ScanLines(lines[..i], withProperties).Err? ==>
      ScanLines(lines[..i + 1], withProperties) == Err(ScanLines(lines[..i], withProperties).error)
    ensures ScanLines(lines[..i], withProperties).Ok? ==>
      ScanLines(lines[..i + 1], withProperties) == NextState(ScanLines(lines[..i], withProperties).value, lines[i], withProperties)
  {
    TakeOfTake(lines, i);
    assert ScanLines(lines[..i + 1], withProperties) == ScanLast(lines[..i + 1], withProperties);
    assert ScanLast(lines[..i + 1], withProperties) == ScanAfter(lines[..i], lines[i], withProperties);
  }

  /** The scan one line further from a known state is NextState of that state. */
  lemma ScanLinesNext(lines: seq<string>, i: nat, withProperties: bool, st: ScanState)
    requires i < |lines| && ScanLines(lines[..i], withProperties) == Ok(st)
    ensures ScanLines(lines[..i + 1], withProperties) == NextState(st, lines[i], withProperties)
  {
    ScanLinesSnoc(lines, i, withProperties);
  }

  /** A successful step from the state after line i is the state after line i + 1. */
  lemma ScanLinesNextOk(lines: seq<string>, i: nat, withProperties: bool, st: ScanState, next: ScanState)
    requires i < |lines| && ScanLines(lines[..i], withProperties) == Ok(st)
    requires NextState(st, lines[i], withProperties) == Ok(next)
    ensures ScanLines(lines[..i + 1], withProperties) == Ok(next)
  {
    ScanLinesNext(lines, i, withProperties, st);
  }

  /** A failure is final: the scan of any longer list of lines fails with the same error. */
  lemma {:induction false} ScanLinesErrSticks(lines: seq<string>, i: nat, withProperties: bool)
    requires i <= |lines| && ScanLines(lines[..i], withProperties).Err?
    ensures ScanLines(lines, withProperties) == ScanLines(lines[..i], withProperties)
    decreases |lines| - i
  {
    if i < |lines| {
      ScanLinesSnoc(lines, i, withProperties);
      ScanLinesErrSticks(lines, i + 1, withProperties);
    } else {
      TakeEnds(lines);
    }
  }

  /**
   * The scan of a sequence of lines from the initial state; the first
   * failure ends it. It is written as three mutually recursive functions so
   * that the line scanner is exposed to the verifier only after three
   * unfoldings, and so only where a proof asks for it.
   */
  function ScanLines(lines: seq<string>, withProperties: bool): (r: Result<ScanState, Failure>)
    ensures r.Ok? ==> ScopeOk(r.value.scope)
    decreases |lines|, 2
  {
    if lines == [] then Ok(InitialState) else ScanLast(lines, withProperties)
  }

  /** The scan of a non-empty sequence of lines: the lines before its last one, then the last one. */
  function ScanLast(lines: seq<string>, withProperties: bool): (r: Result<ScanState, Failure>)
    requires lines != []
    ensures r.Ok? ==> ScopeOk(r.value.scope)
    decreases |lines|, 1
  {
    ScanAfter(lines[..|lines| - 1], lines[|lines| - 1], withProperties)
  }

  /** The scan of the lines of prefix followed by the line ln. */
  function ScanAfter(prefix: seq<string>, ln: string, withProperties: bool): (r: Result<ScanState, Failure>)
    ensures r.Ok? ==> ScopeOk(r.value.scope)
    decreases |prefix| + 1, 0
  {
    match ScanLines(prefix, withProperties)
    case Err(e) => Err(e)
    case Ok(st) => NextState(st, ln, withProperties)
  }

  // ---------------------------------------------------------------- the tree on the heap

  /** An element below a child of the class element: its snapshot, no children, linked to its parent. */
  ghost predicate LeafMirror(cls: CodeElement, k: CodeElement, g: CodeElement, n: Node)
    reads *
  {
    g != cls && g.parent == k && g.childs.owner == g && g.childs.members == [] &&
    g.Snapshot() == n.decl && n.children == []
  }

  /** A child of the class element: its snapshot, and its own children one by one. */
  ghost predicate KidMirror(cls: CodeElement, k: CodeElement, n: Node)
    reads *
  {
    k != cls && k.parent == cls && k.childs.owner == k && k.Snapshot() == n.decl &&
    |k.childs.members| == |n.children| &&
    forall j | 0 <= j < |n.children| :: LeafMirror(cls, k, k.childs.members[j], n.children[j])
  }

  /** The children of cls on the heap are the distinct elements whose values are kids. */
  ghost predicate Mirror(cls: CodeElement, kids: seq<Node>)
    reads *
  {
    cls.childs.owner == cls && |cls.childs.members| == |kids| &&
    (forall i | 0 <= i < |kids| :: KidMirror(cls, cls.childs.members[i], kids[i])) &&
    forall i, j | 0 <= i < j < |kids| :: cls.childs.members[i] != cls.childs.members[j]
  }

  /** The element an index of the scope refers to: the class element itself for None. */
  ghost predicate At(cls: CodeElement, e: CodeElement, index: Option<nat>)
    reads cls.childs
  {
    match index
    case None => e == cls
    case Some(i) => i < |cls.childs.members| && e == cls.childs.members[i]
  }

  /** lastProperty: null for None, else the indexed child. */
  ghost predicate LastAt(cls: CodeElement, p: CodeElement?, index: Option<nat>)
    reads cls.childs
  {
    match index
    case None => p == null
    case Some(i) => i < |cls.childs.members| && p == cls.childs.members[i]
  }

  /** The objects a property merge may touch: lastProperty, if there is one. */
  function Opt(p: CodeElement?): set<CodeElement> {
    if p == null then {} else {p}
  }

  /** A new element with the fields of a declaration and no children. */
  method NewElement(d: Decl) returns (e: CodeElement)
    ensures fresh(e) && fresh(e.childs) && e.Snapshot() == d
    ensures e.parent == null && e.childs.owner == e && e.childs.members == []
  {
    e := new CodeElement(d.name, d.kind, d.returnType, d.isStatic, d.accessibility, d.value, d.isStr, d.others);
    e.arguments := d.arguments;
  }

  /**
   * `CodeElement(...)` followed by `target.childs.append(...)`: a new element
   * with the declaration's fields is added to the current scope, which is
   * what AddToTarget does to the scope's value.
   */
  method Attach(target: CodeElement, d: Decl, cls: CodeElement, ghost sc: Scope) returns (e: CodeElement)
    requires Mirror(cls, sc.kids) && At(cls, target, sc.target)
    modifies target.childs`members
    ensures fresh(e) && fresh(e.childs) && e.Snapshot() == d
    ensures Mirror(cls, AddToTarget(sc, d).kids)
    ensures sc.target.None? ==> cls.childs.members == old(cls.childs.members) + [e]
    ensures sc.target.Some? ==> cls.childs.members == old(cls.childs.members)
    ensures NewKidsFresh(cls)
  {
    if target == cls {
      e := AttachChild(d, cls, sc);
    } else {
      e := AttachLeaf(target, d, cls, sc);
    }
  }

  /** Attach in the class element's own scope: the new element is its last child. */
  method AttachChild(d: Decl, cls: CodeElement, ghost sc: Scope) returns (e: CodeElement)
    requires Mirror(cls, sc.kids) && sc.target.None?
    modifies cls.childs`members
    ensures fresh(e) && fresh(e.childs) && e.Snapshot() == d
    ensures Mirror(cls, AddToTarget(sc, d).kids)
    ensures cls.childs.members == old(cls.childs.members) + [e]
  {
    e := NewElement(d);
    cls.childs.Append(e);
    ghost var kids' := AddToTarget(sc, d).kids;
    assert KidMirror(cls, e, Node(d, []));
    forall i | 0 <= i < |sc.kids|
      ensures KidMirror(cls, cls.childs.members[i], kids'[i])
    {
      var k := cls.childs.members[i];
      assert old(KidMirror(cls, k, sc.kids[i]));
      assert k.childs != cls.childs;
    }
  }

  /** Attach in the scope of a child: the new element is that child's last child. */
  method AttachLeaf(target: CodeElement, d: Decl, cls: CodeElement, ghost sc: Scope) returns (e: CodeElement)
    requires Mirror(cls, sc.kids) && sc.target.Some? && At(cls, target, sc.target)
    modifies target.childs`members
    ensures fresh(e) && fresh(e.childs) && e.Snapshot() == d
    ensures Mirror(cls, AddToTarget(sc, d).kids)
    ensures cls.childs.members == old(cls.childs.members)
  {
    var t := sc.target.value;
    e := NewElement(d);
    target.childs.Append(e);
    ghost var kids' := AddToTarget(sc, d).kids;
    assert target.childs != cls.childs;
    forall i | 0 <= i < |sc.kids|
      ensures KidMirror(cls, cls.childs.members[i], kids'[i])
    {
      var k := cls.childs.members[i];
      assert old(KidMirror(cls, k, sc.kids[i]));
      if i == t {
        assert LeafMirror(cls, k, e, Node(d, []));
      } else {
        assert k.childs != target.childs;
        forall j | 0 <= j < |sc.kids[i].children|
          ensures LeafMirror(cls, k, k.childs.members[j], kids'[i].children[j])
        {
          assert old(LeafMirror(cls, k, k.childs.members[j], sc.kids[i].children[j]));
        }
      }
    }
  }

  /** Every child of cls that was not there before is new, and so is its child list. */
  twostate predicate NewKidsFresh(cls: CodeElement)
    reads cls.childs
  {
    forall k | k in cls.childs.members :: k in old(cls.childs.members) || (fresh(k) && fresh(k.childs))
  }

  /** `prev.return_type = t` on child l: its snapshot changes in that field only. */
  method SetReturnType(prev: CodeElement, t: string, cls: CodeElement, ghost sc: Scope, ghost l: nat)
    requires Mirror(cls, sc.kids) && l < |sc.kids| && prev == cls.childs.members[l]
    modifies prev`returnType
    ensures prev.Snapshot() == old(prev.Snapshot()).(returnType := t)
    ensures Mirror(cls, sc.kids[l := Node(prev.Snapshot(), sc.kids[l].children)])
  {
    prev.returnType := t;
    ghost var kids' := sc.kids[l := Node(prev.Snapshot(), sc.kids[l].children)];
    forall i | 0 <= i < |sc.kids|
      ensures KidMirror(cls, cls.childs.members[i], kids'[i])
    {
      var k := cls.childs.members[i];
      assert old(KidMirror(cls, k, sc.kids[i]));
      forall j | 0 <= j < |sc.kids[i].children|
        ensures LeafMirror(cls, k, k.childs.members[j], kids'[i].children[j])
      {
        assert old(LeafMirror(cls, k, k.childs.members[j], sc.kids[i].children[j]));
      }
    }
  }

  /** `prev.arguments.append(a)` on child l: its snapshot changes in that field only. */
  method AppendArgument(prev: CodeElement, a: Argument, cls: CodeElement, ghost sc: Scope, ghost l: nat)
    requires Mirror(cls, sc.kids) && l < |sc.kids| && prev == cls.childs.members[l]
    modifies prev`arguments
    ensures prev.Snapshot() == old(prev.Snapshot()).(arguments := old(prev.arguments) + [a])
    ensures Mirror(cls, sc.kids[l := Node(prev.Snapshot(), sc.kids[l].children)])
  {
    prev.arguments := prev.arguments + [a];
    ghost var kids' := sc.kids[l := Node(prev.Snapshot(), sc.kids[l].children)];
    forall i | 0 <= i < |sc.kids|
      ensures KidMirror(cls, cls.childs.members[i], kids'[i])
    {
      var k := cls.childs.members[i];
      assert old(KidMirror(cls, k, sc.kids[i]));
      forall j | 0 <= j < |sc.kids[i].children|
        ensures LeafMirror(cls, k, k.childs.members[j], kids'[i].children[j])
      {
        assert old(LeafMirror(cls, k, k.childs.members[j], sc.kids[i].children[j]));
      }
    }
  }

  /**
   * The reuse of lastProperty (child l) by a setter: without arguments it
   * takes the setter's first, which must exist; then its return type becomes
   * its first argument's type.
   */
  method ReuseForSetter(prev: CodeElement, args: seq<Argument>, cls: CodeElement, ghost sc: Scope, ghost l: nat)
    returns (ok: bool)
    requires Mirror(cls, sc.kids) && l < |sc.kids| && prev == cls.childs.members[l]
    modifies prev`returnType, prev`arguments
    ensures ok <==> MergeSetter(sc.kids[l].decl, args).Ok?
    ensures ok ==> Mirror(cls, sc.kids[l := Node(MergeSetter(sc.kids[l].decl, args).value, sc.kids[l].children)])
    ensures !ok ==> Mirror(cls, sc.kids)
  {
    if prev.arguments == [] && args == [] {
      return false;
    }
    ghost var sc' := sc;
    if prev.arguments == [] {
      AppendArgument(prev, args[0], cls, sc, l);
      sc' := sc.(kids := sc.kids[l := Node(prev.Snapshot(), sc.kids[l].children)]);
    }
    SetReturnType(prev, prev.arguments[0].argType, cls, sc', l);
    return true;
  }

  /** The heap holds the scope: the children of cls, the current scope and lastProperty. */
  ghost predicate Holds(cls: CodeElement, target: CodeElement, last: CodeElement?, sc: Scope)
    reads *
  {
    ScopeOk(sc) && Mirror(cls, sc.kids) && At(cls, target, sc.target) && LastAt(cls, last, sc.last)
  }

  /** The parser of one kind of VB6 module (Vb6Parser). */
  class Vb6Parser {
    const moduleType: Vb6ModuleType

    constructor (moduleType: Vb6ModuleType)
      ensures this.moduleType == moduleType
    {
      this.moduleType := moduleType;
    }

    /** _found_doxy_comment: a `'*` line becomes a documentation line of the current scope. */
    method FoundDoxyComment(s: string, target: CodeElement, cls: CodeElement, ghost sc: Scope) returns (found: bool)
      requires Mirror(cls, sc.kids) && At(cls, target, sc.target)
      modifies target.childs`members
      ensures found <==> MatchDocComment(s).Some?
      ensures found ==> Mirror(cls, AddToTarget(sc, DocDecl(MatchDocComment(s).value)).kids)
      ensures !found ==> Mirror(cls, sc.kids)
      ensures sc.target.Some? || !found ==> cls.childs.members == old(cls.childs.members)
      ensures old(cls.childs.members) <= cls.childs.members
      ensures NewKidsFresh(cls)
    {
      var m := MatchDocComment(s);
      if m.None? {
        return false;
      }
      var e := Attach(target, DocDecl(m.value), cls, sc);
      return true;
    }

    /**
     * _found_member: a declaration line becomes a constant or a variable of
     * the current scope; any other line changes nothing.
     */
    method FoundMember(s: string, target: CodeElement, cls: CodeElement, ghost sc: Scope) returns (found: bool)
      requires Mirror(cls, sc.kids) && At(cls, target, sc.target)
      modifies target.childs`members
      ensures found <==> MatchMember(StripComments(s)).Some?
      ensures found ==> Mirror(cls, MemberAdded(sc, StripComments(s)).kids)
      ensures !found ==> Mirror(cls, sc.kids)
      ensures sc.target.Some? || !found ==> cls.childs.members == old(cls.childs.members)
      ensures old(cls.childs.members) <= cls.childs.members
      ensures NewKidsFresh(cls)
    {
      var code := StripComments(s);
      var m := MatchMember(code);
      if m.None? {
        return false;
      }
      MatchedMemberAccess(code);
      var e := Attach(target, MemberDecl(m.value), cls, sc);
      return true;
    }

    /** _find_type: a Type header adds a structure, which becomes the scope. */
    method FindType(s: string, target: CodeElement, cls: CodeElement, ghost sc: Scope)
      returns (found: bool, newTarget: CodeElement)
      requires Mirror(cls, sc.kids) && At(cls, target, sc.target) && sc.target.None?
      modifies target.childs`members
      ensures var code := StripComments(s); found <==> MatchBlock(code, "type").Some?
      ensures var code := StripComments(s);
        found ==> Mirror(cls, TypeOpened(sc, code).kids) && At(cls, newTarget, TypeOpened(sc, code).target)
      ensures !found ==> newTarget == target && Mirror(cls, sc.kids) && cls.childs.members == old(cls.childs.members)
      ensures old(cls.childs.members) <= cls.childs.members
      ensures NewKidsFresh(cls)
    {
      var code := StripComments(s);
      var m := MatchBlock(code, "type");
      if m.None? {
        return false, target;
      }
      MatchedAccess(m.value.access);
      newTarget := Attach(target, BlockDecl(m.value, Struct), cls, sc);
      found := true;
    }

    /** _find_enum: an Enum header adds an enumeration, which becomes the scope. */
    method FindEnum(s: string, target: CodeElement, cls: CodeElement, ghost sc: Scope)
      returns (found: bool, newTarget: CodeElement)
      requires Mirror(cls, sc.kids) && At(cls, target, sc.target) && sc.target.None?
      modifies target.childs`members
      ensures var code := StripComments(s); found <==> MatchBlock(code, "enum").Some?
      ensures var code := StripComments(s);
        found ==> Mirror(cls, EnumOpened(sc, code).kids) && At(cls, newTarget, EnumOpened(sc, code).target)
      ensures !found ==> newTarget == target && Mirror(cls, sc.kids) && cls.childs.members == old(cls.childs.members)
      ensures old(cls.childs.members) <= cls.childs.members
      ensures NewKidsFresh(cls)
    {
      var code := StripComments(s);
      var m := MatchBlock(code, "enum");
      if m.None? {
        return false, target;
      }
      MatchedAccess(m.value.access);
      newTarget := Attach(target, BlockDecl(m.value, Enum), cls, sc);
      found := true;
    }

    /** _find_function: a Function header adds a function with its arguments, which becomes the scope. */
    method FindFunction(s: string, target: CodeElement, cls: CodeElement, ghost sc: Scope)
      returns (found: bool, newTarget: CodeElement)
      requires Mirror(cls, sc.kids) && At(cls, target, sc.target) && sc.target.None?
      modifies target.childs`members
      ensures var code := StripComments(s); found <==> MatchFunction(code).Some?
      ensures var code := StripComments(s);
        found ==> Mirror(cls, FunctionOpened(sc, code).kids) && At(cls, newTarget, FunctionOpened(sc, code).target)
      ensures !found ==> newTarget == target && Mirror(cls, sc.kids) && cls.childs.members == old(cls.childs.members)
      ensures old(cls.childs.members) <= cls.childs.members
      ensures NewKidsFresh(cls)
    {
      var code := StripComments(s);
      var m := MatchFunction(code);
      if m.None? {
        return false, target;
      }
      var g := m.value;
      MatchedAccess(g.access);
      var args := BuildArgsList(Some(g.args));
      newTarget := Attach(target, FunctionDecl(g, args), cls, sc);
      found := true;
    }

    /** _find_sub: a Sub header adds a function returning void with its arguments, which becomes the scope. */
    method FindSub(s: string, target: CodeElement, cls: CodeElement, ghost sc: Scope)
      returns (found: bool, newTarget: CodeElement)
      requires Mirror(cls, sc.kids) && At(cls, target, sc.target) && sc.target.None?
      modifies target.childs`members
      ensures var code := StripComments(s); found <==> MatchSub(code).Some?
      ensures var code := StripComments(s);
        found ==> Mirror(cls, SubOpened(sc, code).kids) && At(cls, newTarget, SubOpened(sc, code).target)
      ensures !found ==> newTarget == target && Mirror(cls, sc.kids) && cls.childs.members == old(cls.childs.members)
      ensures old(cls.childs.members) <= cls.childs.members
      ensures NewKidsFresh(cls)
    {
      var code := StripComments(s);
      var m := MatchSub(code);
      if m.None? {
        return false, target;
      }
      var g := m.value;
      MatchedAccess(g.access);
      var args := BuildArgsList(Some(g.args));
      newTarget := Attach(target, SubDecl(g, args), cls, sc);
      found := true;
    }

    /**
     * _process_sub, _process_function and _process_property: inside the block
     * only its closing line counts, and it returns the scope to the parent.
     */
    method ProcessBody(s: string, kw: string, target: CodeElement, cls: CodeElement, ghost sc: Scope)
      returns (searching: bool, newTarget: CodeElement)
      requires Mirror(cls, sc.kids) && At(cls, target, sc.target) && sc.target.Some?
      ensures searching <==> !EndsBlock(StripComments(s), kw)
      ensures At(cls, newTarget, BodyLine(sc, s, kw).target)
    {
      if EndsBlock(StripComments(s), kw) {
        return false, target.parent;
      }
      return true, target;
    }

    /** _process_type: the closing line, else a member declaration of the structure. */
    method ProcessType(s: string, target: CodeElement, cls: CodeElement, ghost sc: Scope)
      returns (searching: bool, newTarget: CodeElement)
      requires Mirror(cls, sc.kids) && At(cls, target, sc.target) && sc.target.Some?
      modifies target.childs`members
      ensures searching <==> !EndsBlock(StripComments(s), "type")
      ensures Mirror(cls, TypeLine(sc, s).kids) && At(cls, newTarget, TypeLine(sc, s).target)
      ensures cls.childs.members == old(cls.childs.members)
    {
      if EndsBlock(StripComments(s), "type") {
        return false, target.parent;
      }
      var found := FoundMember(s, target, cls, sc);
      return true, target;
    }

    /** _process_enum: the closing line, else a member with an optional value. */
    method ProcessEnum(s: string, target: CodeElement, cls: CodeElement, ghost sc: Scope)
      returns (searching: bool, newTarget: CodeElement)
      requires Mirror(cls, sc.kids) && At(cls, target, sc.target) && sc.target.Some?
      modifies target.childs`members
      ensures searching <==> !EndsBlock(StripComments(s), "enum")
      ensures Mirror(cls, EnumLine(sc, s).kids) && At(cls, newTarget, EnumLine(sc, s).target)
      ensures cls.childs.members == old(cls.childs.members)
    {
      var code := StripComments(s);
      if EndsBlock(code, "enum") {
        return false, target.parent;
      }
      var m := MatchEnumMember(code);
      if m.Some? {
        var e := Attach(target, EnumMemberDecl(m.value), cls, sc);
      }
      return true, target;
    }

    /**
     * _find_property_get: a Property Get header. When lastProperty has the
     * same name it is reused, its return type becoming its first argument's
     * type (IndexError when it has none); otherwise a new property with the
     * getter's type is added. Either way it becomes the scope and lastProperty.
     */
    method FindPropertyGet(s: string, target: CodeElement, prev: CodeElement?, cls: CodeElement, ghost sc: Scope)
      returns (r: Result<(bool, CodeElement, CodeElement?), Failure>)
      requires Holds(cls, target, prev, sc) && sc.target.None?
      modifies target.childs`members, Opt(prev)`returnType
      ensures var code := StripComments(s);
        MatchPropertyGet(code).None? ==>
          r == Ok((false, target, prev)) && Mirror(cls, sc.kids) && cls.childs.members == old(cls.childs.members)
      ensures var code := StripComments(s);
        MatchPropertyGet(code).Some? ==> var v := PropertyGetLine(sc, code);
          (r.Err? <==> v.Err?) && (r.Err? ==> r.error == v.error) &&
          (r.Ok? ==> r.value.0 && Mirror(cls, v.value.kids) &&
                     At(cls, r.value.1, v.value.target) && LastAt(cls, r.value.2, v.value.last))
      ensures old(cls.childs.members) <= cls.childs.members
      ensures NewKidsFresh(cls)
    {
      var code := StripComments(s);
      var m := MatchPropertyGet(code);
      if m.None? {
        return Ok((false, target, prev));
      }
      var g := m.value;
      MatchedAccess(g.access);
      var name := Strip(g.name);
      if prev != null && prev.name == name {
        if prev.arguments == [] {
          return Err(IndexError);
        }
        SetReturnType(prev, prev.arguments[0].argType, cls, sc, sc.last.value);
        return Ok((true, prev, prev));
      }
      var e := Attach(target, GetterDecl(g), cls, sc);
      return Ok((true, e, e));
    }

    /**
     * _find_property_set: a Property Set or Let header. When lastProperty has
     * the same name it is reused: without arguments it takes the setter's
     * first, then its return type becomes its first argument's type;
     * otherwise a new property returning void with the setter's first
     * argument is added. A missing first argument is an IndexError.
     */
    method FindPropertySet(s: string, target: CodeElement, prev: CodeElement?, cls: CodeElement, ghost sc: Scope)
      returns (r: Result<(bool, CodeElement, CodeElement?), Failure>)
      requires Holds(cls, target, prev, sc) && sc.target.None?
      modifies target.childs`members, Opt(prev)`returnType, Opt(prev)`arguments
      ensures var code := StripComments(s);
        MatchPropertySet(code).None? ==>
          r == Ok((false, target, prev)) && Mirror(cls, sc.kids) && cls.childs.members == old(cls.childs.members)
      ensures var code := StripComments(s);
        MatchPropertySet(code).Some? ==> var v := PropertySetLine(sc, code);
          (r.Err? <==> v.Err?) && (r.Err? ==> r.error == v.error) &&
          (r.Ok? ==> r.value.0 && Mirror(cls, v.value.kids) &&
                     At(cls, r.value.1, v.value.target) && LastAt(cls, r.value.2, v.value.last))
      ensures old(cls.childs.members) <= cls.childs.members
      ensures NewKidsFresh(cls)
    {
      var code := StripComments(s);
      if MatchPropertySet(code).None? {
        return Ok((false, target, prev));
      }
      r := SetterFound(s, target, prev, cls, sc);
    }

    /** _find_property_set once its pattern has matched: the setter is merged into prev or added. */
    method SetterFound(s: string, target: CodeElement, prev: CodeElement?, cls: CodeElement, ghost sc: Scope)
      returns (r: Result<(bool, CodeElement, CodeElement?), Failure>)
      requires Holds(cls, target, prev, sc) && sc.target.None? && MatchPropertySet(StripComments(s)).Some?
      modifies target.childs`members, Opt(prev)`returnType, Opt(prev)`arguments
      ensures var v := PropertySetLine(sc, StripComments(s));
        (r.Err? <==> v.Err?) && (r.Err? ==> r.error == v.error) &&
        (r.Ok? ==> r.value.0 && Mirror(cls, v.value.kids) &&
                   At(cls, r.value.1, v.value.target) && LastAt(cls, r.value.2, v.value.last))
      ensures old(cls.childs.members) <= cls.childs.members
      ensures NewKidsFresh(cls)
    {
      var code := StripComments(s);
      var g := MatchPropertySet(code).value;
      MatchedAccess(g.access);
      var name := Strip(g.name);
      var args := BuildArgsList(Some(g.args));
      if prev != null && prev.name == name {
        var ok := ReuseForSetter(prev, args, cls, sc, sc.last.value);
        if !ok {
          return Err(IndexError);
        }
        return Ok((true, prev, prev));
      }
      if args == [] {
        return Err(IndexError);
      }
      var e := Attach(target, SetterDecl(g, args).value, cls, sc);
      return Ok((true, e, e));
    }

    /**
     * The scanners outside any block, in their fixed order: Property Get and
     * Set/Let (where scanned), Type, a member declaration, Function, Sub, Enum.
     */
    method ScanOpeners(s: string, target: CodeElement, last: CodeElement?, withProperties: bool,
                       cls: CodeElement, ghost sc: Scope)
      returns (r: Result<(CodeElement, CodeElement?, Flags), Failure>)
      requires Holds(cls, target, last, sc) && sc.target.None?
      modifies target.childs`members, Opt(last)`returnType, Opt(last)`arguments
      ensures var v := OpenerLine(sc, StripComments(s), withProperties);
        (r.Err? <==> v.Err?) && (r.Err? ==> r.error == v.error) &&
        (r.Ok? ==> Mirror(cls, v.value.kids) && At(cls, r.value.0, v.value.target) &&
                   LastAt(cls, r.value.1, v.value.last) && r.value.2 == v.value.flags)
      ensures old(cls.childs.members) <= cls.childs.members
      ensures NewKidsFresh(cls)
    {
      var code := StripComments(s);
      if !withProperties {
        OpenerLineOther(sc, code, withProperties);
        var other := ScanOtherOpeners(s, target, last, cls, sc);
        return Ok(other);
      }
      if MatchPropertyGet(code).None? {
        r := ScanSetterOpener(s, target, last, cls, sc);
        return;
      }
      OpenerLineGet(sc, code, withProperties);
      var got := FindPropertyGet(s, target, last, cls, sc);
      if got.Err? {
        return Err(got.error);
      }
      return Ok((got.value.1, got.value.2, NoFlags.(inProperty := true)));
    }

    /** Property lines scanned, no `Property Get`: a `Property Set` or `Let`, else the other openers. */
    method ScanSetterOpener(s: string, target: CodeElement, last: CodeElement?, cls: CodeElement, ghost sc: Scope)
      returns (r: Result<(CodeElement, CodeElement?, Flags), Failure>)
      requires Holds(cls, target, last, sc) && sc.target.None? && MatchPropertyGet(StripComments(s)).None?
      modifies target.childs`members, Opt(last)`returnType, Opt(last)`arguments
      ensures var v := OpenerLine(sc, StripComments(s), true);
        (r.Err? <==> v.Err?) && (r.Err? ==> r.error == v.error) &&
        (r.Ok? ==> Mirror(cls, v.value.kids) && At(cls, r.value.0, v.value.target) &&
                   LastAt(cls, r.value.1, v.value.last) && r.value.2 == v.value.flags)
      ensures old(cls.childs.members) <= cls.childs.members
      ensures NewKidsFresh(cls)
    {
      var code := StripComments(s);
      if MatchPropertySet(code).None? {
        OpenerLineOther(sc, code, true);
        var other := ScanOtherOpeners(s, target, last, cls, sc);
        return Ok(other);
      }
      r := ScanSetter(s, target, last, cls, sc);
    }

    /** A Property Set/Let header outside any block: _find_property_set, then the property body. */
    method ScanSetter(s: string, target: CodeElement, last: CodeElement?, cls: CodeElement, ghost sc: Scope)
      returns (r: Result<(CodeElement, CodeElement?, Flags), Failure>)
      requires Holds(cls, target, last, sc) && sc.target.None?
      requires MatchPropertyGet(StripComments(s)).None? && MatchPropertySet(StripComments(s)).Some?
      modifies target.childs`members, Opt(last)`returnType, Opt(last)`arguments
      ensures var v := OpenerLine(sc, StripComments(s), true);
        (r.Err? <==> v.Err?) && (r.Err? ==> r.error == v.error) &&
        (r.Ok? ==> Mirror(cls, v.value.kids) && At(cls, r.value.0, v.value.target) &&
                   LastAt(cls, r.value.1, v.value.last) && r.value.2 == v.value.flags)
      ensures old(cls.childs.members) <= cls.childs.members
      ensures NewKidsFresh(cls)
    {
      OpenerLineSet(sc, StripComments(s), true);
      var put := FindPropertySet(s, target, last, cls, sc);
      if put.Err? {
        return Err(put.error);
      }
      return Ok((put.value.1, put.value.2, NoFlags.(inProperty := true)));
    }

    /** The openers after the property ones: Type, a member declaration, Function, Sub, Enum. */
    method ScanOtherOpeners(s: string, target: CodeElement, last: CodeElement?, cls: CodeElement, ghost sc: Scope)
      returns (r: (CodeElement, CodeElement?, Flags))
      requires Holds(cls, target, last, sc) && sc.target.None?
      modifies target.childs`members
      ensures var v := OtherOpenerLine(sc, StripComments(s));
        Mirror(cls, v.kids) && At(cls, r.0, v.target) && LastAt(cls, r.1, v.last) && r.2 == v.flags
      ensures old(cls.childs.members) <= cls.childs.members
      ensures NewKidsFresh(cls)
    {
      var found, newTarget := FindType(s, target, cls, sc);
      if found {
        return (newTarget, last, NoFlags.(inType := true));
      }
      found := FoundMember(s, target, cls, sc);
      if found {
        return (target, last, NoFlags);
      }
      found, newTarget := FindFunction(s, target, cls, sc);
      if found {
        return (newTarget, last, NoFlags.(inFunction := true));
      }
      found, newTarget := FindSub(s, target, cls, sc);
      if found {
        return (newTarget, last, NoFlags.(inSub := true));
      }
      found, newTarget := FindEnum(s, target, cls, sc);
      if found {
        return (newTarget, last, NoFlags.(inEnum := true));
      }
      return (target, last, NoFlags);
    }

    /** Inside a block only that block's scanner runs; its closing line clears the flag. */
    method ScanInBlock(s: string, target: CodeElement, flags: Flags, withProperties: bool,
                       cls: CodeElement, ghost sc: Scope)
      returns (newTarget: CodeElement, newFlags: Flags)
      requires ScopeOk(sc) && Mirror(cls, sc.kids) && At(cls, target, sc.target)
      requires sc.target.Some? && flags == sc.flags && MatchDocComment(s).None?
      modifies target.childs`members
      ensures ScanStep(sc, s, withProperties).Ok?
      ensures var v := ScanStep(sc, s, withProperties).value;
        Mirror(cls, v.kids) && At(cls, newTarget, v.target) && newFlags == v.flags
      ensures cls.childs.members == old(cls.childs.members)
    {
      var searching;
      if flags.inType {
        searching, newTarget := ProcessType(s, target, cls, sc);
        newFlags := flags.(inType := searching);
      } else if flags.inSub {
        searching, newTarget := ProcessBody(s, "sub", target, cls, sc);
        newFlags := flags.(inSub := searching);
      } else if flags.inFunction {
        searching, newTarget := ProcessBody(s, "function", target, cls, sc);
        newFlags := flags.(inFunction := searching);
      } else if flags.inProperty {
        searching, newTarget := ProcessBody(s, "property", target, cls, sc);
        newFlags := flags.(inProperty := searching);
      } else {
        searching, newTarget := ProcessEnum(s, target, cls, sc);
        newFlags := flags.(inEnum := searching);
      }
    }

    /**
     * The body of the scan loop for one logical line s: a documentation
     * comment, else the scanner of the open block, else the openers. The heap
     * afterwards holds ScanStep's scope.
     */
    method ScanLine(s: string, target: CodeElement, last: CodeElement?, flags: Flags, withProperties: bool,
                    cls: CodeElement, ghost sc: Scope)
      returns (r: Result<(CodeElement, CodeElement?, Flags), Failure>)
      requires Holds(cls, target, last, sc) && flags == sc.flags
      modifies target.childs`members, Opt(last)`returnType, Opt(last)`arguments
      ensures var v := ScanStep(sc, s, withProperties);
        (r.Err? <==> v.Err?) && (r.Err? ==> r.error == v.error) &&
        (r.Ok? ==> Holds(cls, r.value.0, r.value.1, v.value) && r.value.2 == v.value.flags)
      ensures NewKidsFresh(cls)
    {
      var found := FoundDoxyComment(s, target, cls, sc);
      if found {
        return Ok((target, last, flags));
      }
      r := ScanCode(s, target, last, flags, withProperties, cls, sc);
    }

    /** A line that is not a documentation comment: the scanner of the open block, else the openers. */
    method ScanCode(s: string, target: CodeElement, last: CodeElement?, flags: Flags, withProperties: bool,
                    cls: CodeElement, ghost sc: Scope)
      returns (r: Result<(CodeElement, CodeElement?, Flags), Failure>)
      requires Holds(cls, target, last, sc) && flags == sc.flags && MatchDocComment(s).None?
      modifies target.childs`members, Opt(last)`returnType, Opt(last)`arguments
      ensures var v := ScanStep(sc, s, withProperties);
        (r.Err? <==> v.Err?) && (r.Err? ==> r.error == v.error) &&
        (r.Ok? ==> Holds(cls, r.value.0, r.value.1, v.value) && r.value.2 == v.value.flags)
      ensures NewKidsFresh(cls)
    {
      if flags != NoFlags {
        var newTarget, newFlags := ScanBlockLine(s, target, last, flags, withProperties, cls, sc);
        return Ok((newTarget, last, newFlags));
      }
      ScanStepOpeners(sc, s, withProperties);
      r := ScanOpeners(s, target, last, withProperties, cls, sc);
    }

    /** A line inside an open block: lastProperty stays as it is. */
    method ScanBlockLine(s: string, target: CodeElement, last: CodeElement?, flags: Flags, withProperties: bool,
                         cls: CodeElement, ghost sc: Scope)
      returns (newTarget: CodeElement, newFlags: Flags)
      requires Holds(cls, target, last, sc) && flags == sc.flags && flags != NoFlags && MatchDocComment(s).None?
      modifies target.childs`members
      ensures ScanStep(sc, s, withProperties).Ok?
      ensures var v := ScanStep(sc, s, withProperties).value;
        Holds(cls, newTarget, last, v) && newFlags == v.flags
    {
      ScanStepInBlock(sc, s, withProperties);
      newTarget, newFlags := ScanInBlock(s, target, flags, withProperties, cls, sc);
    }

    /**
     * One physical line of the scan loop: joined to the pending text at
     * ` _`, or completing the logical line, which is then scanned. The heap
     * afterwards holds NextState's scope.
     */
    method ScanPhysical(ln: string, s: string, lineContinue: bool, target: CodeElement, last: CodeElement?,
                        flags: Flags, withProperties: bool, cls: CodeElement, ghost st: ScanState)
      returns (r: Result<(string, bool, CodeElement, CodeElement?, Flags), Failure>, ghost next: ScanState)
      requires st.pending == s && st.continuing == lineContinue && st.scope.flags == flags
      requires Holds(cls, target, last, st.scope)
      modifies target.childs`members, Opt(last)`returnType, Opt(last)`arguments
      ensures r.Err? ==> NextState(st, ln, withProperties) == Err(r.error)
      ensures r.Ok? ==> NextState(st, ln, withProperties) == Ok(next)
      ensures r.Ok? ==> r.value.0 == next.pending && r.value.1 == next.continuing &&
                        Holds(cls, r.value.2, r.value.3, next.scope) && r.value.4 == next.scope.flags
      ensures NewKidsFresh(cls)
    {
      next := st;
      if !HasComment(ln) && EndsWithContinuation(ln) {
        var joined := (if lineContinue then s else "") + ln[..|ln| - 2];
        assert JoinedText(st, ln) == joined;
        next := ScanState(st.scope, joined, true);
        return Ok((joined, true, target, last, flags)), next;
      }
      var joined := (if lineContinue then s else "") + ln;
      assert JoinedText(st, ln) == joined;
      var res := ScanLine(joined, target, last, flags, withProperties, cls, st.scope);
      if res.Err? {
        return Err(res.error), next;
      }
      next := ScanState(ScanStep(st.scope, joined, withProperties).value, joined, false);
      return Ok((joined, false, res.value.0, res.value.1, res.value.2)), next;
    }

    /** Line i of the module after the scan of the lines before it: the scan continues, or fails for good. */
    method ScanLineAt(lines: seq<string>, i: nat, s: string, lineContinue: bool, target: CodeElement,
                      last: CodeElement?, flags: Flags, withProperties: bool, cls: CodeElement, ghost st: ScanState)
      returns (failure: Option<Failure>, s': string, lineContinue': bool, target': CodeElement,
               last': CodeElement?, flags': Flags, ghost next: ScanState)
      requires i < |lines| && ScanLines(lines[..i], withProperties) == Ok(st)
      requires st.pending == s && st.continuing == lineContinue && st.scope.flags == flags
      requires Mirror(cls, st.scope.kids) && At(cls, target, st.scope.target) && LastAt(cls, last, st.scope.last)
      modifies target.childs`members, Opt(last)`returnType, Opt(last)`arguments
      ensures failure.Some? ==> ScanLines(lines, withProperties) == Err(failure.value)
      ensures failure.None? ==> ScanLines(lines[..i + 1], withProperties) == Ok(next)
      ensures failure.None? ==> s' == next.pending && lineContinue' == next.continuing && flags' == next.scope.flags
      ensures failure.None? ==> Mirror(cls, next.scope.kids) && At(cls, target', next.scope.target) &&
                                LastAt(cls, last', next.scope.last)
      ensures NewKidsFresh(cls)
    {
      var r;
      r, next := ScanPhysical(lines[i], s, lineContinue, target, last, flags, withProperties, cls, st);
      ScanLinesNext(lines, i, withProperties, st);
      if r.Err? {
        ScanLinesErrSticks(lines, i + 1, withProperties);
        return Some(r.error), s, lineContinue, target, last, flags, next;
      }
      return None, r.value.0, r.value.1, r.value.2, r.value.3, r.value.4, next;
    }

    /**
     * The scan loop of _parse_cls and _parse_bas, over the class element's
     * block: physical lines are joined at ` _` and each completed logical
     * line is scanned. An exception ends the parse: the tree built so far is
     * not returned.
     */
    method ScanBody(lines: seq<string>, cls: CodeElement, withProperties: bool) returns (r: Outcome<Failure>)
      requires cls.childs.owner == cls && cls.childs.members == []
      modifies cls.childs
      ensures var v := ScanLines(lines, withProperties);
        (r.Fail? <==> v.Err?) && (r.Fail? ==> r.error == v.error) &&
        (r.Pass? ==> Mirror(cls, v.value.scope.kids))
    {
      var target := cls;
      var lastProperty: CodeElement? := null;
      var flags := NoFlags;
      var s := "";
      var lineContinue := false;
      ghost var st := InitialState;
      var i := 0;
      while i < |lines|
        invariant 0 <= i <= |lines|
        invariant ScanLines(lines[..i], withProperties) == Ok(st)
        invariant st.pending == s && st.continuing == lineContinue && st.scope.flags == flags
        invariant Mirror(cls, st.scope.kids) && At(cls, target, st.scope.target) && LastAt(cls, lastProperty, st.scope.last)
        invariant forall k | k in cls.childs.members :: fresh(k) && fresh(k.childs)
      {
        assert target == cls || fresh(target.childs);
        assert lastProperty == null || fresh(lastProperty);
        var failure;
        failure, s, lineContinue, target, lastProperty, flags, st :=
          ScanLineAt(lines, i, s, lineContinue, target, lastProperty, flags, withProperties, cls, st);
        if failure.Some? {
          return Fail(failure.value);
        }
        i := i + 1;
      }
      TakeEnds(lines);
      return Pass;
    }

    // -------------------------------------------------------------- module-level scans

    /** _process_global_comments: each `'!` line adds a documentation line to target, in order. */
    method ProcessGlobalComments(lines: seq<string>, target: CodeElement)
      requires target.childs.owner == target
      modifies target.childs`members
      ensures var n := |old(target.childs.members)|;
        |target.childs.members| == n + |ModuleComments(lines)| && target.childs.members[..n] == old(target.childs.members) &&
        forall k | n <= k < |target.childs.members| ::
          DocLeaf(target, target.childs.members[k], ModuleComments(lines)[k - n]) &&
          fresh(target.childs.members[k]) && fresh(target.childs.members[k].childs)
    {
      ghost var n := |target.childs.members|;
      ghost var texts: seq<string> := [];
      var i := 0;
      while i < |lines|
        invariant 0 <= i <= |lines|
        invariant texts == ModuleComments(lines[..i])
        invariant |target.childs.members| == n + |texts|
        invariant target.childs.members[..n] == old(target.childs.members)
        invariant forall k | n <= k < |target.childs.members| ::
          DocLeaf(target, target.childs.members[k], texts[k - n]) &&
          fresh(target.childs.members[k]) && fresh(target.childs.members[k].childs)
      {
        ModuleCommentsSnoc(lines, i);
        var m := MatchModuleComment(lines[i]);
        if m.Some? {
          AppendDocLeaf(target, m.value, n, texts);
          texts := texts + [m.value];
        }
        i := i + 1;
      }
      TakeEnds(lines);
    }

    /** One pass of the loop of _process_global_comments: a new doc line holding text is appended to target. */
    method AppendDocLeaf(target: CodeElement, text: string, ghost n: nat, ghost texts: seq<string>)
      requires target.childs.owner == target
      requires |target.childs.members| == n + |texts|
      requires forall k | n <= k < |target.childs.members| :: DocLeaf(target, target.childs.members[k], texts[k - n])
      modifies target.childs`members
      ensures |target.childs.members| == n + |texts| + 1
      ensures target.childs.members[..n + |texts|] == old(target.childs.members)
      ensures fresh(target.childs.members[n + |texts|]) && fresh(target.childs.members[n + |texts|].childs)
      ensures forall k | n <= k < |target.childs.members| :: DocLeaf(target, target.childs.members[k], (texts + [text])[k - n])
    {
      var e := new CodeElement("", DocCommentLine, value := text);
      target.childs.Append(e);
    }

    /** _has_intf_tag: whether some line is the `'# Interface` tag. */
    method HasIntfTag(lines: seq<string>) returns (b: bool)
      ensures b == HasInterfaceTag(lines)
    {
      var i := 0;
      while i < |lines|
        invariant 0 <= i <= |lines|
        invariant forall j | 0 <= j < i :: !IsInterfaceTag(lines[j])
      {
        if IsInterfaceTag(lines[i]) {
          return true;
        }
        i := i + 1;
      }
      return false;
    }

    /**
     * _process_class_name: the class (or interface) element, named by the
     * first `Attribute VB_Name` line or DummyName, is added to target.
     */
    method ProcessClassName(lines: seq<string>, target: CodeElement, isIntf: bool) returns (classObj: CodeElement)
      requires target.childs.owner == target
      modifies target.childs`members
      ensures fresh(classObj) && fresh(classObj.childs)
      ensures classObj.Snapshot() == ClassDecl(lines, isIntf, map[])
      ensures classObj.parent == target && classObj.childs.owner == classObj && classObj.childs.members == []
      ensures target.childs.members == old(target.childs.members) + [classObj]
    {
      var className := FindClassName(lines);
      classObj := AddClassElement(target, className, if isIntf then Interface else Class);
    }

    /** _process_class_name's search: the name on the first `Attribute VB_Name` line, else DummyName. */
    method FindClassName(lines: seq<string>) returns (className: string)
      ensures className == ClassName(lines)
    {
      var i := FirstMatchingLine(lines, line => MatchVbName(StripComments(line)));
      if i < |lines| {
        className := MatchVbName(StripComments(lines[i])).value;
      } else {
        className := "DummyName";
      }
      ClassNameAt(lines, i);
    }

    /**
     * The loop of _process_class_name and _process_impl: the index of the
     * first line on which matcher captures something, or |lines| when none does.
     */
    method FirstMatchingLine(lines: seq<string>, matcher: string -> Option<string>) returns (i: nat)
      ensures i <= |lines| && forall j | 0 <= j < i :: matcher(lines[j]).None?
      ensures i < |lines| ==> matcher(lines[i]).Some?
    {
      i := 0;
      while i < |lines|
        invariant 0 <= i <= |lines|
        invariant forall j | 0 <= j < i :: matcher(lines[j]).None?
      {
        if matcher(lines[i]).Some? {
          return;
        }
        i := i + 1;
      }
    }

    /** `CodeElement(name, kind)` appended to target's children. */
    method AddClassElement(target: CodeElement, name: string, kind: ElementType) returns (e: CodeElement)
      requires target.childs.owner == target
      modifies target.childs`members
      ensures fresh(e) && fresh(e.childs) && e.Snapshot() == Decl(name, kind)
      ensures e.parent == target && e.childs.owner == e && e.childs.members == []
      ensures target.childs.members == old(target.childs.members) + [e]
    {
      e := new CodeElement(name, kind);
      target.childs.Append(e);
    }

    /** _process_impl: the first `Implements` line's interface is recorded under "implements". */
    method ProcessImpl(lines: seq<string>, classElem: CodeElement)
      modifies classElem`others
      ensures FirstImplements(lines).None? ==> classElem.others == old(classElem.others)
      ensures FirstImplements(lines).Some? ==>
        classElem.others == old(classElem.others)["implements" := [FirstImplements(lines).value]]
    {
      var m := FindImplements(lines);
      if m.Some? {
        classElem.others := classElem.others["implements" := [m.value]];
      }
    }

    /** The loop of _process_impl: the interface of the first `Implements` line, if any. */
    method FindImplements(lines: seq<string>) returns (m: Option<string>)
      ensures m == FirstImplements(lines)
    {
      var i := FirstMatchingLine(lines, line => MatchImplements(StripComments(line)));
      if i < |lines| {
        m := MatchImplements(StripComments(lines[i]));
      } else {
        m := None;
      }
      FirstImplementsAt(lines, i);
    }

    // -------------------------------------------------------------- the parse

    /**
     * _parse_cls, for class and form modules: root, then the Class or Form
     * namespace with the module comments and the class element, whose
     * children the scan builds with properties.
     */
    method ParseCls(lines: seq<string>) returns (r: Result<CodeElement, Failure>)
      ensures var v := ClsTree(moduleType == FormModule, lines);
        (r.Err? <==> v.Err?) && (r.Err? ==> r.error == v.error) &&
        (r.Ok? ==> fresh(r.value) && Tree(r.value, 4) == v.value && Within(r.value, 5))
    {
      var root, ns, cls, leaves := ClsHead(lines);
      label scan:
      var outcome := ScanBody(lines, cls, true);
      if outcome.Fail? {
        return Err(outcome.error);
      }
      LeavesKept@scan(ns, leaves, ModuleComments(lines));
      ModuleTree(root, ns, leaves, cls, ModuleComments(lines), ScanLines(lines, true).value.scope.kids);
      return Ok(root);
    }

    /**
     * The part of _parse_cls before the scan: root, the namespace with the
     * module comments, and the class element with its interface, if any.
     */
    method ClsHead(lines: seq<string>) returns (root: CodeElement, ns: CodeElement, cls: CodeElement, ghost leaves: seq<CodeElement>)
      ensures fresh(root) && fresh(cls.childs)
      ensures root.Snapshot() == Decl("root", Other) && root.childs.members == [ns]
      ensures ns.Snapshot() == Decl(if moduleType == FormModule then "Form" else "Class", NameSpace)
      ensures ns.childs.members == leaves + [cls] && |leaves| == |ModuleComments(lines)|
      ensures forall k | 0 <= k < |leaves| :: DocLeaf(ns, leaves[k], ModuleComments(lines)[k]) && leaves[k].childs != cls.childs
      ensures ns.childs != cls.childs && root.childs != cls.childs
      ensures cls.Snapshot() == ClassDecl(lines, HasInterfaceTag(lines), ImplementsOthers(lines))
      ensures cls.childs.owner == cls && cls.childs.members == []
    {
      root := new CodeElement("root", Other);
      ns, leaves := NamespaceIn(root, if moduleType == FormModule then "Form" else "Class", lines);
      label named:
      cls := ClassIn(lines, ns);
      LeavesKept@named(ns, leaves, ModuleComments(lines));
    }

    /** The class element of a class or form module, named, tagged and given its interfaces, appended to ns. */
    method ClassIn(lines: seq<string>, ns: CodeElement) returns (cls: CodeElement)
      requires ns.childs.owner == ns
      modifies ns.childs`members
      ensures fresh(cls) && fresh(cls.childs)
      ensures cls.Snapshot() == ClassDecl(lines, HasInterfaceTag(lines), ImplementsOthers(lines))
      ensures cls.childs.owner == cls && cls.childs.members == []
      ensures ns.childs.members == old(ns.childs.members) + [cls]
    {
      var isIntf := HasIntfTag(lines);
      cls := ProcessClassName(lines, ns, isIntf);
      ProcessImpl(lines, cls);
    }

    /**
     * The part of _parse_bas before the scan: root with the `using` element
     * and the Standard namespace, the module comments, and the class element.
     */
    method BasHead(lines: seq<string>)
      returns (root: CodeElement, using: CodeElement, ns: CodeElement, cls: CodeElement, ghost leaves: seq<CodeElement>)
      ensures fresh(root) && fresh(cls.childs)
      ensures root.Snapshot() == Decl("root", Other) && root.childs.members == [using, ns]
      ensures using.Snapshot() == UsingDecl() && using.childs.members == []
      ensures ns.Snapshot() == Decl("Standard", NameSpace)
      ensures ns.childs.members == leaves + [cls] && |leaves| == |ModuleComments(lines)|
      ensures forall k | 0 <= k < |leaves| :: DocLeaf(ns, leaves[k], ModuleComments(lines)[k]) && leaves[k].childs != cls.childs
      ensures ns.childs != cls.childs && root.childs != cls.childs && using.childs != cls.childs
      ensures cls.Snapshot() == ClassDecl(lines, false, map[])
      ensures cls.childs.owner == cls && cls.childs.members == []
    {
      root := new CodeElement("root", Other);
      using := UsingIn(root);
      ns, leaves := NamespaceIn(root, "Standard", lines);
      label named:
      cls := ProcessClassName(lines, ns, false);
      LeavesKept@named(ns, leaves, ModuleComments(lines));
    }

    /** The `using` element, new and childless, appended to root. */
    method UsingIn(root: CodeElement) returns (using: CodeElement)
      requires root.childs.owner == root
      modifies root.childs`members
      ensures fresh(using) && fresh(using.childs) && using.Snapshot() == UsingDecl() && using.childs.members == []
      ensures root.childs.members == old(root.childs.members) + [using]
    {
      using := new CodeElement("using", Other, others := map["using" := ["Class"]]);
      root.childs.Append(using);
    }

    /** A new namespace appended to root, holding the module comments as leaves. */
    method NamespaceIn(root: CodeElement, name: string, lines: seq<string>) returns (ns: CodeElement, ghost leaves: seq<CodeElement>)
      requires root.childs.owner == root
      modifies root.childs`members
      ensures fresh(ns) && fresh(ns.childs) && ns.Snapshot() == Decl(name, NameSpace) && ns.childs.owner == ns
      ensures root.childs.members == old(root.childs.members) + [ns]
      ensures ns.childs.members == leaves && |leaves| == |ModuleComments(lines)|
      ensures forall k | 0 <= k < |leaves| ::
        DocLeaf(ns, leaves[k], ModuleComments(lines)[k]) && fresh(leaves[k]) && fresh(leaves[k].childs)
    {
      ns := new CodeElement(name, NameSpace);
      root.childs.Append(ns);
      ProcessGlobalComments(lines, ns);
      leaves := ns.childs.members;
    }

    /**
     * _parse_bas: the tree of BasTree, built on the heap; a standard module
     * is scanned without property handling.
     */
    method ParseBas(lines: seq<string>) returns (r: Result<CodeElement, Failure>)
      ensures var v := BasTree(lines);
        (r.Err? <==> v.Err?) && (r.Err? ==> r.error == v.error) &&
        (r.Ok? ==> fresh(r.value) && Tree(r.value, 4) == v.value && Within(r.value, 5))
    {
      var root, using, ns, cls, leaves := BasHead(lines);
      label scan:
      var outcome := ScanBody(lines, cls, false);
      if outcome.Fail? {
        return Err(outcome.error);
      }
      LeavesKept@scan(ns, leaves, ModuleComments(lines));
      BasModuleTree(root, using, ns, leaves, cls, ModuleComments(lines), ScanLines(lines, false).value.scope.kids);
      return Ok(root);
    }

    /** parse: class and form modules go to _parse_cls, every other module to _parse_bas. */
    method Parse(lines: seq<string>) returns (r: Result<CodeParseResult, Failure>)
      ensures var v := ParseTree(moduleType, lines);
        (r.Err? <==> v.Err?) && (r.Err? ==> r.error == v.error) &&
        (r.Ok? ==> fresh(r.value.root) && Tree(r.value.root, 4) == v.value && Within(r.value.root, 5))
    {
      var root;
      if moduleType == ClassModule || moduleType == FormModule {
        root := ParseCls(lines);
        assert ParseTree(moduleType, lines) == ClsTree(moduleType == FormModule, lines);
      } else {
        root := ParseBas(lines);
        assert ParseTree(moduleType, lines) == BasTree(lines);
      }
      if root.Err? {
        return Err(root.error);
      }
      return Ok(CodeParseResult(root.value));
    }
  }

  // ---------------------------------------------------------------- the parse as values

  /** The class element's declaration: named by ClassName, an interface when tagged. */
  function ClassDecl(lines: seq<string>, isIntf: bool, others: map<string, seq<string>>): (d: Decl)
    ensures d.name == ClassName(lines) && d.kind == (if isIntf then Interface else Class) && d.others == others
    ensures d.value == "" && d.arguments == [] && d.accessibility == Undef
  {
    Decl(ClassName(lines), if isIntf then Interface else Class, others := others)
  }

  /** The documentation lines a module's `'!` comments become, in order. */
  function CommentLeaves(texts: seq<string>): (r: seq<Node>)
    ensures |r| == |texts| && forall k | 0 <= k < |texts| :: r[k] == Node(DocDecl(texts[k]), [])
  {
    seq(|texts|, k requires 0 <= k < |texts| => Node(DocDecl(texts[k]), []))
  }

  /**
   * The tree _parse_cls returns: root, then the Form or Class namespace
   * holding the module comments and the class element, whose children are
   * those of the scan with properties; the first exception of the scan ends
   * the parse.
   */
  function ClsTree(isForm: bool, lines: seq<string>): (r: Result<Node, Failure>)
    ensures r.Err? <==> ScanLines(lines, true).Err?
    ensures r.Err? ==> r.error == ScanLines(lines, true).error
    ensures r.Ok? ==> r.value.decl == Decl("root", Other)
  {
    match ScanLines(lines, true)
    case Err(e) => Err(e)
    case Ok(st) =>
      var classNode := Node(ClassDecl(lines, HasInterfaceTag(lines), ImplementsOthers(lines)), st.scope.kids);
      Ok(Node(Decl("root", Other),
              [Node(Decl(if isForm then "Form" else "Class", NameSpace), CommentLeaves(ModuleComments(lines)) + [classNode])]))
  }

  /** The `using` element a standard module's tree starts with. */
  function UsingDecl(): (d: Decl)
    ensures d.name == "using" && d.kind == Other && d.others == map["using" := ["Class"]]
  {
    Decl("using", Other, others := map["using" := ["Class"]])
  }

  /**
   * The tree _parse_bas returns: root, holding the `using` element and the
   * Standard namespace, which holds the module comments and the class
   * element; the scan runs without properties, never tags an interface
   * and records no implements.
   */
  function BasTree(lines: seq<string>): (r: Result<Node, Failure>)
    ensures r.Err? <==> ScanLines(lines, false).Err?
    ensures r.Err? ==> r.error == ScanLines(lines, false).error
    ensures r.Ok? ==> r.value.decl == Decl("root", Other)
  {
    match ScanLines(lines, false)
    case Err(e) => Err(e)
    case Ok(st) =>
      var classNode := Node(ClassDecl(lines, false, map[]), st.scope.kids);
      Ok(Node(Decl("root", Other),
              [Node(UsingDecl(), []),
               Node(Decl("Standard", NameSpace), CommentLeaves(ModuleComments(lines)) + [classNode])]))
  }

  /** The tree parse returns for a module of the given type. */
  function ParseTree(moduleType: Vb6ModuleType, lines: seq<string>): (r: Result<Node, Failure>)
    ensures var withProperties := moduleType != StandardModule;
      (r.Err? <==> ScanLines(lines, withProperties).Err?) && (r.Err? ==> r.error == ScanLines(lines, withProperties).error)
    ensures r.Ok? ==> r.value.decl == Decl("root", Other)
  {
    if moduleType == StandardModule then BasTree(lines) else ClsTree(moduleType == FormModule, lines)
  }

  /** A documentation line of the module comments: a childless element under parent. */
  ghost predicate DocLeaf(parent: CodeElement, e: CodeElement, text: string)
    reads *
  {
    e.parent == parent && e != parent && e.childs.owner == e && e.childs.members == [] && e.Snapshot() == DocDecl(text)
  }

  /** One more line of the module adds its `'!` comment, if it has one. */
  lemma ModuleCommentsSnoc(lines: seq<string>, i: nat)
    requires i < |lines|
    ensures ModuleComments(lines[..i + 1]) ==
      ModuleComments(lines[..i]) + (if MatchModuleComment(lines[i]).Some? then [MatchModuleComment(lines[i]).value] else [])
  {
    TakeOfTake(lines, i);
  }

  /** The class name when the first VB_Name line is at i, or there is none when i is the end. */
  lemma ClassNameAt(lines: seq<string>, i: nat)
    requires i <= |lines| && forall j | 0 <= j < i :: VbNames(lines)[j].None?
    requires i < |lines| ==> VbNames(lines)[i].Some?
    ensures i < |lines| ==> ClassName(lines) == MatchVbName(StripComments(lines[i])).value
    ensures i == |lines| ==> ClassName(lines) == "DummyName"
  {
    FirstSomeAt(VbNames(lines), i);
  }

  /** The first `Implements` line is at i, or there is none when i is the end. */
  lemma FirstImplementsAt(lines: seq<string>, i: nat)
    requires i <= |lines| && forall j | 0 <= j < i :: ImplementsNames(lines)[j].None?
    requires i < |lines| ==> ImplementsNames(lines)[i].Some?
    ensures i < |lines| ==> FirstImplements(lines) == MatchImplements(StripComments(lines[i]))
    ensures i == |lines| ==> FirstImplements(lines).None?
  {
    FirstSomeAt(ImplementsNames(lines), i);
  }

  /** The first present element is at i when i holds one and none comes before it; when i is the end, there is none. */
  lemma FirstSomeAt<T>(ms: seq<Option<T>>, i: nat)
    requires i <= |ms| && forall j | 0 <= j < i :: ms[j].None?
    requires i < |ms| ==> ms[i].Some?
    ensures i < |ms| ==> FirstSome(ms) == Some(i)
    ensures i == |ms| ==> FirstSome(ms).None?
  {
  }

  /** The comment leaves are as they were when a call left each leaf and its list alone. */
  twostate lemma LeavesKept(ns: CodeElement, new leaves: seq<CodeElement>, new texts: seq<string>)
    requires old(allocated(leaves))
    requires |leaves| == |texts| && forall k | 0 <= k < |leaves| :: old(DocLeaf(ns, leaves[k], texts[k]))
    requires forall k | 0 <= k < |leaves| :: unchanged(leaves[k], leaves[k].childs)
    ensures forall k | 0 <= k < |leaves| :: DocLeaf(ns, leaves[k], texts[k])
  {
  }

  /** The children cls mirrors are its subtree below it, and nothing lies deeper. */
  lemma MirrorTree(cls: CodeElement, kids: seq<Node>)
    requires Mirror(cls, kids)
    ensures Tree(cls, 2) == Node(cls.Snapshot(), kids) && Within(cls, 3)
  {
    forall i | 0 <= i < |kids|
      ensures Tree(cls.childs.members[i], 1) == kids[i] && Within(cls.childs.members[i], 2)
    {
      var k, n := cls.childs.members[i], kids[i];
      assert KidMirror(cls, k, n);
      forall j | 0 <= j < |n.children|
        ensures Tree(k.childs.members[j], 0) == n.children[j] && Within(k.childs.members[j], 1)
      {
        assert LeafMirror(cls, k, k.childs.members[j], n.children[j]);
      }
      TreesOf(k.childs.members, 0, n.children);
    }
    TreesOf(cls.childs.members, 1, kids);
  }

  /** The namespace's subtree: the comment leaves, then the class element, which mirrors kids. */
  lemma NamespaceTree(ns: CodeElement, leaves: seq<CodeElement>, cls: CodeElement, texts: seq<string>, kids: seq<Node>)
    requires ns.childs.members == leaves + [cls]
    requires |leaves| == |texts| && forall k | 0 <= k < |leaves| :: DocLeaf(ns, leaves[k], texts[k])
    requires Mirror(cls, kids)
    ensures Tree(ns, 3) == Node(ns.Snapshot(), CommentLeaves(texts) + [Node(cls.Snapshot(), kids)]) && Within(ns, 4)
  {
    MirrorTree(cls, kids);
    var members := leaves + [cls];
    var below := CommentLeaves(texts) + [Node(cls.Snapshot(), kids)];
    forall j | 0 <= j < |members|
      ensures Tree(members[j], 2) == below[j] && Within(members[j], 3)
    {
      if j < |leaves| {
        assert DocLeaf(ns, leaves[j], texts[j]);
        assert members[j] == leaves[j];
      }
    }
    TreesOf(members, 2, below);
  }

  /** The tree of a class or form module from root: one namespace. */
  lemma ModuleTree(root: CodeElement, ns: CodeElement, leaves: seq<CodeElement>, cls: CodeElement,
                   texts: seq<string>, kids: seq<Node>)
    requires root.childs.members == [ns] && ns.childs.members == leaves + [cls]
    requires |leaves| == |texts| && forall k | 0 <= k < |leaves| :: DocLeaf(ns, leaves[k], texts[k])
    requires Mirror(cls, kids)
    ensures Tree(root, 4) == Node(root.Snapshot(), [Node(ns.Snapshot(), CommentLeaves(texts) + [Node(cls.Snapshot(), kids)])])
    ensures Within(root, 5)
  {
    NamespaceTree(ns, leaves, cls, texts, kids);
    TreesOf([ns], 3, [Tree(ns, 3)]);
  }

  /** The tree of a standard module from root: the childless `using` element, then one namespace. */
  lemma BasModuleTree(root: CodeElement, using: CodeElement, ns: CodeElement, leaves: seq<CodeElement>, cls: CodeElement,
                      texts: seq<string>, kids: seq<Node>)
    requires root.childs.members == [using, ns] && using.childs.members == [] && ns.childs.members == leaves + [cls]
    requires |leaves| == |texts| && forall k | 0 <= k < |leaves| :: DocLeaf(ns, leaves[k], texts[k])
    requires Mirror(cls, kids)
    ensures Tree(root, 4) == Node(root.Snapshot(), [Node(using.Snapshot(), []),
                                                   Node(ns.Snapshot(), CommentLeaves(texts) + [Node(cls.Snapshot(), kids)])])
    ensures Within(root, 5)
  {
    NamespaceTree(ns, leaves, cls, texts, kids);
    TreesOf([using, ns], 3, [Node(using.Snapshot(), []), Tree(ns, 3)]);
  }
}
