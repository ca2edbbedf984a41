/**
 * Properties of the scan loop of _parse_cls and _parse_bas, stated over the
 * scan model of ConvVb6Parser: what one logical line does to the scope, and
 * how physical lines are joined into logical ones.
 */
module ScanProperties {
  import opened Wrappers
  import opened CodeConv
  import opened Vb6Regex
  import opened ConvVb6
  import opened ConvVb6Parser

  /** The keyword that closes the block a flag stands for. */
  function BlockKeyword(f: Flags): string {
    if f.inType then "type"
    else if f.inSub then "sub"
    else if f.inFunction then "function"
    else if f.inProperty then "property"
    else "enum"
  }

  /**
   * A documentation comment is taken first, whatever block is open: it is
   * appended to the current scope, and flags, scope and lastProperty stay.
   */
  lemma DocCommentFirst(sc: Scope, s: string, withProperties: bool)
    requires ScopeOk(sc) && MatchDocComment(s).Some?
    ensures var r := ScanStep(sc, s, withProperties); var leaf := Node(DocDecl(MatchDocComment(s).value), []);
      r.Ok? && r.value.flags == sc.flags && r.value.target == sc.target && r.value.last == sc.last &&
      (sc.target.None? ==> r.value.kids == sc.kids + [leaf]) &&
      (sc.target.Some? ==>
        var t := sc.target.value;
        |r.value.kids| == |sc.kids| && r.value.kids[t] == Node(sc.kids[t].decl, sc.kids[t].children + [leaf]) &&
        forall i | 0 <= i < |sc.kids| && i != t :: r.value.kids[i] == sc.kids[i])
  {
  }

  /**
   * While a block is open, a line that is not a documentation comment goes
   * to that block's scanner alone: it never fails and never touches
   * lastProperty; it either is the block's closing line, which returns the
   * scope to the class element with every flag cleared and the children as
   * they were, or it leaves flags and scope as they are and changes no child
   * but the open one.
   */
  lemma InBlockOnlyThatScanner(sc: Scope, s: string, withProperties: bool)
    requires ScopeOk(sc) && sc.flags != NoFlags && MatchDocComment(s).None?
    ensures var r := ScanStep(sc, s, withProperties); var closing := EndsBlock(StripComments(s), BlockKeyword(sc.flags));
      r.Ok? && r.value.last == sc.last &&
      (closing ==> r.value == Close(sc)) &&
      (!closing ==>
        r.value.flags == sc.flags && r.value.target == sc.target && |r.value.kids| == |sc.kids| &&
        forall i | 0 <= i < |sc.kids| && Some(i) != sc.target :: r.value.kids[i] == sc.kids[i])
  {
    var t := sc.target.value;
    var code := StripComments(s);
    if sc.flags.inType && !EndsBlock(code, "type") && MatchMember(code).Some? {
      assert TypeLine(sc, s) == MemberAdded(sc, code);
    }
  }

  /** A closing line returns the scope to the class element and clears the flag; the children are kept. */
  lemma ClosingLine(sc: Scope, s: string, withProperties: bool)
    requires ScopeOk(sc) && sc.flags != NoFlags && MatchDocComment(s).None?
    requires EndsBlock(StripComments(s), BlockKeyword(sc.flags))
    ensures var r := ScanStep(sc, s, withProperties);
      r.Ok? && r.value.target.None? && r.value.flags == NoFlags && r.value.kids == sc.kids && r.value.last == sc.last
  {
    InBlockOnlyThatScanner(sc, s, withProperties);
  }

  /** A line whose first character is a blank is never a closing line, for any keyword. */
  lemma IndentedNeverEnds(t: string, kw: string)
    ensures !EndsBlock(" " + t, kw)
  {
    assert LowerChar((" " + t)[0]) != "end"[0];
  }

  /** Helper for IndentedEndStaysOpen: the code of a line that starts with a blank starts with that blank. */
  lemma StripKeepsLeadingBlank(t: string)
    ensures var code := StripComments(" " + t); |code| > 0 && code[0] == ' '
  {
    var s := " " + t;
    assert s[0] != '\'';
  }

  /**
   * An indented `End` line does not close the open block: the block stays
   * open, in the same scope.
   */
  lemma IndentedEndStaysOpen(sc: Scope, t: string, withProperties: bool)
    requires ScopeOk(sc) && sc.flags != NoFlags && MatchDocComment(" " + t).None?
    ensures var r := ScanStep(sc, " " + t, withProperties);
      r.Ok? && r.value.flags == sc.flags && r.value.target == sc.target
  {
    StripKeepsLeadingBlank(t);
    var code := StripComments(" " + t);
    assert code == " " + code[1..];
    IndentedNeverEnds(code[1..], BlockKeyword(sc.flags));
    InBlockOnlyThatScanner(sc, " " + t, withProperties);
  }

  /**
   * Inside an Enum block, a member line without `= value` adds a constant
   * whose value is the empty string to the enumeration.
   */
  lemma EnumMemberWithoutValue(sc: Scope, s: string, withProperties: bool)
    requires ScopeOk(sc) && sc.flags.inEnum && MatchDocComment(s).None?
    requires !EndsBlock(StripComments(s), "enum")
    requires MatchEnumMember(StripComments(s)).Some? && MatchEnumMember(StripComments(s)).value.value.None?
    ensures var r := ScanStep(sc, s, withProperties); var t := sc.target.value;
      r.Ok? && sc.target.Some? &&
      var d := r.value.kids[t].children[|r.value.kids[t].children| - 1].decl;
      |r.value.kids[t].children| == |sc.kids[t].children| + 1 && d.kind == Const && d.value == ""
  {
    assert !sc.flags.inType && !sc.flags.inSub && !sc.flags.inFunction && !sc.flags.inProperty;
    var g := MatchEnumMember(StripComments(s)).value;
    assert ScanStep(sc, s, withProperties) == Ok(AddToTarget(sc, EnumMemberDecl(g)));
  }

  /**
   * A `Property Get` line adds no element exactly when lastProperty has its
   * name: then that property is updated in place; otherwise a new property
   * is the last child. Either way it is the open block and lastProperty.
   */
  lemma GetterLineCollapses(sc: Scope, code: string)
    requires ScopeOk(sc) && sc.target.None? && MatchPropertyGet(code).Some?
    ensures var r := PropertyGetLine(sc, code); var same := SameNamed(sc, Strip(MatchPropertyGet(code).value.name));
      r.Ok? ==>
        r.value.flags == NoFlags.(inProperty := true) && r.value.target == r.value.last && r.value.target.Some? &&
        (|r.value.kids| == |sc.kids| <==> same.Some?) &&
        (same.Some? ==> r.value.target == same && forall j | 0 <= j < |sc.kids| && j != same.value :: r.value.kids[j] == sc.kids[j]) &&
        (same.None? ==> r.value.kids[..|sc.kids|] == sc.kids && r.value.target == Some(|sc.kids|))
  {
  }

  /** The same for a `Property Set` or `Let` line. */
  lemma SetterLineCollapses(sc: Scope, code: string)
    requires ScopeOk(sc) && sc.target.None? && MatchPropertySet(code).Some?
    ensures var r := PropertySetLine(sc, code); var same := SameNamed(sc, Strip(MatchPropertySet(code).value.name));
      r.Ok? ==>
        r.value.flags == NoFlags.(inProperty := true) && r.value.target == r.value.last && r.value.target.Some? &&
        (|r.value.kids| == |sc.kids| <==> same.Some?) &&
        (same.Some? ==> r.value.target == same && forall j | 0 <= j < |sc.kids| && j != same.value :: r.value.kids[j] == sc.kids[j]) &&
        (same.None? ==> r.value.kids[..|sc.kids|] == sc.kids && r.value.target == Some(|sc.kids|))
  {
  }

  /**
   * A line ending in ` _` without a comment is held back: the scope does
   * not change, and the next line that does not continue is scanned joined
   * to it, less the ` _` marker's underscore and line feed.
   */
  lemma ContinuedLineJoined(st: ScanState, a: string, b: string, withProperties: bool)
    requires ScopeOk(st.scope) && !st.continuing && Continues(a) && !Continues(b)
    ensures var mid := NextState(st, a, withProperties);
      var step := ScanStep(st.scope, a[..|a| - 2] + b, withProperties);
      mid.Ok? && mid.value.scope == st.scope && mid.value.continuing &&
      (step.Err? ==> NextState(mid.value, b, withProperties) == Err(step.error)) &&
      (step.Ok? ==> NextState(mid.value, b, withProperties) == Ok(ScanState(step.value, a[..|a| - 2] + b, false)))
  {
    var mid := NextState(st, a, withProperties).value;
    assert JoinedText(mid, b) == a[..|a| - 2] + b;
  }

  /** A line with a comment is never held back, even when it ends in ` _`. */
  lemma CommentedLineNotJoined(st: ScanState, ln: string, withProperties: bool)
    requires ScopeOk(st.scope) && HasComment(ln)
    ensures var r := NextState(st, ln, withProperties);
      r.Ok? ==> !r.value.continuing && r.value.pending == (if st.continuing then st.pending else "") + ln
  {
  }
}
