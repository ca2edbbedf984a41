/**
 * The language-neutral declaration tree that the VB6 parser builds and the
 * C# generator walks (src/DoxyVB6/codeconv.py).
 */
module CodeConv {
  import opened Wrappers

  /** Kind of a declaration (CodeElementType). */
  datatype ElementType =
    | Other | Var | Const | Func | Struct | DocCommentLine | DocCommentMulti
    | Class | Interface | Enum | NameSpace | Property

  /** Declared visibility of an element (CodeElementAccessibility); Undef prints as nothing. */
  datatype Accessibility = Undef | Public | Protected | Internal | Private

  /** The exceptions the pipeline can raise, as values. */
  datatype Failure =
    | IndexError                   // a list index out of range
    | KeyError(key: string)        // a missing dictionary key
    | NotImplemented               // NotImplementedError
    | CannotGenerate(message: string)

  /**
   * A formal parameter (CodeElementArgument). The defaults are those of its
   * constructor: by value, mandatory, and the default-value sentinel "default".
   */
  datatype Argument = Argument(
    name: string,
    argType: string,
    isReference: bool := false,
    isOptional: bool := false,
    isVlargs: bool := false,
    isKwargs: bool := false,
    defaultValue: string := "default",
    isStr: bool := false)

  /**
   * The own data of an element, without its parent and children. The
   * defaults are those of the CodeElement constructor.
   */
  datatype Decl = Decl(
    name: string,
    kind: ElementType,
    returnType: string := "void",
    isStatic: bool := false,
    accessibility: Accessibility := Undef,
    value: string := "",
    isStr: bool := false,
    others: map<string, seq<string>> := map[],
    arguments: seq<Argument> := [])

  /** An element together with its children, as a value. */
  datatype Node = Node(decl: Decl, children: seq<Node>)

  /** The result of a parse: the root of the tree (CodeParseResult). */
  datatype CodeParseResult = CodeParseResult(root: CodeElement)

  /** The ordered children of an element; each member points back at the owner. */
  class CodeElementList {
    /** The element whose children these are. */
    var owner: CodeElement?
    var members: seq<CodeElement>

    constructor (owner: CodeElement?)
      ensures this.owner == owner && members == []
    {
      this.owner := owner;
      members := [];
    }

    /** Every member's parent is the owner of this list. */
    ghost predicate Owns()
      reads this, members
    {
      forall m | m in members :: m.parent == owner
    }

    function Length(): (n: nat)
      reads this
      ensures n == |members|
    {
      |members|
    }

    function Contains(e: CodeElement): (b: bool)
      reads this
      ensures b <==> exists i :: 0 <= i < |members| && members[i] == e
    {
      e in members
    }

    /** Reading `lst[key]`, with Python's negative indices; out of range is an IndexError. */
    function Get(key: int): (r: Result<CodeElement, Failure>)
      reads this
      ensures 0 <= key < |members| ==> r == Ok(members[key])
      ensures -|members| <= key < 0 ==> r == Ok(members[key + |members|])
      ensures r.Err? <==> !(-|members| <= key < |members|)
      ensures r.Err? ==> r.error == IndexError
    {
      match PyIndex(key, |members|)
      case Some(k) => Ok(members[k])
      case None => Err(IndexError)
    }

    method Append(value: CodeElement)
      modifies this`members, value`parent
      ensures value.parent == owner
      ensures members == old(members) + [value]
      ensures old(Owns()) ==> Owns()
    {
      value.parent := owner;
      members := members + [value];
    }

    /** `insert(index, value)`: Python clamps the index into 0..len after adding len to a negative one. */
    method Insert(index: int, value: CodeElement)
      modifies this`members, value`parent
      ensures value.parent == owner
      ensures var p := InsertPosition(index, |old(members)|);
        members == old(members)[..p] + [value] + old(members)[p..]
      ensures old(Owns()) ==> Owns()
    {
      value.parent := owner;
      var p := InsertPosition(index, |members|);
      members := members[..p] + [value] + members[p..];
    }

    /**
     * `lst[key] = value`: the new element's parent is set before the index is
     * checked, so it changes even when the assignment fails; the replaced
     * element keeps its parent.
     */
    method SetItem(key: int, value: CodeElement) returns (r: Outcome<Failure>)
      modifies this`members, value`parent
      ensures value.parent == owner
      ensures forall m | m in old(members) && m != value :: m.parent == old(m.parent)
      ensures PyIndex(key, |old(members)|).None? ==> r == Fail(IndexError) && members == old(members)
      ensures PyIndex(key, |old(members)|).Some? ==>
        r == Pass && members == old(members)[PyIndex(key, |old(members)|).value := value]
      ensures old(Owns()) ==> Owns()
    {
      value.parent := owner;
      match PyIndex(key, |members|)
      case None =>
        r := Fail(IndexError);
      case Some(k) =>
        members := members[k := value];
        r := Pass;
    }

    /** `del lst[key]`: an out-of-range key fails before anything changes. */
    method DelItem(key: int) returns (r: Outcome<Failure>)
      modifies this`members, members`parent
      ensures PyIndex(key, |old(members)|).None? ==>
        r == Fail(IndexError) && members == old(members) &&
        forall m | m in old(members) :: m.parent == old(m.parent)
      ensures PyIndex(key, |old(members)|).Some? ==>
        var k := PyIndex(key, |old(members)|).value;
        r == Pass && members == old(members)[..k] + old(members)[k + 1..] &&
        old(members)[k].parent == null &&
        forall m | m in old(members) && m != old(members)[k] :: m.parent == old(m.parent)
      ensures old(Owns()) && r.Pass? && old(members)[PyIndex(key, |old(members)|).value] !in members ==> Owns()
    {
      match PyIndex(key, |members|)
      case None =>
        r := Fail(IndexError);
      case Some(k) =>
        members[k].parent := null;
        members := members[..k] + members[k + 1..];
        r := Pass;
    }

    /** `clear()`: every former member is detached, then the list is emptied. */
    method Clear()
      modifies this`members, members`parent
      ensures members == []
      ensures forall m | m in old(members) :: m.parent == null
    {
      var i := 0;
      while i < |members|
        invariant 0 <= i <= |members|
        invariant members == old(members)
        invariant forall j | 0 <= j < i :: members[j].parent == null
      {
        members[i].parent := null;
        i := i + 1;
      }
      members := [];
    }
  }

  /** A declaration of the tree (CodeElement). */
  class CodeElement {
    var name: string
    var kind: ElementType
    var returnType: string
    var isStatic: bool
    var accessibility: Accessibility
    var value: string
    var isStr: bool
    /** The open keyword arguments; the pipeline uses "implements", "using", "super" and "extends". */
    var others: map<string, seq<string>>
    var parent: CodeElement?
    const childs: CodeElementList
    var arguments: seq<Argument>

    constructor (name: string, kind: ElementType, returnType: string := "void",
                 isStatic: bool := false, accessibility: Accessibility := Undef,
                 value: string := "", isStr: bool := false,
                 others: map<string, seq<string>> := map[])
      ensures Snapshot() == Decl(name, kind, returnType, isStatic, accessibility, value, isStr, others, [])
      ensures parent == null
      ensures fresh(childs) && childs.owner == this && childs.members == []
    {
      this.name := name;
      this.kind := kind;
      this.returnType := returnType;
      this.isStatic := isStatic;
      this.accessibility := accessibility;
      this.value := value;
      this.isStr := isStr;
      this.others := others;
      parent := null;
      arguments := [];
      childs := new CodeElementList(null);
      new;
      // The list is linked to its owner once `this` may be passed around.
      childs.owner := this;
    }

    /** The element's own fields as a value. */
    function Snapshot(): Decl
      reads this
    {
      Decl(name, kind, returnType, isStatic, accessibility, value, isStr, others, arguments)
    }
  }

  /** Python's reading of a list index: negative keys count from the end. */
  function PyIndex(key: int, n: nat): (r: Option<nat>)
    ensures r.Some? <==> 0 <= key + n && key < n
    ensures r.Some? ==> r.value < n && (r.value == key || r.value == key + n)
  {
    if 0 <= key < n then Some(key)
    else if 0 <= key + n && key < 0 then Some(key + n)
    else None
  }

  /** Where Python's `list.insert(index, x)` puts x in a list of length n. */
  function InsertPosition(index: int, n: nat): (p: nat)
    ensures p <= n
    ensures 0 <= index <= n ==> p == index
    ensures 0 <= index + n && index < 0 ==> p == index + n
    ensures index > n ==> p == n
    ensures index + n < 0 ==> p == 0
  {
    if index < 0 then (if index + n < 0 then 0 else index + n)
    else if index > n then n
    else index
  }

  /** The subtree below e as a value, cut off after depth levels. */
  ghost function Tree(e: CodeElement, depth: nat): Node
    reads *
    decreases depth, 0
  {
    Node(e.Snapshot(), if depth == 0 then [] else Trees(e.childs.members, depth - 1))
  }

  ghost function Trees(es: seq<CodeElement>, depth: nat): seq<Node>
    reads *
    decreases depth, 1, |es|
  {
    if es == [] then [] else Trees(es[..|es| - 1], depth) + [Tree(es[|es| - 1], depth)]
  }

  /** Every path below e is shorter than depth, so Tree(e, depth) loses nothing. */
  ghost predicate Within(e: CodeElement, depth: nat)
    reads *
    decreases depth
  {
    depth > 0 && forall c | c in e.childs.members :: Within(c, depth - 1)
  }

  lemma {:induction false} TreesLength(es: seq<CodeElement>, depth: nat)
    ensures |Trees(es, depth)| == |es|
  {
    if es != [] {
      TreesLength(es[..|es| - 1], depth);
    }
  }

  /** The j-th child of a snapshot is the snapshot of the j-th member. */
  lemma {:induction false} TreesAt(es: seq<CodeElement>, depth: nat, j: nat)
    requires j < |es|
    ensures |Trees(es, depth)| == |es| && Trees(es, depth)[j] == Tree(es[j], depth)
  {
    TreesLength(es, depth);
    if j < |es| - 1 {
      TreesAt(es[..|es| - 1], depth, j);
    }
  }

  /** Members whose subtrees are the given values one by one have those values as their subtrees. */
  lemma TreesOf(es: seq<CodeElement>, depth: nat, ns: seq<Node>)
    requires |es| == |ns| && forall j | 0 <= j < |es| :: Tree(es[j], depth) == ns[j]
    ensures Trees(es, depth) == ns
  {
    TreesLength(es, depth);
    forall j | 0 <= j < |es|
      ensures Trees(es, depth)[j] == ns[j]
    {
      TreesAt(es, depth, j);
    }
  }

  /** How split_args files an argument: the first true flag wins. */
  datatype ArgGroup = Mandatory | Optional | Variadic | Keyword

  function GroupOf(a: Argument): ArgGroup {
    if a.isOptional then Optional
    else if a.isVlargs then Variadic
    else if a.isKwargs then Keyword
    else Mandatory
  }

  /** The arguments of group g, in input order. */
  function Select(args: seq<Argument>, g: ArgGroup): seq<Argument> {
    if args == [] then []
    else Select(args[..|args| - 1], g) + (if GroupOf(args[|args| - 1]) == g then [args[|args| - 1]] else [])
  }

  /** The selection from a non-empty list, in terms of its last argument, as multisets. */
  lemma SelectLast(args: seq<Argument>, g: ArgGroup)
    requires args != []
    ensures var init, last := args[..|args| - 1], args[|args| - 1];
      multiset(Select(args, g)) == multiset(Select(init, g)) + (if GroupOf(last) == g then multiset{last} else multiset{})
  {
  }

  /** Selecting from a concatenation concatenates the selections: input order is kept. */
  lemma {:induction false} SelectAppend(a: seq<Argument>, b: seq<Argument>, g: ArgGroup)
    ensures Select(a + b, g) == Select(a, g) + Select(b, g)
  {
    if b != [] {
      assert (a + b)[..|a + b| - 1] == a + b[..|b| - 1];
      SelectAppend(a, b[..|b| - 1], g);
    } else {
      assert a + b == a;
    }
  }

  /** Each selected argument belongs to the group and comes from the input. */
  lemma {:induction false} SelectMembers(args: seq<Argument>, g: ArgGroup)
    ensures forall x | x in Select(args, g) :: GroupOf(x) == g && x in args
  {
    if args != [] {
      SelectMembers(args[..|args| - 1], g);
    }
  }

  /** The four groups together are a permutation of the input. */
  lemma {:induction false} SelectPartition(args: seq<Argument>)
    ensures multiset(Select(args, Mandatory)) + multiset(Select(args, Optional))
          + multiset(Select(args, Variadic)) + multiset(Select(args, Keyword)) == multiset(args)
  {
    if args != [] {
      var init, last := args[..|args| - 1], args[|args| - 1];
      SelectPartition(init);
      PartitionSnoc(init, last);
      SplitLast(args);
    }
  }

  /** A non-empty list is the list without its last element, then that element. */
  lemma SplitLast<T>(s: seq<T>)
    requires s != []
    ensures s == s[..|s| - 1] + [s[|s| - 1]]
  {
  }

  /** The prefixes of no element and of every element. */
  lemma TakeEnds<T>(s: seq<T>)
    ensures s[..0] == [] && s[..|s|] == s
  {
  }

  /** The first i elements of the first i + 1. */
  lemma TakeOfTake<T>(s: seq<T>, i: nat)
    requires i < |s|
    ensures s[..i + 1][..i] == s[..i]
  {
  }

  /** One more argument joins exactly one of the four groups. */
  lemma PartitionSnoc(init: seq<Argument>, last: Argument)
    requires multiset(Select(init, Mandatory)) + multiset(Select(init, Optional))
           + multiset(Select(init, Variadic)) + multiset(Select(init, Keyword)) == multiset(init)
    ensures var args := init + [last];
      multiset(Select(args, Mandatory)) + multiset(Select(args, Optional))
      + multiset(Select(args, Variadic)) + multiset(Select(args, Keyword)) == multiset(args)
  {
    var args := init + [last];
    assert args[..|args| - 1] == init;
    SelectLast(args, Mandatory);
    SelectLast(args, Optional);
    SelectLast(args, Variadic);
    SelectLast(args, Keyword);
  }

  /** Every argument lands in exactly one group: the four sizes add up to the number of arguments. */
  lemma SelectSizes(args: seq<Argument>)
    ensures |Select(args, Mandatory)| + |Select(args, Optional)|
          + |Select(args, Variadic)| + |Select(args, Keyword)| == |args|
  {
    SelectPartition(args);
    assert |multiset(args)| == |args|;
  }

  /** split_args: mandatory, optional, variadic and keyword arguments, each in input order. */
  method SplitArgs(argList: seq<Argument>)
    returns (mandatory: seq<Argument>, optional: seq<Argument>, variadic: seq<Argument>, keyword: seq<Argument>)
    ensures mandatory == Select(argList, Mandatory) && optional == Select(argList, Optional)
    ensures variadic == Select(argList, Variadic) && keyword == Select(argList, Keyword)
    ensures |mandatory| + |optional| + |variadic| + |keyword| == |argList|
    ensures multiset(mandatory) + multiset(optional) + multiset(variadic) + multiset(keyword) == multiset(argList)
  {
    mandatory, optional, variadic, keyword := [], [], [], [];
    var i := 0;
    while i < |argList|
      invariant 0 <= i <= |argList|
      invariant mandatory == Select(argList[..i], Mandatory) && optional == Select(argList[..i], Optional)
      invariant variadic == Select(argList[..i], Variadic) && keyword == Select(argList[..i], Keyword)
    {
      var arg := argList[i];
      assert argList[..i + 1][..i] == argList[..i];
      if arg.isOptional {
        optional := optional + [arg];
      } else if arg.isVlargs {
        variadic := variadic + [arg];
      } else if arg.isKwargs {
        keyword := keyword + [arg];
      } else {
        mandatory := mandatory + [arg];
      }
      i := i + 1;
    }
    assert argList[..i] == argList;
    SelectPartition(argList);
    SelectSizes(argList);
  }
}
