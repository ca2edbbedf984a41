/**
 * The two halves joined as the command line joins them: the tree a parse
 * returns is handed to the generator from its root.
 */
module Pipeline {
  import opened Wrappers
  import opened CodeConv
  import opened ConvVb6
  import opened ConvVb6Parser
  import opened ConvCsharp

  /**
   * Every tree the parser returns has a root element of kind OTHER, and the
   * generator has no case for OTHER: generating from a parse always raises
   * NotImplementedError, before a single line is produced.
   */
  lemma ParsedModuleNotGenerated(moduleType: Vb6ModuleType, lines: seq<string>)
    requires ParseTree(moduleType, lines).Ok?
    ensures Gen(ParseTree(moduleType, lines).value, 0, false) == Err(NotImplemented)
  {
    UnsupportedKindsRaise(ParseTree(moduleType, lines).value, 0, false);
  }
}
