/** From the parsed formula to a verdict, and to a minimal unsatisfiable core. */
module Program {
  import opened Formulas
  import opened ParsedFormulas
  import MucExtraction
  import FirstCheck
  import SatCheck

  /** The verdict on a parsed formula is exact. */
  method Check(f: Parsed) returns (res: bool)
    requires Unreserved(f)
    ensures res <==> HasTrace(f)
  {
    BuildNoTail(f, false);
    BuildSatisfiable(f);
    res := FirstCheck.CheckSimplified(Build(f, false));
  }

  /** A core is reported exactly for unsatisfiable formulas: it is unsatisfiable, made of
      conjuncts of the formula, and every part of it is needed, for the formula as it is read
      and so for the formula itself if no loose False is built.  An empty answer stands for
      the program's failing assertion. */
  method Run(f: Parsed, binary: bool, uceable: bool) returns (core: seq<Formula>)
    requires Unreserved(f)
    ensures core == [] <==> HasTrace(f)
    ensures core != [] ==> !SatCheck.Consistent(core) && MucExtraction.CoreAsRead(Build(f, false), core)
    ensures core != [] && NoLooseFalse(Build(f, false)) ==> MucExtraction.MinimalCore(core)
    ensures forall g :: g in core ==> |ToSet(g)| == 1 && ToSet(g) <= ToSet(Build(f, false))
  {
    var af := Build(f, false);
    var res := Check(f);
    if res { return []; }
    BuildNoTail(f, false);
    BuildNnf(f, false);
    BuildSatisfiable(f);
    core := MucExtraction.GetMuc(af, binary, uceable);
    if core == [] { MucExtraction.NothingHolds(core); }
  }
}
