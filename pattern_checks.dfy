/** The per-parameter test the pattern-match count queries share: `stableFC_check`, a path
    match confined to the stable full cycles of one parameter.  The queries differ only in the
    poset whose children decide stability (`src`). */
module PatternChecks {
  import opened Dsgrn

  /** `stableFC_check`: the Morse sets are scanned in order; each stable full cycle sets the FC
      flag, and the first one whose search graph path-matches ends the scan.  Because the flag is
      set before the match is tested, a match always comes with the flag. */
  method StableFCCheck(p: Parameter, pos: Poset, src: PosetSource) returns (ismatch: bool, fc: bool)
    ensures ismatch == StableFCPathMatch(p, pos, src)
    ensures fc == HasStableFC(p, src)
    ensures ismatch ==> fc
  {
    fc := false;
    ismatch := false;
    var i := 0;
    while i < |p.morse|
      invariant 0 <= i <= |p.morse|
      invariant !ismatch
      invariant fc <==> exists j :: 0 <= j < i && IsStableFC(p.morse[j], src)
      invariant forall j :: 0 <= j < i && IsStableFC(p.morse[j], src) ==> !p.morse[j].pathMatch(pos)
    {
      if p.morse[i].annotation == "FC" && IsStableIn(p.morse[i], src) {
        fc := true;
        if p.morse[i].pathMatch(pos) {
          ismatch := true;
          break;
        }
      }
      i := i + 1;
    }
  }
}
