/** The decision logic of `handle_solution` in backend/utils.py: validate
    the board, normalise it, and look the normal form up in the figure's set
    of known solutions, adding it unless the call only checks. Loading and
    writing the solutions file are left to the caller: the known set comes
    in as a parameter and the set to be stored goes out in the result. */
module Solutions {
  import opened Common
  import opened Text
  import opened Validation
  import opened Normalization
  import Truncation

  /** What `handle_solution` returns, `(is_valid, is_new, normalized,
      solution_count)`, together with the known set it leaves behind. */
  datatype Handled = Handled(valid: bool, isNew: bool, normalized: Option<string>, count: nat, store: set<string>)

  /** The answer to a board the placement check rejects. */
  const Rejected: (bool, bool, Option<string>, nat) := (false, false, None, 0)

  function Answer(r: Handled): (bool, bool, Option<string>, nat) {
    (r.valid, r.isNew, r.normalized, r.count)
  }

  /** The known set after looking up the normal form `n`: a form not yet
      known is added unless the call only checks. */
  function Store(n: string, known: set<string>, checkOnly: bool): (store: set<string>)
    ensures known <= store && store <= known + {n}
    ensures checkOnly ==> store == known
    ensures !checkOnly ==> n in store
    ensures |store| == if n !in known && !checkOnly then |known| + 1 else |known|
  {
    if n !in known && !checkOnly then known + {n} else known
  }

  /** `handle_solution` over the normaliser chosen by `fitOnly`. A rejected
      board answers `(False, False, None, 0)` and leaves the store alone.
      An accepted one is new exactly when its normal form is not known; a
      new normal form is stored unless the call only checks, and the count
      is the size of the store afterwards. */
  function HandleWith(solution: string, shapeFile: Option<string>, known: set<string>, checkOnly: bool, fitOnly: bool): (r: Handled)
    ensures !IsValidPlacement(solution, shapeFile) ==> Answer(r) == Rejected && r.store == known
    ensures IsValidPlacement(solution, shapeFile) ==>
      && r.valid && r.normalized == Some(NormalizeWith(solution, shapeFile, fitOnly))
      && (r.isNew <==> r.normalized.value !in known)
      && r.store == Store(r.normalized.value, known, checkOnly)
      && r.count == |r.store|
  {
    if !IsValidPlacement(solution, shapeFile) then Handled(false, false, None, 0, known)
    else
      var n := NormalizeWith(solution, shapeFile, fitOnly);
      var store := Store(n, known, checkOnly);
      Handled(true, n !in known, Some(n), |store|, store)
  }

  /** `handle_solution` with the corrected normaliser. */
  function HandleFitting(solution: string, shapeFile: Option<string>, known: set<string>, checkOnly: bool): (r: Handled)
    ensures r.valid <==> IsValidPlacement(solution, shapeFile)
    ensures !r.valid ==> Answer(r) == Rejected && r.store == known
    ensures r.valid ==>
      && r.normalized == Some(NormalizeFitting(solution, shapeFile))
      && (r.isNew <==> r.normalized.value !in known)
      && r.store == Store(r.normalized.value, known, checkOnly)
      && r.count == |r.store|
  {
    HandleWith(solution, shapeFile, known, checkOnly, true)
  }

  /** `handle_solution` with the normaliser as written. */
  function HandleAsWritten(solution: string, shapeFile: Option<string>, known: set<string>, checkOnly: bool): (r: Handled)
    ensures r.valid <==> IsValidPlacement(solution, shapeFile)
    ensures !r.valid ==> Answer(r) == Rejected && r.store == known
    ensures r.valid ==>
      && r.normalized == Some(NormalizeAsWritten(solution, shapeFile))
      && (r.isNew <==> r.normalized.value !in known)
      && r.store == Store(r.normalized.value, known, checkOnly)
      && r.count == |r.store|
  {
    HandleWith(solution, shapeFile, known, checkOnly, false)
  }

  /** Submitting an accepted board a second time, against the store the
      first submission left, reports it as known and changes nothing. */
  lemma ResubmitIsKnown(solution: string, shapeFile: Option<string>, known: set<string>, checkOnly: bool, fitOnly: bool)
    requires IsValidPlacement(solution, shapeFile)
    ensures var first := HandleWith(solution, shapeFile, known, false, fitOnly);
      var second := HandleWith(solution, shapeFile, first.store, checkOnly, fitOnly);
      && !second.isNew && second.store == first.store && second.count == first.count
      && second.normalized == first.normalized
  {
  }

  /** Two accepted boards with the same normal form: once the first is
      stored, the second is reported as known. */
  lemma SameNormalFormKnown(a: string, b: string, shapeFile: Option<string>, known: set<string>, fitOnly: bool)
    requires IsValidPlacement(a, shapeFile) && IsValidPlacement(b, shapeFile)
    requires NormalizeWith(a, shapeFile, fitOnly) == NormalizeWith(b, shapeFile, fitOnly)
    ensures !HandleWith(b, shapeFile, HandleWith(a, shapeFile, known, false, fitOnly).store, false, fitOnly).isNew
  {
  }

  /** Storing two different normal forms one after the other: the second
      is still new after the first, and both end up in the store. */
  lemma StoreTwo(na: string, nb: string, known: set<string>)
    requires na != nb && na !in known && nb !in known
    ensures nb !in Store(na, known, false)
    ensures Store(nb, Store(na, known, false), false) == known + {na, nb}
    ensures |Store(nb, Store(na, known, false), false)| == |known| + 2
  {
  }

  /** A board whose normal form differs from the first board's and from
      every stored one is reported new after the first is stored. */
  lemma DifferentNormalFormNew(a: string, b: string, shapeFile: Option<string>, known: set<string>, fitOnly: bool)
    requires IsValidPlacement(a, shapeFile) && IsValidPlacement(b, shapeFile)
    requires NormalizeWith(a, shapeFile, fitOnly) != NormalizeWith(b, shapeFile, fitOnly)
    requires NormalizeWith(a, shapeFile, fitOnly) !in known && NormalizeWith(b, shapeFile, fitOnly) !in known
    ensures var second := HandleWith(b, shapeFile, HandleWith(a, shapeFile, known, false, fitOnly).store, false, fitOnly);
      second.isNew && second.count == |known| + 2
  {
    StoreTwo(NormalizeWith(a, shapeFile, fitOnly), NormalizeWith(b, shapeFile, fitOnly), known);
  }

  /** The duplicate check as written: after `tlc` is stored for the figure
      `***`, the different board `tnc` is reported as already known. */
  lemma AsWrittenMissesSecond(tlc: string, tnc: string)
    requires tlc == "tlc" && tnc == "tnc"
    ensures !HandleAsWritten(tnc, Some(Truncation.Figure), HandleAsWritten(tlc, Some(Truncation.Figure), {}, false).store, false).isNew
  {
    Truncation.AsWrittenCollides(tlc, tnc);
    SameNormalFormKnown(tlc, tnc, Some(Truncation.Figure), {}, false);
  }

  /** With the corrected normaliser `tnc` is reported new after `tlc`, and
      both are stored. */
  lemma CorrectedCountsSecond(tlc: string, tnc: string)
    requires tlc == "tlc" && tnc == "tnc"
    ensures var first := HandleFitting(tlc, Some(Truncation.Figure), {}, false);
      var second := HandleFitting(tnc, Some(Truncation.Figure), first.store, false);
      second.isNew && second.count == 2
  {
    var figure := Some(Truncation.Figure);
    assert IsValidPlacement(tlc, figure) && IsValidPlacement(tnc, figure) by {
      Truncation.AsWrittenCollides(tlc, tnc);
    }
    assert NormalizeWith(tlc, figure, true) != NormalizeWith(tnc, figure, true) by {
      Truncation.CorrectedSeparates(tlc, tnc);
    }
    SecondCounted(tlc, tnc, figure);
  }

  /** Two accepted boards with different corrected normal forms, submitted
      to an empty store: the second is new and both are stored. */
  lemma SecondCounted(a: string, b: string, shapeFile: Option<string>)
    requires IsValidPlacement(a, shapeFile) && IsValidPlacement(b, shapeFile)
    requires NormalizeWith(a, shapeFile, true) != NormalizeWith(b, shapeFile, true)
    ensures var first := HandleFitting(a, shapeFile, {}, false);
      var second := HandleFitting(b, shapeFile, first.store, false);
      second.isNew && second.count == 2
  {
    var first := HandleWith(a, shapeFile, {}, false, true);
    assert HandleFitting(a, shapeFile, {}, false) == first;
    assert HandleFitting(b, shapeFile, first.store, false) == HandleWith(b, shapeFile, first.store, false, true);
    DifferentNormalFormNew(a, b, shapeFile, {}, true);
  }
}
