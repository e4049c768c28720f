/**
 * The checks the settings page makes before it changes the registry: the
 * create, duplicate, edit and delete portfolio actions. Each verdict is
 * `Done` when the action goes ahead, `Refused(reason)` when it is turned
 * down with a message, and `Ignored` when a required field is missing and
 * the action does nothing without a message.
 */
module Guards {
  import opened Records
  import opened Text
  import opened Registry

  /** Some portfolio already has `name`, compared lower-cased. */
  predicate NameTaken(ps: seq<Portfolio>, name: string)
  {
    exists i :: 0 <= i < |ps| && Lower(ps[i].name) == Lower(name)
  }

  /** No two portfolio names are equal once lower-cased. */
  predicate NamesDistinct(ps: seq<Portfolio>)
  {
    forall i, j :: 0 <= i < j < |ps| ==> Lower(ps[i].name) != Lower(ps[j].name)
  }

  lemma AppendUntakenName(ps: seq<Portfolio>, q: Portfolio)
    requires NamesDistinct(ps) && !NameTaken(ps, q.name)
    ensures NamesDistinct(ps + [q])
  {
    var qs := ps + [q];
    forall i, j | 0 <= i < j < |qs| ensures Lower(qs[i].name) != Lower(qs[j].name) {
      assert qs[i] == ps[i];
      if j < |ps| {
        assert qs[j] == ps[j];
      }
    }
  }

  // ----------------------------------------------------------------- create

  /** The `create_portfolio` settings action, on the submitted name. */
  function CreateVerdict(ps: seq<Portfolio>, name: string): (r: Outcome)
    ensures r == Done <==> Strip(name) != "" && !NameTaken(ps, Strip(name))
    ensures r != Done ==> r.Refused?
    ensures Strip(name) == "" ==> r == Refused(NameRequired)
  {
    var n := Strip(name);
    if n == "" then Refused(NameRequired)
    else if NameTaken(ps, n) then Refused(NameInUse)
    else Done
  }

  /** An accepted create keeps names distinct and stores a non-empty name. */
  lemma CreateKeepsNamesDistinct(ps: seq<Portfolio>, id: string, name: string, description: string)
    requires NamesDistinct(ps) && CreateVerdict(ps, name) == Done
    ensures NewPortfolio(id, Strip(name), description).name != ""
    ensures NamesDistinct(ps + [NewPortfolio(id, Strip(name), description)])
  {
    AppendUntakenName(ps, NewPortfolio(id, Strip(name), description));
  }

  // -------------------------------------------------------------- duplicate

  /** The `duplicate_portfolio` settings action; an unknown id ends in the failure message. */
  function DuplicateVerdict(ps: seq<Portfolio>, id: string, newName: string): (r: Outcome)
    ensures r == Done <==> id != "" && Strip(newName) != "" && !NameTaken(ps, Strip(newName)) && HasId(ps, id)
    ensures r != Done ==> r.Refused?
    ensures id == "" || Strip(newName) == "" ==> r == Refused(MissingFields)
    ensures r == Refused(NotFound) <==> id != "" && Strip(newName) != "" && !NameTaken(ps, Strip(newName)) && !HasId(ps, id)
  {
    var n := Strip(newName);
    if id == "" || n == "" then Refused(MissingFields)
    else if NameTaken(ps, n) then Refused(NameInUse)
    else if PortfolioById(ps, id).None? then Refused(NotFound)
    else Done
  }

  /** An accepted duplicate keeps names distinct. */
  lemma DuplicateKeepsNamesDistinct(ps: seq<Portfolio>, id: string, freshId: string, newName: string)
    requires NamesDistinct(ps) && DuplicateVerdict(ps, id, newName) == Done
    ensures NamesDistinct(ps + [CopyOf(PortfolioById(ps, id).value, freshId, Strip(newName))])
  {
    AppendUntakenName(ps, CopyOf(PortfolioById(ps, id).value, freshId, Strip(newName)));
  }

  // ------------------------------------------------------------------- edit

  /**
   * The edit-portfolio form: `argId` is the id in the page address (empty
   * when absent), `formId` the id the form posts. An address id naming no
   * portfolio is refused before the form is read.
   */
  function EditVerdict(ps: seq<Portfolio>, argId: string, formId: string, name: string): (r: Outcome)
    ensures r == Done <==> (argId == "" || HasId(ps, argId)) && Strip(name) != "" && formId != "" && HasId(ps, formId)
    ensures r != Done ==> r.Refused?
    ensures argId != "" && !HasId(ps, argId) ==> r == Refused(NotFound)
  {
    if argId != "" && PortfolioById(ps, argId).None? then Refused(NotFound)
    else if Strip(name) == "" || formId == "" then Refused(NameRequired)
    else if PortfolioById(ps, formId).None? then Refused(NotFound)
    else Done
  }

  // ----------------------------------------------------------------- delete

  /**
   * The `delete_portfolio` settings action as the page decides it: a target
   * id naming no portfolio passes both checks and is reported as deleted.
   */
  function DeleteVerdictAsWritten(ps: seq<Portfolio>, id: string): (r: Outcome)
    ensures r == Ignored <==> id == ""
    ensures r == Done <==> id != "" && |ps| > 1 && (PortfolioById(ps, id).None? || !PortfolioById(ps, id).value.isActive)
    ensures r != Done && r != Ignored ==> r.Refused?
  {
    if id == "" then Ignored
    else if |ps| <= 1 then Refused(OnlyPortfolio)
    else match PortfolioById(ps, id)
      case Some(p) => if p.isActive then Refused(TargetActive) else Done
      case None => Done
  }

  /** The same action with an unknown id refused, as the duplicate action refuses one. */
  function DeleteVerdict(ps: seq<Portfolio>, id: string): (r: Outcome)
    ensures r == Ignored <==> id == ""
    ensures r == Done <==> id != "" && |ps| > 1 && HasId(ps, id) && !PortfolioById(ps, id).value.isActive
    ensures r != Done && r != Ignored ==> r.Refused?
    ensures r == Refused(NotFound) <==> id != "" && |ps| > 1 && !HasId(ps, id)
  {
    if id == "" then Ignored
    else if |ps| <= 1 then Refused(OnlyPortfolio)
    else match PortfolioById(ps, id)
      case Some(p) => if p.isActive then Refused(TargetActive) else Done
      case None => Refused(NotFound)
  }

  /**
   * Whatever the page lets through never empties the registry and never
   * removes the active portfolio.
   */
  lemma DeleteGuardSafe(ps: seq<Portfolio>, id: string)
    requires DeleteVerdictAsWritten(ps, id) == Done
    ensures |RemoveFirst(ps, id)| >= 1
    ensures ActivePortfolio(RemoveFirst(ps, id)) == ActivePortfolio(ps)
  {
    RemoveInactiveKeepsActive(ps, id);
  }

  /** The page reports a deletion for an unknown id, while nothing is removed. */
  lemma DeleteUnknownReportsDone(ps: seq<Portfolio>, id: string)
    requires id != "" && |ps| >= 2 && !HasId(ps, id)
    ensures DeleteVerdictAsWritten(ps, id) == Done
    ensures RemoveFirst(ps, id) == ps
  {
  }

  /** With the unknown id refused, `Done` means exactly one portfolio was removed, and never the active one. */
  lemma DeleteVerdictRemovesOne(ps: seq<Portfolio>, id: string)
    requires Wellformed(ps) && DeleteVerdict(ps, id) == Done
    ensures |RemoveFirst(ps, id)| == |ps| - 1 >= 1
    ensures !HasId(RemoveFirst(ps, id), id)
    ensures Wellformed(RemoveFirst(ps, id))
    ensures ActivePortfolio(RemoveFirst(ps, id)) == ActivePortfolio(ps)
  {
    RemoveFirstWellformed(ps, id);
    RemoveInactiveKeepsActive(ps, id);
  }
}
