/**
 * The stored document and the admin actions that change it in place.
 *
 * The document's portfolio list, legacy content, settings and credentials
 * are fields; every action reads them, decides, and reassigns what it
 * changes. The methods are proved against the value-level functions of the
 * registry, section and guard modules. Fresh portfolio ids and password
 * hashes arrive as parameters.
 */
module Store {
  import opened Records
  import opened Text
  import opened Validators
  import opened Reorder
  import opened Sections
  import opened Registry
  import opened Guards

  class Document {
    var portfolios: seq<Portfolio>
    /** The top-level sections, edited when no portfolio is active. */
    var legacy: Content
    var settings: SiteSettings
    var credentials: Credentials

    constructor(portfolios: seq<Portfolio>, legacy: Content, settings: SiteSettings, credentials: Credentials)
      ensures this.portfolios == portfolios && this.legacy == legacy
      ensures this.settings == settings && this.credentials == credentials
    {
      this.portfolios := portfolios;
      this.legacy := legacy;
      this.settings := settings;
      this.credentials := credentials;
    }

    // ------------------------------------------------------------ lookups

    /** The scan of `get_active_portfolio`: the position of the first active record. */
    method ActiveSlot() returns (r: Option<nat>)
      ensures r == ActiveIndex(portfolios)
    {
      var i := 0;
      while i < |portfolios|
        invariant 0 <= i <= |portfolios|
        invariant forall j :: 0 <= j < i ==> !portfolios[j].isActive
      {
        if portfolios[i].isActive {
          return Some(i);
        }
        i := i + 1;
      }
      return None;
    }

    /** The scan of `get_portfolio_by_id`: the position of the first record with id `id`. */
    method IdSlot(id: string) returns (r: Option<nat>)
      ensures r == IdIndex(portfolios, id)
    {
      var i := 0;
      while i < |portfolios|
        invariant 0 <= i <= |portfolios|
        invariant forall j :: 0 <= j < i ==> portfolios[j].id != id
      {
        if portfolios[i].id == id {
          return Some(i);
        }
        i := i + 1;
      }
      return None;
    }

    method GetActivePortfolio() returns (r: Option<Portfolio>)
      ensures r == ActivePortfolio(portfolios)
    {
      var slot := ActiveSlot();
      match slot
      case None => r := None;
      case Some(i) => r := Some(portfolios[i]);
    }

    method GetPortfolioById(id: string) returns (r: Option<Portfolio>)
      ensures r == PortfolioById(portfolios, id)
    {
      var slot := IdSlot(id);
      match slot
      case None => r := None;
      case Some(i) => r := Some(portfolios[i]);
    }

    // ---------------------------------------------------- registry updates

    /** `create_portfolio`, with the fresh id it draws passed in. */
    method CreatePortfolio(freshId: string, name: string, description: string) returns (p: Portfolio)
      requires !HasId(portfolios, freshId)
      modifies this`portfolios
      ensures p == NewPortfolio(freshId, name, description)
      ensures portfolios == old(portfolios) + [p]
      ensures ActiveIndex(portfolios) == ActiveIndex(old(portfolios))
      ensures Wellformed(old(portfolios)) ==> Wellformed(portfolios)
    {
      p := NewPortfolio(freshId, name, description);
      AppendKeepsActive(portfolios, p);
      if Wellformed(portfolios) {
        AppendWellformed(portfolios, p);
      }
      portfolios := portfolios + [p];
    }

    /** `update_portfolio` with the name and description the edit form sends. */
    method UpdatePortfolio(id: string, name: string, description: string) returns (ok: bool)
      modifies this`portfolios
      ensures ok == HasId(old(portfolios), id)
      ensures portfolios == Merged(old(portfolios), id, name, description)
      ensures Wellformed(portfolios) == Wellformed(old(portfolios))
    {
      MergedWellformed(portfolios, id, name, description);
      var slot := IdSlot(id);
      match slot
      case None =>
        ok := false;
      case Some(i) =>
        portfolios := portfolios[i := portfolios[i].(name := name, description := description, updatedAt := Stamp)];
        ok := true;
    }

    /** `delete_portfolio`: removes the first record with id `id`. */
    method DeletePortfolio(id: string) returns (ok: bool)
      modifies this`portfolios
      ensures ok == HasId(old(portfolios), id)
      ensures portfolios == RemoveFirst(old(portfolios), id)
      ensures Wellformed(old(portfolios)) ==> Wellformed(portfolios)
    {
      if Wellformed(portfolios) {
        RemoveFirstWellformed(portfolios, id);
      }
      var slot := IdSlot(id);
      match slot
      case None =>
        ok := false;
      case Some(i) =>
        portfolios := portfolios[..i] + portfolios[i + 1..];
        ok := true;
    }

    /** The flag loop shared by `set_active_portfolio` and the system-settings action. */
    method Reflag(target: Option<string>)
      modifies this`portfolios
      ensures portfolios == Reflagged(old(portfolios), target)
      ensures UniqueIds(old(portfolios)) ==> Wellformed(portfolios)
    {
      ghost var ps := portfolios;
      if UniqueIds(ps) {
        ReflagWellformed(ps, target);
      }
      var i := 0;
      while i < |portfolios|
        invariant 0 <= i <= |portfolios| == |ps|
        invariant forall j :: 0 <= j < i ==> portfolios[j] == Reflagged(ps, target)[j]
        invariant forall j :: i <= j < |ps| ==> portfolios[j] == ps[j]
      {
        portfolios := portfolios[i := portfolios[i].(isActive := target == Some(portfolios[i].id))];
        i := i + 1;
      }
    }

    /** `set_active_portfolio`: every flag becomes whether the record has id `id`. */
    method SetActivePortfolio(id: string) returns (ok: bool)
      modifies this`portfolios
      ensures ok
      ensures portfolios == Reflagged(old(portfolios), Some(id))
      ensures UniqueIds(old(portfolios)) ==> Wellformed(portfolios)
    {
      Reflag(Some(id));
      ok := true;
    }

    /** `duplicate_portfolio`, with the fresh id it draws passed in. */
    method DuplicatePortfolio(id: string, freshId: string, newName: string) returns (r: Option<Portfolio>)
      requires !HasId(portfolios, freshId)
      modifies this`portfolios
      ensures r.None? <==> !HasId(old(portfolios), id)
      ensures r.None? ==> portfolios == old(portfolios)
      ensures r.Some? ==> r.value == CopyOf(PortfolioById(old(portfolios), id).value, freshId, newName)
      ensures r.Some? ==> portfolios == old(portfolios) + [r.value]
      ensures Wellformed(old(portfolios)) ==> Wellformed(portfolios)
    {
      var original := GetPortfolioById(id);
      match original
      case None =>
        r := None;
      case Some(p) =>
        var q := CopyOf(p, freshId, newName);
        if Wellformed(portfolios) {
          AppendWellformed(portfolios, q);
        }
        portfolios := portfolios + [q];
        r := Some(q);
    }

    // ------------------------------------------------------ section edits

    /**
     * An admin section edit: resolve the target (the first active
     * portfolio's content, or the legacy content), apply the edit, and write
     * the result back when it changed something.
     */
    method EditSection(e: Edit) returns (r: Change<Content>)
      modifies this`portfolios, this`legacy
      ensures r == ApplyEdit(Target(old(portfolios), old(legacy)), e)
      ensures r.Changed? ==> (portfolios, legacy) == Retarget(old(portfolios), old(legacy), r.value)
      ensures !r.Changed? ==> portfolios == old(portfolios) && legacy == old(legacy)
      ensures Wellformed(portfolios) == Wellformed(old(portfolios))
    {
      var slot := ActiveSlot();
      var c := if slot.Some? then portfolios[slot.value].content else legacy;
      if e.MoveSkills? {
        var tags := CollectSkillTags(c.skills);
        var picked := Reordered(tags, e.order);
        r := Changed(c.(skills := Skills(OfKind(picked, Technical), OfKind(picked, Soft))));
      } else {
        r := ApplyEdit(c, e);
      }
      if r.Changed? {
        TargetRetarget(portfolios, legacy, r.value);
        match slot
        case Some(i) => portfolios := portfolios[i := portfolios[i].(content := r.value)];
        case None => legacy := r.value;
      }
    }

    // --------------------------------------------------- settings actions

    /**
     * The system-settings form. Absent fields are `None`; the two switches
     * are on only when the form sends `"on"`; every flag is re-derived from
     * the chosen default portfolio.
     */
    method UpdateSystemSettings(defaultPortfolio: Option<string>, allowPublicAccess: Option<string>,
                                maintenanceMode: Option<string>, defaultTheme: Option<string>,
                                sectionAlignment: Option<string>)
      modifies this`settings, this`portfolios
      ensures settings == old(settings).(
                defaultPortfolio := defaultPortfolio,
                allowPublicAccess := allowPublicAccess == Some("on"),
                maintenanceMode := maintenanceMode == Some("on"),
                defaultTheme := GetOr(defaultTheme, "Default Dark"),
                sectionAlignment := GetOr(sectionAlignment, "center"))
      ensures portfolios == Reflagged(old(portfolios), defaultPortfolio)
      ensures UniqueIds(old(portfolios)) ==> Wellformed(portfolios)
    {
      settings := settings.(
        defaultPortfolio := defaultPortfolio,
        allowPublicAccess := allowPublicAccess == Some("on"),
        maintenanceMode := maintenanceMode == Some("on"),
        defaultTheme := GetOr(defaultTheme, "Default Dark"),
        sectionAlignment := GetOr(sectionAlignment, "center"));
      Reflag(defaultPortfolio);
    }

    method UpdateSiteSettings(siteTitle: string)
      modifies this`settings
      ensures settings == old(settings).(siteTitle := Strip(siteTitle))
    {
      settings := settings.(siteTitle := Strip(siteTitle));
    }

    /** The settings `create_portfolio` action: stripped fields, a required and unused name. */
    method CreatePortfolioAction(freshId: string, name: string, description: string) returns (o: Outcome)
      requires !HasId(portfolios, freshId)
      modifies this`portfolios
      ensures o == CreateVerdict(old(portfolios), name)
      ensures o == Done ==> portfolios == old(portfolios) + [NewPortfolio(freshId, Strip(name), Strip(description))]
      ensures o != Done ==> portfolios == old(portfolios)
      ensures NamesDistinct(old(portfolios)) ==> NamesDistinct(portfolios)
      ensures Wellformed(old(portfolios)) ==> Wellformed(portfolios)
    {
      o := CreateVerdict(portfolios, name);
      if o == Done {
        if NamesDistinct(portfolios) {
          CreateKeepsNamesDistinct(portfolios, freshId, name, Strip(description));
        }
        var _ := CreatePortfolio(freshId, Strip(name), Strip(description));
      }
    }

    /** The separate add-portfolio page: it requires a name but does not check that it is unused. */
    method AddPortfolioAction(freshId: string, name: string, description: string) returns (o: Outcome)
      requires !HasId(portfolios, freshId)
      modifies this`portfolios
      ensures o == Done <==> Strip(name) != ""
      ensures o != Done ==> o == Refused(NameRequired) && portfolios == old(portfolios)
      ensures o == Done ==> portfolios == old(portfolios) + [NewPortfolio(freshId, Strip(name), Strip(description))]
      ensures Wellformed(old(portfolios)) ==> Wellformed(portfolios)
    {
      if Strip(name) == "" {
        o := Refused(NameRequired);
      } else {
        var _ := CreatePortfolio(freshId, Strip(name), Strip(description));
        o := Done;
      }
    }

    /** The edit-portfolio page: new name and description, stripped, for the posted id. */
    method EditPortfolioAction(argId: string, formId: string, name: string, description: string) returns (o: Outcome)
      modifies this`portfolios
      ensures o == EditVerdict(old(portfolios), argId, formId, name)
      ensures o == Done ==> portfolios == Merged(old(portfolios), formId, Strip(name), Strip(description))
      ensures o != Done ==> portfolios == old(portfolios)
      ensures Wellformed(portfolios) == Wellformed(old(portfolios))
    {
      if argId != "" {
        var shown := GetPortfolioById(argId);
        if shown.None? {
          return Refused(NotFound);
        }
      }
      if Strip(name) == "" || formId == "" {
        return Refused(NameRequired);
      }
      var ok := UpdatePortfolio(formId, Strip(name), Strip(description));
      o := if ok then Done else Refused(NotFound);
    }

    /** The settings `set_active` action; an empty id does nothing. */
    method SetActiveAction(id: string) returns (o: Outcome)
      modifies this`portfolios
      ensures o == (if id == "" then Ignored else Done)
      ensures o == Done ==> portfolios == Reflagged(old(portfolios), Some(id))
      ensures o == Ignored ==> portfolios == old(portfolios)
      ensures Wellformed(old(portfolios)) ==> Wellformed(portfolios)
    {
      if id == "" {
        o := Ignored;
      } else {
        var _ := SetActivePortfolio(id);
        o := Done;
      }
    }

    /** The settings `delete_portfolio` action, with an unknown id refused. */
    method DeletePortfolioAction(id: string) returns (o: Outcome)
      modifies this`portfolios
      ensures o == DeleteVerdict(old(portfolios), id)
      ensures o == Done ==> portfolios == RemoveFirst(old(portfolios), id)
      ensures o != Done ==> portfolios == old(portfolios)
      ensures DeleteVerdictAsWritten(old(portfolios), id) == Done ==> portfolios == RemoveFirst(old(portfolios), id)
      ensures Wellformed(old(portfolios)) ==> Wellformed(portfolios)
    {
      if id == "" {
        return Ignored;
      }
      if |portfolios| <= 1 {
        return Refused(OnlyPortfolio);
      }
      var target := GetPortfolioById(id);
      match target
      case None =>
        DeleteUnknownReportsDone(portfolios, id);
        o := Refused(NotFound);
      case Some(p) =>
        if p.isActive {
          o := Refused(TargetActive);
        } else {
          var _ := DeletePortfolio(id);
          o := Done;
        }
    }

    /** The settings `duplicate_portfolio` action: both fields required, the new name stripped and unused. */
    method DuplicatePortfolioAction(id: string, freshId: string, newName: string) returns (o: Outcome)
      requires !HasId(portfolios, freshId)
      modifies this`portfolios
      ensures o == DuplicateVerdict(old(portfolios), id, newName)
      ensures o == Done ==>
        portfolios == old(portfolios) + [CopyOf(PortfolioById(old(portfolios), id).value, freshId, Strip(newName))]
      ensures o != Done ==> portfolios == old(portfolios)
      ensures NamesDistinct(old(portfolios)) ==> NamesDistinct(portfolios)
      ensures Wellformed(old(portfolios)) ==> Wellformed(portfolios)
    {
      var n := Strip(newName);
      if id == "" || n == "" {
        return Refused(MissingFields);
      }
      if NameTaken(portfolios, n) {
        return Refused(NameInUse);
      }
      if HasId(portfolios, id) && NamesDistinct(portfolios) {
        DuplicateKeepsNamesDistinct(portfolios, id, freshId, newName);
      }
      var copy := DuplicatePortfolio(id, freshId, n);
      o := if copy.Some? then Done else Refused(NotFound);
    }

    // ------------------------------------------------------- credentials

    /**
     * The change-password form. `hashCheck` is the hash library's verdict on
     * the current password; `newHash` the hash it computes for the new one.
     */
    method ChangePassword(hashCheck: bool, newPassword: string, confirm: string, newHash: string) returns (o: Outcome)
      modifies this`credentials
      ensures o == PasswordVerdict(CurrentPasswordOk(old(credentials).passwordHash, hashCheck), newPassword, confirm)
      ensures o == Done ==> credentials == old(credentials).(passwordHash := newHash)
      ensures o != Done ==> credentials == old(credentials)
    {
      o := PasswordVerdict(CurrentPasswordOk(credentials.passwordHash, hashCheck), newPassword, confirm);
      if o == Done {
        credentials := credentials.(passwordHash := newHash);
      }
    }

    method ChangeUsername(hashCheck: bool, newUsername: string) returns (o: Outcome)
      modifies this`credentials
      ensures o == UsernameVerdict(CurrentPasswordOk(old(credentials).passwordHash, hashCheck), newUsername)
      ensures o == Done ==> credentials == old(credentials).(username := newUsername)
      ensures o != Done ==> credentials == old(credentials)
    {
      o := UsernameVerdict(CurrentPasswordOk(credentials.passwordHash, hashCheck), newUsername);
      if o == Done {
        credentials := credentials.(username := newUsername);
      }
    }
  }
}
