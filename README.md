# Portfolio registry and admin edit rules

This project models the core of a single-admin portfolio website (`app.py`).
The site stores one document. It holds an ordered list of portfolio records,
legacy top-level sections, site settings and the admin credentials. The
modelled parts are:

- **the portfolio registry**: looking up the active portfolio and a portfolio
  by id, create, update, delete, set-active and duplicate;
- **the settings page's guards** for these operations;
- **the admin section edits**: append, replace-at-index and delete-at-index on
  skills, projects, experience, education and hero buttons. Each edit is
  applied to the active portfolio, or to the legacy sections when no
  portfolio is active;
- **drag-and-drop reordering**;
- **the small input rules**: the upload extension allow-list, the
  technologies field, the contact form, and the password and username forms.

Modules:

- `Records` holds the document's records as datatypes.
- `Text` models the string built-ins the handlers use: `strip`, `lower`,
  `split`, `rsplit` and `str(int)`.
- `Validators`, `Reorder`, `Sections`, `Registry` and `Guards` are value-level
  functions, each with lemmas.
- `Store.Document` is a class whose fields are the document's parts. Its
  methods are the registry functions and admin actions. They scan and update
  the fields in place, and each is proved against the value-level functions.

How the model represents the source:

- **Absent form fields.** A form field is a string, and `""` stands for
  absent wherever the handler reads it with `.get(…, '')` or tests it for
  truthiness. Fields whose absence differs from emptiness are `Option`s: the
  default portfolio, theme and alignment.
- **Sections always present.** Every record holds all of its sections. A
  section the stored JSON would omit (`education`, `hero_buttons`, `contact`)
  is present and empty.
- **Out-of-range indices.** The handlers index unchecked, so a bad index
  raises (`Faulted(IndexError)`), and a skill kind or experience category not
  in the map raises `Faulted(KeyError)`. Such an exception is unhandled: the
  request fails and nothing is written.

## Model

| member | source | states |
|---|---|---|
| `Records.NewPortfolio` | app.py:273-322 | a created record has the given id, name and description, is inactive, carries the fixed timestamps and has empty skills, projects, experience, hero buttons and contact |
| `Records.CopyOf` | app.py:370-379 | a duplicate differs from the original only in id, name, the inactive flag and the timestamps |
| `Records.DeleteAt` | app.py:349 | removing position k keeps the elements before k, shifts the ones after it down by one, and removes exactly one occurrence of the element at k |
| `Text.Strip` | app.py:1225-1228 | `strip()` is no longer than its input, has no whitespace at either end, and is empty exactly when the input is all whitespace |
| `Text.StripSlice` | app.py:1225-1228 | `strip()` keeps one slice of its input, and everything cut off on either side of it is whitespace |
| `Text.TrimStart` | app.py:1225 | dropping leading whitespace leaves a suffix that is empty or starts with a non-space, and everything dropped was whitespace |
| `Text.TrimEnd` | app.py:1225 | dropping trailing whitespace leaves a prefix that is empty or ends with a non-space, and everything dropped was whitespace |
| `Text.StripKeepsAbsent` | app.py:643 | stripping adds no character, so a comma-free piece stays comma-free |
| `Text.StripUnpadded` | app.py:643 | a string with no whitespace at either end strips to itself |
| `Text.StripIdempotent` | app.py:1102-1104 | stripping twice is stripping once |
| `Text.Lower` | app.py:245 | lower-casing keeps the length and maps every character independently |
| `Text.IndexOf` | app.py:643 | the found position holds the first occurrence of the character, and there is none iff it does not occur |
| `Text.LastIndexOf` | app.py:245 | the found position holds the last dot: no dot follows it, and there is none exactly when the string has none |
| `Text.SplitOn` | app.py:643 | `split(',')` gives at least one piece, no piece holds the separator, and joining the pieces gives the input back |
| `Text.SplitJoin` | app.py:643 | splitting a join of separator-free pieces gives the pieces back |
| `Text.JoinAppend` | app.py:643 | joining two non-empty lists puts one separator between their joins |
| `Text.SplitAppend` | app.py:643 | splitting text around a separator gives the pieces before it followed by the pieces after it |
| `Text.SplitNone` | app.py:643 | text without the separator splits into itself alone |
| `Text.NatToString` | app.py:617 | the decimal rendering of a position is a non-empty digit string |
| `Text.NatToStringRoundTrip` | app.py:617 | the decimal rendering of a position reads back as that position |
| `Text.NatToStringInjective` | app.py:617 | distinct positions get distinct project ids |
| `Validators.Extension` | app.py:244-245 | there is an extension exactly when the name contains a dot, and it is all the text after the last dot |
| `Validators.AllowedFile` | app.py:242-245 | a name is accepted iff it has a dot and the lower-cased text after its last dot is png, jpg, jpeg or gif |
| `Validators.ParseTechnologies` | app.py:643 | every parsed technology is non-empty, stripped and comma-free, and there are no more of them than comma-separated pieces |
| `Validators.CleanTerms` | app.py:643 | keeping the non-empty stripped pieces gives no more terms than pieces, each non-empty, stripped and comma-free |
| `Validators.CleanTermsAppend` | app.py:643 | filtering the pieces distributes over concatenation, so terms keep the pieces' order |
| `Validators.ParseTechnologiesComma` | app.py:643 | a comma splits the field: the technologies before it, then those after it |
| `Validators.ParseTechnologiesPiece` | app.py:643 | a field without a comma gives its stripped text as the one technology, or none when that is blank |
| `Validators.CleanTermsKeepsClean` | app.py:643 | filtering a list that is already clean changes nothing |
| `Validators.TechnologiesRoundTrip` | app.py:643 | a clean technology list joined with commas parses back to itself |
| `Validators.ContactVerdict` | app.py:1221-1238 | a submission is accepted iff the token is present, the stripped name has 2 to 50 characters, the stripped address is non-empty and matches the pattern, and the stripped message has 10 to 1000 characters; the token is checked first, then the name |
| `Validators.CurrentPasswordOk` | app.py:225-229 | the current password checks iff a stored hash exists and the hash check passes |
| `Validators.PasswordVerdict` | app.py:977-987 | a password change succeeds iff the current password checks, the two new entries agree and the new one has at least 6 characters; the failures are reported in that order |
| `Validators.UsernameVerdict` | app.py:996-1004 | a username change succeeds iff the current password checks and the new name is non-empty |
| `Reorder.KeyMap` | app.py:526 | the id-to-item dictionary has exactly the tagged ids as keys, and maps each id to its item when the ids are distinct |
| `Reorder.Known` | app.py:527 | the kept ids are no more than the submitted ids, and each names an item |
| `Reorder.KnownAppend` | app.py:527 | filtering the submitted ids distributes over concatenation, so kept ids stay in submitted order |
| `Reorder.KnownOne` | app.py:527 | a single submitted id is kept iff it names an item |
| `Reorder.KeyAt` | app.py:526 | a dictionary key is some tag's id, and with distinct ids it maps to that tag's item |
| `Reorder.KeyIn` | app.py:526 | every tag's id is a dictionary key, and with distinct ids it maps to that tag's item |
| `Reorder.KnownMembers` | app.py:527 | an id is kept iff it was submitted and names an item |
| `Reorder.Pick` | app.py:527 | the rebuilt list has one entry per kept id, in submitted order, and each entry is the item of that id |
| `Reorder.Reordered` | app.py:526-527 | the rebuilt list has one entry per kept id; each kept id is a tagged id, and with distinct ids the j-th entry is the item tagged with the j-th kept id |
| `Reorder.KnownIdempotent` | app.py:527 | filtering the kept ids again keeps them all |
| `Reorder.PickIgnoresUnknown` | app.py:527 | unknown ids do not affect the rebuilt list |
| `Reorder.KnownAll` | app.py:527 | when every submitted id names an item, all are kept |
| `Reorder.ReorderedIdentity` | app.py:526-527 | submitting every id in the current order rebuilds the current list |
| `Reorder.SkillIdInjective` | app.py:522-523 | skill ids `technical_i`/`soft_i` determine the kind and the position |
| `Reorder.CollectSkillTags` | app.py:521-525 | the tagging loop lists the technical skills, then the soft ones, each with its id and kind |
| `Reorder.TagSkills` | app.py:521-525 | the tagged list holds one entry per technical and soft skill, and no two share an id |
| `Reorder.OfKindAppend` | app.py:529-530 | splitting by kind distributes over concatenation, so relative order is kept |
| `Reorder.OfKind` | app.py:529-530 | selecting one type gives no more skills than entries |
| `Reorder.OfKindOne` | app.py:529-530 | a single entry is kept, without its type, iff it has the selected type; with `OfKindAppend` this fixes the selection |
| `Reorder.OfKindPartition` | app.py:529-530 | every reordered skill lands in exactly one of the two lists |
| `Reorder.OfKindOwnTags` | app.py:529-531 | splitting the tagged skills of one kind gives that kind's list back, without tags, and nothing of the other kind |
| `Reorder.SplitTagged` | app.py:521-531 | splitting the page's tagged skills by type gives the stored technical and soft lists back |
| `Reorder.ReorderSkills` | app.py:519-532 | the two new lists together hold one skill per kept id, and each list is that type's own list rebuilt from the submitted ids, ids of the other type and unknown ids being skipped |
| `Reorder.ReorderOneKind` | app.py:519-532 | selecting one type after rebuilding all skills equals rebuilding that type's list on its own |
| `Reorder.PickByKind` | app.py:527-530 | picking from a dictionary and then selecting a type equals picking from that type's part of the dictionary |
| `Reorder.KindMap` | app.py:521-526 | the dictionary of one type's tags is the combined dictionary restricted to that type, without the type |
| `Reorder.KindKeyShared` | app.py:521-526 | an id of one type's tags names the same skill, with that type, in the combined dictionary |
| `Reorder.KindKeyOwn` | app.py:521-526 | an id of the combined dictionary whose skill has type k is an id of type k's tags |
| `Reorder.TagSkillsAt` | app.py:521-525 | the i-th tag of one type sits at that type's offset plus i in the combined list |
| `Reorder.TagSkillsKind` | app.py:521-525 | each entry of the combined list lies in the part of its own type and carries that part's id |
| `Reorder.ReorderSkillsIdentity` | app.py:519-532 | submitting the order the page shows leaves both skill lists unchanged |
| `Reorder.TagProjects` | app.py:617 | each project keeps its position and is tagged with that position in decimal, and no two ids are equal |
| `Reorder.ReorderProjects` | app.py:615-619 | the new list has one project per kept id, each kept id is a position in decimal, and the j-th new project is the stored project at the position the j-th kept id names |
| `Reorder.ReorderProjectsIdentity` | app.py:615-619 | submitting `"0"`, `"1"`, … in order leaves the projects unchanged |
| `Reorder.ReorderProjectsDrops` | app.py:617 | for three projects submitted as `2, 0, 9`, the unknown id is skipped and the omitted project is gone |
| `Sections.PyIndex` | app.py:539-542 | a list index is valid iff it lies in [-n, n), and it then denotes position i mod n |
| `Sections.PyDelete` | app.py:626 | `del s[i]` raises IndexError iff i is outside [-n, n), and otherwise removes position i mod n |
| `Sections.PyAssign` | app.py:668 | `s[i] = x` raises IndexError iff i is outside [-n, n), and otherwise sets position i mod n and keeps every other position |
| `Sections.ParseSkillKind` | app.py:557-560 | only the keys `technical` and `soft` name a skill list |
| `Sections.ExperienceCategories` | app.py:22-26 | the category map has exactly the keys internship, thesis and certification, naming the internships, thesis and certifications collections |
| `Sections.ItemFor` | app.py:698-708 | the item built for a known category has that category's fields, the submitted title and description, and the category's own submitted fields |
| `Sections.ProjectOf` | app.py:640-645 | a project built from a form keeps the submitted title, description and link, and its technologies are the parsed field, all clean |
| `Sections.SkillsEdit` | app.py:547-596 | an unknown type key raises KeyError; add appends the skill to its type; edit succeeds iff both keys are known and the index is valid in both lists, then assigns at that index; delete succeeds iff the key is known and the index valid, then removes that position; the other type is unchanged; move rebuilds both lists from the ids |
| `Sections.ProjectsEdit` | app.py:631-670 | add appends exactly the form's project; edit and delete succeed iff the index is in [-n, n), raise IndexError otherwise, and then replace or remove the position the index names; move rebuilds the list from the ids |
| `Sections.ExperienceEdit` | app.py:686-842 | an unknown category raises KeyError; add appends the built item to the category's collection; edit and delete succeed iff the index is valid and then assign or remove there; only that collection changes; education edits change only the education list; items stay in the collection whose fields they have |
| `Sections.AboutEdit` | app.py:909-966 | the text update sets exactly the seven submitted fields; add appends a visible button with the submitted fields; edit and delete do nothing iff the index is outside [0, n), and otherwise replace or remove that button; the button edits change only the button list |
| `Sections.ApplyEdit` | app.py:499-966 | an edit changes no section but its own; the contact update stores the submitted contact; a picture is stored, with path `/static/images/<name>`, iff its extension is allowed; only list edits raise; routing is kept |
| `Sections.SectionOf` | app.py:852-903 | only the picture upload targets the picture, and only the contact update targets the contact |
| `Sections.UndoSkill` | app.py:560 | adding a skill and then deleting index -1 of its kind restores the content |
| `Sections.UndoProject` | app.py:645 | adding a project and then deleting index -1 restores the content |
| `Sections.UndoExperience` | app.py:709 | adding an experience item and then deleting index -1 of its category restores the content |
| `Sections.UndoEducation` | app.py:795 | adding an education entry and then deleting index -1 restores the content |
| `Sections.UndoHeroButton` | app.py:909-925 | adding a hero button and then deleting it by its position restores the content |
| `Sections.AddThenUndo` | app.py:547-926 | every accepted add is undone by the delete of the item it appended |
| `Sections.ResubmitButtonUnchanged` | app.py:928-939 | submitting a hero button's edit form as shown leaves the content unchanged |
| `Sections.ResubmitProjectUnchanged` | app.py:651-670 | submitting a project's edit form as shown, technologies joined with commas and the index counted from either end, leaves the content unchanged |
| `Sections.ProjectsUnchanged` | app.py:651-670 | a project edit that gives the list back as it was gives the content back as it was |
| `Sections.ResubmitSkillUnchanged` | app.py:566-596 | submitting a skill's edit form as shown leaves the content unchanged |
| `Sections.DeleteIndexPolicy` | app.py:941-947 | project delete reads -1 as the last project and raises past the end, while hero-button delete ignores -1 and the length |
| `Sections.ProjectDeleteLast` | app.py:626 | on the project list, deleting index -1 fails iff the list is empty and otherwise drops the last project |
| `Sections.ProjectDeletePastEnd` | app.py:626 | on the project list, deleting at the length raises IndexError |
| `Sections.AssignSame` | app.py:668 | assigning a list's own element back, by its index from either end, leaves the list unchanged |
| `Sections.DropAppended` | app.py:542 | deleting index -1 right after an append removes the appended item |
| `Sections.SkillsAddThenUndo` | app.py:547-564 | adding a skill to a kind and deleting index -1 of that kind restores both skill lists |
| `Sections.ExperienceAddThenUndo` | app.py:686-762 | adding an experience item and deleting index -1 of its category restores the experience section |
| `Registry.ActiveIndex` | app.py:248-255 | the found position is the first active record, and there is none iff no record is active |
| `Registry.IdIndex` | app.py:257-264 | the found position is the first record with the id, and there is none iff no record has it |
| `Registry.ActivePortfolio` | app.py:248-255 | the active-portfolio lookup returns an active record preceded only by inactive ones, and None iff none is active |
| `Registry.PortfolioById` | app.py:257-264 | the id lookup returns a record with the id preceded by none with it, and None iff the id is absent |
| `Registry.SameKeysLookups` | app.py:335-336 | changing only record contents changes no lookup, count or uniqueness |
| `Registry.IdCountPresence` | app.py:359-360 | an id occurs iff it is counted, and at most once when ids are unique |
| `Registry.Reflagged` | app.py:359-360 | after set-active, each flag equals whether the record's id is the target; order, length and every other field are unchanged |
| `Registry.ReflaggedCount` | app.py:354-364 | after set-active the number of active records is the number of records with the target id (zero for no target) |
| `Registry.SetActiveExactlyOne` | app.py:354-364 | with unique ids at most one record is active after set-active, and exactly one iff the target id exists |
| `Registry.ReflagIdempotent` | app.py:354-364 | set-active twice gives the same list as once |
| `Registry.ReflaggedActive` | app.py:354-364 | after set-active the active lookup finds the first record with the target id |
| `Registry.ReflagWellformed` | app.py:1084-1085 | re-deriving the flags from the default portfolio keeps the registry invariant |
| `Registry.ActiveCountAppend` | app.py:324 | appending adds one to the active count iff the new record is active |
| `Registry.AppendKeepsActive` | app.py:324 | appending an inactive record keeps the active lookup |
| `Registry.AppendKeepsIds` | app.py:384 | appending keeps every lookup of an existing id |
| `Registry.AppendWellformed` | app.py:266-326 | appending an inactive record under a fresh id keeps ids unique and at most one record active |
| `Registry.Merged` | app.py:328-340 | update changes only the first record with the id (name, description, update stamp) and nothing when the id is absent |
| `Registry.MergedWellformed` | app.py:328-340 | update keeps the registry invariant and the presence of an active record |
| `Registry.RemoveFirst` | app.py:342-352 | delete removes the first record with the id, and changes nothing when the id is absent |
| `Registry.ActiveCountDelete` | app.py:349 | deleting a record lowers the active count iff it was active |
| `Registry.RemoveFirstWellformed` | app.py:342-352 | delete keeps the invariant and removes the only record with the id |
| `Registry.ActiveIndexDelete` | app.py:349 | deleting an inactive record moves the active position down by one only when it lay after the deleted one |
| `Registry.RemoveInactiveKeepsActive` | app.py:1131-1138 | deleting a record that is not active leaves the active portfolio as it was |
| `Registry.Target` | app.py:501-506 | a section edit targets the first active portfolio's content, or the legacy content when none is active |
| `Registry.Retarget` | app.py:855-866 | with an active portfolio, only its content is replaced and the legacy content is kept; with none, the registry is kept and the legacy content replaced; no id, flag or position changes |
| `Registry.TargetRetarget` | app.py:855-866 | reading the target after writing it back gives what was written, and the invariant is unaffected |
| `Registry.RetargetTarget` | app.py:501-506 | writing back the target unchanged changes nothing |
| `Guards.AppendUntakenName` | app.py:1106-1110 | appending a record whose lower-cased name is unused keeps names distinct |
| `Guards.CreateVerdict` | app.py:1102-1115 | create goes ahead iff the stripped name is non-empty and no name equals it ignoring case; otherwise it is refused, with an empty name reported first |
| `Guards.CreateKeepsNamesDistinct` | app.py:1102-1115 | an accepted create stores a non-empty name and keeps names distinct ignoring case |
| `Guards.DuplicateVerdict` | app.py:1141-1156 | duplicate goes ahead iff both fields are present, the stripped new name is unused ignoring case and the id exists; an unknown id is refused |
| `Guards.DuplicateKeepsNamesDistinct` | app.py:1143-1149 | an accepted duplicate keeps names distinct ignoring case |
| `Guards.EditVerdict` | app.py:1027-1055 | an edit goes ahead iff the address id (when given) and the posted id exist and the stripped name is non-empty |
| `Guards.DeleteVerdictAsWritten` | app.py:1125-1139 | the page deletes iff an id is given, more than one portfolio exists and the id does not name the active one, including an id naming no portfolio |
| `Guards.DeleteVerdict` | app.py:1125-1139 | as written, except that an id naming no portfolio is refused as not found |
| `Guards.DeleteGuardSafe` | app.py:1125-1139 | whatever the page lets through never empties the list and never removes the active portfolio |
| `Guards.DeleteUnknownReportsDone` | app.py:1133-1138 | with two portfolios and an unknown id, the page reports a deletion while nothing is removed |
| `Guards.DeleteVerdictRemovesOne` | app.py:1125-1139 | with unknown ids refused, an accepted delete removes exactly one record, the only one with the id, and keeps the invariant and the active portfolio |
| `Store.Document.ActiveSlot` | app.py:251-255 | the scan stops at the first active record's position, or finds none |
| `Store.Document.IdSlot` | app.py:260-264 | the scan stops at the first position with the id, or finds none |
| `Store.Document.GetActivePortfolio` | app.py:248-255 | returns the first active record |
| `Store.Document.GetPortfolioById` | app.py:257-264 | returns the first record with the id |
| `Store.Document.CreatePortfolio` | app.py:266-326 | appends exactly the new record under the fresh id and keeps the active lookup and the invariant |
| `Store.Document.UpdatePortfolio` | app.py:328-340 | reports whether the id exists and merges the first record with it |
| `Store.Document.DeletePortfolio` | app.py:342-352 | reports whether the id exists and removes the first record with it, keeping the invariant |
| `Store.Document.Reflag` | app.py:359-360 | the flag loop sets every flag to whether the record's id is the target |
| `Store.Document.SetActivePortfolio` | app.py:354-364 | set-active always reports success and re-derives every flag from the id |
| `Store.Document.DuplicatePortfolio` | app.py:366-387 | an unknown id gives None and no change; otherwise exactly the copy is appended |
| `Store.Document.EditSection` | app.py:499-966 | applies the edit to the resolved target, writes the result back to that target only, and writes nothing when the edit raises or is ignored |
| `Store.Document.UpdateSystemSettings` | app.py:1066-1090 | stores the submitted settings (switches on only for `on`, theme and alignment defaulted) and re-derives every flag from the default portfolio |
| `Store.Document.UpdateSiteSettings` | app.py:1094-1099 | stores the stripped site title |
| `Store.Document.CreatePortfolioAction` | app.py:1102-1115 | follows the create verdict, appends the stripped record only when it is Done, and keeps names distinct and the invariant |
| `Store.Document.AddPortfolioAction` | app.py:1013-1025 | the add page requires a non-empty stripped name and does not check that it is unused |
| `Store.Document.EditPortfolioAction` | app.py:1027-1055 | follows the edit verdict and merges the stripped fields only when it is Done |
| `Store.Document.SetActiveAction` | app.py:1117-1123 | an empty id does nothing; otherwise every flag is re-derived |
| `Store.Document.DeletePortfolioAction` | app.py:1125-1139 | follows the corrected delete verdict and removes the first record with the id only when it is Done; whenever the page as written reports a deletion, the registry is what the page leaves, unchanged for an unknown id |
| `Store.Document.DuplicatePortfolioAction` | app.py:1141-1156 | follows the duplicate verdict, appends the copy under the stripped name only when it is Done, and keeps names distinct |
| `Store.Document.ChangePassword` | app.py:968-988 | stores the new hash iff the password verdict is Done |
| `Store.Document.ChangeUsername` | app.py:991-1005 | stores the new username iff the username verdict is Done |

## Left out

- File storage (`read_portfolio_data`/`write_portfolio_data`), the initial document, export and `send_from_directory` are not modelled. The document is a value held in memory.
- Fresh ids (`uuid4()[:8]`) are a parameter that must not already be in use. The password hash and its check are parameters: `newHash` and `hashCheck`.
- Upload checks are not modelled: `secure_filename`, the mimetype test, the 2 MB size test and saving the file. The picture edit keeps only the extension test and the stored path.
- The email regular expression is a predicate parameter of `Validators.ContactVerdict`.
- These are not modelled:
  - the audit log and its timestamps;
  - Flask routing, templates, flash messages, sessions and login;
  - the dashboard statistics;
  - the public and portfolio view routes.
- A required form field that is missing ends the request with a 400 in the source. The model does not represent this: every field is present as a string.
- Skill ids reach the model already split into a kind and an index. Two cases are not modelled:
  - an id without exactly one `_`, which raises while unpacking;
  - an index text that `int()` rejects.
- Temporary keys are not modelled. The skills and projects pages add temporary `id`/`type` keys to stored entries, and the edit-skill preview adds `type`. A later write in the same request persists them.
- `Store.Document.DeletePortfolioAction` returns the corrected verdict, which refuses an unknown id. The page as written reports that case as a deletion. The registry it leaves is the same in both, as the method's contract states.
- `Registry.Merged` takes only the name and description that the edit page passes. `update_portfolio` accepts any dictionary of updates.
- `Text.Lower` folds only the letters A to Z. For the extension test this is exact. For the name-uniqueness comparison, the source's Unicode lower-casing is weaker in the model.
- Drag-and-drop order entries are strings. Non-string JSON entries are not modelled.

## Findings

| source | as written | input that shows it | evidently intended | confidence | as-written member | corrected member |
|---|---|---|---|---|---|---|
| app.py:1125-1139 | the settings delete action checks only "more than one portfolio" and "target not active"; an id naming no portfolio passes both, `delete_portfolio` returns False unread, and the page reports "Portfolio deleted successfully!" | two portfolios with ids `a` and `b`, `portfolio_id = "zzz"` | refuse an unknown id as the duplicate and edit actions do ("Failed to …") | medium, not executed | `Guards.DeleteUnknownReportsDone` | `Guards.DeleteVerdictRemovesOne` |
