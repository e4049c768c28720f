/**
 * The small input rules of the site: the upload extension allow-list, the
 * comma-separated technologies field of a project, the public contact form
 * and the credential-change forms.
 */
module Validators {
  import opened Records
  import opened Text

  // ------------------------------------------------------------ allowed_file

  const AllowedExtensions: set<string> := {"png", "jpg", "jpeg", "gif"}

  /** The text after the last dot of `filename`, if it has a dot. */
  function Extension(filename: string): (r: Option<string>)
    ensures r.None? <==> '.' !in filename
    ensures r.Some? ==> exists i :: 0 <= i < |filename| && filename[i] == '.' && '.' !in filename[i + 1..]
                                    && r.value == filename[i + 1..]
  {
    match LastIndexOf(filename, '.')
    case None => None
    case Some(k) =>
      assert filename[k] == '.' && '.' !in filename[k + 1..];
      Some(filename[k + 1..])
  }

  /** `allowed_file`: the name has a dot and the lower-cased text after the last one is allowed. */
  function AllowedFile(filename: string): (ok: bool)
    ensures ok <==> exists i :: 0 <= i < |filename| && filename[i] == '.' && '.' !in filename[i + 1..]
                                && Lower(filename[i + 1..]) in AllowedExtensions
  {
    match Extension(filename)
    case None => false
    case Some(ext) =>
      var k := LastIndexOf(filename, '.').value;
      assert ext == filename[k + 1..];
      Lower(ext) in AllowedExtensions
  }

  // ----------------------------------------------------------- technologies

  /** A list entry as the technologies field keeps it: non-empty, stripped, without a comma. */
  predicate CleanTerm(t: string)
  {
    t != "" && Strip(t) == t && ',' !in t
  }

  /** The stripped pieces that are not blank, in order. */
  function CleanTerms(parts: seq<string>): (ts: seq<string>)
    requires forall i :: 0 <= i < |parts| ==> ',' !in parts[i]
    ensures |ts| <= |parts|
    ensures forall i :: 0 <= i < |ts| ==> CleanTerm(ts[i])
  {
    if parts == [] then []
    else
      var t := Strip(parts[0]);
      var rest := CleanTerms(parts[1..]);
      if t == "" then rest
      else
        StripIdempotent(parts[0]);
        StripKeepsAbsent(parts[0], ',');
        [t] + rest
  }

  /** The technologies of a project form: `[t.strip() for t in raw.split(',') if t.strip()]`. */
  function ParseTechnologies(raw: string): (ts: seq<string>)
    ensures forall i :: 0 <= i < |ts| ==> CleanTerm(ts[i])
    ensures |ts| <= |SplitOn(raw, ',')|
  {
    CleanTerms(SplitOn(raw, ','))
  }

  /** Filtering a list of pieces distributes over concatenation. */
  lemma {:induction false} CleanTermsAppend(a: seq<string>, b: seq<string>)
    requires forall i :: 0 <= i < |a| ==> ',' !in a[i]
    requires forall i :: 0 <= i < |b| ==> ',' !in b[i]
    ensures CleanTerms(a + b) == CleanTerms(a) + CleanTerms(b)
  {
    if a == [] {
      assert a + b == b;
    } else {
      assert (a + b)[0] == a[0] && (a + b)[1..] == a[1..] + b;
      CleanTermsAppend(a[1..], b);
    }
  }

  /** A comma splits the technologies field: the entries before it, then those after it. */
  lemma ParseTechnologiesComma(x: string, y: string)
    ensures ParseTechnologies(x + [','] + y) == ParseTechnologies(x) + ParseTechnologies(y)
  {
    SplitAppend(x, y, ',');
    CleanTermsAppend(SplitOn(x, ','), SplitOn(y, ','));
  }

  /** A field without a comma gives its stripped text as the one entry, or nothing when that is blank. */
  lemma ParseTechnologiesPiece(x: string)
    requires ',' !in x
    ensures ParseTechnologies(x) == if Strip(x) == "" then [] else [Strip(x)]
  {
    SplitNone(x, ',');
    assert [x][1..] == [];
  }

  lemma {:induction false} CleanTermsKeepsClean(ts: seq<string>)
    requires forall i :: 0 <= i < |ts| ==> CleanTerm(ts[i])
    ensures forall i :: 0 <= i < |ts| ==> ',' !in ts[i]
    ensures CleanTerms(ts) == ts
  {
    if ts != [] {
      CleanTermsKeepsClean(ts[1..]);
      assert ts == [ts[0]] + ts[1..];
    }
  }

  /** A list of clean entries joined with commas parses back to the same list. */
  lemma TechnologiesRoundTrip(ts: seq<string>)
    requires forall i :: 0 <= i < |ts| ==> CleanTerm(ts[i])
    ensures ParseTechnologies(Join(ts, ',')) == ts
  {
    if ts == [] {
      assert SplitOn("", ',') == [""];
    } else {
      SplitJoin(ts, ',');
      CleanTermsKeepsClean(ts);
    }
  }

  // ------------------------------------------------------------ contact form

  datatype ContactError = InvalidRequest | NameLength | InvalidEmail | MessageLength

  datatype ContactResult = Accepted | Rejected(error: ContactError)

  /**
   * The checks of the contact form, in the order the handler makes them.
   * `emailPattern` stands for the address regular expression, applied to the
   * stripped address.
   */
  function ContactVerdict(csrfToken: string, name: string, email: string, message: string,
                          emailPattern: string -> bool): (r: ContactResult)
    ensures r == Accepted <==>
      && csrfToken != ""
      && 2 <= |Strip(name)| <= 50
      && Strip(email) != "" && emailPattern(Strip(email))
      && 10 <= |Strip(message)| <= 1000
    ensures csrfToken == "" ==> r == Rejected(InvalidRequest)
    ensures csrfToken != "" && !(2 <= |Strip(name)| <= 50) ==> r == Rejected(NameLength)
    ensures r == Rejected(MessageLength) ==> !(10 <= |Strip(message)| <= 1000)
  {
    var n := Strip(name);
    var e := Strip(email);
    var m := Strip(message);
    if csrfToken == "" then Rejected(InvalidRequest)
    else if n == "" || |n| < 2 || |n| > 50 then Rejected(NameLength)
    else if e == "" || !emailPattern(e) then Rejected(InvalidEmail)
    else if m == "" || |m| < 10 || |m| > 1000 then Rejected(MessageLength)
    else Accepted
  }

  // ------------------------------------------------------- credential forms

  /**
   * `check_admin_password`: a stored hash must exist and the hash check
   * (`hashCheck`, the verdict of the password-hash library) must pass.
   */
  predicate CurrentPasswordOk(storedHash: string, hashCheck: bool): (ok: bool)
    ensures storedHash == "" ==> !ok
    ensures !hashCheck ==> !ok
    ensures storedHash != "" && hashCheck ==> ok
  {
    storedHash != "" && hashCheck
  }

  const MinPasswordLength: nat := 6

  /** The change-password rules, checked in order. */
  function PasswordVerdict(currentOk: bool, newPassword: string, confirm: string): (r: Outcome)
    ensures r == Done <==> currentOk && newPassword == confirm && |newPassword| >= MinPasswordLength
    ensures r != Done ==> r.Refused?
    ensures !currentOk ==> r == Refused(WrongPassword)
    ensures currentOk && newPassword != confirm ==> r == Refused(PasswordMismatch)
  {
    if !currentOk then Refused(WrongPassword)
    else if newPassword != confirm then Refused(PasswordMismatch)
    else if |newPassword| < MinPasswordLength then Refused(PasswordTooShort)
    else Done
  }

  /** The change-username rules: the current password, then a non-empty new name. */
  function UsernameVerdict(currentOk: bool, newUsername: string): (r: Outcome)
    ensures r == Done <==> currentOk && newUsername != ""
    ensures !currentOk ==> r == Refused(WrongPassword)
    ensures currentOk && newUsername == "" ==> r == Refused(UsernameEmpty)
  {
    if !currentOk then Refused(WrongPassword)
    else if newUsername == "" then Refused(UsernameEmpty)
    else Done
  }
}
