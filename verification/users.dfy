/**
 * The `User` model's email normalisation (`email.to_s.strip.downcase`, run
 * before validation), its validations (name and email present, email unique
 * ignoring case), and the login lookup that normalises its input the same way.
 */
module Users {
  import opened Wrappers
  import opened Text
  import opened Records

  /** `email.to_s.strip.downcase`: nil becomes "", surrounding whitespace goes, letters are lower-cased. */
  function NormalizeEmail(email: Option<string>): (r: string)
    ensures IsNormalized(r)
    ensures email.None? ==> r == ""
  {
    var stripped := Strip(email.GetOr(""));
    StripEnds(email.GetOr(""));
    Downcase(stripped)
  }

  /** No whitespace at either end and no capital letter. */
  predicate IsNormalized(s: string) {
    (s == [] || (!IsStripSpace(s[0]) && !IsStripSpace(s[|s| - 1])))
    && forall i :: 0 <= i < |s| ==> !IsUpper(s[i])
  }

  /** A string with no surrounding whitespace and no capitals is its own normal form. */
  lemma NormalizedFixpoint(s: string)
    requires IsNormalized(s)
    ensures NormalizeEmail(Some(s)) == s
  {
    StripNoop(s);
    assert Downcase(s) == s;
  }

  /** Normalising twice is normalising once. */
  lemma NormalizeIdempotent(email: Option<string>)
    ensures NormalizeEmail(Some(NormalizeEmail(email))) == NormalizeEmail(email)
  {
    var n := NormalizeEmail(email);
    NormalizedFixpoint(n);
  }

  datatype UserError = BlankName | BlankEmail | TakenEmail

  /** `uniqueness: { case_sensitive: false }`: another stored email equal up to letter case. */
  predicate EmailTaken(email: string, stored: seq<string>) {
    exists s :: s in stored && Downcase(s) == Downcase(email)
  }

  /** The errors `valid?` collects once the email has been normalised. */
  function UserErrors(name: Option<string>, email: string, stored: seq<string>): (r: seq<UserError>)
    ensures BlankName in r <==> name.None? || IsBlank(name.value)
    ensures BlankEmail in r <==> IsBlank(email)
    ensures TakenEmail in r <==> EmailTaken(email, stored)
  {
    (if name.None? || IsBlank(name.value) then [BlankName] else [])
    + (if IsBlank(email) then [BlankEmail] else [])
    + (if EmailTaken(email, stored) then [TakenEmail] else [])
  }

  /** A nil email is normalised to "" and then fails the presence check. */
  lemma NilEmailIsBlank(name: Option<string>, stored: seq<string>)
    ensures BlankEmail in UserErrors(name, NormalizeEmail(None), stored)
  {
  }

  /**
   * A signup whose email, once stripped, equals a stored email up to letter
   * case is refused as taken, however the new address is padded or capitalised.
   */
  lemma CaseVariantTaken(name: Option<string>, raw: string, s: string, stored: seq<string>)
    requires s in stored && Downcase(s) == Downcase(Strip(raw))
    ensures TakenEmail in UserErrors(name, NormalizeEmail(Some(raw)), stored)
  {
    DowncaseIdempotent(Strip(raw));
    assert Downcase(s) == Downcase(NormalizeEmail(Some(raw)));
  }

  /** A user record being saved: `before_validation :normalize_email` overwrites the email. */
  class UserRecord {
    var name: Option<string>
    var email: Option<string>
    var errors: seq<UserError>

    constructor (name: Option<string>, email: Option<string>)
      ensures this.name == name && this.email == email && errors == []
    {
      this.name := name;
      this.email := email;
      errors := [];
    }

    /** `normalize_email`. */
    method NormalizeEmailCallback()
      modifies this`email
      ensures email == Some(NormalizeEmail(old(email)))
    {
      email := Some(NormalizeEmail(email));
    }

    /** `valid?`: `normalize_email` first, then the validations; `stored` are the other users' emails. */
    method IsValid(stored: seq<string>) returns (ok: bool)
      modifies this`email, this`errors
      ensures email == Some(NormalizeEmail(old(email)))
      ensures errors == UserErrors(name, email.value, stored)
      ensures ok <==> errors == []
    {
      var e := NormalizeEmail(email);
      email := Some(e);
      errors := UserErrors(name, e, stored);
      ok := errors == [];
    }
  }

  /** `User.find_by(email: input.to_s.strip.downcase)`. */
  function FindByEmail(users: seq<User>, input: Option<string>): (r: Option<User>)
    ensures r.Some? ==> r.value in users && r.value.email == NormalizeEmail(input)
    ensures r.None? <==> forall u :: u in users ==> u.email != NormalizeEmail(input)
  {
    FindExact(users, NormalizeEmail(input))
  }

  function FindExact(users: seq<User>, email: string): (r: Option<User>)
    ensures r.Some? ==> r.value in users && r.value.email == email
    ensures r.None? <==> forall u :: u in users ==> u.email != email
  {
    if users == [] then None
    else if users[0].email == email then Some(users[0])
    else FindExact(users[1..], email)
  }

  /** Login finds a stored (normalised) email from any input that normalises to it. */
  lemma LoginMatchesSignup(users: seq<User>, signupEmail: Option<string>, loginInput: Option<string>)
    requires exists u :: u in users && u.email == NormalizeEmail(signupEmail)
    requires NormalizeEmail(loginInput) == NormalizeEmail(signupEmail)
    ensures FindByEmail(users, loginInput).Some?
    ensures FindByEmail(users, loginInput).value.email == NormalizeEmail(signupEmail)
  {
  }

  /** "  TEST@EXAMPLE.COM  " normalises to "test@example.com". */
  lemma PaddedUpperCaseEmail(raw: string)
    requires raw == "  TEST@EXAMPLE.COM  "
    ensures NormalizeEmail(Some(raw)) == "test@example.com"
  {
    assert Some(raw).GetOr("") == raw;
    assert NormalizeEmail(Some(raw)) == Downcase(Strip(raw));
    StripSample(raw);
    var core := raw[2..18];
    assert core == "TEST@EXAMPLE.COM";
    DowncaseSample(core);
  }

  lemma StripSample(raw: string)
    requires raw == "  TEST@EXAMPLE.COM  "
    ensures Strip(raw) == raw[2..18]
  {
    var l := TrimLeft(raw);
    assert IsStripSpace(raw[0]) && IsStripSpace(raw[1]) && !IsStripSpace(raw[2]);
    assert |raw| - |l| == 2;
    var r := TrimRight(l);
    assert IsStripSpace(l[17]) && IsStripSpace(l[16]) && !IsStripSpace(l[15]);
    assert |r| == 16;
  }

  lemma DowncaseSample(s: string)
    requires s == "TEST@EXAMPLE.COM"
    ensures Downcase(s) == "test@example.com"
  {
  }
}
