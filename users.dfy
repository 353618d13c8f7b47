/** The validation half of internal/data/users.go. */
module Users {
  import opened Wrappers
  import Validator

  /** A password: the plaintext when it was set in this request, and its bcrypt hash. */
  datatype Password = Password(plaintext: Option<string>, hash: Option<seq<byte>>)

  /** A user record; creation time and version are database bookkeeping and are left out. */
  datatype User = User(id: int, name: string, email: string, password: Password, activated: bool)

  /** The message `ValidateEmail` records under "email"; `matchesEmailRX` stands for the regular expression. */
  function EmailProblem(email: string, matchesEmailRX: string -> bool): (r: Option<string>)
    ensures r.None? <==> email != "" && matchesEmailRX(email)
    ensures email == "" ==> r == Some("must be provided")
    ensures email != "" && !matchesEmailRX(email) ==> r == Some("must be a valid email address")
  {
    var rules := [Validator.Rule(email != "", "must be provided"),
                  Validator.Rule(matchesEmailRX(email), "must be a valid email address")];
    assert rules[1..] == [rules[1]] && rules[1..][1..] == [];
    Validator.FirstFailure(rules)
  }

  /** The message `ValidatePasswordPlaintext` records under "password". */
  function PasswordProblem(password: string): (r: Option<string>)
    ensures r.None? <==> 8 <= |password| <= 72
    ensures password == "" ==> r == Some("must be provided")
    ensures 0 < |password| < 8 ==> r == Some("must be at least 8 bytes long")
    ensures |password| > 72 ==> r == Some("must not be more than 72 bytes long")
  {
    var rules := [Validator.Rule(password != "", "must be provided"),
                  Validator.Rule(|password| >= 8, "must be at least 8 bytes long"),
                  Validator.Rule(|password| <= 72, "must not be more than 72 bytes long")];
    assert rules[1..] == [rules[1], rules[2]] && rules[1..][1..] == [rules[2]] && rules[1..][1..][1..] == [];
    Validator.FirstFailure(rules)
  }

  /** The message `ValidateUser` records under "name". */
  function NameProblem(name: string): (r: Option<string>)
    ensures r.None? <==> 1 <= |name| <= 500
    ensures name == "" ==> r == Some("must be provided")
    ensures |name| > 500 ==> r == Some("must not be more than 500 bytes long")
  {
    var rules := [Validator.Rule(name != "", "must be provided"),
                  Validator.Rule(|name| <= 500, "must not be more than 500 bytes long")];
    assert rules[1..] == [rules[1]] && rules[1..][1..] == [];
    Validator.FirstFailure(rules)
  }

  /** `ValidateEmail(v, email)`. */
  method ValidateEmail(v: Validator.Validator, email: string, matchesEmailRX: string -> bool)
    modifies v
    ensures v.errors == Validator.WithProblem(old(v.errors), "email", EmailProblem(email, matchesEmailRX))
  {
    v.Check(email != "", "email", "must be provided");
    v.Check(matchesEmailRX(email), "email", "must be a valid email address");
  }

  /** `ValidatePasswordPlaintext(v, password)`. */
  method ValidatePasswordPlaintext(v: Validator.Validator, password: string)
    modifies v
    ensures v.errors == Validator.WithProblem(old(v.errors), "password", PasswordProblem(password))
  {
    v.Check(password != "", "password", "must be provided");
    v.Check(|password| >= 8, "password", "must be at least 8 bytes long");
    v.Check(|password| <= 72, "password", "must not be more than 72 bytes long");
  }

  /** The error map `ValidateUser` leaves behind, starting from `errors`. */
  function UserErrors(errors: Validator.Errors, user: User, matchesEmailRX: string -> bool): Validator.Errors
  {
    var e1 := Validator.WithProblem(errors, "name", NameProblem(user.name));
    var e2 := Validator.WithProblem(e1, "email", EmailProblem(user.email, matchesEmailRX));
    match user.password.plaintext
    case None => e2
    case Some(p) => Validator.WithProblem(e2, "password", PasswordProblem(p))
  }

  /**
   * `ValidateUser(v, user)`. The source panics after its checks when the
   * password hash is nil; here a hash is a precondition.
   */
  method ValidateUser(v: Validator.Validator, user: User, matchesEmailRX: string -> bool)
    requires user.password.hash.Some?
    modifies v
    ensures v.errors == UserErrors(old(v.errors), user, matchesEmailRX)
  {
    v.Check(user.name != "", "name", "must be provided");
    v.Check(|user.name| <= 500, "name", "must not be more than 500 bytes long");
    ValidateEmail(v, user.email, matchesEmailRX);
    if user.password.plaintext.Some? {
      ValidatePasswordPlaintext(v, user.password.plaintext.value);
    }
  }

  /**
   * On a fresh validator: "name" is reported exactly for an empty or over-long
   * name, "password" exactly for a plaintext that is set and out of bounds, and
   * no other key is ever reported.
   */
  lemma ValidateUserKeys(user: User, matchesEmailRX: string -> bool)
    ensures var e := UserErrors(map[], user, matchesEmailRX);
      && ("name" in e <==> user.name == "" || |user.name| > 500)
      && ("email" in e <==> user.email == "" || !matchesEmailRX(user.email))
      && ("password" in e <==> user.password.plaintext.Some? && !(8 <= |user.password.plaintext.value| <= 72))
      && e.Keys <= {"name", "email", "password"}
  {
  }
}
