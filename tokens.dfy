/** internal/data/tokens.go: token generation and plaintext validation. */
module Tokens {
  import opened Wrappers
  import Validator
  import Base32

  const ScopeActivation: string := "activation"
  const ScopeAuthentication: string := "authentication"

  /** A token: the plaintext sent to the user, its hash, owner, expiry time and scope. */
  datatype Token = Token(plaintext: string, hash: seq<byte>, userID: int, expiry: int, scope: string)

  /** The error `crypto/rand` reports when it cannot fill the buffer. */
  datatype TokenError = RandomReadFailed

  /** The message `ValidateTokenPlaintext` records under "token", if any. */
  function TokenProblem(plaintext: string): (r: Option<string>)
    ensures r.None? <==> |plaintext| == 26
    ensures plaintext == "" ==> r == Some("must be provided")
    ensures plaintext != "" && |plaintext| != 26 ==> r == Some("must be 26 bytes long")
  {
    var rules := [Validator.Rule(plaintext != "", "must be provided"),
                  Validator.Rule(|plaintext| == 26, "must be 26 bytes long")];
    assert rules[1..] == [rules[1]] && rules[1..][1..] == [];
    Validator.FirstFailure(rules)
  }

  /** `ValidateTokenPlaintext(v, plaintext)`. */
  method ValidateTokenPlaintext(v: Validator.Validator, plaintext: string)
    modifies v
    ensures v.errors == Validator.WithProblem(old(v.errors), "token", TokenProblem(plaintext))
  {
    v.Check(plaintext != "", "token", "must be provided");
    v.Check(|plaintext| == 26, "token", "must be 26 bytes long");
  }

  /**
   * `generateToken(userID, ttl, scope)`. The clock reading `now`, the outcome of
   * reading 16 bytes from the system's random source (`None` when it fails)
   * and SHA-256 are inputs.
   */
  function GenerateToken(userID: int, ttl: int, scope: string, now: int,
                         random: Option<seq<byte>>, sha256: string -> seq<byte>): (r: Result<Token, TokenError>)
    requires random.Some? ==> |random.value| == 16
    ensures random.None? <==> r.Failure?
    ensures r.Success? ==> r.value.userID == userID && r.value.scope == scope && r.value.expiry == now + ttl
    ensures r.Success? ==> r.value.plaintext == Base32.Encode(random.value)
    ensures r.Success? ==> r.value.hash == sha256(r.value.plaintext)
    ensures r.Success? ==> |r.value.plaintext| == 26 && TokenProblem(r.value.plaintext).None?
    ensures r.Success? ==> forall i :: 0 <= i < |r.value.plaintext| ==> r.value.plaintext[i] in Base32.Alphabet
  {
    match random
    case None => Failure(RandomReadFailed)
    case Some(bytes) =>
      var plaintext := Base32.Encode(bytes);
      Success(Token(plaintext, sha256(plaintext), userID, now + ttl, scope))
  }
}
