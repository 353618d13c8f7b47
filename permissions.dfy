/** The in-memory half of internal/data/permissions.go. */
module Permissions {
  import Validator

  /** The permission codes one user holds. */
  type Permissions = seq<string>

  /** `Include(code)`: a linear search that stops at the first match. */
  method Include(p: Permissions, code: string) returns (included: bool)
    ensures included <==> code in p
  {
    var i := 0;
    while i < |p|
      invariant 0 <= i <= |p|
      invariant code !in p[..i]
    {
      if code == p[i] {
        return true;
      }
      assert p[..i + 1] == p[..i] + [p[i]];
      i := i + 1;
    }
    assert p[..i] == p;
    return false;
  }

  /** `Include` and `validator.In` give the same answer on the same list. */
  method IncludeAgreesWithIn(p: Permissions, code: string) returns (included: bool, inList: bool)
    ensures included == inList
  {
    included := Include(p, code);
    inList := Validator.In(code, p);
  }

  /** Appending codes (as `GetAllForUser` does row by row) never loses an included code. */
  method IncludeAfterAppend(p: Permissions, more: Permissions, code: string) returns (before: bool, after: bool)
    ensures before ==> after
  {
    before := Include(p, code);
    after := Include(p + more, code);
    if before {
      var k :| 0 <= k < |p| && p[k] == code;
      assert (p + more)[k] == code;
    }
  }
}
