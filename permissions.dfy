/**
 * internal/data/permissions.go: a user's permission codes and the
 * membership test the permission gate applies to them.
 */
module Permissions {
  import opened Wrappers
  import Validator

  /** `Permissions`: the codes granted to one user, in the order the rows arrived. */
  type Permissions = seq<string>

  const MoviesRead: string := "movies:read"
  const MoviesWrite: string := "movies:write"

  /** `Include(code)`: `slices.Contains`. */
  predicate Include(p: Permissions, code: string)
    ensures Include(p, code) <==> exists i :: 0 <= i < |p| && p[i] == code
  {
    code in p
  }

  /** A user with no permission rows (a nil slice) holds no code. */
  lemma NoRowsNoCode(code: string)
    ensures !Include([], code)
  {
  }

  /** Two lists with the same codes, in any order and with any repetition, include the same codes. */
  lemma IncludeBySet(p: Permissions, q: Permissions, code: string)
    requires Validator.Elements(p) == Validator.Elements(q)
    ensures Include(p, code) <==> Include(q, code)
  {
    assert code in p <==> code in Validator.Elements(p);
    assert code in q <==> code in Validator.Elements(q);
  }

  /** Reordering: a list and its reverse include the same codes. */
  lemma {:induction false} IncludeReversed(p: Permissions, code: string)
    ensures Include(Reverse(p), code) <==> Include(p, code)
    decreases |p|
  {
    if p != [] {
      IncludeReversed(p[1..], code);
      assert Reverse(p) == Reverse(p[1..]) + [p[0]];
      assert p == [p[0]] + p[1..];
    }
  }

  function Reverse(p: Permissions): (r: Permissions)
    ensures |r| == |p|
  {
    if p == [] then [] else Reverse(p[1..]) + [p[0]]
  }

  /** Appending codes (another row) never withdraws a code already included, and includes the new ones. */
  lemma AppendKeeps(p: Permissions, more: Permissions, code: string)
    ensures Include(p, code) ==> Include(p + more, code)
    ensures Include(p + more, code) <==> Include(p, code) || Include(more, code)
  {
    if code in p {
      var i :| 0 <= i < |p| && p[i] == code;
      assert (p + more)[i] == code;
    }
    if code in more {
      var i :| 0 <= i < |more| && more[i] == code;
      assert (p + more)[|p| + i] == code;
    }
  }

  /** Repeating a code changes nothing. */
  lemma DuplicateIrrelevant(p: Permissions, code: string, c: string)
    requires Include(p, c)
    ensures Include(p + [c], code) <==> Include(p, code)
  {
    AppendKeeps(p, [c], code);
  }

  /**
   * The permission fixtures of the handler tests: user 1 may read movies,
   * user 2 may read and write them, and the lookup of any other user fails
   * (`None` stands for `ErrRecordNotFound`).
   */
  function FixturePermissions(userID: int): (r: Option<Permissions>)
    ensures r.None? <==> userID != 1 && userID != 2
  {
    if userID == 1 then Some([MoviesRead])
    else if userID == 2 then Some([MoviesRead, MoviesWrite])
    else None
  }

  lemma FixtureGrants()
    ensures Include(FixturePermissions(1).value, MoviesRead) && !Include(FixturePermissions(1).value, MoviesWrite)
    ensures Include(FixturePermissions(2).value, MoviesRead) && Include(FixturePermissions(2).value, MoviesWrite)
  {
    assert MoviesRead != MoviesWrite by {
      assert MoviesRead[7] != MoviesWrite[7];
    }
  }
}
