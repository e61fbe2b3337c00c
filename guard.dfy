/** The ownership/role check that every handler repeats inline. The actor's
    id and role are caller-declared query parameters. */
module Guard {
  import opened Models

  predicate IsAdmin(role: Option<string>) {
    role == Some("admin")
  }

  /** May a caller with this role and declared id act on a row owned by `owner`?
      An admin may act on any row; anyone else only on their own, and a caller
      who declares no id owns nothing. */
  function Allows(role: Option<string>, actor: Option<string>, owner: string): (ok: bool)
    ensures IsAdmin(role) ==> ok
    ensures !IsAdmin(role) ==> (ok <==> actor.Some? && actor.value == owner)
  {
    IsAdmin(role) || actor == Some(owner)
  }
}
