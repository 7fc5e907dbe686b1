/** The family membership checks shared by the products, locations, templates and families services. */
module FamilyAccess {
  import opened Common
  import opened Errors
  import opened Store

  /** A `familyMember` row. */
  datatype Membership = Membership(familyId: FamilyId, userId: UserId, member: Member)

  /** `requireFamilyMember`: the caller's membership row, or Forbidden "Not a family member". */
  function RequireFamilyMember(members: map<(FamilyId, UserId), Member>, userId: UserId, familyId: FamilyId): (r: Result<Membership>)
    ensures r.Ok? <==> (familyId, userId) in members
    ensures r.Ok? ==> r.value == Membership(familyId, userId, members[(familyId, userId)])
    ensures r.Err? ==> r.FailedWith(Forbidden, "Not a family member")
  {
    if (familyId, userId) in members then Ok(Membership(familyId, userId, members[(familyId, userId)]))
    else Fail(Forbidden, "Not a family member")
  }

  /**
   * `requireFamilyAdmin`: the membership check first, so a non-member gets
   * "Not a family member"; then a member who is not an admin gets Forbidden
   * "Admin role required".
   */
  function RequireFamilyAdmin(members: map<(FamilyId, UserId), Member>, userId: UserId, familyId: FamilyId): (r: Result<Membership>)
    ensures r.Ok? <==> RoleIn(members, familyId, userId) == Some(Admin)
    ensures r.Ok? ==> r == RequireFamilyMember(members, userId, familyId)
    ensures (familyId, userId) !in members ==> r.FailedWith(Forbidden, "Not a family member")
    ensures RoleIn(members, familyId, userId) == Some(Reader) ==> r.FailedWith(Forbidden, "Admin role required")
  {
    var m :- RequireFamilyMember(members, userId, familyId);
    if m.member.role != Admin then Fail(Forbidden, "Admin role required") else Ok(m)
  }

  /** Whoever passes the admin check passes the membership check, with the same row. */
  lemma AdminIsMember(members: map<(FamilyId, UserId), Member>, userId: UserId, familyId: FamilyId)
    requires RequireFamilyAdmin(members, userId, familyId).Ok?
    ensures RequireFamilyMember(members, userId, familyId) == RequireFamilyAdmin(members, userId, familyId)
  {
  }
}
