/** The gate in front of the privileged commands. */
module Access {

  /** Role ids whose holders count as staff. */
  const StaffRoleIds: set<int> := {1377216937989505074, 1377217110551429140}

  /** Whoever invoked a command: a guild member with roles, or a user outside the guild. */
  datatype User = User(id: int, tag: string, isMember: bool, roleIds: seq<int>)

  /** Whether any of the roles is a staff role, looked at one role after another. */
  function HasStaffRole(roleIds: seq<int>): (r: bool)
    ensures r <==> exists i :: 0 <= i < |roleIds| && roleIds[i] in StaffRoleIds
  {
    if roleIds == [] then false
    else roleIds[0] in StaffRoleIds || HasStaffRole(roleIds[1..])
  }

  /** A caller is admitted when they are a guild member holding at least one staff role. */
  predicate StaffOnly(u: User) {
    u.isMember && HasStaffRole(u.roleIds)
  }

  /** Non-members are always refused, and a member is admitted exactly when a staff role id is among theirs. */
  lemma StaffOnlyMeaning(u: User)
    ensures !u.isMember ==> !StaffOnly(u)
    ensures u.isMember ==> (StaffOnly(u) <==> exists r :: r in u.roleIds && r in StaffRoleIds)
  {
    if u.isMember && StaffOnly(u) {
      var i :| 0 <= i < |u.roleIds| && u.roleIds[i] in StaffRoleIds;
      assert u.roleIds[i] in u.roleIds;
    }
  }
}
