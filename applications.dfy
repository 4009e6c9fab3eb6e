/**
 * Tournament applications and their status machine
 * (src/utils/db.js:198-266): the record and the record-level effect of
 * approve, reject and assignment edits.
 */
module Applications {
  import opened Wrappers
  import opened Ids

  /** The string literals "pending" | "approved" | "rejected" as an enumeration. */
  datatype Status = Pending | Approved | Rejected

  /** The `assigned: { tier, pool }` record. */
  datatype Assignment = Assignment(tier: string, pool: string)

  /** The `next` argument of `updateApplicationAssignment`: `None` is a key that is absent. */
  datatype AssignmentPatch = AssignmentPatch(tier: Option<string>, pool: Option<string>)

  /** `reason` is `None` until the application is rejected. */
  datatype Application = Application(
    id: Id,
    tournamentId: Id,
    teamId: Id,
    coachEmail: string,
    tier: string,
    poolPref: string,
    status: Status,
    createdAt: int,
    assignment: Assignment,
    reason: Option<string>)

  function AppKeys(apps: seq<Application>): (ks: seq<Id>) {
    seq(|apps|, i requires 0 <= i < |apps| => apps[i].id)
  }

  /** The record `submitApplication` builds: pending, assigned to the requested tier and no pool. */
  function NewApplication(id: Id, tournamentId: Id, teamId: Id, coachEmail: string,
                          tier: string, poolPref: string, createdAt: int): (r: Application) {
    Application(id, tournamentId, teamId, coachEmail, tier, poolPref, Pending, createdAt, Assignment(tier, ""), None)
  }

  /**
   * `approveApplication` on the record: approved, assigned to the requested
   * tier and the given pool, "A" when no pool is given. There is no guard on
   * the old status, and an earlier rejection reason is kept.
   */
  function Approve(app: Application, pool: Option<string>): (r: Application)
    ensures r.status == Approved
    ensures r.assignment.tier == app.tier
    ensures pool.Some? ==> r.assignment.pool == pool.value
    ensures pool.None? ==> r.assignment.pool == "A"
    ensures r == app.(status := Approved, assignment := r.assignment)
  {
    app.(status := Approved, assignment := Assignment(app.tier, pool.GetOr("A")))
  }

  /** `rejectApplication` on the record: rejected, with the reason stored (overwriting an earlier one). */
  function Reject(app: Application, reason: string): (r: Application)
    ensures r.status == Rejected && r.reason == Some(reason)
    ensures r == app.(status := Rejected, reason := r.reason)
  {
    app.(status := Rejected, reason := Some(reason))
  }

  /**
   * `updateApplicationAssignment` on the record: `{ ...assigned, ...next }`.
   * The keys present in the patch overwrite, the others keep their value;
   * status is untouched.
   */
  function Reassign(app: Application, patch: AssignmentPatch): (r: Application)
    ensures r == app.(assignment := r.assignment)
    ensures patch.tier.Some? ==> r.assignment.tier == patch.tier.value
    ensures patch.tier.None? ==> r.assignment.tier == app.assignment.tier
    ensures patch.pool.Some? ==> r.assignment.pool == patch.pool.value
    ensures patch.pool.None? ==> r.assignment.pool == app.assignment.pool
  {
    app.(assignment := Assignment(patch.tier.GetOr(app.assignment.tier), patch.pool.GetOr(app.assignment.pool)))
  }

  /** Applying the same assignment edit twice is the same as applying it once. */
  lemma ReassignIdempotent(app: Application, patch: AssignmentPatch)
    ensures Reassign(Reassign(app, patch), patch) == Reassign(app, patch)
  {
  }

  /**
   * The approval scenario: approving a pending "Gold" application into pool
   * "B" and then moving it to tier "Silver" gives `{Silver, B}` and leaves it
   * approved.
   */
  lemma ApproveThenRetier(app: Application)
    requires app.status == Pending && app.tier == "Gold"
    ensures Approve(app, Some("B")).assignment == Assignment("Gold", "B")
    ensures var r := Reassign(Approve(app, Some("B")), AssignmentPatch(Some("Silver"), None));
      r.assignment == Assignment("Silver", "B") && r.status == Approved
  {
  }

  /**
   * Approving a rejected application is allowed and keeps the rejection
   * reason on the record.
   */
  lemma ApproveAfterReject(app: Application, reason: string, pool: Option<string>)
    ensures Approve(Reject(app, reason), pool).status == Approved
    ensures Approve(Reject(app, reason), pool).reason == Some(reason)
  {
  }
}
