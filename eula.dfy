/**
 * The status a user gets when added to an allocation, depending on the
 * allocation's end-user licence agreement (EULA)
 * (coldfront/core/project/utils/eula_utils.py).
 */
module EulaUtils {
  import opened Wrappers
  import opened Choices
  import opened Store

  /**
   * determine_eula_status_for_allocation_user. `eulaEnabled` is the
   * ALLOCATION_EULA_ENABLE setting, `allocation` the allocation `a`, and
   * `au` the allocation-user table whose row `(a, u)` the lookup reads.
   */
  function DetermineEulaStatus(eulaEnabled: bool, allocation: Allocation, au: map<AllocationUserKey, AllocationUserStatus>,
                               a: AllocationId, u: UserId): (r: AllocationUserStatus)
    ensures r == AllocationUserStatus.Active || r == AllocationUserStatus.PendingEULA
  {
    if eulaEnabled && allocation.hasEula then
      if (a, u) in au then
        if au[(a, u)] != AllocationUserStatus.Active then AllocationUserStatus.PendingEULA else AllocationUserStatus.Active
      else AllocationUserStatus.PendingEULA
    else AllocationUserStatus.Active
  }

  /**
   * The user is held at PendingEULA exactly when EULAs are enabled, the
   * allocation has one, and the user is not already an Active user of it
   * (never a user before, or one in any status other than Active).
   */
  lemma DetermineEulaStatusPending(eulaEnabled: bool, allocation: Allocation, au: map<AllocationUserKey, AllocationUserStatus>,
                                   a: AllocationId, u: UserId)
    ensures DetermineEulaStatus(eulaEnabled, allocation, au, a, u) == AllocationUserStatus.PendingEULA <==>
      eulaEnabled && allocation.hasEula && ((a, u) !in au || au[(a, u)] != AllocationUserStatus.Active)
    ensures !eulaEnabled ==> DetermineEulaStatus(eulaEnabled, allocation, au, a, u) == AllocationUserStatus.Active
    ensures !allocation.hasEula ==> DetermineEulaStatus(eulaEnabled, allocation, au, a, u) == AllocationUserStatus.Active
    ensures (a, u) in au && au[(a, u)] == AllocationUserStatus.Active ==>
      DetermineEulaStatus(eulaEnabled, allocation, au, a, u) == AllocationUserStatus.Active
  {
  }

  /**
   * Once the row is given the status decided, deciding again gives the
   * same status: adding the same user twice leaves the row where the
   * first addition put it.
   */
  lemma DetermineEulaStatusFixpoint(eulaEnabled: bool, allocation: Allocation, au: map<AllocationUserKey, AllocationUserStatus>,
                                    a: AllocationId, u: UserId)
    ensures var r := DetermineEulaStatus(eulaEnabled, allocation, au, a, u);
      DetermineEulaStatus(eulaEnabled, allocation, au[(a, u) := r], a, u) == r
  {
  }

  /** The decision reads only the row `(a, u)`. */
  lemma DetermineEulaStatusLocal(eulaEnabled: bool, allocation: Allocation, au: map<AllocationUserKey, AllocationUserStatus>,
                                 au': map<AllocationUserKey, AllocationUserStatus>, a: AllocationId, u: UserId)
    requires ((a, u) in au <==> (a, u) in au') && ((a, u) in au ==> au[(a, u)] == au'[(a, u)])
    ensures DetermineEulaStatus(eulaEnabled, allocation, au, a, u) == DetermineEulaStatus(eulaEnabled, allocation, au', a, u)
  {
  }
}
