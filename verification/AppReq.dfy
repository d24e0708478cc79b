/** internal/audit and internal/appreq: an audit entry, and the request that carries an identity and a buffer of entries. */
module AppReq {
  import opened Wrappers

  datatype Account = Account(id: int, email: string)

  datatype AuditEntry = AuditEntry(userId: Option<int>, email: string, action: string, detail: string, ip: string)

  const ACTION_SIGN_IN := "sign_in"

  class AppRequest {
    const ip: string
    var user: Option<Account>
    var isAdmin: bool
    var audits: seq<AuditEntry>
    // history: every entry added, in the order the lock was taken, and every entry taken
    ghost var added: seq<AuditEntry>
    ghost var taken: seq<AuditEntry>

    ghost predicate Valid()
      reads this
    {
      added == taken + audits && (isAdmin ==> user.Some?)
    }

    constructor (ip: string)
      ensures Valid() && this.ip == ip && user.None? && !isAdmin && audits == [] && added == [] && taken == []
    {
      this.ip, user, isAdmin, audits, added, taken := ip, None, false, [], [], [];
    }

    method AddAudit(entry: AuditEntry)
      requires Valid()
      modifies this`audits, this`added
      ensures Valid() && audits == old(audits) + [entry] && added == old(added) + [entry]
    {
      audits := audits + [entry];
      added := added + [entry];
    }

    method TakeAudit() returns (entries: seq<AuditEntry>)
      requires Valid()
      modifies this`audits, this`taken
      ensures Valid() && entries == old(audits) && audits == [] && taken == old(taken) + entries
    {
      entries := audits;
      audits := [];
      taken := taken + entries;
    }

    method SetIdentity(user: Account, isAdmin: bool)
      requires Valid()
      modifies this`user, this`isAdmin
      ensures Valid() && this.user == Some(user) && this.isAdmin == isAdmin
    {
      this.user, this.isAdmin := Some(user), isAdmin;
    }
  }

  function InScope(req: AppRequest?): set<AppRequest> { if req == null then {} else {req} }
}
