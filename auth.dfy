/** The four user roles and the permission predicates over them (lib/auth.ts). */
module Auth {

  datatype Role = INPUT | AUDIT | QUERY | ADMIN

  predicate CanApproveDocument(role: Role) {
    role == AUDIT || role == ADMIN
  }

  /** The roles that see sensitive fields are exactly the roles that approve. */
  predicate CanViewSensitiveFields(role: Role): (allowed: bool)
    ensures allowed == CanApproveDocument(role)
  {
    role == ADMIN || role == AUDIT
  }

  /** Only ADMIN may both create and approve a document. */
  predicate CanCreateDocument(role: Role): (allowed: bool)
    ensures allowed && CanApproveDocument(role) <==> role == ADMIN
  {
    role == INPUT || role == ADMIN
  }

  /** Seeing the audit log and seeing sensitive fields are the same permission. */
  predicate CanViewAuditLog(role: Role): (allowed: bool)
    ensures allowed == CanViewSensitiveFields(role)
  {
    role == ADMIN || role == AUDIT
  }

  /** ADMIN holds every permission and QUERY none. */
  lemma AdminAllQueryNone()
    ensures CanViewSensitiveFields(ADMIN) && CanCreateDocument(ADMIN) && CanApproveDocument(ADMIN) && CanViewAuditLog(ADMIN)
    ensures !CanViewSensitiveFields(QUERY) && !CanCreateDocument(QUERY) && !CanApproveDocument(QUERY) && !CanViewAuditLog(QUERY)
  {
  }

  /** Creating and approving are separated: INPUT creates but cannot approve, AUDIT approves but cannot create. */
  lemma SeparationOfDuties()
    ensures CanCreateDocument(INPUT) && !CanApproveDocument(INPUT)
    ensures CanApproveDocument(AUDIT) && !CanCreateDocument(AUDIT)
    ensures forall role :: CanCreateDocument(role) && CanApproveDocument(role) ==> role == ADMIN
  {
  }
}
