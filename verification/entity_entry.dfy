/** The lifecycle status of a tracked entity and its immutable wrapper. */
module EntityEntries {

  /** The statuses the entity manager assigns. */
  datatype EntityStatus = Managed | Deleted

  /** An immutable status entry; the status is fixed when the entry is built. */
  datatype EntityEntry = EntityEntry(status: EntityStatus)
  {
    /** equalsEntityStatus (called as checkEntityStatus by the entity manager). */
    predicate EqualsEntityStatus(s: EntityStatus)
      ensures EqualsEntityStatus(s) <==> s == status
    {
      status == s
    }
  }

  /** An entry built with a status answers true for that status and false for every other. */
  lemma EntryAnswersOnlyItsStatus(s: EntityStatus, t: EntityStatus)
    ensures EntityEntry(s).EqualsEntityStatus(t) <==> s == t
    ensures s == Managed ==> !EntityEntry(s).EqualsEntityStatus(Deleted)
    ensures s == Deleted ==> !EntityEntry(s).EqualsEntityStatus(Managed)
  {
  }

  /** At most one status is matched by any entry. */
  lemma AtMostOneStatus(e: EntityEntry, s: EntityStatus, t: EntityStatus)
    requires e.EqualsEntityStatus(s) && e.EqualsEntityStatus(t)
    ensures s == t
  {
  }
}
