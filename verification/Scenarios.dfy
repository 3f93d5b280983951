/** Call sequences whose outcome is easy to overlook (manager.go). */
module Scenarios {
  import opened Skills
  import opened Registry
  import opened Manager

  /** Enable reports a failed save, yet the registered skill is active afterwards. */
  method EnableDuringOutage(m: SkillManager, skillID: string, generated: string, now: int, savedAt: int)
    returns (err: Option<SkillError>, active: bool)
    requires m.Valid() && generated != ""
    modifies m.storage, if skillID in m.skills then {m.skills[skillID]} else {}
    ensures err.Some? && m.storage.skills == old(m.storage.skills)
    ensures active <==> skillID in m.skills
    ensures active ==> m.skills[skillID].IsActive()
  {
    err := m.Enable(skillID, true, generated, now, savedAt);
    active := skillID in m.skills && m.skills[skillID].IsActive();
  }

  /** An Unregister between the two halves of InitializeFromStorage is undone in the manager only. */
  method StaleSnapshot(m: SkillManager, skillID: string)
    requires m.Valid() && m.Coherent()
    requires skillID in m.skills && !HasDependents(m.Graph(), skillID)
    modifies m, m.storage
    ensures skillID in m.skills && skillID !in m.storage.skills && !m.Coherent()
  {
    ghost var listed := m.storage.skills;
    var err, list := m.storage.List(false);
    assert SnapshotOf(list, listed);
    err := m.Unregister(skillID, false);
    assert skillID in listed;
    m.MergeListed(list, listed);
  }
}
