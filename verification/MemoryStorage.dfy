/** The in-memory storage (storage_memory.go): a primary map of shared skill objects and a name index. */
module MemoryStorage {
  import opened Skills
  import opened NameIndex

  function NamesOf(skills: map<string, Skill>): map<string, string> {
    map id | id in skills :: skills[id].name
  }

  lemma NamesOfChanged(skills: map<string, Skill>, id: string, skill: Skill)
    ensures NamesOf(skills[id := skill]) == NamesOf(skills)[id := skill.name]
    ensures NamesOf(skills - {id}) == NamesOf(skills) - {id}
  {
  }

  class MemoryStorage {
    var skills: map<string, Skill>
    var byName: map<string, string>

    constructor ()
      ensures skills == map[] && byName == map[]
    {
      skills, byName := map[], map[];
    }

    /** The abstract store: names are constants of the skills, so no skill object is read. */
    function View(): Store
      reads this
    {
      Store(NamesOf(skills), byName)
    }

    /** Every skill sits under its own, non-empty identifier. */
    ghost predicate Valid()
      reads this, skills.Values`id
    {
      forall id :: id in skills ==> id != "" && skills[id].id == id
    }

    /** A cancelled context, or a failing back end, refuses the call before anything is touched. */
    method Save(cancelled: bool, skill: Skill?, generated: string, now: int) returns (err: Option<SkillError>)
      requires Valid() && generated != ""
      modifies this, skill
      ensures Valid()
      ensures err == if cancelled then Some(StorageUnavailable)
                     else if skill == null || skill.name == "" then Some(SkillInvalid) else None
      ensures err.Some? ==> skills == old(skills) && byName == old(byName)
      ensures err.Some? && skill != null ==>
                skill.createdAt == old(skill.createdAt) && skill.updatedAt == old(skill.updatedAt)
      ensures err.None? ==>
        && skills == old(skills)[skill.id := skill] && byName == old(byName)[skill.name := skill.id]
        && View() == AfterSave(old(View()), skill.id, skill.name)
        && skill.updatedAt == Some(now)
        && skill.createdAt == (if old(skill.createdAt).None? then Some(now) else old(skill.createdAt))
      // An invented identifier is kept even when the name is then found missing; a new one overwrites nothing.
      ensures skill != null ==>
        && skill.id == (if old(skill.id) == "" && !cancelled then generated else old(skill.id))
        && skill.status == old(skill.status) && skill.enabled == old(skill.enabled)
      ensures err.None? && old(skill.id) == "" && generated !in old(skills) ==>
        && skills.Keys == old(skills).Keys + {generated}
        && forall id :: id in old(skills) ==> skills[id] == old(skills)[id]
    {
      if cancelled {
        return Some(StorageUnavailable);
      }
      if skill == null {
        return Some(SkillInvalid);
      }
      if skill.id == "" {
        skill.id := generated;
      }
      if skill.name == "" {
        return Some(SkillInvalid);
      }
      skill.updatedAt := Some(now);
      if skill.createdAt.None? {
        skill.createdAt := skill.updatedAt;
      }
      NamesOfChanged(skills, skill.id, skill);
      skills := skills[skill.id := skill];
      byName := byName[skill.name := skill.id];
      err := None;
    }

    method Load(cancelled: bool, id: string) returns (err: Option<SkillError>, skill: Skill?)
      requires Valid()
      ensures err == if cancelled then Some(StorageUnavailable) else if id == "" then Some(SkillInvalid)
                     else if id !in skills then Some(SkillNotFound) else None
      ensures err.None? ==> skill == skills[id]
      ensures err.Some? ==> skill == null
    {
      if cancelled {
        return Some(StorageUnavailable), null;
      }
      if id == "" {
        return Some(SkillInvalid), null;
      }
      if id !in skills {
        return Some(SkillNotFound), null;
      }
      return None, skills[id];
    }

    method LoadByName(cancelled: bool, name: string) returns (err: Option<SkillError>, skill: Skill?)
      requires Valid()
      ensures err == if cancelled then Some(StorageUnavailable) else if name == "" then Some(SkillInvalid)
                     else if IdByName(View(), name).None? then Some(SkillNotFound) else None
      ensures err.None? ==> skill == skills[IdByName(View(), name).value]
      // With an exact index this is a search through all stored skills.
      ensures Exact(View()) && !cancelled && name != "" ==>
        (err.None? <==> exists id :: id in skills && skills[id].name == name)
      ensures Exact(View()) && err.None? ==>
        skill.name == name && forall id :: id in skills && skills[id].name == name ==> skills[id] == skill
      ensures err.Some? ==> skill == null
    {
      ghost var view := View();
      assert forall id :: id in skills ==> id in view.names && view.names[id] == skills[id].name;
      if cancelled {
        return Some(StorageUnavailable), null;
      }
      if name == "" {
        return Some(SkillInvalid), null;
      }
      if name !in byName {
        return Some(SkillNotFound), null;
      }
      var id := byName[name];
      if id !in skills {
        return Some(SkillNotFound), null;
      }
      return None, skills[id];
    }

    method Delete(cancelled: bool, id: string) returns (err: Option<SkillError>)
      requires Valid()
      modifies this
      ensures Valid()
      ensures err == if cancelled then Some(StorageUnavailable) else if id == "" then Some(SkillInvalid)
                     else if id !in old(skills) then Some(SkillNotFound) else None
      ensures err.None? ==>
        && skills == old(skills) - {id} && byName == old(byName) - {old(skills)[id].name}
        && View() == AfterDelete(old(View()), id)
      ensures err.Some? ==> skills == old(skills) && byName == old(byName)
    {
      if cancelled {
        return Some(StorageUnavailable);
      }
      if id == "" {
        return Some(SkillInvalid);
      }
      if id !in skills {
        return Some(SkillNotFound);
      }
      var skill := skills[id];
      NamesOfChanged(skills, id, skill);
      skills := skills - {id};
      byName := byName - {skill.name};
      err := None;
    }

    method Update(skill: Skill?, now: int) returns (err: Option<SkillError>)
      requires Valid()
      modifies this, skill
      ensures Valid()
      ensures skill != null ==>
        skill.id == old(skill.id) && skill.status == old(skill.status) && skill.enabled == old(skill.enabled)
      ensures err == if skill == null || skill.id == "" then Some(SkillInvalid)
                     else if skill.id !in old(skills) then Some(SkillNotFound) else None
      ensures err.None? ==>
        && skills == old(skills)[skill.id := skill]
        && byName == (if skill.name == old(skills)[skill.id].name then old(byName)
                      else (old(byName) - {old(skills)[skill.id].name})[skill.name := skill.id])
        && View() == AfterUpdate(old(View()), skill.id, skill.name)
        && skill.createdAt == old(skills[skill.id].createdAt)
        && skill.updatedAt == Some(now)
      ensures err.Some? ==> skills == old(skills) && byName == old(byName)
      ensures err.Some? && skill != null ==>
        skill.createdAt == old(skill.createdAt) && skill.updatedAt == old(skill.updatedAt)
    {
      if skill == null || skill.id == "" {
        return Some(SkillInvalid);
      }
      if skill.id !in skills {
        return Some(SkillNotFound);
      }
      var existing := skills[skill.id];
      if skill.name != existing.name {
        byName := byName - {existing.name};
        byName := byName[skill.name := skill.id];
      }
      skill.updatedAt := Some(now);
      skill.createdAt := existing.createdAt;
      NamesOfChanged(skills, skill.id, skill);
      skills := skills[skill.id := skill];
      err := None;
    }

    /** Every stored skill once, in whatever order the map yields them. */
    method List(cancelled: bool) returns (err: Option<SkillError>, list: seq<Skill>)
      requires Valid()
      ensures if cancelled then err == Some(StorageUnavailable) else err.None?
      ensures err.None? ==>
        && |list| == |skills|
        && (forall s :: s in list ==> s.id in skills && skills[s.id] == s)
        && (forall id :: id in skills ==> skills[id] in list)
    {
      list := [];
      if cancelled {
        return Some(StorageUnavailable), list;
      }
      var left := skills.Keys;
      while left != {}
        invariant left <= skills.Keys && |list| == |skills| - |left|
        invariant forall s :: s in list ==> s.id in skills && skills[s.id] == s
        invariant forall id :: id in skills && id !in left ==> skills[id] in list
      {
        var id :| id in left;
        left := left - {id};
        list := list + [skills[id]];
      }
      err := None;
    }

    method Clear()
      modifies this
      ensures skills == map[] && byName == map[] && View() == After(old(View()), NameIndex.Clear)
      ensures Valid()
    {
      skills, byName := map[], map[];
    }
  }
}
