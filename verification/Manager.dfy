/** The skill manager (manager.go): two maps of shared skills in front of a storage, every call proved to
    be a step of the graph machine in Registry. */
module Manager {
  import opened Skills
  import opened Strings
  import opened DependencyGraph
  import opened Resolver
  import opened Registry
  import opened Validator
  import opened Queries
  import Storage = MemoryStorage
  import NameIndex

  datatype SkillMetrics = SkillMetrics(skillID: string)

  lemma GraphOfChanged(skills: map<string, Skill>, id: string, skill: Skill)
    ensures GraphOf(skills[id := skill]) == GraphOf(skills)[id := skill.Dependencies()]
    ensures GraphOf(skills - {id}) == GraphOf(skills) - {id}
  {
  }

  /** The errors of a refused registration; a dependency error points at a real fault. */
  ghost predicate Refusal(g: Graph, skill: Skill?, error: SkillError)
    reads skill
  {
    || error.SkillInvalid?
    || error.SkillAlreadyExists?
    || (skill != null && Explains(Extended(g, skill.id, skill.Dependencies()), g.Keys, skill.id, error))
  }

  /** What registering makes of a skill: disabled, inactive unless it came with a status, created now unless
      it came with a creation time, and last stamped at the given time. */
  predicate Prepared(before: SkillState, after: SkillState, now: int, stampedAt: int) {
    && after.id == before.id
    && !after.enabled
    && after.status == (if before.status == "" then STATUS_INACTIVE else before.status)
    && after.createdAt == (if before.createdAt.None? then Some(now) else before.createdAt)
    && after.updatedAt == Some(stampedAt)
  }

  method Prepare(skill: Skill, now: int)
    modifies skill`updatedAt, skill`createdAt, skill`status, skill`enabled
    ensures Prepared(old(skill.State()), skill.State(), now, now)
  {
    skill.updatedAt := Some(now);
    if skill.createdAt.None? {
      skill.createdAt := skill.updatedAt;
    }
    if skill.status == "" {
      skill.status := STATUS_INACTIVE;
    }
    skill.enabled := false;
  }

  /** An update: a new stamp, and the creation time of the skill it replaces. */
  method Restamp(skill: Skill, existing: Skill, now: int)
    modifies skill`updatedAt, skill`createdAt
    ensures skill.updatedAt == Some(now) && skill.createdAt == old(existing.createdAt)
  {
    skill.updatedAt := Some(now);
    skill.createdAt := existing.createdAt;
  }

  /** The batch as the graph machine sees it. */
  ghost function EntriesOf(loaded: seq<Skill>, outages: seq<bool>): seq<Entry>
    requires |outages| == |loaded|
    reads set s | s in loaded
  {
    seq(|loaded|, i requires 0 <= i < |loaded| reads set s | s in loaded =>
      Entry(loaded[i].id, loaded[i].Dependencies(), ValidFields(loaded[i]), !outages[i]))
  }

  /** Position i holds the first entry of the batch with that identifier. */
  ghost predicate FirstEntry(entries: seq<Entry>, id: string, i: int) {
    0 <= i < |entries| && entries[i].id == id && forall j :: 0 <= j < i ==> entries[j].id != id
  }

  /** Position i holds an identifier that is new, and new in the batch. */
  ghost predicate FreshEntry(entries: seq<Entry>, known: set<string>, i: int) {
    0 <= i < |entries| && entries[i].id !in known && FirstEntry(entries, entries[i].id, i)
  }

  /** After n entries of a batch: all their identifiers are filed, older skills are where they were, and each
      new identifier is filed under its first skill. */
  ghost predicate FiledFirst(loaded: seq<Skill>, entries: seq<Entry>, n: nat,
                             before: map<string, Skill>, after: map<string, Skill>)
    requires n <= |entries| == |loaded|
  {
    && (forall id :: id in before ==> id in after && after[id] == before[id])
    && (forall j :: 0 <= j < n ==> entries[j].id in after)
    && (forall id :: id in after && id !in before ==>
          exists i :: i < n && FirstEntry(entries, id, i) && after[id] == loaded[i])
  }

  /** What a batch added to the manager's map. */
  function Added(before: map<string, Skill>, after: map<string, Skill>): map<string, Skill> {
    map id | id in after && id !in before :: after[id]
  }

  lemma AddedGrows(before: map<string, Skill>, now: map<string, Skill>, stored: map<string, Skill>,
                   id: string, skill: Skill)
    requires id !in before
    ensures (stored + Added(before, now))[id := skill] == stored + Added(before, now[id := skill])
  {
  }

  /** The saves a batch makes: one for each fresh entry, in list order. */
  ghost function SavesOf(loaded: seq<Skill>, entries: seq<Entry>, known: set<string>, n: nat): seq<NameIndex.Call>
    requires n <= |entries| == |loaded|
  {
    if n == 0 then []
    else if !FreshEntry(entries, known, n - 1) then SavesOf(loaded, entries, known, n - 1)
    else SavesOf(loaded, entries, known, n - 1) + [NameIndex.Save(entries[n - 1].id, loaded[n - 1].name)]
  }

  /** What a batch can change: both skill maps, the name index, and the fields of the listed skills. */
  datatype Snapshot = Snapshot(filed: map<string, Skill>, stored: map<string, Skill>, view: NameIndex.Store,
                               states: map<Skill, SkillState>)

  ghost function StatesOf(loaded: seq<Skill>): map<Skill, SkillState>
    reads set s | s in loaded
  {
    map s | s in loaded :: s.State()
  }

  /** The fields of the listed skills: those the batch filed are prepared and saved, the one whose save failed
      is prepared, all others, duplicates included, are as they were. */
  ghost predicate BatchStates(was: Snapshot, present: Snapshot, unsaved: Option<Skill>, now: int, savedAt: int) {
    && present.states.Keys == was.states.Keys
    && (unsaved.Some? ==> unsaved.value in was.states && was.states[unsaved.value].id !in present.filed)
    && forall s :: s in was.states ==>
         var id, before, after := was.states[s].id, was.states[s], present.states[s];
         if id in present.filed && id !in was.filed && present.filed[id] == s then Prepared(before, after, now, savedAt)
         else if unsaved == Some(s) then Prepared(before, after, now, now)
         else after == before
  }

  /** The storage gained exactly what the manager gained, by the saves of the first n entries. */
  ghost predicate BatchSaves(was: Snapshot, present: Snapshot, loaded: seq<Skill>, entries: seq<Entry>, n: nat)
    requires n <= |entries| == |loaded|
  {
    && present.stored == was.stored + Added(was.filed, present.filed)
    && present.view == NameIndex.Run(was.view, SavesOf(loaded, entries, was.filed.Keys, n))
  }

  /** A batch after its first n entries. */
  ghost predicate BatchDone(was: Snapshot, present: Snapshot, loaded: seq<Skill>, entries: seq<Entry>, n: nat,
                            unsaved: Option<Skill>, now: int, savedAt: int)
    requires n <= |entries| == |loaded|
  {
    && FiledFirst(loaded, entries, n, was.filed, present.filed)
    && BatchSaves(was, present, loaded, entries, n)
    && BatchStates(was, present, unsaved, now, savedAt)
  }

  /** The snapshot with one more skill filed and saved. */
  function Joined(p: Snapshot, id: string, s: Skill, state: SkillState): Snapshot {
    Snapshot(p.filed[id := s], p.stored[id := s], NameIndex.AfterSave(p.view, id, s.name), p.states[s := state])
  }

  lemma IdentifierStays(was: Snapshot, present: Snapshot, s: Skill, now: int, savedAt: int)
    requires BatchStates(was, present, None, now, savedAt) && s in was.states
    ensures present.states[s].id == was.states[s].id
  {
  }

  /** Validity of the fields depends on nothing that changes but the identifier. */
  twostate lemma SameValidity(s: Skill)
    requires s.id == old(s.id)
    ensures ValidFields(s) == old(ValidFields(s))
  {
  }

  /** The entries carry the identifiers of the listed skills. */
  ghost predicate EntriesMatch(states: map<Skill, SkillState>, loaded: seq<Skill>, entries: seq<Entry>)
    requires |entries| == |loaded|
  {
    forall i :: 0 <= i < |loaded| ==> loaded[i] in states && states[loaded[i]].id == entries[i].id
  }

  lemma EntriesMatchStates(loaded: seq<Skill>, outages: seq<bool>)
    requires |outages| == |loaded|
    ensures EntriesMatch(StatesOf(loaded), loaded, EntriesOf(loaded, outages))
  {
  }

  /** A skill the batch filed is one of the listed ones, and it is prepared and saved. */
  lemma NewcomerPrepared(was: Snapshot, present: Snapshot, loaded: seq<Skill>, entries: seq<Entry>, n: nat,
                         unsaved: Option<Skill>, now: int, savedAt: int, id: string)
    requires n <= |entries| == |loaded| && BatchDone(was, present, loaded, entries, n, unsaved, now, savedAt)
    requires EntriesMatch(was.states, loaded, entries)
    requires id in present.filed && id !in was.filed
    ensures var s := present.filed[id];
            s in was.states && Prepared(was.states[s], present.states[s], now, savedAt)
  {
    var i :| i < n && FirstEntry(entries, id, i) && present.filed[id] == loaded[i];
  }

  /** After a batch nothing new is enabled, and skills whose identifier was already filed keep their fields. */
  lemma BatchOverview(was: Snapshot, present: Snapshot, loaded: seq<Skill>, entries: seq<Entry>, n: nat,
                      unsaved: Option<Skill>, now: int, savedAt: int)
    requires n <= |entries| == |loaded| && BatchDone(was, present, loaded, entries, n, unsaved, now, savedAt)
    requires EntriesMatch(was.states, loaded, entries)
    ensures forall id :: id in present.filed && id !in was.filed ==>
      present.filed[id] in present.states && !present.states[present.filed[id]].enabled
    ensures forall s :: s in was.states && was.states[s].id in was.filed ==> present.states[s] == was.states[s]
  {
    forall id | id in present.filed && id !in was.filed
      ensures present.filed[id] in present.states && !present.states[present.filed[id]].enabled
    {
      NewcomerPrepared(was, present, loaded, entries, n, unsaved, now, savedAt, id);
    }
  }

  lemma StatesTurn(was: Snapshot, p: Snapshot, s: Skill, state: SkillState, now: int, savedAt: int)
    requires BatchStates(was, p, None, now, savedAt) && was.filed.Keys <= p.filed.Keys
    requires s in was.states && was.states[s].id !in p.filed && Prepared(p.states[s], state, now, savedAt)
    ensures BatchStates(was, Joined(p, was.states[s].id, s, state), None, now, savedAt)
  {
  }

  lemma StatesStop(was: Snapshot, p: Snapshot, s: Skill, state: SkillState, now: int, savedAt: int)
    requires BatchStates(was, p, None, now, savedAt)
    requires s in was.states && was.states[s].id !in p.filed && Prepared(p.states[s], state, now, now)
    ensures BatchStates(was, p.(states := p.states[s := state]), Some(s), now, savedAt)
  {
  }

  lemma SavesTurn(was: Snapshot, p: Snapshot, loaded: seq<Skill>, entries: seq<Entry>, n: nat, state: SkillState)
    requires n < |entries| == |loaded| && BatchSaves(was, p, loaded, entries, n)
    requires FreshEntry(entries, was.filed.Keys, n)
    ensures BatchSaves(was, Joined(p, entries[n].id, loaded[n], state), loaded, entries, n + 1)
  {
    var id, skill := entries[n].id, loaded[n];
    AddedGrows(was.filed, p.filed, was.stored, id, skill);
    NameIndex.RunSnoc(was.view, SavesOf(loaded, entries, was.filed.Keys, n), NameIndex.Save(id, skill.name));
  }

  /** One turn of the batch loop: a new skill joins, or nothing moves. */
  lemma BatchTurn(was: Snapshot, p: Snapshot, loaded: seq<Skill>, entries: seq<Entry>, n: nat,
                  state: SkillState, now: int, savedAt: int)
    requires n < |entries| == |loaded| && BatchDone(was, p, loaded, entries, n, None, now, savedAt)
    requires loaded[n] in was.states && was.states[loaded[n]].id == entries[n].id
    ensures entries[n].id in p.filed ==> BatchDone(was, p, loaded, entries, n + 1, None, now, savedAt)
    ensures entries[n].id !in p.filed && Prepared(p.states[loaded[n]], state, now, savedAt) ==>
      BatchDone(was, Joined(p, entries[n].id, loaded[n], state), loaded, entries, n + 1, None, now, savedAt)
  {
    var id, skill := entries[n].id, loaded[n];
    FiledFirstTurn(loaded, entries, was.filed, p.filed, if id in p.filed then p.filed else p.filed[id := skill], n);
    if id !in p.filed && Prepared(p.states[skill], state, now, savedAt) {
      StatesTurn(was, p, skill, state, now, savedAt);
      SavesTurn(was, p, loaded, entries, n, state);
    }
  }

  /** The list holds exactly the skills of the map, each filed under its own identifier. */
  ghost predicate SnapshotOf(list: seq<Skill>, listed: map<string, Skill>)
    reads (set s | s in list)`id, listed.Values`id
  {
    && (forall s :: s in list ==> s.id != "" && s.id in listed && listed[s.id] == s)
    && (forall id :: id in listed ==> listed[id] in list && listed[id].id == id)
  }

  /** A map on its way to its extension by another: the entries in done have been copied. */
  ghost predicate Copying(before: map<string, Skill>, listed: map<string, Skill>, done: set<string>,
                          now: map<string, Skill>)
  {
    && done <= listed.Keys
    && now.Keys == before.Keys + done
    && (forall id :: id in now ==> now[id] == if id in done then listed[id] else before[id])
  }

  lemma CopyTurn(before: map<string, Skill>, listed: map<string, Skill>, done: set<string>,
                 now: map<string, Skill>, id: string)
    requires Copying(before, listed, done, now) && id in listed
    ensures Copying(before, listed, done + {id}, now[id := listed[id]])
  {
  }

  lemma Copied(before: map<string, Skill>, listed: map<string, Skill>, now: map<string, Skill>)
    requires Copying(before, listed, listed.Keys, now)
    ensures now == before + listed
    ensures before == map[] ==> now == listed
    ensures now == before <==> forall id :: id in listed ==> id in before && before[id] == listed[id]
  {
  }

  /** The matching skills among those whose identifier a map loop has visited. */
  ghost predicate Taken(all: set<Skill>, left: set<string>, f: SkillFilter, taken: set<Skill>)
    reads all
  {
    taken <= all && forall s :: s in all ==> (s in taken <==> s.id !in left && Meets(f, s))
  }

  lemma TakenTurn(skills: map<string, Skill>, left: set<string>, id: string, f: SkillFilter, taken: set<Skill>)
    requires forall k :: k in skills ==> skills[k].id == k
    requires id in skills && id !in left && Taken(skills.Values, left + {id}, f, taken)
    ensures skills[id] !in taken
    ensures Taken(skills.Values, left, f, if Meets(f, skills[id]) then taken + {skills[id]} else taken)
  {
  }

  lemma MultisetGrows<T>(found: seq<T>, taken: set<T>, x: T)
    requires multiset(found) == multiset(taken) && x !in taken
    ensures multiset(found + [x]) == multiset(taken + {x})
  {
  }

  lemma FiledFirstTurn(loaded: seq<Skill>, entries: seq<Entry>, start: map<string, Skill>,
                       before: map<string, Skill>, after: map<string, Skill>, i: nat)
    requires |entries| == |loaded| && i < |loaded|
    requires FiledFirst(loaded, entries, i, start, before)
    requires after == if entries[i].id in before then before else before[entries[i].id := loaded[i]]
    ensures FiledFirst(loaded, entries, i + 1, start, after)
    ensures FreshEntry(entries, start.Keys, i) <==> entries[i].id !in before
  {
  }

  /** One turn of the batch loop, seen from the graph machine. */
  lemma LoadTurn(g: Graph, entries: seq<Entry>, i: nat)
    requires i < |entries|
    ensures Load(g, entries[i..]) ==
            if Passes(g, entries[i]) then Load(Step(g, AsRegister(entries[i])), entries[i + 1..]) else (g, false)
  {
  }

  class SkillManager {
    const storage: Storage.MemoryStorage
    const validator: SkillValidator
    var skills: map<string, Skill>
    var metrics: map<string, SkillMetrics>

    constructor (storage: Storage.MemoryStorage?)
      requires storage != null ==> storage.Valid()
      ensures Valid() && skills == map[] && metrics == map[]
      ensures storage != null ==> this.storage == storage
      ensures storage == null ==> fresh(this.storage) && Coherent()
      ensures fresh(validator.dependencyResolver)
    {
      var s := storage;
      if s == null {
        s := new Storage.MemoryStorage();
      }
      this.storage := s;
      validator := new SkillValidator();
      skills, metrics := map[], map[];
    }

    ghost predicate Valid()
      reads this, skills.Values`id, storage, storage.skills.Values`id
    {
      && storage.Valid()
      && Keyed()
      && metrics.Keys == skills.Keys
      && (forall id :: id in metrics ==> metrics[id].skillID == id)
    }

    /** Every skill is filed under its own, non-empty identifier. */
    ghost predicate Keyed()
      reads this, skills.Values`id
    {
      forall id :: id in skills ==> id != "" && skills[id].id == id
    }

    /** Manager and storage hold the very same skill objects under the same identifiers. */
    ghost predicate Coherent()
      reads this, storage
    {
      && skills == storage.skills
      && (forall id :: id in skills ==> skills[id].name != "")
    }

    ghost function Graph(): Graph
      reads this
    {
      GraphOf(skills)
    }

    /** No map of the manager or the storage changed. */
    twostate predicate Untouched()
      reads this, storage
    {
      && skills == old(skills) && metrics == old(metrics)
      && storage.skills == old(storage.skills) && storage.View() == old(storage.View())
    }

    /** The storage filed the skill under its identifier and its name. */
    twostate predicate Saved(skill: Skill)
      reads storage, skill
    {
      && storage.skills == old(storage.skills)[skill.id := skill]
      && storage.View() == NameIndex.AfterSave(old(storage.View()), skill.id, skill.name)
    }

    /** So did the manager. */
    twostate predicate Filed(skill: Skill)
      reads this, storage, skill
    {
      && Saved(skill)
      && skills == old(skills)[skill.id := skill]
      && Graph() == old(Graph())[skill.id := skill.Dependencies()]
    }

    /** A newly registered skill: prepared, stamped by the save, and with a metric record of its own. */
    twostate predicate Enrolled(skill: Skill, now: int, savedAt: int)
      reads this, skill
    {
      && metrics == old(metrics)[skill.id := SkillMetrics(skill.id)]
      && Prepared(old(skill.State()), skill.State(), now, savedAt)
    }

    /** A skill that was refused is as it was, unless it got as far as a failing save. */
    twostate predicate TurnedDown(skill: Skill, error: SkillError, now: int)
      reads skill
    {
      if error.StorageUnavailable? then Prepared(old(skill.State()), skill.State(), now, now)
      else skill.State() == old(skill.State())
    }

    method Register(skill: Skill?, outage: bool, generated: string, now: int, savedAt: int)
      returns (err: Option<SkillError>)
      requires Valid() && generated != ""
      modifies this, storage, validator.dependencyResolver, skill
      ensures Valid() && (old(Coherent()) ==> Coherent())
      ensures skill != null ==> skill.id == old(skill.id)
      // Which calls succeed, and which error each of the others reports.
      ensures err.None? <==> skill != null && old(Admissible(skill)) && !outage
      ensures err == Some(SkillInvalid) <==> skill == null || !old(ValidFields(skill))
      ensures err == Some(SkillAlreadyExists) <==> skill != null && old(ValidFields(skill)) && skill.id in old(skills)
      ensures err == Some(StorageUnavailable) <==> skill != null && old(Admissible(skill)) && outage
      ensures err.Some? ==> err.value.StorageUnavailable? || Refusal(old(Graph()), skill, err.value)
      ensures old(Consistent(Graph())) && err.Some? ==> !err.value.CircularDependency?
      ensures skill != null && old(ValidFields(skill)) && skill.id !in old(skills) ==>
        MissesDependency(skill, old(skills).Keys) ==>
        err.Some? && NamesFirstMissing(err.value, skill.Dependencies(), old(skills).Keys)
      // The graph, the maps and the skill afterwards.
      ensures skill != null ==>
        Graph() == Step(old(Graph()),
                        Operation.Register(skill.id, skill.Dependencies(), old(ValidFields(skill)), !outage))
      ensures err.Some? ==> Untouched() && (skill != null ==> TurnedDown(skill, err.value, now))
      ensures err.None? ==> Filed(skill) && Enrolled(skill, now, savedAt)
    {
      if skill == null {
        return Some(SkillInvalid);
      }
      err := RegisterNew(skill, outage, generated, now, savedAt);
    }

    method RegisterNew(skill: Skill, outage: bool, generated: string, now: int, savedAt: int)
      returns (err: Option<SkillError>)
      requires Valid() && generated != ""
      modifies this, storage, validator.dependencyResolver, skill
      ensures Valid() && (old(Coherent()) ==> Coherent())
      ensures skill.id == old(skill.id)
      ensures old(Admissible(skill)) ==> if outage then err == Some(StorageUnavailable) else err.None?
      ensures !old(Admissible(skill)) ==> err.Some? && Refusal(old(Graph()), skill, err.value)
      ensures err == Some(SkillInvalid) <==> !old(ValidFields(skill))
      ensures err == Some(SkillAlreadyExists) <==> old(ValidFields(skill)) && skill.id in old(skills)
      ensures old(Consistent(Graph())) && err.Some? ==> !err.value.CircularDependency?
      ensures old(ValidFields(skill)) && skill.id !in old(skills) && MissesDependency(skill, old(skills).Keys) ==>
        err.Some? && NamesFirstMissing(err.value, skill.Dependencies(), old(skills).Keys)
      ensures err.None? ==> Filed(skill) && Enrolled(skill, now, savedAt)
      ensures err.Some? ==> Untouched() && TurnedDown(skill, err.value, now)
    {
      err := Admit(skill);
      if err.None? {
        ValidFieldsNonEmpty(skill);
        err := Adopt(skill, outage, generated, now, savedAt);
      }
    }

    /** What Register asks of a skill before it touches anything. */
    ghost predicate Admissible(skill: Skill)
      reads this, skill`id
    {
      ValidFields(skill) && skill.id !in skills && DependenciesAccepted(Graph(), skill.id, skill.Dependencies())
    }

    /** The checks Register makes before it touches anything. */
    method Admit(skill: Skill) returns (err: Option<SkillError>)
      modifies validator.dependencyResolver
      ensures err.None? <==> Admissible(skill)
      ensures err == Some(SkillInvalid) <==> !ValidFields(skill)
      ensures err == Some(SkillAlreadyExists) <==> ValidFields(skill) && skill.id in skills
      ensures err.Some? ==> Refusal(Graph(), skill, err.value)
      ensures err.Some? && Consistent(Graph()) ==> !err.value.CircularDependency?
      ensures ValidFields(skill) && skill.id !in skills && MissesDependency(skill, skills.Keys) ==>
        err.Some? && NamesFirstMissing(err.value, skill.Dependencies(), skills.Keys)
    {
      err := validator.ValidateSkill(skill);
      if err.Some? {
        return;
      }
      if skill.id in skills {
        return Some(SkillAlreadyExists);
      }
      err := validator.ValidateSkillDependencies(skill, skills);
      if err.Some? && Consistent(Graph()) {
        FreshAccepted(Graph(), skill.id, skill.Dependencies());
      }
    }

    /** What Register does to an admitted skill: stamp it, save it, file it. */
    method Adopt(skill: Skill, outage: bool, generated: string, now: int, savedAt: int)
      returns (err: Option<SkillError>)
      requires Valid() && generated != "" && skill.id != "" && skill.name != ""
      modifies this, storage, skill
      ensures Valid() && (old(Coherent()) ==> Coherent())
      ensures skill.id == old(skill.id)
      ensures if outage then err == Some(StorageUnavailable) else err.None?
      ensures !outage ==> Filed(skill) && Enrolled(skill, now, savedAt)
      ensures outage ==> Untouched() && TurnedDown(skill, StorageUnavailable, now)
    {
      Prepare(skill, now);
      err := SaveAndFile(skill, outage, generated, savedAt);
      if err.Some? {
        return;
      }
      metrics := metrics[skill.id := SkillMetrics(skill.id)];
    }

    /** Storage first; the manager's map follows only when the save succeeded. */
    method SaveAndFile(skill: Skill, outage: bool, generated: string, savedAt: int) returns (err: Option<SkillError>)
      requires storage.Valid() && Keyed() && generated != "" && skill.id != "" && skill.name != ""
      modifies this`skills, storage, skill
      ensures storage.Valid() && Keyed() && (old(Coherent()) ==> Coherent())
      ensures skill.id == old(skill.id) && skill.status == old(skill.status) && skill.enabled == old(skill.enabled)
      ensures if outage then err == Some(StorageUnavailable) && Untouched() else err.None? && Filed(skill)
      ensures err.None? ==> skill.updatedAt == Some(savedAt)
      ensures err.None? ==>
        skill.createdAt == if old(skill.createdAt).None? then Some(savedAt) else old(skill.createdAt)
      ensures err.Some? ==> skill.State() == old(skill.State())
    {
      err := storage.Save(outage, skill, generated, savedAt);
      if err.Some? {
        return;
      }
      GraphOfChanged(skills, skill.id, skill);
      skills := skills[skill.id := skill];
    }

    method Unregister(skillID: string, outage: bool) returns (err: Option<SkillError>)
      requires Valid()
      modifies this, storage
      ensures Valid() && (old(Coherent()) ==> Coherent())
      ensures err == if skillID !in old(skills) then Some(SkillNotFound)
                     else if HasDependents(old(Graph()), skillID) then Some(StillRequired)
                     else if outage then Some(StorageUnavailable)
                     else if skillID !in old(storage.skills) then Some(SkillNotFound) else None
      ensures Graph() == Step(old(Graph()), Operation.Unregister(skillID, !outage && skillID in old(storage.skills)))
      ensures err.Some? ==> Untouched()
      ensures err.None? ==>
        && skills == old(skills) - {skillID} && metrics == old(metrics) - {skillID}
        && storage.skills == old(storage.skills) - {skillID}
        && storage.View() == NameIndex.AfterDelete(old(storage.View()), skillID)
    {
      if skillID !in skills {
        return Some(SkillNotFound);
      }
      var needed := FindDependent(skillID);
      if needed {
        return Some(StillRequired);
      }
      err := Forget(skillID, outage);
    }

    /** Storage first; the manager's maps follow only when the delete succeeded. */
    method Forget(skillID: string, outage: bool) returns (err: Option<SkillError>)
      requires Valid() && skillID in skills
      modifies this, storage
      ensures Valid() && (old(Coherent()) ==> Coherent())
      ensures err == if outage then Some(StorageUnavailable)
                     else if skillID !in old(storage.skills) then Some(SkillNotFound) else None
      ensures err.Some? ==> Untouched()
      ensures err.None? ==>
        && skills == old(skills) - {skillID} && metrics == old(metrics) - {skillID}
        && Graph() == old(Graph()) - {skillID}
        && storage.skills == old(storage.skills) - {skillID}
        && storage.View() == NameIndex.AfterDelete(old(storage.View()), skillID)
    {
      err := storage.Delete(outage, skillID);
      if err.None? {
        Unfile(skillID);
      }
    }

    method Unfile(skillID: string)
      requires Valid() && skillID in skills
      modifies this
      ensures Valid() && skills == old(skills) - {skillID} && metrics == old(metrics) - {skillID}
      ensures Graph() == old(Graph()) - {skillID}
    {
      GraphOfChanged(skills, skillID, skills[skillID]);
      skills := skills - {skillID};
      metrics := metrics - {skillID};
    }

    /** The search Unregister runs over all skills, in whatever order the map yields them. */
    method FindDependent(skillID: string) returns (found: bool)
      ensures found <==> HasDependents(Graph(), skillID)
    {
      var left := skills.Keys;
      while left != {}
        invariant left <= skills.Keys
        invariant forall x :: x in skills.Keys - left ==> !Edge(Graph(), x, skillID)
      {
        var id :| id in left;
        left := left - {id};
        var s := skills[id];
        if s.definition.Some? {
          var dependencies := s.definition.value.dependencies;
          for i := 0 to |dependencies|
            invariant skillID !in dependencies[..i]
          {
            if dependencies[i] == skillID {
              assert Edge(Graph(), id, skillID);
              return true;
            }
          }
        }
      }
      return false;
    }

    method Get(skillID: string) returns (err: Option<SkillError>, skill: Skill?)
      ensures err.None? <==> skillID in skills
      ensures if skillID in skills then skill == skills[skillID] else err == Some(SkillNotFound) && skill == null
    {
      if skillID !in skills {
        return Some(SkillNotFound), null;
      }
      return None, skills[skillID];
    }

    /** Assigns through the shared skill object, then saves it. */
    method Switch(skill: Skill, on: bool, outage: bool, generated: string, now: int, savedAt: int)
      returns (err: Option<SkillError>)
      requires storage.Valid() && generated != "" && skill.id != ""
      modifies storage, skill
      ensures storage.Valid() && skill.id == old(skill.id)
      ensures skill.enabled == on && skill.status == if on then STATUS_ACTIVE else STATUS_INACTIVE
      ensures err.None? <==> !outage && skill.name != ""
      ensures if err.None? then Saved(skill) else Untouched()
      ensures skill.updatedAt == Some(if err.None? then savedAt else now)
      ensures skill.createdAt == if old(skill.createdAt).None? && err.None? then Some(savedAt) else old(skill.createdAt)
    {
      skill.enabled := on;
      skill.status := if on then STATUS_ACTIVE else STATUS_INACTIVE;
      skill.updatedAt := Some(now);
      err := storage.Save(outage, skill, generated, savedAt);
    }

    method Enable(skillID: string, outage: bool, generated: string, now: int, savedAt: int)
      returns (err: Option<SkillError>)
      requires Valid() && generated != ""
      modifies storage, if skillID in skills then {skills[skillID]} else {}
      ensures Valid() && (old(Coherent()) ==> Coherent())
      ensures Graph() == Step(old(Graph()), Operation.Enable(skillID))
      ensures skillID !in skills ==> err == Some(SkillNotFound)
      ensures skillID in skills ==> skills[skillID].IsActive()
      ensures old(Coherent()) && skillID in skills && !outage ==> err.None?
      ensures skillID in skills ==> (err.None? <==> !outage && skills[skillID].name != "")
      ensures if err.None? then Saved(skills[skillID]) else Untouched()
      ensures skillID in skills ==> skills[skillID].updatedAt == Some(if err.None? then savedAt else now)
      ensures skillID in skills && old(skills[skillID].createdAt).Some? ==>
        skills[skillID].createdAt == old(skills[skillID].createdAt)
      ensures skillID in skills && old(skills[skillID].createdAt).None? ==>
        skills[skillID].createdAt == if err.None? then Some(savedAt) else None
    {
      if skillID !in skills {
        return Some(SkillNotFound);
      }
      err := Switch(skills[skillID], true, outage, generated, now, savedAt);
    }

    method Disable(skillID: string, outage: bool, generated: string, now: int, savedAt: int)
      returns (err: Option<SkillError>)
      requires Valid() && generated != ""
      modifies storage, if skillID in skills then {skills[skillID]} else {}
      ensures Valid() && (old(Coherent()) ==> Coherent())
      ensures Graph() == Step(old(Graph()), Operation.Disable(skillID))
      ensures skillID !in skills ==> err == Some(SkillNotFound)
      ensures skillID in skills ==> !skills[skillID].enabled && skills[skillID].status == STATUS_INACTIVE
      ensures old(Coherent()) && skillID in skills && !outage ==> err.None?
      ensures skillID in skills ==> (err.None? <==> !outage && skills[skillID].name != "")
      ensures if err.None? then Saved(skills[skillID]) else Untouched()
      ensures skillID in skills ==> skills[skillID].updatedAt == Some(if err.None? then savedAt else now)
      ensures skillID in skills && old(skills[skillID].createdAt).Some? ==>
        skills[skillID].createdAt == old(skills[skillID].createdAt)
      ensures skillID in skills && old(skills[skillID].createdAt).None? ==>
        skills[skillID].createdAt == if err.None? then Some(savedAt) else None
    {
      if skillID !in skills {
        return Some(SkillNotFound);
      }
      err := Switch(skills[skillID], false, outage, generated, now, savedAt);
    }

    /** An updated skill keeps the creation time of the one it replaces, and its own status. */
    twostate predicate Replaced(skill: Skill, existing: Skill, savedAt: int)
      reads this, skill
    {
      && metrics == old(metrics)
      && skill.createdAt == (if old(existing.createdAt).None? then Some(savedAt) else old(existing.createdAt))
      && skill.updatedAt == Some(savedAt)
      && skill.status == old(skill.status) && skill.enabled == old(skill.enabled)
    }

    /** A refused update leaves the new skill as it was, unless it got as far as a failing save. */
    twostate predicate NotReplaced(skill: Skill, existing: Skill?, error: SkillError, now: int)
      reads skill
    {
      && skill.id == old(skill.id) && skill.status == old(skill.status) && skill.enabled == old(skill.enabled)
      && if error.StorageUnavailable? && existing != null
         then skill.createdAt == old(existing.createdAt) && skill.updatedAt == Some(now)
         else skill.createdAt == old(skill.createdAt) && skill.updatedAt == old(skill.updatedAt)
    }

    /** Validates the fields, but never asks the resolver about the new dependencies. */
    method UpdateSkill(skill: Skill?, outage: bool, generated: string, now: int, savedAt: int)
      returns (err: Option<SkillError>)
      requires Valid() && generated != ""
      modifies this, storage, skill
      ensures Valid() && (old(Coherent()) ==> Coherent())
      ensures skill != null ==> skill.id == old(skill.id)
      // Which calls succeed, and which error each of the others reports.
      ensures err.None? <==> skill != null && skill.id in old(skills) && old(ValidFields(skill)) && !outage
      ensures err == Some(SkillNotFound) <==> skill != null && skill.id !in old(skills)
      ensures err == Some(SkillInvalid) <==> skill == null || (skill.id in old(skills) && !old(ValidFields(skill)))
      ensures err.Some? ==> err.value.SkillNotFound? || err.value.SkillInvalid? || err.value.StorageUnavailable?
      // The graph, the maps and the skill afterwards.
      ensures skill != null ==>
        Graph() == Step(old(Graph()),
                        Operation.Update(skill.id, skill.Dependencies(), old(ValidFields(skill)), !outage))
      ensures err.Some? ==> Untouched()
      ensures err.Some? && skill != null ==>
        NotReplaced(skill, if skill.id in old(skills) then old(skills)[skill.id] else null, err.value, now)
      ensures err.None? ==> Filed(skill) && Replaced(skill, old(skills)[skill.id], savedAt)
    {
      if skill == null {
        return Some(SkillInvalid);
      }
      assert skill.id in Graph() <==> skill.id in skills;
      err := UpdateExisting(skill, outage, generated, now, savedAt);
    }

    method UpdateExisting(skill: Skill, outage: bool, generated: string, now: int, savedAt: int)
      returns (err: Option<SkillError>)
      requires Valid() && generated != ""
      modifies this, storage, skill
      ensures Valid() && (old(Coherent()) ==> Coherent())
      ensures skill.id == old(skill.id)
      ensures err == Some(SkillNotFound) <==> skill.id !in old(skills)
      ensures err == Some(SkillInvalid) <==> skill.id in old(skills) && !old(ValidFields(skill))
      ensures skill.id in old(skills) && old(ValidFields(skill)) ==>
        if outage then err == Some(StorageUnavailable) else err.None?
      ensures err.None? ==> Filed(skill) && Replaced(skill, old(skills)[skill.id], savedAt)
      ensures err.Some? ==> Untouched()
      ensures err.Some? ==>
        NotReplaced(skill, if skill.id in old(skills) then old(skills)[skill.id] else null, err.value, now)
    {
      err := CheckUpdate(skill);
      if err.None? {
        ValidFieldsNonEmpty(skill);
        err := Replace(skill, outage, generated, now, savedAt);
      }
    }

    /** The checks of UpdateSkill: existence before validity. */
    method CheckUpdate(skill: Skill) returns (err: Option<SkillError>)
      ensures err.None? <==> skill.id in skills && ValidFields(skill)
      ensures err == Some(SkillNotFound) <==> skill.id !in skills
      ensures err == Some(SkillInvalid) <==> skill.id in skills && !ValidFields(skill)
    {
      if skill.id !in skills {
        return Some(SkillNotFound);
      }
      err := validator.ValidateSkill(skill);
    }

    /** What UpdateSkill does with a valid skill. */
    method Replace(skill: Skill, outage: bool, generated: string, now: int, savedAt: int)
      returns (err: Option<SkillError>)
      requires Valid() && generated != "" && skill.name != "" && skill.id in skills
      modifies this, storage, skill
      ensures Valid() && (old(Coherent()) ==> Coherent())
      ensures skill.id == old(skill.id)
      ensures if outage then err == Some(StorageUnavailable) else err.None?
      ensures !outage ==> Filed(skill) && Replaced(skill, old(skills)[skill.id], savedAt)
      ensures outage ==> Untouched() && NotReplaced(skill, old(skills)[skill.id], StorageUnavailable, now)
    {
      Restamp(skill, skills[skill.id], now);
      err := SaveAndFile(skill, outage, generated, savedAt);
    }

    /** One turn of the batch loop: an error other than a duplicate stops it. */
    method RegisterLoaded(skill: Skill, outage: bool, generated: string, now: int, savedAt: int, ghost e: Entry)
      returns (err: Option<SkillError>)
      requires Valid() && generated != ""
      requires e == Entry(skill.id, skill.Dependencies(), ValidFields(skill), !outage)
      modifies this, storage, validator.dependencyResolver, skill
      ensures Valid() && (old(Coherent()) ==> Coherent())
      ensures err.None? <==> Passes(old(Graph()), e)
      ensures Graph() == Step(old(Graph()), AsRegister(e))
      ensures err.Some? ==> Untouched() && TurnedDown(skill, err.value, now)
      ensures err.Some? ==> err == Some(StorageUnavailable) || Refusal(Graph(), skill, err.value)
      ensures err == Some(StorageUnavailable) ==> e.id !in skills
      ensures err.None? && e.id !in old(skills) ==> Filed(skill) && Enrolled(skill, now, savedAt)
      ensures err.None? && e.id in old(skills) ==> Untouched() && skill.State() == old(skill.State())
    {
      err := Register(skill, outage, generated, now, savedAt);
      if err == Some(SkillAlreadyExists) {
        err := None;
      }
    }

    ghost function Now(loaded: seq<Skill>): Snapshot
      reads this, storage, set s | s in loaded
    {
      Snapshot(skills, storage.skills, storage.View(), StatesOf(loaded))
    }

    /** The registration loop over what the loader read (None: the loader itself failed). The first passed
        entries registered or were duplicates; the next one, if any, stopped the loop. The graph ends as Load
        says, new identifiers are filed under their first occurrence, and nobody else's skill is touched. */
    method LoadFromDirectory(listing: Option<seq<Skill>>, outages: seq<bool>, generated: string, now: int, savedAt: int)
      returns (err: Option<SkillError>, ghost passed: nat)
      requires Valid() && generated != ""
      requires listing.Some? ==> |outages| == |listing.value|
      modifies this, storage, validator.dependencyResolver, if listing.Some? then set s | s in listing.value else {}
      ensures Valid() && (old(Coherent()) ==> Coherent())
      ensures listing.None? ==> err == Some(LoadFailed) && Untouched()
      ensures listing.Some? ==>
        var loaded, entries := listing.value, old(EntriesOf(listing.value, outages));
        && Load(old(Graph()), entries) == (Graph(), err.None?)
        && passed <= |loaded| && (err.None? <==> passed == |loaded|)
        && (err.Some? ==> err == Some(StorageUnavailable) || Refusal(Graph(), loaded[passed], err.value))
        && BatchDone(old(Now(listing.value)), Now(loaded), loaded, entries, passed,
                     if err == Some(StorageUnavailable) then Some(loaded[passed]) else None, now, savedAt)
      // So nothing new is active, and what was registered before keeps its place and all its fields.
      ensures forall id :: id in skills && id !in old(skills) ==> !skills[id].IsActive()
      ensures forall id :: id in old(skills) ==>
        id in skills && skills[id] == old(skills)[id] && skills[id].State() == old(skills[id].State())
    {
      passed := 0;
      if listing.None? {
        return Some(LoadFailed), passed;
      }
      var loaded := listing.value;
      ghost var was, entries := Now(loaded), EntriesOf(loaded, outages);
      EntriesMatchStates(loaded, outages);
      err, passed := RegisterAll(loaded, outages, generated, now, savedAt);
      ghost var unsaved := if err == Some(StorageUnavailable) then Some(loaded[passed]) else None;
      BatchOverview(was, Now(loaded), loaded, entries, passed, unsaved, now, savedAt);
      forall id | id in old(skills)
        ensures skills[id].State() == old(skills[id].State())
      {
        assert skills[id] in loaded ==> was.states[skills[id]].id == id;
      }
    }

    method RegisterAll(loaded: seq<Skill>, outages: seq<bool>, generated: string, now: int, savedAt: int)
      returns (err: Option<SkillError>, ghost passed: nat)
      requires Valid() && generated != "" && |outages| == |loaded|
      modifies this, storage, validator.dependencyResolver, set s | s in loaded
      ensures Valid() && (old(Coherent()) ==> Coherent())
      ensures Load(old(Graph()), old(EntriesOf(loaded, outages))) == (Graph(), err.None?)
      ensures passed <= |loaded| && (err.None? <==> passed == |loaded|)
      ensures err.Some? ==> err == Some(StorageUnavailable) || Refusal(Graph(), loaded[passed], err.value)
      ensures BatchDone(old(Now(loaded)), Now(loaded), loaded, old(EntriesOf(loaded, outages)), passed,
                        if err == Some(StorageUnavailable) then Some(loaded[passed]) else None, now, savedAt)
    {
      ghost var was, entries := Now(loaded), EntriesOf(loaded, outages);
      for i := 0 to |loaded|
        invariant Valid() && (old(Coherent()) ==> Coherent())
        invariant Load(old(Graph()), entries) == Load(Graph(), entries[i..])
        invariant BatchDone(was, Now(loaded), loaded, entries, i, None, now, savedAt)
      {
        IdentifierStays(was, Now(loaded), loaded[i], now, savedAt);
        SameValidity(loaded[i]);
        err := RegisterTurn(loaded, i, outages[i], generated, now, savedAt, entries, was);
        if err.Some? {
          return err, i;
        }
      }
      assert entries[|loaded|..] == [];
      err, passed := None, |loaded|;
    }

    method RegisterTurn(loaded: seq<Skill>, i: nat, outage: bool, generated: string, now: int, savedAt: int,
                        ghost entries: seq<Entry>, ghost was: Snapshot)
      returns (err: Option<SkillError>)
      requires Valid() && generated != "" && i < |loaded| == |entries|
      requires var s := loaded[i]; entries[i] == Entry(s.id, s.Dependencies(), ValidFields(s), !outage)
      requires BatchDone(was, Now(loaded), loaded, entries, i, None, now, savedAt)
      requires was.states[loaded[i]].id == loaded[i].id
      modifies this, storage, validator.dependencyResolver, loaded[i]
      ensures Valid() && (old(Coherent()) ==> Coherent())
      ensures loaded[i].id == old(loaded[i].id)
      ensures Load(old(Graph()), entries[i..]) ==
              if err.Some? then (Graph(), false) else Load(Graph(), entries[i + 1..])
      ensures err.Some? ==> err == Some(StorageUnavailable) || Refusal(Graph(), loaded[i], err.value)
      ensures err.Some? ==>
        BatchDone(was, Now(loaded), loaded, entries, i,
                  if err == Some(StorageUnavailable) then Some(loaded[i]) else None, now, savedAt)
      ensures err.None? ==> BatchDone(was, Now(loaded), loaded, entries, i + 1, None, now, savedAt)
    {
      ghost var p := Now(loaded);
      LoadTurn(Graph(), entries, i);
      err := RegisterAt(loaded, i, outage, generated, now, savedAt, entries[i]);
      BatchTurn(was, p, loaded, entries, i, loaded[i].State(), now, savedAt);
      if err == Some(StorageUnavailable) {
        StatesStop(was, p, loaded[i], loaded[i].State(), now, savedAt);
      }
    }

    /** One turn of the loop and all it can change. */
    method RegisterAt(loaded: seq<Skill>, i: nat, outage: bool, generated: string, now: int, savedAt: int,
                      ghost e: Entry)
      returns (err: Option<SkillError>)
      requires Valid() && generated != "" && i < |loaded|
      requires var s := loaded[i]; e == Entry(s.id, s.Dependencies(), ValidFields(s), !outage)
      modifies this, storage, validator.dependencyResolver, loaded[i]
      ensures Valid() && (old(Coherent()) ==> Coherent())
      ensures err.None? <==> Passes(old(Graph()), e)
      ensures Graph() == Step(old(Graph()), AsRegister(e))
      ensures err.Some? ==> err == Some(StorageUnavailable) || Refusal(Graph(), loaded[i], err.value)
      ensures loaded[i].id == e.id
      ensures var s, p := loaded[i], old(Now(loaded));
              if err == Some(StorageUnavailable) then
                && e.id !in p.filed && Now(loaded) == p.(states := p.states[s := s.State()])
                && Prepared(p.states[s], s.State(), now, now)
              else if err.Some? || e.id in p.filed then Now(loaded) == p
              else Now(loaded) == Joined(p, e.id, s, s.State()) && Prepared(p.states[s], s.State(), now, savedAt)
    {
      ghost var p := Now(loaded);
      err := RegisterLoaded(loaded[i], outage, generated, now, savedAt, e);
      assert StatesOf(loaded) == p.states[loaded[i] := loaded[i].State()];
    }

    method FileStored(skill: Skill)
      requires Valid() && skill.id != ""
      modifies this
      ensures Valid() && skills == old(skills)[skill.id := skill]
    {
      skills := skills[skill.id := skill];
      metrics := metrics[skill.id := SkillMetrics(skill.id)];
    }

    /** The locked half of InitializeFromStorage: files every listed skill. The list is a snapshot of the map
        listed, which the storage may have moved on from; a coherent manager stays coherent exactly when every
        listed skill is still the stored one. */
    method MergeListed(list: seq<Skill>, ghost listed: map<string, Skill>)
      requires Valid()
      requires SnapshotOf(list, listed)
      modifies this
      ensures Valid() && skills == old(skills) + listed
      ensures old(skills) == map[] ==> skills == listed && Graph() == GraphOf(listed)
      ensures old(Coherent()) ==>
        (Coherent() <==> forall id :: id in listed ==> id in storage.skills && storage.skills[id] == listed[id])
    {
      ghost var before, done := skills, {};
      for i := 0 to |list|
        invariant Valid() && Copying(before, listed, done, skills)
        invariant forall j :: 0 <= j < i ==> list[j].id in done
      {
        ghost var id := list[i].id;
        assert list[i] in list;
        CopyTurn(before, listed, done, skills, id);
        FileStored(list[i]);
        done := done + {id};
      }
      assert done == listed.Keys by {
        forall id | id in listed
          ensures id in done
        {
          var j :| 0 <= j < |list| && list[j] == listed[id];
        }
      }
      Copied(before, listed, skills);
    }

    /** Both halves with nothing in between; a fresh manager becomes an exact copy of the storage. */
    method InitializeFromStorage(outage: bool) returns (err: Option<SkillError>)
      requires Valid()
      modifies this
      ensures Valid() && (old(Coherent()) ==> Coherent())
      ensures if outage then err == Some(StorageUnavailable) else err.None?
      ensures err.Some? ==> Untouched()
      ensures err.None? ==> skills == old(skills) + storage.skills
      ensures err.None? && old(skills) == map[] ==> skills == storage.skills && Graph() == GraphOf(storage.skills)
    {
      var list;
      err, list := storage.List(outage);
      if err.None? {
        MergeListed(list, storage.skills);
      }
    }

    // ---------- Queries ----------

    /** The registered skills a filter selects. */
    ghost function Selected(f: SkillFilter): set<Skill>
      reads this, skills.Values
    {
      set s | s in skills.Values && Meets(f, s)
    }

    /** A name-sorted permutation of exactly the matching skills, each once. */
    method Filter(f: SkillFilter) returns (result: seq<Skill>)
      requires Valid()
      ensures multiset(result) == multiset(Selected(f))
      ensures SortedBy((s: Skill) => s.name, result)
    {
      var found: seq<Skill> := [];
      var left := skills.Keys;
      ghost var taken: set<Skill> := {};
      while left != {}
        invariant left <= skills.Keys
        invariant Taken(skills.Values, left, f, taken) && multiset(found) == multiset(taken)
      {
        var id :| id in left;
        assert left == (left - {id}) + {id};
        left := left - {id};
        var ok := Matches(f, skills[id]);
        TakenTurn(skills, left, id, f, taken);
        if ok {
          MultisetGrows(found, taken, skills[id]);
          found := found + [skills[id]];
          taken := taken + {skills[id]};
        }
      }
      assert taken == Selected(f);
      SortCorrect((s: Skill) => s.name, found);
      result := Sort((s: Skill) => s.name, found);
    }

    method CountActive() returns (count: nat)
      requires Valid()
      ensures count == |Selected(ACTIVE_FILTER)|
    {
      count := 0;
      var left := skills.Keys;
      ghost var taken: set<Skill> := {};
      while left != {}
        invariant left <= skills.Keys
        invariant Taken(skills.Values, left, ACTIVE_FILTER, taken) && count == |taken|
      {
        var id :| id in left;
        assert left == (left - {id}) + {id};
        left := left - {id};
        TakenTurn(skills, left, id, ACTIVE_FILTER, taken);
        if skills[id].IsActive() {
          count := count + 1;
          taken := taken + {skills[id]};
        }
      }
      assert taken == Selected(ACTIVE_FILTER);
    }

    /** All tags in use, sorted, each once. */
    method GetTags() returns (result: seq<string>)
      ensures forall t :: t in result <==> exists id :: id in skills && t in skills[id].tags
      ensures forall i, j :: 0 <= i < j < |result| ==> StringLess(result[i], result[j])
    {
      var tags: set<string> := {};
      var left := skills.Keys;
      while left != {}
        invariant left <= skills.Keys
        invariant forall t :: t in tags <==> exists id :: id in skills.Keys - left && t in skills[id].tags
      {
        var id :| id in left;
        left := left - {id};
        tags := tags + set t | t in skills[id].tags;
      }
      var list := DrainTags(tags);
      SortCorrect((t: string) => t, list);
      result := Sort((t: string) => t, list);
      SortedDistinct(result, tags);
    }
  }

  method DrainTags(tags: set<string>) returns (list: seq<string>)
    ensures multiset(list) == multiset(tags)
  {
    list := [];
    var left := tags;
    while left != {}
      invariant left <= tags && multiset(list) == multiset(tags - left)
    {
      var t :| t in left;
      left := left - {t};
      list := list + [t];
    }
    assert tags - left == tags;
  }

  lemma TwiceListed(list: seq<string>, i: nat, j: nat)
    requires i < j < |list|
    ensures list[i] == list[j] ==> multiset(list)[list[i]] >= 2
  {
    assert list == list[..i] + [list[i]] + list[i + 1..j] + [list[j]] + list[j + 1..];
  }

  /** A sorted list of distinct strings is strictly increasing. */
  lemma SortedDistinct(list: seq<string>, tags: set<string>)
    requires SortedBy((t: string) => t, list) && multiset(list) == multiset(tags)
    ensures forall t :: t in list <==> t in tags
    ensures forall i, j :: 0 <= i < j < |list| ==> StringLess(list[i], list[j])
  {
    forall t
      ensures t in list <==> t in tags
    {
      assert t in list <==> t in multiset(list);
    }
    forall i, j | 0 <= i < j < |list|
      ensures StringLess(list[i], list[j])
    {
      TwiceListed(list, i, j);
      StringLessTotal(list[i], list[j]);
      assert !StringLess(((t: string) => t)(list[j]), ((t: string) => t)(list[i]));
    }
  }
}
