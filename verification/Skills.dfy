/** The entities of the registry (types.go): skills, their definitions, and the errors
    the operations report. */
module Skills {

  datatype Option<+T> = None | Some(value: T)

  /** The sentinel errors of types.go that the modelled operations return, plus those built on the spot:
      an inactive skill, a refused unregister, an unreadable directory. */
  datatype SkillError =
    | SkillNotFound
    | SkillAlreadyExists
    | SkillInvalid
    | SkillDisabled
    | SkillNotActive
    | SkillTimeout
    | DependencyNotFound(missing: string)
    | CircularDependency(through: string)
    | StillRequired
    | StorageUnavailable
    | LoadFailed

  datatype Parameter = Parameter(name: string, kind: string)

  datatype Definition = Definition(
    parameters: seq<Parameter>,
    dependencies: seq<string>,
    handler: string)

  const STATUS_ACTIVE := "active"
  const STATUS_INACTIVE := "inactive"
  const STATUS_DISABLED := "disabled"

  /** The fields of a skill that the repository assigns. */
  datatype SkillState = SkillState(id: string, status: string, enabled: bool, createdAt: Option<int>,
                                   updatedAt: Option<int>)

  /** A skill record. Skills are shared: the manager's map, the storage's map and the caller hold the
      same object. The fields nobody in the repository assigns after construction are constants,
      so a registered skill's name and dependencies cannot change behind the registry's back. */
  class Skill {
    var id: string
    const name: string
    const description: string
    const version: string
    const category: string
    const triggers: seq<string>
    const tags: seq<string>
    const definition: Option<Definition>
    var status: string
    var enabled: bool
    var createdAt: Option<int> // None is the zero time
    var updatedAt: Option<int>

    constructor (id: string, name: string, description: string, version: string, category: string,
                 triggers: seq<string>, tags: seq<string>, definition: Option<Definition>)
      ensures this.id == id && this.name == name && this.description == description
      ensures this.version == version && this.category == category
      ensures this.triggers == triggers && this.tags == tags && this.definition == definition
      ensures status == "" && !enabled && createdAt.None? && updatedAt.None?
    {
      this.id, this.name, this.description, this.version := id, name, description, version;
      this.category, this.triggers, this.tags, this.definition := category, triggers, tags, definition;
      status, enabled, createdAt, updatedAt := "", false, None, None;
    }

    function State(): SkillState
      reads this
    {
      SkillState(id, status, enabled, createdAt, updatedAt)
    }

    predicate IsActive()
      reads this`enabled, this`status
    {
      enabled && status == STATUS_ACTIVE
    }

    /** The declared dependencies; a skill without a definition has none. */
    function Dependencies(): seq<string> {
      if definition.Some? then definition.value.dependencies else []
    }

    method HasTag(tag: string) returns (found: bool)
      ensures found <==> tag in tags
    {
      for i := 0 to |tags|
        invariant tag !in tags[..i]
      {
        if tags[i] == tag {
          return true;
        }
      }
      return false;
    }
  }
}
