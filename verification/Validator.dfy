/** Field and dependency validation (validator.go). */
module Validator {
  import opened Skills
  import opened Strings
  import opened Regex
  import opened Identifiers
  import opened SemVer
  import opened DependencyGraph
  import opened Resolver
  import opened Registry

  const CATEGORIES := ["code", "data", "devops", "testing", "security", "monitoring", "general"]
  const PARAMETER_KINDS := ["string", "number", "boolean", "array", "object", "integer"]

  predicate Blank(s: string)
    ensures Blank(s) <==> !HasText(s)
  {
    BlankIsAllSpace(s);
    TrimSpace(s) == ""
  }

  // ---------- What a valid skill is ----------

  /** Some character is not white space. */
  predicate HasText(s: string) {
    exists i :: 0 <= i < |s| && !IsSpace(s[i])
  }

  ghost predicate ValidVersion(version: string) {
    version == "" || ValidSemver(version)
  }

  ghost predicate ValidId(id: string) {
    1 <= ByteLength(id) <= 100 && IsIdentifier(id)
  }

  ghost predicate ValidLabels(labels: seq<string>, limit: nat) {
    forall s :: s in labels ==> HasText(s) && ByteLength(s) <= limit
  }

  predicate ValidKind(kind: string) {
    kind in {"", "string", "number", "integer", "boolean", "array", "object"}
  }

  predicate ValidCategory(category: string) {
    category in {"", "code", "data", "devops", "testing", "security", "monitoring", "general"}
  }

  ghost predicate ValidParameters(params: seq<Parameter>) {
    && (forall p :: p in params ==> HasText(p.name) && ValidKind(p.kind))
    && (forall i, j :: 0 <= i < j < |params| ==> params[i].name != params[j].name)
  }

  /** Everything ValidateSkill asks of a skill's fields. */
  ghost predicate ValidFields(skill: Skill)
    reads skill`id
  {
    && HasText(skill.id) && HasText(skill.name) && HasText(skill.description)
    && ValidId(skill.id)
    && 1 <= ByteLength(skill.name) <= 200
    && 10 <= ByteLength(skill.description) <= 5000
    && ValidVersion(skill.version)
    && ValidCategory(skill.category)
    && ValidLabels(skill.triggers, 100)
    && ValidLabels(skill.tags, 50)
    && (skill.definition.Some? ==> ValidParameters(skill.definition.value.parameters))
  }

  /** An accepted skill has an identifier and a name, so no storage call can object to them. */
  lemma ValidFieldsNonEmpty(skill: Skill)
    requires ValidFields(skill)
    ensures skill.id != "" && skill.name != ""
  {
  }

  // ---------- The checks ----------

  predicate ValidateID(id: string)
    ensures ValidateID(id) <==> ValidId(id)
  {
    IdPatternIsScan(id);
    1 <= ByteLength(id) <= 100 && MatchString(ID_PATTERN, id)
  }

  predicate ValidateVersion(version: string)
    ensures ValidateVersion(version) <==> ValidVersion(version)
  {
    PatternIsGrammar(version);
    version == "" || MatchString(VERSION_PATTERN, version)
  }

  /** The empty version is the one accepted string outside the grammar. */
  lemma EmptyVersionNotSemver(version: string)
    ensures ValidateVersion(version) && !ValidSemver(version) <==> version == ""
  {
  }

  method ValidateLabels(labels: seq<string>, limit: nat) returns (ok: bool)
    ensures ok <==> ValidLabels(labels, limit)
  {
    for i := 0 to |labels|
      invariant ValidLabels(labels[..i], limit)
    {
      if Blank(labels[i]) || ByteLength(labels[i]) > limit {
        return false;
      }
    }
    return true;
  }

  method Contained(s: string, list: seq<string>) returns (found: bool)
    ensures found <==> s in list
  {
    for i := 0 to |list|
      invariant s !in list[..i]
    {
      if s == list[i] {
        return true;
      }
    }
    return false;
  }

  method ValidateParameters(params: seq<Parameter>) returns (ok: bool)
    ensures ok <==> ValidParameters(params)
  {
    var names: map<string, bool> := map[];
    for i := 0 to |params|
      invariant ValidParameters(params[..i])
      invariant forall n :: n in names <==> exists j :: 0 <= j < i && params[j].name == n
    {
      var p := params[i];
      assert p in params;
      if Blank(p.name) || p.name in names {
        return false;
      }
      names := names[p.name := true];
      var known := Contained(p.kind, PARAMETER_KINDS);
      if !known && p.kind != "" {
        return false;
      }
      assert params[..i + 1] == params[..i] + [p];
    }
    assert params[..|params|] == params;
    return true;
  }

  predicate MissesDependency(skill: Skill, known: set<string>) {
    exists d :: d in skill.Dependencies() && d !in known
  }

  /** The error reports the first listed dependency that is not known. */
  ghost predicate NamesFirstMissing(error: SkillError, dependencies: seq<string>, known: set<string>) {
    error.DependencyNotFound? && exists i :: FirstMissing(dependencies, known, i) && dependencies[i] == error.missing
  }

  predicate FirstMissing(dependencies: seq<string>, known: set<string>, i: int) {
    0 <= i < |dependencies| && dependencies[i] !in known && forall j :: 0 <= j < i ==> dependencies[j] in known
  }

  class SkillValidator {
    const dependencyResolver: DependencyResolver

    constructor ()
      ensures fresh(dependencyResolver)
    {
      dependencyResolver := new DependencyResolver();
    }

    method ValidateSkill(skill: Skill?) returns (err: Option<SkillError>)
      ensures err.None? <==> skill != null && ValidFields(skill)
      ensures err.Some? ==> err == Some(SkillInvalid)
    {
      if skill == null {
        return Some(SkillInvalid);
      }
      if Blank(skill.id) || Blank(skill.name) || Blank(skill.description) {
        return Some(SkillInvalid);
      }
      if !ValidateID(skill.id) {
        return Some(SkillInvalid);
      }
      if ByteLength(skill.name) < 1 || ByteLength(skill.name) > 200 {
        return Some(SkillInvalid);
      }
      if ByteLength(skill.description) < 10 || ByteLength(skill.description) > 5000 {
        return Some(SkillInvalid);
      }
      if !ValidateVersion(skill.version) {
        return Some(SkillInvalid);
      }
      var known := Contained(skill.category, CATEGORIES);
      if skill.category != "" && !known {
        return Some(SkillInvalid);
      }
      var ok := ValidateLabels(skill.triggers, 100);
      if !ok {
        return Some(SkillInvalid);
      }
      ok := ValidateLabels(skill.tags, 50);
      if !ok {
        return Some(SkillInvalid);
      }
      if skill.definition.Some? {
        ok := ValidateParameters(skill.definition.value.parameters);
        if !ok {
          return Some(SkillInvalid);
        }
      }
      return None;
    }

    /** Exact for every skill map, whether or not it is closed or acyclic. */
    method ValidateSkillDependencies(skill: Skill, available: map<string, Skill>) returns (err: Option<SkillError>)
      modifies dependencyResolver
      ensures err.None? <==> DependenciesAccepted(GraphOf(available), skill.id, skill.Dependencies())
      ensures err.Some? ==> Explains(Extended(GraphOf(available), skill.id, skill.Dependencies()),
                                     available.Keys, skill.id, err.value)
      ensures MissesDependency(skill, available.Keys) ==>
                err.Some? && NamesFirstMissing(err.value, skill.Dependencies(), available.Keys)
    {
      var dependencies := skill.Dependencies();
      if dependencies == [] {
        return None;
      }
      ghost var g := Extended(GraphOf(available), skill.id, dependencies);
      dependencyResolver.Reset();
      for i := 0 to |dependencies|
        invariant forall j :: 0 <= j < i ==> dependencies[j] in available
        invariant dependencyResolver.visited == map[] && dependencyResolver.stack == map[]
      {
        var depID := dependencies[i];
        if depID !in available {
          assert Edge(g, skill.id, depID) && FirstMissing(dependencies, available.Keys, i);
          EdgeReaches(g, skill.id, depID);
          return Some(DependencyNotFound(depID));
        }
      }
      ghost var calls;
      err, calls := dependencyResolver.DetectCycleFromReset(skill.id, dependencies, available);
    }
  }
}
