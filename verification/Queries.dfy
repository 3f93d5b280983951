/** Filtering, searching and sorting (types.go, manager.go). */
module Queries {
  import opened Skills
  import opened Strings

  /** Recursive substring search: no slice is ever out of range, and the answer is an occurrence. */
  predicate Contains(s: string, sub: string)
    ensures Contains(s, sub) <==> exists i: nat :: OccursAt(s, sub, i)
    decreases |s|
  {
    ContainsStep(s, sub);
    |s| >= |sub| && (s == sub || |sub| == 0 || s[..|sub|] == sub || Contains(s[1..], sub))
  }

  /** An occurrence is at the front, or it is one in the tail. */
  lemma ContainsStep(s: string, sub: string)
    ensures (exists i: nat :: OccursAt(s, sub, i)) <==>
            OccursAt(s, sub, 0) || (s != [] && exists i: nat :: OccursAt(s[1..], sub, i))
  {
    if i: nat :| OccursAt(s, sub, i) {
      if i > 0 {
        assert s[1..][i - 1..i - 1 + |sub|] == s[i..i + |sub|];
        assert OccursAt(s[1..], sub, i - 1);
      }
    }
    if s != [] {
      if i: nat :| OccursAt(s[1..], sub, i) {
        assert s[1..][i..i + |sub|] == s[i + 1..i + 1 + |sub|];
        assert OccursAt(s, sub, i + 1);
      }
    }
  }

  datatype SkillFilter = SkillFilter(
    category: string, status: string, tags: seq<string>, searchQuery: string, enabled: Option<bool>)

  const ACTIVE_FILTER := SkillFilter("", STATUS_ACTIVE, [], "", Some(true))

  /** What it means for a skill to match: every criterion given holds. */
  ghost predicate Meets(f: SkillFilter, skill: Skill)
    reads skill`status, skill`enabled
  {
    && (f.category != "" ==> skill.category == f.category)
    && (f.status != "" ==> skill.status == f.status)
    && (f.enabled.Some? ==> skill.enabled == f.enabled.value)
    && (f.tags != [] ==> exists t :: t in f.tags && t in skill.tags)
    && (f.searchQuery != "" ==>
          exists i: nat :: OccursAt(skill.name, f.searchQuery, i) || OccursAt(skill.description, f.searchQuery, i))
  }

  method Matches(f: SkillFilter, skill: Skill) returns (ok: bool)
    ensures ok <==> Meets(f, skill)
  {
    if f.category != "" && skill.category != f.category {
      return false;
    }
    if f.status != "" && skill.status != f.status {
      return false;
    }
    if f.enabled.Some? && skill.enabled != f.enabled.value {
      return false;
    }
    if |f.tags| > 0 {
      var hasTag := false;
      for i := 0 to |f.tags|
        invariant !hasTag
        invariant forall t :: t in f.tags[..i] ==> t !in skill.tags
      {
        hasTag := skill.HasTag(f.tags[i]);
        if hasTag {
          break;
        }
      }
      if !hasTag {
        return false;
      }
    }
    if f.searchQuery != "" {
      var query := f.searchQuery;
      if !(Contains(skill.name, query) || Contains(skill.description, query)) {
        return false;
      }
    }
    return true;
  }

  // ---------- Sorting by a string key ----------

  predicate SortedBy<T>(key: T -> string, list: seq<T>) {
    forall i, j :: 0 <= i < j < |list| ==> !StringLess(key(list[j]), key(list[i]))
  }

  function Insert<T>(key: T -> string, x: T, list: seq<T>): seq<T> {
    if list == [] || !StringLess(key(list[0]), key(x)) then [x] + list
    else [list[0]] + Insert(key, x, list[1..])
  }

  /** sort.Slice by a key: some sorted rearrangement. */
  function Sort<T>(key: T -> string, list: seq<T>): seq<T> {
    if list == [] then [] else Insert(key, list[0], Sort(key, list[1..]))
  }

  /** The front of a sorted list is a lower bound, and so is any key not above it. */
  lemma LowerBound<T>(key: T -> string, x: T, list: seq<T>, j: nat)
    requires SortedBy(key, list) && j < |list| && !StringLess(key(list[0]), key(x))
    ensures !StringLess(key(list[j]), key(x))
  {
    StringLessTotal(key(list[0]), key(x));
    if StringLess(key(list[j]), key(x)) && key(x) != key(list[0]) {
      StringLessTransitive(key(list[j]), key(x), key(list[0]));
    }
  }

  lemma {:induction false} InsertCorrect<T>(key: T -> string, x: T, list: seq<T>)
    requires SortedBy(key, list)
    ensures SortedBy(key, Insert(key, x, list))
    ensures multiset(Insert(key, x, list)) == multiset{x} + multiset(list)
    decreases |list|
  {
    if list == [] || !StringLess(key(list[0]), key(x)) {
      forall j | 0 <= j < |list|
        ensures !StringLess(key(list[j]), key(x))
      {
        LowerBound(key, x, list, j);
      }
    } else {
      var rest := Insert(key, x, list[1..]);
      InsertCorrect(key, x, list[1..]);
      assert list == [list[0]] + list[1..];
      StringLessTotal(key(list[0]), key(x));
      forall y | y in rest
        ensures !StringLess(key(y), key(list[0]))
      {
        assert y in multiset(rest);
        assert y == x || y in list[1..];
      }
    }
  }

  lemma {:induction false} SortCorrect<T>(key: T -> string, list: seq<T>)
    ensures SortedBy(key, Sort(key, list)) && multiset(Sort(key, list)) == multiset(list)
    decreases |list|
  {
    if list != [] {
      SortCorrect(key, list[1..]);
      InsertCorrect(key, list[0], Sort(key, list[1..]));
      assert list == [list[0]] + list[1..];
    }
  }
}
