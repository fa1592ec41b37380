/**
 * The system configuration of lib/config.ts (`data/config.json`): the
 * project registry, the active project and the defaults, with the
 * operations that change them in place.
 */
module Config {
  import opened Wrappers
  import VibePrompt

  /** `ProjectMeta`. */
  datatype ProjectMeta = ProjectMeta(id: string, name: string, description: Option<string>, createdAt: string)

  /** `SystemConfig.defaults`. */
  datatype Defaults = Defaults(outputMode: VibePrompt.OutputMode, model: string)

  /** The content of `config.json`. */
  datatype ConfigValue = ConfigValue(
    version: string,
    activeProject: string,
    defaults: Defaults,
    projects: seq<ProjectMeta>)

  /** `Partial<SystemConfig>`: the top-level keys an update carries. */
  datatype ConfigUpdate = ConfigUpdate(
    version: Option<string>,
    activeProject: Option<string>,
    defaults: Option<Defaults>,
    projects: Option<seq<ProjectMeta>>)

  const DefaultProjectId: string := "default"

  /** `DEFAULT_CONFIG`, with the creation time it is given. */
  function DefaultConfig(createdAt: string): (c: ConfigValue)
    ensures Consistent(c)
  {
    var c := ConfigValue("1.0.0", DefaultProjectId, Defaults(VibePrompt.Prompt, "gpt-4o-mini"),
                         [ProjectMeta(DefaultProjectId, "Default Project", Some(""), createdAt)]);
    assert c.projects[0].id == DefaultProjectId;
    c
  }

  /** `projects.some((p) => p.id === id)`. */
  predicate HasProject(projects: seq<ProjectMeta>, id: string) {
    exists i :: 0 <= i < |projects| && projects[i].id == id
  }

  /** No two entries share an id. */
  predicate UniqueIds(projects: seq<ProjectMeta>) {
    forall i, j :: 0 <= i < j < |projects| ==> projects[i].id != projects[j].id
  }

  /**
   * The registry invariant the operations keep: ids are unique, the default
   * project is registered and the active project is a registered one.
   */
  predicate Consistent(c: ConfigValue) {
    UniqueIds(c.projects) && HasProject(c.projects, DefaultProjectId) && HasProject(c.projects, c.activeProject)
  }

  /** `projects.filter((p) => p.id !== id)`. */
  function RemoveId(projects: seq<ProjectMeta>, id: string): (r: seq<ProjectMeta>)
    ensures |r| <= |projects|
  {
    if projects == [] then []
    else if projects[0].id == id then RemoveId(projects[1..], id)
    else [projects[0]] + RemoveId(projects[1..], id)
  }

  /** The entries left are exactly the entries with another id. */
  lemma {:induction false} RemoveIdMembers(projects: seq<ProjectMeta>, id: string, p: ProjectMeta)
    ensures p in RemoveId(projects, id) <==> p in projects && p.id != id
  {
    if projects != [] {
      RemoveIdMembers(projects[1..], id, p);
      assert projects == [projects[0]] + projects[1..];
    }
  }

  /** Filtering keeps order: it distributes over concatenation. */
  lemma {:induction false} RemoveIdConcat(xs: seq<ProjectMeta>, ys: seq<ProjectMeta>, id: string)
    ensures RemoveId(xs + ys, id) == RemoveId(xs, id) + RemoveId(ys, id)
  {
    if xs != [] {
      assert (xs + ys)[1..] == xs[1..] + ys;
      RemoveIdConcat(xs[1..], ys, id);
    } else {
      assert xs + ys == ys;
    }
  }

  /** Removing an id that is not there leaves the list as it was. */
  lemma {:induction false} RemoveAbsentId(projects: seq<ProjectMeta>, id: string)
    requires !HasProject(projects, id)
    ensures RemoveId(projects, id) == projects
  {
    if projects != [] {
      assert projects[0].id != id;
      assert !HasProject(projects[1..], id) by {
        forall i | 0 <= i < |projects[1..]| ensures projects[1..][i].id != id {
          assert projects[1..][i] == projects[i + 1];
        }
      }
      RemoveAbsentId(projects[1..], id);
      assert projects == [projects[0]] + projects[1..];
    }
  }

  /** An id is registered after the removal exactly when it was before and is not the removed one. */
  lemma HasProjectAfterRemove(projects: seq<ProjectMeta>, id: string, other: string)
    ensures HasProject(RemoveId(projects, id), other) <==> HasProject(projects, other) && other != id
  {
    var r := RemoveId(projects, id);
    if HasProject(r, other) {
      var i :| 0 <= i < |r| && r[i].id == other;
      RemoveIdMembers(projects, id, r[i]);
      var j :| 0 <= j < |projects| && projects[j] == r[i];
    }
    if HasProject(projects, other) && other != id {
      var j :| 0 <= j < |projects| && projects[j].id == other;
      RemoveIdMembers(projects, id, projects[j]);
      var i :| 0 <= i < |r| && r[i] == projects[j];
    }
  }

  /** Removal keeps ids unique. */
  lemma {:induction false} RemoveIdUnique(projects: seq<ProjectMeta>, id: string)
    requires UniqueIds(projects)
    ensures UniqueIds(RemoveId(projects, id))
  {
    if projects != [] {
      var rest := projects[1..];
      assert UniqueIds(rest) by {
        forall i, j | 0 <= i < j < |rest| ensures rest[i].id != rest[j].id {
          assert rest[i] == projects[i + 1] && rest[j] == projects[j + 1];
        }
      }
      RemoveIdUnique(rest, id);
      if projects[0].id != id {
        var r := RemoveId(rest, id);
        forall j | 0 <= j < |r| ensures r[j].id != projects[0].id {
          RemoveIdMembers(rest, id, r[j]);
          var k :| 0 <= k < |rest| && rest[k] == r[j];
          assert rest[k] == projects[k + 1];
        }
      }
    }
  }

  /** `addProjectMeta` on the configuration: fails on a registered id, else appends. */
  function AddProject(c: ConfigValue, meta: ProjectMeta): (r: Result<ConfigValue>)
  {
    if HasProject(c.projects, meta.id) then Err("Project already exists: " + meta.id)
    else Ok(c.(projects := c.projects + [meta]))
  }

  /**
   * Adding fails exactly on a registered id; otherwise the new entry is
   * last, the earlier ones are unchanged, nothing else changes and the
   * invariant is kept.
   */
  lemma AddProjectSpec(c: ConfigValue, meta: ProjectMeta)
    ensures AddProject(c, meta).Err? <==> HasProject(c.projects, meta.id)
    ensures AddProject(c, meta).Ok? ==>
      var n := AddProject(c, meta).value;
      |n.projects| == |c.projects| + 1 && n.projects[..|c.projects|] == c.projects
      && n.projects[|c.projects|] == meta
      && n.version == c.version && n.activeProject == c.activeProject && n.defaults == c.defaults
      && HasProject(n.projects, meta.id)
    ensures AddProject(c, meta).Ok? && UniqueIds(c.projects) ==> UniqueIds(AddProject(c, meta).value.projects)
    ensures AddProject(c, meta).Ok? && Consistent(c) ==> Consistent(AddProject(c, meta).value)
  {
    if !HasProject(c.projects, meta.id) {
      var ps := c.projects + [meta];
      assert ps[|c.projects|] == meta;
      forall id | HasProject(c.projects, id) ensures HasProject(ps, id) {
        var i :| 0 <= i < |c.projects| && c.projects[i].id == id;
        assert ps[i] == c.projects[i];
      }
      if UniqueIds(c.projects) {
        forall i, j | 0 <= i < j < |ps| ensures ps[i].id != ps[j].id {
          if j == |c.projects| {
            assert ps[i] == c.projects[i];
          } else {
            assert ps[i] == c.projects[i] && ps[j] == c.projects[j];
          }
        }
      }
    }
  }

  /** `removeProjectMeta` on the configuration. */
  function RemoveProject(c: ConfigValue, id: string): (r: Result<ConfigValue>)
  {
    if id == DefaultProjectId then Err("Cannot delete default project")
    else Ok(c.(projects := RemoveId(c.projects, id),
               activeProject := if c.activeProject == id then DefaultProjectId else c.activeProject))
  }

  /**
   * Removing the default project fails; any other removal drops every entry
   * with that id, resets the active project to the default when it was the
   * removed one, and keeps the invariant.
   */
  lemma RemoveProjectSpec(c: ConfigValue, id: string)
    ensures RemoveProject(c, id).Err? <==> id == DefaultProjectId
    ensures RemoveProject(c, id).Ok? ==>
      !HasProject(RemoveProject(c, id).value.projects, id)
      && (forall other :: other != id ==>
            (HasProject(RemoveProject(c, id).value.projects, other) <==> HasProject(c.projects, other)))
      && RemoveProject(c, id).value.activeProject == (if c.activeProject == id then DefaultProjectId else c.activeProject)
    ensures RemoveProject(c, id).Ok? && Consistent(c) ==> Consistent(RemoveProject(c, id).value)
  {
    if id != DefaultProjectId {
      HasProjectAfterRemove(c.projects, id, id);
      forall other | other != id
        ensures HasProject(RemoveId(c.projects, id), other) <==> HasProject(c.projects, other)
      {
        HasProjectAfterRemove(c.projects, id, other);
      }
      if Consistent(c) {
        RemoveIdUnique(c.projects, id);
        HasProjectAfterRemove(c.projects, id, DefaultProjectId);
        HasProjectAfterRemove(c.projects, id, c.activeProject);
      }
    }
  }

  /** `setActiveProject` on the configuration. */
  function SetActive(c: ConfigValue, id: string): (r: Result<ConfigValue>)
  {
    if !HasProject(c.projects, id) then Err("Project not found: " + id)
    else Ok(c.(activeProject := id))
  }

  /** Activation fails exactly on an unregistered id; otherwise only the active project changes, and the invariant is kept. */
  lemma SetActiveSpec(c: ConfigValue, id: string)
    ensures SetActive(c, id).Err? <==> !HasProject(c.projects, id)
    ensures SetActive(c, id).Ok? ==>
      SetActive(c, id).value.activeProject == id
      && SetActive(c, id).value.projects == c.projects
      && SetActive(c, id).value.version == c.version && SetActive(c, id).value.defaults == c.defaults
    ensures SetActive(c, id).Ok? && Consistent(c) ==> Consistent(SetActive(c, id).value)
  {
  }

  /** `{ ...current, ...updates }`. */
  function Merge(c: ConfigValue, u: ConfigUpdate): (r: ConfigValue)
    ensures u.version.Some? ==> r.version == u.version.value
    ensures u.version.None? ==> r.version == c.version
    ensures u.activeProject.Some? ==> r.activeProject == u.activeProject.value
    ensures u.activeProject.None? ==> r.activeProject == c.activeProject
    ensures u.defaults.Some? ==> r.defaults == u.defaults.value
    ensures u.defaults.None? ==> r.defaults == c.defaults
    ensures u.projects.Some? ==> r.projects == u.projects.value
    ensures u.projects.None? ==> r.projects == c.projects
  {
    ConfigValue(
      if u.version.Some? then u.version.value else c.version,
      if u.activeProject.Some? then u.activeProject.value else c.activeProject,
      if u.defaults.Some? then u.defaults.value else c.defaults,
      if u.projects.Some? then u.projects.value else c.projects)
  }

  /** Two updates in a row: the later key wins. */
  function Then(u1: ConfigUpdate, u2: ConfigUpdate): ConfigUpdate {
    ConfigUpdate(
      if u2.version.Some? then u2.version else u1.version,
      if u2.activeProject.Some? then u2.activeProject else u1.activeProject,
      if u2.defaults.Some? then u2.defaults else u1.defaults,
      if u2.projects.Some? then u2.projects else u1.projects)
  }

  /** Merging twice is merging once with the combined update, and merging the same update again changes nothing. */
  lemma MergeTwice(c: ConfigValue, u1: ConfigUpdate, u2: ConfigUpdate)
    ensures Merge(Merge(c, u1), u2) == Merge(c, Then(u1, u2))
    ensures Merge(Merge(c, u1), u1) == Merge(c, u1)
  {
  }

  /** An update without the registry keys keeps the invariant. */
  lemma MergeKeepsConsistent(c: ConfigValue, u: ConfigUpdate)
    requires Consistent(c) && u.projects.None? && u.activeProject.None?
    ensures Consistent(Merge(c, u))
  {
  }

  /** The configuration object, changed in place by the operations. */
  class SystemConfig {
    var version: string
    var activeProject: string
    var defaults: Defaults
    var projects: seq<ProjectMeta>

    /** The configuration as stored. */
    function Value(): ConfigValue
      reads this
    {
      ConfigValue(version, activeProject, defaults, projects)
    }

    /** `getConfig()` when `config.json` is missing: the defaults. */
    constructor Default(createdAt: string)
      ensures Value() == DefaultConfig(createdAt) && Consistent(Value())
    {
      var c := DefaultConfig(createdAt);
      version, activeProject, defaults, projects := c.version, c.activeProject, c.defaults, c.projects;
    }

    /** A configuration read from `config.json`. */
    constructor FromValue(c: ConfigValue)
      ensures Value() == c
    {
      version, activeProject, defaults, projects := c.version, c.activeProject, c.defaults, c.projects;
    }

    /** `addProjectMeta(project)`: `projects.push` unless the id is taken. */
    method AddProjectMeta(meta: ProjectMeta) returns (r: Outcome)
      modifies this
      ensures AddProject(old(Value()), meta).Err? ==> r == Failed(AddProject(old(Value()), meta).message) && Value() == old(Value())
      ensures AddProject(old(Value()), meta).Ok? ==> r == Done && Value() == AddProject(old(Value()), meta).value
      ensures old(Consistent(Value())) ==> Consistent(Value())
    {
      AddProjectSpec(Value(), meta);
      if HasProject(projects, meta.id) {
        return Failed("Project already exists: " + meta.id);
      }
      projects := projects + [meta];
      r := Done;
    }

    /** `removeProjectMeta(projectId)`. */
    method RemoveProjectMeta(id: string) returns (r: Outcome)
      modifies this
      ensures RemoveProject(old(Value()), id).Err? ==> r == Failed(RemoveProject(old(Value()), id).message) && Value() == old(Value())
      ensures RemoveProject(old(Value()), id).Ok? ==> r == Done && Value() == RemoveProject(old(Value()), id).value
      ensures old(Consistent(Value())) ==> Consistent(Value())
    {
      RemoveProjectSpec(Value(), id);
      if id == DefaultProjectId {
        return Failed("Cannot delete default project");
      }
      projects := RemoveId(projects, id);
      if activeProject == id {
        activeProject := DefaultProjectId;
      }
      r := Done;
    }

    /** `setActiveProject(projectId)`. */
    method SetActiveProject(id: string) returns (r: Outcome)
      modifies this
      ensures SetActive(old(Value()), id).Err? ==> r == Failed(SetActive(old(Value()), id).message) && Value() == old(Value())
      ensures SetActive(old(Value()), id).Ok? ==> r == Done && Value() == SetActive(old(Value()), id).value
      ensures old(Consistent(Value())) ==> Consistent(Value())
    {
      SetActiveSpec(Value(), id);
      if !HasProject(projects, id) {
        return Failed("Project not found: " + id);
      }
      activeProject := id;
      r := Done;
    }

    /** `updateConfig(updates)`: the shallow merge, stored and returned. */
    method UpdateConfig(u: ConfigUpdate) returns (updated: ConfigValue)
      modifies this
      ensures Value() == Merge(old(Value()), u) && updated == Value()
    {
      updated := Merge(Value(), u);
      version, activeProject, defaults, projects := updated.version, updated.activeProject, updated.defaults, updated.projects;
    }
  }
}
