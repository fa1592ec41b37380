/**
 * The agent operations of lib/agent.ts that read and change the stored
 * agent files: get, create, update, delete and the two listings. The agent
 * files are a map from (project id, agent id) to Markdown; the path
 * functions of module Agents show that distinct keys are distinct files.
 */
module AgentStore {
  import opened Wrappers
  import opened Text
  import opened Agents

  /** The key of an agent file: its project and its id. */
  type Key = (string, string)

  /** A character `[a-z0-9.-]` accepts. */
  predicate IsAgentIdChar(c: char) {
    ('a' <= c <= 'z') || ('0' <= c <= '9') || c == '.' || c == '-'
  }

  /** `/^[a-z0-9.-]+$/.test(id)`. */
  predicate ValidAgentId(id: string) {
    id != [] && forall i :: 0 <= i < |id| ==> IsAgentIdChar(id[i])
  }

  const InvalidAgentId: string := "Agent ID must be lowercase alphanumeric with dots and hyphens only"

  /** `getAgent(agentId, projectId)` on the files: the parsed file, or the error when there is none. */
  function GetAgentIn(files: map<Key, string>, agentId: string, projectId: string): (r: Result<Agent>)
    ensures r.Ok? <==> (projectId, agentId) in files
    ensures r.Ok? ==> r.value == ParseAgent(agentId, files[(projectId, agentId)])
    ensures r.Err? ==> r.message == "Agent not found: " + agentId
  {
    if (projectId, agentId) in files then Ok(ParseAgent(agentId, files[(projectId, agentId)]))
    else Err("Agent not found: " + agentId)
  }

  /** A file name `listAgents` takes: one that ends with `.md`. */
  predicate IsAgentFile(name: string) {
    |name| >= 3 && name[|name| - 3..] == ".md"
  }

  /** `file.replace(/\.md$/, "")` on a name that ends with `.md`. */
  function AgentIdOf(name: string): (id: string)
    requires IsAgentFile(name)
    ensures id + ".md" == name
  {
    name[..|name| - 3]
  }

  /** `listAgentIds`: the ids of the `.md` entries of the listing, in listing order; none when the listing fails. */
  function AgentIds(listing: Option<seq<string>>): (ids: seq<string>)
    ensures listing.None? ==> ids == []
    ensures listing.Some? ==> ids == AgentIdsOf(listing.value)
  {
    match listing
    case None => []
    case Some(names) => AgentIdsOf(names)
  }

  /** The ids of the `.md` names, in order. */
  function AgentIdsOf(names: seq<string>): (ids: seq<string>)
    ensures |ids| <= |names|
    ensures forall id :: id in ids ==> id + ".md" in names
  {
    if names == [] then []
    else
      var init := AgentIdsOf(names[..|names| - 1]);
      var last := names[|names| - 1];
      assert forall id :: id in init ==> id + ".md" in names[..|names| - 1];
      if IsAgentFile(last) then init + [AgentIdOf(last)] else init
  }

  /** Every `.md` name gives an id. */
  lemma {:induction false} AgentIdsComplete(names: seq<string>, k: nat)
    requires k < |names| && IsAgentFile(names[k])
    ensures AgentIdOf(names[k]) in AgentIdsOf(names)
    decreases |names|
  {
    if k < |names| - 1 {
      AgentIdsComplete(names[..|names| - 1], k);
    }
  }

  /**
   * What the loop of `listAgents` reaches over `names`: the agents of the
   * `.md` names in order, or `None` once one of them cannot be read.
   */
  function ListedAgents(files: map<Key, string>, projectId: string, names: seq<string>): (r: Option<seq<Agent>>)
  {
    if names == [] then Some([])
    else
      match ListedAgents(files, projectId, names[..|names| - 1])
      case None => None
      case Some(acc) =>
        var last := names[|names| - 1];
        if !IsAgentFile(last) then Some(acc)
        else if (projectId, AgentIdOf(last)) in files then
          Some(acc + [ParseAgent(AgentIdOf(last), files[(projectId, AgentIdOf(last))])])
        else None
  }

  /**
   * A listing that succeeds holds one agent per `.md` name, in order, and
   * each is what `getAgent` gives for its id.
   */
  lemma {:induction false} ListedAgentsAreStored(files: map<Key, string>, projectId: string, names: seq<string>)
    requires ListedAgents(files, projectId, names).Some?
    ensures |ListedAgents(files, projectId, names).value| == |AgentIdsOf(names)|
    ensures forall k :: 0 <= k < |AgentIdsOf(names)| ==>
      ListedAgents(files, projectId, names).value[k].id == AgentIdsOf(names)[k]
      && GetAgentIn(files, AgentIdsOf(names)[k], projectId) == Ok(ListedAgents(files, projectId, names).value[k])
    decreases |names|
  {
    if names != [] {
      ListedAgentsAreStored(files, projectId, names[..|names| - 1]);
    }
  }

  /** A listing fails exactly when some `.md` name has no file behind it. */
  lemma {:induction false} ListedAgentsFail(files: map<Key, string>, projectId: string, names: seq<string>)
    ensures ListedAgents(files, projectId, names).None?
        <==> exists k :: 0 <= k < |names| && IsAgentFile(names[k]) && (projectId, AgentIdOf(names[k])) !in files
    decreases |names|
  {
    if names != [] {
      var init := names[..|names| - 1];
      ListedAgentsFail(files, projectId, init);
      if exists k :: 0 <= k < |init| && IsAgentFile(init[k]) && (projectId, AgentIdOf(init[k])) !in files {
        var k :| 0 <= k < |init| && IsAgentFile(init[k]) && (projectId, AgentIdOf(init[k])) !in files;
        assert names[k] == init[k];
      }
      if exists k :: 0 <= k < |names| && IsAgentFile(names[k]) && (projectId, AgentIdOf(names[k])) !in files {
        var k :| 0 <= k < |names| && IsAgentFile(names[k]) && (projectId, AgentIdOf(names[k])) !in files;
        if k < |init| { assert init[k] == names[k]; }
      }
    }
  }

  /** The agent files, updated in place by the operations. */
  class Store {
    var files: map<Key, string>

    /** An empty data directory. */
    constructor()
      ensures files == map[]
    {
      files := map[];
    }

    /** `getAgent(agentId, projectId)`, the project defaulting to the active one. */
    function GetAgent(agentId: string, projectId: Option<string>, activeProject: string): Result<Agent>
      reads this
    {
      GetAgentIn(files, agentId, TargetProject(projectId, activeProject))
    }

    /**
     * `createAgent(input)`: rejects a malformed id, then an id already in
     * the project; otherwise writes the generated file and returns it read
     * back.
     */
    method CreateAgent(input: CreateAgentInput, activeProject: string) returns (r: Result<Agent>)
      modifies this
      ensures !ValidAgentId(input.id) ==> r == Err(InvalidAgentId) && files == old(files)
      ensures ValidAgentId(input.id) && (TargetProject(input.projectId, activeProject), input.id) in old(files)
        ==> r == Err("Agent already exists: " + input.id) && files == old(files)
      ensures ValidAgentId(input.id) && (TargetProject(input.projectId, activeProject), input.id) !in old(files)
        ==> files == old(files)[(TargetProject(input.projectId, activeProject), input.id) :=
                   GenerateAgentMd(input.name, input.role, input.designDecisions, input.constraints, input.promptBlueprint)]
            && r == Ok(ParseAgent(input.id, files[(TargetProject(input.projectId, activeProject), input.id)]))
      ensures r.Ok? ==> GetAgent(input.id, input.projectId, activeProject) == r
    {
      var project := TargetProject(input.projectId, activeProject);
      if !ValidAgentId(input.id) {
        return Err(InvalidAgentId);
      }
      var key := (project, input.id);
      if key in files {
        return Err("Agent already exists: " + input.id);
      }
      var content := GenerateAgentMd(input.name, input.role, input.designDecisions, input.constraints, input.promptBlueprint);
      files := files[key := content];
      r := Ok(ParseAgent(input.id, content));
    }

    /**
     * `updateAgent(agentId, input, projectId)`: fails when the agent is
     * missing; otherwise writes the merged record's file and returns the
     * merged record.
     */
    method UpdateAgent(agentId: string, input: UpdateAgentInput, projectId: Option<string>, activeProject: string)
      returns (r: Result<Agent>)
      modifies this
      ensures old(GetAgent(agentId, projectId, activeProject)).Err?
        ==> r == Err("Agent not found: " + agentId) && files == old(files)
      ensures old(GetAgent(agentId, projectId, activeProject)).Ok?
        ==> r == Ok(MergeAgent(old(GetAgent(agentId, projectId, activeProject)).value, input))
            && files == old(files)[(TargetProject(projectId, activeProject), agentId) := r.value.raw]
      ensures r.Ok? ==> r.value.id == agentId
                        && GetAgent(agentId, projectId, activeProject) == Ok(ParseAgent(agentId, r.value.raw))
    {
      var found := GetAgent(agentId, projectId, activeProject);
      if found.Err? {
        return Err(found.message);
      }
      var updated := MergeAgent(found.value, input);
      files := files[(TargetProject(projectId, activeProject), agentId) := updated.raw];
      r := Ok(updated);
    }

    /** `deleteAgent(agentId, projectId)`: removes the file, or fails when there is none. */
    method DeleteAgent(agentId: string, projectId: Option<string>, activeProject: string) returns (r: Outcome)
      modifies this
      ensures (TargetProject(projectId, activeProject), agentId) !in old(files)
        ==> r == Failed("Agent not found: " + agentId) && files == old(files)
      ensures (TargetProject(projectId, activeProject), agentId) in old(files)
        ==> r == Done && files == old(files) - {(TargetProject(projectId, activeProject), agentId)}
      ensures GetAgent(agentId, projectId, activeProject).Err?
    {
      var key := (TargetProject(projectId, activeProject), agentId);
      if key !in files {
        return Failed("Agent not found: " + agentId);
      }
      files := files - {key};
      r := Done;
    }

    /**
     * `listAgents(projectId)`: walks the directory listing (`None` when it
     * cannot be read) and parses every `.md` file; any failure gives `[]`.
     */
    method ListAgents(projectId: Option<string>, activeProject: string, listing: Option<seq<string>>)
      returns (agents: seq<Agent>)
      ensures listing.None? ==> agents == []
      ensures listing.Some? && ListedAgents(files, TargetProject(projectId, activeProject), listing.value).None?
        ==> agents == []
      ensures listing.Some? && ListedAgents(files, TargetProject(projectId, activeProject), listing.value).Some?
        ==> agents == ListedAgents(files, TargetProject(projectId, activeProject), listing.value).value
    {
      if listing.None? {
        return [];
      }
      var names := listing.value;
      var project := TargetProject(projectId, activeProject);
      agents := [];
      var i := 0;
      while i < |names|
        invariant 0 <= i <= |names|
        invariant ListedAgents(files, project, names[..i]) == Some(agents)
      {
        var file := names[i];
        assert names[..i + 1][..i] == names[..i];
        if IsAgentFile(file) {
          var id := AgentIdOf(file);
          if (project, id) !in files {
            assert ListedAgents(files, project, names[..i + 1]).None?;
            ListedAgentsStayFailed(files, project, names, i + 1);
            return [];
          }
          agents := agents + [ParseAgent(id, files[(project, id)])];
        }
        i := i + 1;
      }
      assert names[..i] == names;
    }
  }

  /** Once the listing fails on a prefix, it fails on the whole. */
  lemma {:induction false} ListedAgentsStayFailed(files: map<Key, string>, projectId: string, names: seq<string>, n: nat)
    requires n <= |names| && ListedAgents(files, projectId, names[..n]).None?
    ensures ListedAgents(files, projectId, names).None?
    decreases |names| - n
  {
    if n < |names| {
      assert names[..n + 1][..n] == names[..n];
      ListedAgentsStayFailed(files, projectId, names, n + 1);
    } else {
      assert names[..n] == names;
    }
  }
}
