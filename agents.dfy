/**
 * The agent registry of lib/agent.ts: where an agent's Markdown file lives,
 * how the file is written from an agent's fields and read back into them,
 * and the create, update, delete and list operations over the store of
 * agent files.
 */
module Agents {
  import opened Wrappers
  import opened Text
  import opened Sections

  /** `Agent`. The creation time is never set by this file and is not modelled. */
  datatype Agent = Agent(
    id: string,
    name: string,
    category: Option<string>,
    role: string,
    designDecisions: string,
    constraints: string,
    promptBlueprint: Option<string>,
    raw: string)

  /** `CreateAgentInput`. */
  datatype CreateAgentInput = CreateAgentInput(
    id: string,
    name: string,
    category: Option<string>,
    role: string,
    designDecisions: string,
    constraints: string,
    promptBlueprint: Option<string>,
    projectId: Option<string>)

  /** `UpdateAgentInput`: every field optional (`None` is `undefined` or `null`, which `??` treats alike). */
  datatype UpdateAgentInput = UpdateAgentInput(
    name: Option<string>,
    category: Option<string>,
    role: Option<string>,
    designDecisions: Option<string>,
    constraints: Option<string>,
    promptBlueprint: Option<string>)

  // ---------------------------------------------------------------------
  // Paths

  /** A path as the list of its segments, starting at the working directory. */
  type Path = seq<string>

  /** A name `path.join` keeps as one segment of its own: not empty, not `.` or `..`, no `/`. */
  predicate Segment(s: string) {
    s != "" && s != "." && s != ".." && '/' !in s
  }

  /** A segment of a normalised path: not empty, not `.`, no `/` (`..` only climbs above the start). */
  predicate Resolved(s: string) {
    s != "" && s != "." && '/' !in s
  }

  /** The elements of a path cut at every `/` they hold. */
  function Pieces(p: Path): (r: seq<string>)
    ensures forall i :: 0 <= i < |r| ==> '/' !in r[i]
    ensures (forall i :: 0 <= i < |p| ==> '/' !in p[i]) ==> r == p
  {
    if p == [] then [] else Split(p[0], '/') + Pieces(p[1..])
  }

  /**
   * The normalisation of `path.join`: empty and `.` segments vanish, and `..`
   * removes the segment before it (or is kept when there is none to remove).
   */
  function Resolve(stack: seq<string>, rest: seq<string>): (r: seq<string>)
    ensures (forall i :: 0 <= i < |rest| ==> Segment(rest[i])) ==> r == stack + rest
    decreases |rest|
  {
    if rest == [] then stack
    else if rest[0] == "" || rest[0] == "." then Resolve(stack, rest[1..])
    else if rest[0] == ".." && stack != [] && stack[|stack| - 1] != ".." then Resolve(stack[..|stack| - 1], rest[1..])
    else
      var r := Resolve(stack + [rest[0]], rest[1..]);
      assert stack + [rest[0]] + rest[1..] == stack + rest;
      r
  }

  /** `path.join(...segments)`, relative to the working directory. */
  function JoinPath(p: Path): (r: Path)
    ensures (forall i :: 0 <= i < |p| ==> Segment(p[i])) ==> r == p
  {
    Resolve([], Pieces(p))
  }

  /** Resolving keeps a stack of resolved segments resolved. */
  lemma {:induction false} ResolveResolved(stack: seq<string>, rest: seq<string>)
    requires forall i :: 0 <= i < |stack| ==> Resolved(stack[i])
    requires forall i :: 0 <= i < |rest| ==> '/' !in rest[i]
    ensures forall i :: 0 <= i < |Resolve(stack, rest)| ==> Resolved(Resolve(stack, rest)[i])
    decreases |rest|
  {
    if rest == [] {
    } else if rest[0] == "" || rest[0] == "." {
      ResolveResolved(stack, rest[1..]);
    } else if rest[0] == ".." && stack != [] && stack[|stack| - 1] != ".." {
      ResolveResolved(stack[..|stack| - 1], rest[1..]);
    } else {
      ResolveResolved(stack + [rest[0]], rest[1..]);
    }
  }

  /** A joined path is normalised: no segment is empty or `.`, and none holds a `/`. */
  lemma JoinResolved(p: Path)
    ensures forall i :: 0 <= i < |JoinPath(p)| ==> Resolved(JoinPath(p)[i])
  {
    ResolveResolved([], Pieces(p));
  }

  /** `getAgentsDir(projectId)`: the default project keeps its agents in `data/agents`. */
  function AgentsDir(projectId: string): (p: Path)
    ensures projectId == "default" <==> |p| == 2
  {
    if projectId == "default" then ["data", "agents"] else ["data", "projects", projectId, "agents"]
  }

  /** `getAgentPath(agentId, projectId)`: `<agentId>.md` in the project's agent directory. */
  function AgentPath(agentId: string, projectId: string): (p: Path)
    ensures |p| >= 1 && p[..|p| - 1] == AgentsDir(projectId) && p[|p| - 1] == agentId + ".md"
  {
    AgentsDir(projectId) + [agentId + ".md"]
  }

  /** The fixed names the paths are built from are single segments. */
  lemma LiteralSegments()
    ensures Segment("data") && Segment("projects") && Segment("agents") && Segment("default")
    ensures Segment("project.core.md")
  {
  }

  /** An agent file name is one segment when the id holds no `/`. */
  lemma AgentFileSegment(agentId: string)
    requires '/' !in agentId
    ensures Segment(agentId + ".md")
  {
    assert (agentId + ".md")[|agentId + ".md"| - 1] == 'd';
  }

  /** For single-segment ids, joining leaves the agent directory as it is. */
  lemma PlainAgentsDir(projectId: string)
    requires Segment(projectId)
    ensures JoinPath(AgentsDir(projectId)) == AgentsDir(projectId)
  {
    LiteralSegments();
    var d := AgentsDir(projectId);
    assert forall i :: 0 <= i < |d| ==> Segment(d[i]);
  }

  /** For single-segment ids, joining leaves the agent path as it is. */
  lemma PlainAgentPath(agentId: string, projectId: string)
    requires '/' !in agentId && Segment(projectId)
    ensures JoinPath(AgentPath(agentId, projectId)) == AgentPath(agentId, projectId)
  {
    LiteralSegments();
    AgentFileSegment(agentId);
    var d := AgentPath(agentId, projectId);
    assert forall i :: 0 <= i < |d| ==> Segment(d[i]);
  }

  /** Two projects whose ids are single segments never share an agent directory. */
  lemma AgentsDirInjective(p: string, q: string)
    requires Segment(p) && Segment(q)
    requires JoinPath(AgentsDir(p)) == JoinPath(AgentsDir(q))
    ensures p == q
  {
    PlainAgentsDir(p);
    PlainAgentsDir(q);
    if p != "default" {
      assert AgentsDir(p)[2] == p;
    }
  }

  /**
   * Two agents never share a file when the ids are single segments: the
   * joined path determines the agent and its project.
   */
  lemma AgentPathInjective(a: string, p: string, b: string, q: string)
    requires '/' !in a && '/' !in b && Segment(p) && Segment(q)
    requires JoinPath(AgentPath(a, p)) == JoinPath(AgentPath(b, q))
    ensures a == b && p == q
  {
    PlainAgentPath(a, p);
    PlainAgentPath(b, q);
    PlainAgentsDir(p);
    PlainAgentsDir(q);
    var x := AgentPath(a, p);
    assert x[..|x| - 1] == AgentsDir(p) && AgentPath(b, q)[..|x| - 1] == AgentsDir(q);
    AgentsDirInjective(p, q);
    assert a + ".md" == b + ".md";
    assert a == (a + ".md")[..|a|] && b == (b + ".md")[..|b|];
  }

  /** A segment followed by `..` cancels out, wherever it stands among plain segments. */
  lemma {:induction false} ParentCancels(stack: seq<string>, pre: seq<string>, s: string, rest: seq<string>)
    requires forall i :: 0 <= i < |pre| ==> Segment(pre[i])
    requires Segment(s) && forall i :: 0 <= i < |rest| ==> Segment(rest[i])
    ensures Resolve(stack, pre + [s, ".."] + rest) == stack + pre + rest
    decreases |pre|
  {
    var x := pre + [s, ".."] + rest;
    if pre == [] {
      assert x == [s, ".."] + rest && x[1..] == [".."] + rest && x[1..][1..] == rest;
      assert Resolve(stack, x) == Resolve(stack + [s], [".."] + rest);
      assert (stack + [s])[..|stack + [s]| - 1] == stack;
    } else {
      assert x[0] == pre[0] && x[1..] == pre[1..] + [s, ".."] + rest;
      ParentCancels(stack + [pre[0]], pre[1..], s, rest);
      assert stack + [pre[0]] + pre[1..] == stack + pre;
    }
  }

  /** Joining plain segments around `s/..` gives the plain segments alone. */
  lemma ParentJoin(pre: seq<string>, s: string, rest: seq<string>)
    requires forall i :: 0 <= i < |pre| ==> Segment(pre[i])
    requires Segment(s) && forall i :: 0 <= i < |rest| ==> Segment(rest[i])
    ensures JoinPath(pre + [s, ".."] + rest) == pre + rest
  {
    var x := pre + [s, ".."] + rest;
    assert forall i :: 0 <= i < |x| ==> '/' !in x[i] by {
      forall i | 0 <= i < |x| ensures '/' !in x[i] {
        if i < |pre| { assert x[i] == pre[i]; }
        else if i == |pre| { assert x[i] == s; }
        else if i == |pre| + 1 { assert x[i] == ".."; }
        else { assert x[i] == rest[i - |pre| - 2]; }
      }
    }
    ParentCancels([], pre, s, rest);
  }

  /**
   * As written, project ids are not checked before they are joined: project
   * `..` resolves to the default project's directory, so its agent `a` is the
   * default project's agent `a` (`deleteAgent(a, "..")` removes that file).
   */
  lemma ParentProjectIsDefault(a: string)
    requires '/' !in a
    ensures JoinPath(AgentPath(a, "..")) == AgentPath(a, "default")
    ensures JoinPath(AgentPath(a, "default")) == AgentPath(a, "default")
  {
    LiteralSegments();
    AgentFileSegment(a);
    var rest := ["agents", a + ".md"];
    ParentJoin(["data"], "projects", rest);
    assert AgentPath(a, "..") == ["data"] + ["projects", ".."] + rest;
    assert AgentPath(a, "default") == ["data"] + rest;
    PlainAgentPath(a, "default");
  }

  /** `projectId || config.activeProject`: an absent or empty project id means the active project. */
  function TargetProject(projectId: Option<string>, activeProject: string): (t: string)
    ensures projectId.Some? && projectId.value != "" ==> t == projectId.value
    ensures projectId.None? || projectId.value == "" ==> t == activeProject
  {
    match projectId
    case Some(p) => if p != "" then p else activeProject
    case None => activeProject
  }

  // ---------------------------------------------------------------------
  // The name line: `/^#\s*Sub-Agent:\s*(.+)$/m`

  /** The end of the line that contains `i`: the next line terminator or the end of the text. */
  function LineEndFrom(s: string, i: nat): (j: nat)
    requires i <= |s|
    ensures i <= j <= |s| && LineEnd(s, j)
    ensures forall k :: i <= k < j ==> !IsLineTerminator(s[k])
    decreases |s| - i
  {
    if i == |s| || IsLineTerminator(s[i]) then i else LineEndFrom(s, i + 1)
  }

  /** The last position in `[lo, hi)` whose character is not a line terminator. */
  function LastNonTerminator(s: string, lo: nat, hi: nat): (r: Option<nat>)
    requires lo <= hi <= |s|
    ensures r.Some? ==> lo <= r.value < hi && !IsLineTerminator(s[r.value])
    ensures r.Some? ==> forall k :: r.value < k < hi ==> IsLineTerminator(s[k])
    ensures r.None? ==> forall k :: lo <= k < hi ==> IsLineTerminator(s[k])
    decreases hi
  {
    if hi == lo then None
    else if !IsLineTerminator(s[hi - 1]) then Some(hi - 1)
    else LastNonTerminator(s, lo, hi - 1)
  }

  const SubAgentLabel: string := "Sub-Agent:"

  /**
   * The group `(.+)` of a match of the name pattern that starts at `i`, if
   * one does. `#\s*` before the label is greedy and cannot give anything
   * back (the label starts with a letter). After the label the greedy
   * `\s*` (which crosses line ends) is followed by `.+$`: if the run of
   * whitespace stops before the end of the text, the group is the rest of
   * that line; if it runs to the end, the engine gives back whitespace down
   * to its last character that is not a line terminator, and the group is
   * that one character; with none, there is no match here.
   */
  function NameMatchAt(s: string, i: nat): (r: Option<string>)
    requires i <= |s|
    ensures r.Some? ==> r.value != [] && IsSingleLine(r.value)
  {
    if i == |s| || s[i] != '#' then None
    else
      var a := SkipSpaces(s, i + 1);
      if a + |SubAgentLabel| > |s| || s[a..a + |SubAgentLabel|] != SubAgentLabel then None
      else
        var e := a + |SubAgentLabel|;
        var f := SkipSpaces(s, e);
        if f < |s| then
          var g := s[f..LineEndFrom(s, f)];
          assert g[0] == s[f];
          Some(g)
        else match LastNonTerminator(s, e, f)
          case None => None
          case Some(k) => Some(s[k..k + 1])
  }

  /** The leftmost match of the name pattern at a line start at or after `from`. */
  function FindNameMatch(s: string, from: nat): (r: Option<string>)
    requires from <= |s|
    ensures r.None? ==> forall j: nat :: from <= j <= |s| && LineStart(s, j) ==> NameMatchAt(s, j).None?
    ensures r.Some? ==> r.value != [] && IsSingleLine(r.value)
    decreases |s| - from
  {
    if LineStart(s, from) && NameMatchAt(s, from).Some? then NameMatchAt(s, from)
    else if from == |s| then None
    else FindNameMatch(s, from + 1)
  }

  /** `nameMatch ? nameMatch[1].trim() : id`. */
  function AgentName(id: string, content: string): (name: string)
    ensures FindNameMatch(content, 0).Some? ==> IsTrimmed(name) && IsSingleLine(name)
  {
    match FindNameMatch(content, 0)
    case None => id
    case Some(c) => TrimKeepsOut(c, '\n'); Trim(c)
  }

  /** With no line of the form `# Sub-Agent: X` the name is the id. */
  lemma NameDefaultsToId(id: string, content: string)
    requires forall j: nat :: j <= |content| && LineStart(content, j) ==> NameMatchAt(content, j).None?
    ensures AgentName(id, content) == id
  {
    NoNameMatchFrom(content, 0);
  }

  /** The search finds nothing when no line start from `from` on matches. */
  lemma {:induction false} NoNameMatchFrom(s: string, from: nat)
    requires from <= |s|
    requires forall j: nat :: from <= j <= |s| && LineStart(s, j) ==> NameMatchAt(s, j).None?
    ensures FindNameMatch(s, from).None?
    decreases |s| - from
  {
    if from < |s| {
      NoNameMatchFrom(s, from + 1);
    }
  }

  /** A text that starts with the name line the generator writes is named by it. */
  lemma NameOfNameLine(id: string, name: string, rest: string)
    requires name != [] && IsTrimmed(name) && IsSingleLine(name)
    requires rest == [] || IsLineTerminator(rest[0])
    ensures AgentName(id, NameLine(name) + rest) == name
  {
    var s := NameLine(name) + rest;
    VisibleChar('S');
    assert s[0] == '#' && s[1] == ' ' && s[2] == 'S';
    assert SkipSpaces(s, 1) == 2;
    assert s[2..12] == SubAgentLabel;
    assert s[12] == ' ' && s[13] == name[0];
    assert SkipSpaces(s, 12) == 13;
    forall k | 13 <= k < 13 + |name| ensures !IsLineTerminator(s[k]) {
      assert s[k] == name[k - 13];
    }
    assert LineEnd(s, 13 + |name|) by {
      if rest != [] { assert s[13 + |name|] == rest[0]; }
    }
    assert LineEndFrom(s, 13) == 13 + |name|;
    assert s[13..13 + |name|] == name;
    assert NameMatchAt(s, 0) == Some(name);
    TrimTrimmed(name);
  }

  // ---------------------------------------------------------------------
  // generateAgentMd

  const RolePlaceholder: string := "- (에이전트 역할을 정의하세요)"
  const DesignPlaceholder: string := "- (설계 결정을 정의하세요)"
  const ConstraintsPlaceholder: string := "- (제약 조건을 정의하세요)"
  const BlueprintTitle: string := "Prompt Blueprint (옵션)"

  /** JavaScript `v || fallback` on strings: only the empty string is falsy. */
  function OrElse(v: string, fallback: string): string {
    if v == "" then fallback else v
  }

  /** An optional string that is truthy: present and not empty. */
  predicate Truthy(o: Option<string>) {
    o.Some? && o.value != ""
  }

  /** The first line of an agent file. */
  function NameLine(name: string): string {
    "# Sub-Agent: " + name
  }

  /** The sections of an agent file: the three fixed ones, then the blueprint if it is truthy. */
  function AgentSections(role: string, designDecisions: string, constraints: string,
                         promptBlueprint: Option<string>): seq<(string, string)>
  {
    [("Role", OrElse(role, RolePlaceholder)),
     ("Design Decisions", OrElse(designDecisions, DesignPlaceholder)),
     ("Constraints", OrElse(constraints, ConstraintsPlaceholder))]
    + (if Truthy(promptBlueprint) then [(BlueprintTitle, promptBlueprint.value)] else [])
  }

  /** `generateAgentMd(data)`. */
  function GenerateAgentMd(name: string, role: string, designDecisions: string, constraints: string,
                           promptBlueprint: Option<string>): string
  {
    Doc(NameLine(name), AgentSections(role, designDecisions, constraints, promptBlueprint), "")
  }

  /** The file is the name line, the three sections in order, then the blueprint section if any. */
  lemma GenerateAgentMdText(name: string, role: string, designDecisions: string, constraints: string,
                            promptBlueprint: Option<string>)
    ensures GenerateAgentMd(name, role, designDecisions, constraints, promptBlueprint)
         == NameLine(name)
            + (Field("Role", OrElse(role, RolePlaceholder))
               + Field("Design Decisions", OrElse(designDecisions, DesignPlaceholder))
               + Field("Constraints", OrElse(constraints, ConstraintsPlaceholder))
               + (if Truthy(promptBlueprint) then Field(BlueprintTitle, promptBlueprint.value) else ""))
  {
    var f0 := ("Role", OrElse(role, RolePlaceholder));
    var f1 := ("Design Decisions", OrElse(designDecisions, DesignPlaceholder));
    var f2 := ("Constraints", OrElse(constraints, ConstraintsPlaceholder));
    FieldsOfThree(f0, f1, f2);
    var fs := AgentSections(role, designDecisions, constraints, promptBlueprint);
    var three := Field(f0.0, f0.1) + Field(f1.0, f1.1) + Field(f2.0, f2.1);
    var bpPart := if Truthy(promptBlueprint) then Field(BlueprintTitle, promptBlueprint.value) else "";
    if Truthy(promptBlueprint) {
      assert fs == [f0, f1, f2] + [(BlueprintTitle, promptBlueprint.value)];
      FieldsSnoc([f0, f1, f2], (BlueprintTitle, promptBlueprint.value));
    } else {
      assert fs == [f0, f1, f2];
      assert three + bpPart == three;
    }
    assert Fields(fs) == three + bpPart;
    assert NameLine(name) + Fields(fs) + "" == NameLine(name) + Fields(fs);
  }

  // ---------------------------------------------------------------------
  // parseAgent

  /** `parseAgent(id, content)`. */
  function ParseAgent(id: string, content: string): (a: Agent)
    ensures a.id == id && a.raw == content && a.category.None?
    ensures IsTrimmed(a.role) && IsTrimmed(a.designDecisions) && IsTrimmed(a.constraints)
    ensures a.promptBlueprint.Some? ==> a.promptBlueprint.value != "" && IsTrimmed(a.promptBlueprint.value)
  {
    var bp := ExtractSection(content, Literal("Prompt Blueprint"));
    Agent(
      id,
      AgentName(id, content),
      None,
      ExtractSection(content, Literal("Role")),
      ExtractSection(content, Literal("Design Decisions")),
      ExtractSection(content, Literal("Constraints")),
      if bp == "" then None else Some(bp),
      content)
  }

  // ---------------------------------------------------------------------
  // Reading a generated file back

  /** A section value that reads back unchanged: trimmed, and without `##`. */
  predicate SectionValue(v: string) {
    IsTrimmed(v) && HashFree(v)
  }

  /** The placeholders read back unchanged. */
  lemma PlaceholdersAreValues()
    ensures SectionValue(RolePlaceholder) && SectionValue(DesignPlaceholder) && SectionValue(ConstraintsPlaceholder)
  {
    VisibleChar('-');
    VisibleChar(')');
  }

  /** The name line holds no `##` when the name holds none. */
  lemma NameLineHashFree(name: string)
    requires HashFree(name)
    ensures HashFree(NameLine(name))
  {
    assert HashFree("# Sub-Agent: ");
    HashFreeConcat("# Sub-Agent: ", name);
  }

  /** The sections of an agent file satisfy what reading them back needs. */
  lemma AgentSectionsGood(role: string, designDecisions: string, constraints: string, promptBlueprint: Option<string>)
    requires HashFree(role) && HashFree(designDecisions) && HashFree(constraints)
    requires promptBlueprint.Some? ==> HashFree(promptBlueprint.value)
    ensures GoodFields(AgentSections(role, designDecisions, constraints, promptBlueprint))
  {
    PlaceholdersAreValues();
    VisibleChar('R');
    VisibleChar('D');
    VisibleChar('C');
    VisibleChar('P');
    assert HashFree("Role") && HashFree("Design Decisions") && HashFree("Constraints") && HashFree(BlueprintTitle);
  }

  /** The three fixed titles are none of the others' and not the blueprint's. */
  lemma TitlesDiffer()
    ensures Differs("Role", "Design Decisions") && Differs("Role", "Constraints") && Differs("Design Decisions", "Constraints")
    ensures Differs("Role", "Prompt Blueprint") && Differs("Design Decisions", "Prompt Blueprint")
    ensures Differs("Constraints", "Prompt Blueprint")
  {
    assert DiffersAt("Role", "Design Decisions", 0) && DiffersAt("Role", "Constraints", 0);
    assert DiffersAt("Design Decisions", "Constraints", 0);
    assert DiffersAt("Role", "Prompt Blueprint", 0) && DiffersAt("Design Decisions", "Prompt Blueprint", 0);
    assert DiffersAt("Constraints", "Prompt Blueprint", 0);
  }

  /** A section of a file with a name line reads back when no earlier title could be taken for it. */
  lemma SectionOfAgentFile(name: string, fs: seq<(string, string)>, i: nat, lit: string)
    requires HashFree(name) && GoodFields(fs)
    requires i < |fs| && fs[i].0 == lit && lit != [] && IsTrimmed(fs[i].1)
    requires forall j :: 0 <= j < i ==> Differs(fs[j].0, lit)
    ensures ExtractSection(Doc(NameLine(name), fs, ""), Literal(lit)) == fs[i].1
  {
    NameLineHashFree(name);
    assert fs[i].0[..|lit|] == lit;
    FieldOfDoc(NameLine(name), fs, "", i, lit);
  }

  /** The last section, found under a prefix `lit` of its title, keeps the rest of the title. */
  lemma LastSectionOfAgentFile(name: string, fs: seq<(string, string)>, lit: string)
    requires HashFree(name) && GoodFields(fs) && fs != []
    requires 0 < |lit| <= |fs[|fs| - 1].0| && fs[|fs| - 1].0[..|lit|] == lit
    requires forall j :: 0 <= j < |fs| - 1 ==> Differs(fs[j].0, lit)
    ensures ExtractSection(Doc(NameLine(name), fs, ""), Literal(lit))
         == Trim(fs[|fs| - 1].0[|lit|..] + "\n" + fs[|fs| - 1].1)
  {
    NameLineHashFree(name);
    FieldOfDoc(NameLine(name), fs, "", |fs| - 1, lit);
  }

  /** No section is found under a title that every title differs from. */
  lemma NoSectionOfAgentFile(name: string, fs: seq<(string, string)>, lit: string)
    requires HashFree(name) && GoodFields(fs)
    requires forall j :: 0 <= j < |fs| ==> Differs(fs[j].0, lit)
    ensures ExtractSection(Doc(NameLine(name), fs, ""), Literal(lit)) == ""
  {
    NameLineHashFree(name);
    NoFieldOfDoc(NameLine(name), fs, "", lit);
  }

  /** The role section of a generated file reads back. */
  lemma RoleReadsBack(name: string, role: string, design: string, constraints: string, bp: Option<string>)
    requires HashFree(name) && SectionValue(role) && HashFree(design) && HashFree(constraints)
    requires bp.Some? ==> HashFree(bp.value)
    ensures ExtractSection(GenerateAgentMd(name, role, design, constraints, bp), Literal("Role"))
         == OrElse(role, RolePlaceholder)
  {
    var fs := AgentSections(role, design, constraints, bp);
    assert GoodFields(fs) by { AgentSectionsGood(role, design, constraints, bp); }
    assert fs[0] == ("Role", OrElse(role, RolePlaceholder));
    assert IsTrimmed(fs[0].1) by { PlaceholdersAreValues(); }
    SectionOfAgentFile(name, fs, 0, "Role");
  }

  /** The design decisions section of a generated file reads back. */
  lemma DesignReadsBack(name: string, role: string, design: string, constraints: string, bp: Option<string>)
    requires HashFree(name) && HashFree(role) && SectionValue(design) && HashFree(constraints)
    requires bp.Some? ==> HashFree(bp.value)
    ensures ExtractSection(GenerateAgentMd(name, role, design, constraints, bp), Literal("Design Decisions"))
         == OrElse(design, DesignPlaceholder)
  {
    var fs := AgentSections(role, design, constraints, bp);
    assert GoodFields(fs) by { AgentSectionsGood(role, design, constraints, bp); }
    assert fs[0].0 == "Role" && fs[1] == ("Design Decisions", OrElse(design, DesignPlaceholder));
    assert IsTrimmed(fs[1].1) by { PlaceholdersAreValues(); }
    assert forall j :: 0 <= j < 1 ==> Differs(fs[j].0, "Design Decisions") by { TitlesDiffer(); }
    SectionOfAgentFile(name, fs, 1, "Design Decisions");
  }

  /** The constraints section of a generated file reads back. */
  lemma ConstraintsReadBack(name: string, role: string, design: string, constraints: string, bp: Option<string>)
    requires HashFree(name) && HashFree(role) && HashFree(design) && SectionValue(constraints)
    requires bp.Some? ==> HashFree(bp.value)
    ensures ExtractSection(GenerateAgentMd(name, role, design, constraints, bp), Literal("Constraints"))
         == OrElse(constraints, ConstraintsPlaceholder)
  {
    var fs := AgentSections(role, design, constraints, bp);
    assert GoodFields(fs) by { AgentSectionsGood(role, design, constraints, bp); }
    assert fs[0].0 == "Role" && fs[1].0 == "Design Decisions";
    assert fs[2] == ("Constraints", OrElse(constraints, ConstraintsPlaceholder));
    assert IsTrimmed(fs[2].1) by { PlaceholdersAreValues(); }
    assert forall j :: 0 <= j < 2 ==> Differs(fs[j].0, "Constraints") by { TitlesDiffer(); }
    SectionOfAgentFile(name, fs, 2, "Constraints");
  }

  /**
   * The blueprint does not read back as written: the section found under
   * `Prompt Blueprint` starts with the rest of the heading, `(옵션)`.
   */
  lemma BlueprintReadsBackPrefixed(name: string, role: string, design: string, constraints: string, bp: Option<string>)
    requires HashFree(name) && HashFree(role) && HashFree(design) && HashFree(constraints)
    requires bp.Some? ==> HashFree(bp.value) && IsTrimmed(bp.value)
    ensures ExtractSection(GenerateAgentMd(name, role, design, constraints, bp), Literal("Prompt Blueprint"))
         == if Truthy(bp) then "(옵션)\n" + bp.value else ""
  {
    var fs := AgentSections(role, design, constraints, bp);
    assert GoodFields(fs) by { AgentSectionsGood(role, design, constraints, bp); }
    assert fs[0].0 == "Role" && fs[1].0 == "Design Decisions" && fs[2].0 == "Constraints";
    assert forall j :: 0 <= j < 3 ==> Differs(fs[j].0, "Prompt Blueprint") by { TitlesDiffer(); }
    if Truthy(bp) {
      assert |fs| == 4 && fs[3] == (BlueprintTitle, bp.value);
      assert BlueprintTitle[..16] == "Prompt Blueprint";
      LastSectionOfAgentFile(name, fs, "Prompt Blueprint");
      BlueprintRest(bp.value);
    } else {
      assert |fs| == 3;
      NoSectionOfAgentFile(name, fs, "Prompt Blueprint");
    }
  }

  /** What follows `Prompt Blueprint` in the heading, then the value, trimmed. */
  lemma BlueprintRest(v: string)
    requires v != [] && IsTrimmed(v)
    ensures Trim(BlueprintTitle[16..] + "\n" + v) == "(옵션)\n" + v
  {
    var x := "(옵션)\n" + v;
    VisibleChar('(');
    assert x[0] == '(' && x[|x| - 1] == v[|v| - 1];
    assert BlueprintTitle[16..] + "\n" + v == " " + x + "";
    TrimAround(" ", x, "");
  }

  /** The name line of a generated file reads back. */
  lemma NameReadsBack(id: string, name: string, role: string, design: string, constraints: string, bp: Option<string>)
    requires name != [] && IsTrimmed(name) && IsSingleLine(name)
    ensures AgentName(id, GenerateAgentMd(name, role, design, constraints, bp)) == name
  {
    var fs := AgentSections(role, design, constraints, bp);
    FieldsStart(fs, 0);
    assert fs[0..] == fs;
    assert GenerateAgentMd(name, role, design, constraints, bp) == NameLine(name) + (Fields(fs) + "");
    NameOfNameLine(id, name, Fields(fs) + "");
  }

  /**
   * `parseAgent(id, generateAgentMd(d))` gives back the name and the three
   * sections (or their placeholders), and the blueprint with `(옵션)` in
   * front of it.
   */
  lemma ParseGeneratedAgent(id: string, name: string, role: string, design: string, constraints: string,
                            bp: Option<string>)
    requires name != [] && IsTrimmed(name) && IsSingleLine(name) && HashFree(name)
    requires SectionValue(role) && SectionValue(design) && SectionValue(constraints)
    requires bp.Some? ==> HashFree(bp.value) && IsTrimmed(bp.value)
    ensures ParseAgent(id, GenerateAgentMd(name, role, design, constraints, bp)).name == name
    ensures ParseAgent(id, GenerateAgentMd(name, role, design, constraints, bp)).role == OrElse(role, RolePlaceholder)
    ensures ParseAgent(id, GenerateAgentMd(name, role, design, constraints, bp)).designDecisions
         == OrElse(design, DesignPlaceholder)
    ensures ParseAgent(id, GenerateAgentMd(name, role, design, constraints, bp)).constraints
         == OrElse(constraints, ConstraintsPlaceholder)
    ensures ParseAgent(id, GenerateAgentMd(name, role, design, constraints, bp)).promptBlueprint
         == if Truthy(bp) then Some("(옵션)\n" + bp.value) else None
  {
    NameReadsBack(id, name, role, design, constraints, bp);
    RoleReadsBack(name, role, design, constraints, bp);
    DesignReadsBack(name, role, design, constraints, bp);
    ConstraintsReadBack(name, role, design, constraints, bp);
    BlueprintReadsBackPrefixed(name, role, design, constraints, bp);
  }

  /**
   * A blank name does not read back: `\s*` after the label runs over the
   * line end, and the name becomes the next line, the `## Role` heading.
   */
  lemma BlankNameReadsRoleHeading(id: string, role: string, design: string, constraints: string, bp: Option<string>)
    ensures AgentName(id, GenerateAgentMd("", role, design, constraints, bp)) == "## Role"
  {
    var fs := AgentSections(role, design, constraints, bp);
    var s := GenerateAgentMd("", role, design, constraints, bp);
    var head := "# Sub-Agent: \n\n## Role\n";
    FieldsSplit(fs, 0);
    assert fs[..0] == [] && fs[0].0 == "Role";
    assert Fields(fs[..0]) == "";
    var rest := Fields(fs[1..]);
    assert s == NameLine("") + ("" + Field("Role", fs[0].1) + rest) + "";
    BlankNameText(head, fs[0].1, rest);
    assert s == head + (fs[0].1 + rest);
    BlankNameLine(id, head, fs[0].1 + rest);
  }

  /** An empty name line followed by the role section. */
  lemma BlankNameText(head: string, v: string, rest: string)
    requires head == "# Sub-Agent: \n\n## Role\n"
    ensures NameLine("") + ("" + Field("Role", v) + rest) + "" == head + (v + rest)
  {
    assert NameLine("") + Field("Role", v) == head + v;
    ConcatAssoc(head, v, rest);
  }

  /** A text that starts with an empty name line and then the `## Role` heading is named by that heading. */
  lemma BlankNameLine(id: string, head: string, rest: string)
    requires head == "# Sub-Agent: \n\n## Role\n"
    ensures AgentName(id, head + rest) == "## Role"
  {
    var s := head + rest;
    VisibleChar('S');
    assert s[0] == '#' && s[1] == ' ' && s[2] == 'S';
    assert SkipSpaces(s, 1) == 2;
    assert s[2..12] == SubAgentLabel;
    assert s[12] == ' ' && s[13] == '\n' && s[14] == '\n' && s[15] == '#';
    assert SkipSpaces(s, 12) == 15;
    assert s[22] == '\n';
    assert LineEndFrom(s, 15) == 22;
    assert s[15..22] == "## Role";
    assert NameMatchAt(s, 0) == Some("## Role");
    assert FindNameMatch(s, 0) == Some("## Role");
    RoleHeadingTrimmed();
  }

  /** `## Role` is already trimmed. */
  lemma RoleHeadingTrimmed()
    ensures Trim("## Role") == "## Role"
  {
    VisibleChar('#');
    VisibleChar('e');
    TrimTrimmed("## Role");
  }

  // ---------------------------------------------------------------------
  // updateAgent's merge

  /** `a ?? b`. */
  function Coalesce<T>(a: Option<T>, b: T): T {
    if a.Some? then a.value else b
  }

  /** `a ?? b` on optional fields: the input when given, else the old value. */
  function CoalesceOption<T>(a: Option<T>, b: Option<T>): Option<T> {
    if a.Some? then a else b
  }

  /** The record `updateAgent` writes and returns: each given field replaces the old one, and `raw` is its file. */
  function MergeAgent(agent: Agent, input: UpdateAgentInput): (u: Agent)
    ensures u.id == agent.id
    ensures u.raw == GenerateAgentMd(u.name, u.role, u.designDecisions, u.constraints, u.promptBlueprint)
    ensures input.name.Some? ==> u.name == input.name.value
    ensures input.name.None? ==> u.name == agent.name
    ensures input.role.Some? ==> u.role == input.role.value
    ensures input.role.None? ==> u.role == agent.role
    ensures input.designDecisions.Some? ==> u.designDecisions == input.designDecisions.value
    ensures input.designDecisions.None? ==> u.designDecisions == agent.designDecisions
    ensures input.constraints.Some? ==> u.constraints == input.constraints.value
    ensures input.constraints.None? ==> u.constraints == agent.constraints
    ensures input.category.Some? ==> u.category == input.category
    ensures input.category.None? ==> u.category == agent.category
    ensures input.promptBlueprint.Some? ==> u.promptBlueprint == input.promptBlueprint
    ensures input.promptBlueprint.None? ==> u.promptBlueprint == agent.promptBlueprint
  {
    var name := Coalesce(input.name, agent.name);
    var role := Coalesce(input.role, agent.role);
    var design := Coalesce(input.designDecisions, agent.designDecisions);
    var constraints := Coalesce(input.constraints, agent.constraints);
    var bp := CoalesceOption(input.promptBlueprint, agent.promptBlueprint);
    Agent(agent.id, name, CoalesceOption(input.category, agent.category), role, design, constraints, bp,
          GenerateAgentMd(name, role, design, constraints, bp))
  }

  /** An update that gives no field. */
  const NoChange: UpdateAgentInput := UpdateAgentInput(None, None, None, None, None, None)

  /**
   * Rereading the file of an updated agent gives back what the update
   * returned for the name and the three sections, when they are values that
   * read back; the category is not in the file and comes back absent.
   */
  lemma MergedAgentReadsBack(agent: Agent, input: UpdateAgentInput)
    requires MergeAgent(agent, input).name != [] && IsTrimmed(MergeAgent(agent, input).name)
    requires IsSingleLine(MergeAgent(agent, input).name) && HashFree(MergeAgent(agent, input).name)
    requires MergeAgent(agent, input).role != [] && SectionValue(MergeAgent(agent, input).role)
    requires MergeAgent(agent, input).designDecisions != [] && SectionValue(MergeAgent(agent, input).designDecisions)
    requires MergeAgent(agent, input).constraints != [] && SectionValue(MergeAgent(agent, input).constraints)
    requires MergeAgent(agent, input).promptBlueprint.Some? ==> SectionValue(MergeAgent(agent, input).promptBlueprint.value)
    ensures ParseAgent(agent.id, MergeAgent(agent, input).raw).name == MergeAgent(agent, input).name
    ensures ParseAgent(agent.id, MergeAgent(agent, input).raw).role == MergeAgent(agent, input).role
    ensures ParseAgent(agent.id, MergeAgent(agent, input).raw).designDecisions == MergeAgent(agent, input).designDecisions
    ensures ParseAgent(agent.id, MergeAgent(agent, input).raw).constraints == MergeAgent(agent, input).constraints
    ensures ParseAgent(agent.id, MergeAgent(agent, input).raw).category.None?
  {
    var u := MergeAgent(agent, input);
    ParseGeneratedAgent(agent.id, u.name, u.role, u.designDecisions, u.constraints, u.promptBlueprint);
  }

  /**
   * An update that changes nothing still changes the blueprint: the agent
   * read from a generated file carries `(옵션)` in front of its blueprint,
   * the update writes that back, and the next read adds another one.
   */
  lemma UpdateGrowsBlueprint(id: string, name: string, role: string, design: string, constraints: string, bp: string)
    requires name != [] && IsTrimmed(name) && IsSingleLine(name) && HashFree(name)
    requires SectionValue(role) && SectionValue(design) && SectionValue(constraints)
    requires bp != [] && SectionValue(bp)
    ensures ParseAgent(id, GenerateAgentMd(name, role, design, constraints, Some(bp))).promptBlueprint
         == Some("(옵션)\n" + bp)
    ensures ParseAgent(id, MergeAgent(ParseAgent(id, GenerateAgentMd(name, role, design, constraints, Some(bp))), NoChange).raw)
              .promptBlueprint
         == Some("(옵션)\n" + ("(옵션)\n" + bp))
  {
    ParseGeneratedAgent(id, name, role, design, constraints, Some(bp));
    PrefixedBlueprintValue(bp);
    PlaceholdersAreValues();
    RereadUnchanged(id, ParseAgent(id, GenerateAgentMd(name, role, design, constraints, Some(bp))), "(옵션)\n" + bp);
  }

  /** A blueprint with the `(옵션)` line in front is still a section value. */
  lemma PrefixedBlueprintValue(bp: string)
    requires bp != [] && SectionValue(bp)
    ensures SectionValue("(옵션)\n" + bp)
  {
    assert HashFree("(옵션)\n");
    HashFreeConcat("(옵션)\n", bp);
    VisibleChar('(');
  }

  /** An agent whose fields read back, updated with no field, is read back with one more prefix on its blueprint. */
  lemma RereadUnchanged(id: string, a: Agent, b: string)
    requires a.name != [] && IsTrimmed(a.name) && IsSingleLine(a.name) && HashFree(a.name)
    requires SectionValue(a.role) && SectionValue(a.designDecisions) && SectionValue(a.constraints)
    requires a.promptBlueprint == Some(b) && b != [] && SectionValue(b)
    ensures ParseAgent(id, MergeAgent(a, NoChange).raw).promptBlueprint == Some("(옵션)\n" + b)
  {
    assert MergeAgent(a, NoChange).raw
        == GenerateAgentMd(a.name, a.role, a.designDecisions, a.constraints, Some(b));
    ParseGeneratedAgent(id, a.name, a.role, a.designDecisions, a.constraints, Some(b));
  }

  // ---------------------------------------------------------------------
  // The blueprint read under its whole heading

  /**
   * `parseAgent` as evidently intended: the blueprint is looked up under the
   * heading the generator writes, `Prompt Blueprint (옵션)`, matched as
   * written (parentheses included).
   */
  function ParseAgentWholeHeading(id: string, content: string): (a: Agent)
    ensures a.id == id && a.raw == content && a.category.None?
    ensures a.promptBlueprint.Some? ==> a.promptBlueprint.value != "" && IsTrimmed(a.promptBlueprint.value)
    ensures a.name == ParseAgent(id, content).name && a.role == ParseAgent(id, content).role
    ensures a.designDecisions == ParseAgent(id, content).designDecisions
    ensures a.constraints == ParseAgent(id, content).constraints
  {
    var bp := ExtractSection(content, Literal(BlueprintTitle));
    ParseAgent(id, content).(promptBlueprint := if bp == "" then None else Some(bp))
  }

  /** Read under its whole heading, the blueprint of a generated file comes back unchanged. */
  lemma WholeHeadingBlueprintReadsBack(name: string, role: string, design: string, constraints: string, bp: Option<string>)
    requires HashFree(name) && HashFree(role) && HashFree(design) && HashFree(constraints)
    requires bp.Some? ==> SectionValue(bp.value)
    ensures ExtractSection(GenerateAgentMd(name, role, design, constraints, bp), Literal(BlueprintTitle))
         == if Truthy(bp) then bp.value else ""
  {
    var fs := AgentSections(role, design, constraints, bp);
    assert GoodFields(fs) by { AgentSectionsGood(role, design, constraints, bp); }
    assert fs[0].0 == "Role" && fs[1].0 == "Design Decisions" && fs[2].0 == "Constraints";
    assert forall j :: 0 <= j < 3 ==> Differs(fs[j].0, BlueprintTitle) by {
      assert DiffersAt("Role", BlueprintTitle, 0) && DiffersAt("Design Decisions", BlueprintTitle, 0);
      assert DiffersAt("Constraints", BlueprintTitle, 0);
    }
    if Truthy(bp) {
      assert |fs| == 4 && fs[3] == (BlueprintTitle, bp.value);
      SectionOfAgentFile(name, fs, 3, BlueprintTitle);
    } else {
      assert |fs| == 3;
      NoSectionOfAgentFile(name, fs, BlueprintTitle);
    }
  }

  /** With the blueprint read under its whole heading, an update that changes nothing leaves the blueprint alone. */
  lemma WholeHeadingUpdateKeepsBlueprint(id: string, name: string, role: string, design: string, constraints: string,
                                         bp: Option<string>)
    requires name != [] && IsTrimmed(name) && IsSingleLine(name) && HashFree(name)
    requires HashFree(role) && HashFree(design) && HashFree(constraints)
    requires bp.Some? ==> SectionValue(bp.value)
    ensures ParseAgentWholeHeading(id, GenerateAgentMd(name, role, design, constraints, bp)).promptBlueprint
         == if Truthy(bp) then bp else None
    ensures ParseAgentWholeHeading(id, MergeAgent(ParseAgentWholeHeading(id, GenerateAgentMd(name, role, design, constraints, bp)), NoChange).raw)
              .promptBlueprint
         == if Truthy(bp) then bp else None
  {
    WholeHeadingBlueprintReadsBack(name, role, design, constraints, bp);
    var a := ParseAgentWholeHeading(id, GenerateAgentMd(name, role, design, constraints, bp));
    var u := MergeAgent(a, NoChange);
    assert u.promptBlueprint == a.promptBlueprint;
    var r := ExtractSection(GenerateAgentMd(name, role, design, constraints, bp), Literal("Role"));
    var d := ExtractSection(GenerateAgentMd(name, role, design, constraints, bp), Literal("Design Decisions"));
    var c := ExtractSection(GenerateAgentMd(name, role, design, constraints, bp), Literal("Constraints"));
    assert a.role == r && a.designDecisions == d && a.constraints == c;
    NameReadsBack(id, name, role, design, constraints, bp);
    WholeHeadingBlueprintReadsBack(a.name, r, d, c, a.promptBlueprint);
  }
}
