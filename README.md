# VibePrompt core in Dafny

VibePrompt is a small Next.js tool that keeps a project's design context in
Markdown files and compiles it into prompts for coding assistants. This
project models its core:

- the **prompt builder** (`lib/vibeprompt.ts`):
  - newline normalisation and the line-anchored `## Heading` extractor;
  - the readers of the project core and of an agent file;
  - the runnable prompt and the instruction for the prompt compiler;
  - the splitter of the compiler's `===PROMPT===` / `===DOC===` answer.
- the **agent registry** (`lib/agent.ts`):
  - the Markdown generator and parser of an agent file;
  - its path layout;
  - the create / update / delete / list operations over the store of agent files.
- the **projects** (`lib/project.ts`): the core file generator and parser, its
  path layout, and the create / update / get / delete operations over the
  registry and the core files.
- the **system configuration** (`lib/config.ts`): the project registry and the
  active project, changed in place.
- the **agent templates** (`lib/template.ts`): frontmatter parsing, the
  frontmatter strip and `{{AGENT_NAME}}` substitution, lookup, and grouping
  by category.
- the **generate endpoint** (`app/api/generate/route.ts`): the ordered
  request checks and the fall-backs of its answer.

Files:

| file | module |
|---|---|
| `wrappers.dfy` | `Wrappers`: `Option`, `Result`, `Outcome` |
| `text.dfy` | `Text`: the JavaScript string primitives the source relies on. It covers `trim` and the `\s` class (ECMAScript WhiteSpace and LineTerminator), `indexOf`, `split`/`join` and `includes`. |
| `sections.dfy` | `Sections`: `extractSection`, shared by `lib/agent.ts`, `lib/project.ts` and `lib/template.ts`, which use the same regular expressions. It also holds the read-back lemmas for the documents the generators write. |
| `vibeprompt.dfy` | `VibePrompt` |
| `agents.dfy` | `Agents`: the pure part of `lib/agent.ts` |
| `agent_store.dfy` | `AgentStore`: the stateful part of `lib/agent.ts`, as class `Store` |
| `projects.dfy` | `Projects`: `lib/project.ts`, with class `ProjectStore` |
| `config.dfy` | `Config`: `lib/config.ts`, with class `SystemConfig` |
| `templates.dfy` | `Templates` |
| `generate_route.dfy` | `GenerateRoute` |

Regular expressions are not run by an engine. Each pattern the source uses
becomes an explicit scan that finds the same match:

- `^##\s+<h>\s*$` (multiline) for `extractH2Section`;
- `##\s*<name>[\s\S]*?(?=##|$)` (case-insensitive) for `extractSection`;
- `^#\s*Sub-Agent:\s*(.+)$` (multiline) for the agent name in `lib/agent.ts`;
- `^#\s*Sub-Agent:\s*(.+)\s*$` (case-insensitive, on the first line) for the agent name in `readAgent`;
- `^---\n([\s\S]*?)\n---` for frontmatter.

The comments at each scan explain why greedy matching with the stated
backtracking is the match the engine finds.

State lives where the source changes it in place:

- The configuration is a class, `Config.SystemConfig`. Its methods reassign `projects` and `activeProject`.
- The agent files are a `map` field of `AgentStore.Store`, keyed by (project id, agent id).
- The core files are a `map` field of `Projects.ProjectStore`, keyed by project id.
- `path.join` is modelled with its normalisation (`Agents.JoinPath`): empty and `.` segments vanish, and `..` removes the segment before it.
- Distinct keys are distinct files when the ids are single path segments (no `/`, not `.` or `..`). `Agents.AgentPathInjective` and `Projects.ProjectCorePathInjective` prove it for the joined paths. The source does not check the ids on most of these paths, and `Agents.ParentProjectIsDefault` and `Projects.NestedParentDirHoldsAll` show what `..` does there (see Findings).

The loops of `listAgents`, `listTemplates`, `parseTemplateMeta` and
`listTemplatesByCategory` are methods with `while` loops. Each is proved
against a function that states the result.

One place where the code and the design description disagree. An agent
created from a template is described as carrying the template's category.
The code passes the category to `createAgent`, but `generateAgentMd` does
not write it and `parseAgent` does not read it, so the returned agent has
none. The model follows the code: `Templates.CreateAgentFromTemplate`
ensures `r.value.category.None?`.

## Model

| member | source | states |
|---|---|---|
| Text.Trim | lib/vibeprompt.ts:25 | `trim` returns a text that neither starts nor ends with whitespace (the `\s` set) |
| Text.TrimEmpty | lib/vibeprompt.ts:93 | `trim` leaves nothing exactly when the text is only whitespace (`block`'s `if (!c)`) |
| Text.TrimAround | lib/vibeprompt.ts:25 | trimming removes exactly the whitespace around a trimmed core |
| Text.IndexOf | lib/vibeprompt.ts:206 | `indexOf` gives the first occurrence, and `-1` exactly when there is none |
| Text.Split | lib/template.ts:29 | `split` on one character gives at least one part, and no part holds the separator |
| Text.SplitJoin | lib/template.ts:33-35 | splitting and joining with the same separator gives the text back |
| Text.SplitHeadRest | lib/template.ts:33-35 | `[key, ...rest] = line.split(":")`: the key is the text before the first `:`, and `rest.join(":")` is everything after it |
| Sections.SkipSpaces | lib/agent.ts:60 | greedy `\s*` ends at the first non-whitespace character |
| Sections.ExtractSection | lib/agent.ts:59-66 | `extractSection`'s result is trimmed and holds no `##` |
| Sections.NoHeadingNoSection | lib/agent.ts:60-62 | without `##`, whitespace and the name (case-folded) anywhere, the section is `""` |
| Sections.SectionBetween | lib/agent.ts:60-65 | when the first heading for the name spans `[hStart, hEnd)` and the next `##` anywhere (even inside `###`) starts at `bEnd`, the section is `trim(text[hEnd..bEnd])` |
| Sections.FieldSection | lib/agent.ts:59-66 | a section written as `\n\n## title\nvalue` reads back as the rest of the title after the name, then the value, trimmed |
| Sections.FieldOfDoc | lib/agent.ts:90-110 | in a generated document, the first section whose title starts with the literal name reads back. It gives the value when the title is the name, and the rest of the title plus the value when it is the last section. |
| Sections.FieldOfDocNamed | lib/project.ts:63-91 | a generated section reads back under any name whose first heading is that section's |
| Sections.NoFieldOfDoc | lib/agent.ts:79-82 | a generated document with no title starting with the name has no such section |
| Sections.HeadingMismatch | lib/agent.ts:60 | a heading whose title parts from the name (case-folded) is not a heading for it |
| VibePrompt.ReplaceCRLFOnlyDropsCR | lib/vibeprompt.ts:25 | replacing `\r\n` by `\n` removes carriage returns and changes nothing else |
| VibePrompt.ReplaceCRLFNoCR | lib/vibeprompt.ts:25 | text without carriage returns has nothing to replace |
| VibePrompt.NormalizeNewlines | lib/vibeprompt.ts:24-26 | the normalised text is trimmed and no longer than the input |
| VibePrompt.NormalizeNewlinesPlain | lib/vibeprompt.ts:24-26 | trimmed text without carriage returns is left as it is |
| VibePrompt.FindH2 | lib/vibeprompt.ts:30-34 | the heading search returns the leftmost heading line, and none before it matches |
| VibePrompt.NextH2Line | lib/vibeprompt.ts:38 | `rest.search(/^##\s+/m)` finds the first `##` + whitespace line, or the end for `-1` |
| VibePrompt.ExtractH2Section | lib/vibeprompt.ts:28-41 | the result is trimmed, and no line after its start is a `##` + whitespace line |
| VibePrompt.NoH2HeadingEmpty | lib/vibeprompt.ts:29-35 | with no line `##`, whitespace, heading and trailing whitespace, the section is `""` |
| VibePrompt.H2Between | lib/vibeprompt.ts:35-40 | the first heading line wins, and the section is the trimmed text up to the next `##` + whitespace line (`###` lines are kept) |
| VibePrompt.FirstLineName | lib/vibeprompt.ts:70-73 | the name read from the first line is trimmed and a single line |
| VibePrompt.FirstLineNameOfHeader | lib/vibeprompt.ts:70-73 | the line `# Sub-Agent: <name>` gives back a trimmed one-line name |
| VibePrompt.ReadAgent | lib/vibeprompt.ts:63-89 | an id outside `[a-z0-9._-]+` (any case) is an error and any other id reads. The result keeps the id and the normalised text, and a blueprint is never `""`. |
| VibePrompt.ReadProjectCore | lib/vibeprompt.ts:43-52 | the core keeps the normalised text, and its three sections are trimmed |
| VibePrompt.ReadAgentMissesBlueprint | lib/vibeprompt.ts:28-41 | as written, `readAgent` finds no blueprint in a file whose blueprint block has the heading `## Prompt Blueprint (옵션)` |
| VibePrompt.ReadAgentEscapedFindsBlueprint | lib/vibeprompt.ts:78-86 | with the heading matched literally, as the escape intends, the same file reads with its blueprint |
| VibePrompt.Block | lib/vibeprompt.ts:91-95 | `block(t, c)` is `""` exactly when `c` is blank, and otherwise `"## " + t + "\n" + trim(c) + "\n"` |
| VibePrompt.BlockRoundTrip | lib/vibeprompt.ts:91-95 | `extractH2Section(block(t, c), t) == trim(c)` for `##`-free content and a title free of regular-expression metacharacters |
| VibePrompt.CoreSection | lib/vibeprompt.ts:104-110 | an empty core section becomes `## title\n- (비어있음)\n\n`, and any other is its block |
| VibePrompt.AgentField | lib/vibeprompt.ts:119-125 | an empty agent field becomes `## title\n- (비어있음)\n`, and any other is its block |
| VibePrompt.DisplayName | lib/vibeprompt.ts:118 | the header uses `name` when it is defined (even `""`), otherwise `id` |
| VibePrompt.AgentBlueprint | lib/vibeprompt.ts:126-128 | an agent's entry has a blueprint part exactly when its blueprint is a non-empty string |
| VibePrompt.AgentEntries | lib/vibeprompt.ts:116-130 | one entry per agent, in input order |
| VibePrompt.AgentContextSection | lib/vibeprompt.ts:112-132 | no agents gives `# SUB-AGENT CONTEXT\n(없음)\n\n`. Otherwise the heading is followed by the entries joined by blank lines. |
| VibePrompt.AgentsInOrder | lib/vibeprompt.ts:116-131 | agent `i`'s header (its name or id) and entry come before those of any later agent `j` |
| VibePrompt.Blueprints | lib/vibeprompt.ts:134-136 | the collected blueprints are trimmed and non-empty |
| VibePrompt.NoBlueprints | lib/vibeprompt.ts:134-136 | there are no blueprints exactly when no agent has a non-blank blueprint |
| VibePrompt.BlueprintsConcat | lib/vibeprompt.ts:134-136 | collecting blueprints distributes over putting agent lists one after the other |
| VibePrompt.BlueprintInsert | lib/vibeprompt.ts:138-143 | the BLUEPRINTS section is absent exactly when no agent has a non-blank blueprint |
| VibePrompt.BlueprintsNumbered | lib/vibeprompt.ts:142 | `## Blueprint <i+1>` heads the `i`-th non-blank blueprint in agent order, at its offset in the section |
| VibePrompt.ComposeIsLayout | lib/vibeprompt.ts:145-164 | the final `trim() + "\n"` changes nothing: the prompt is SYSTEM CONTEXT, PROJECT CONTEXT, SUB-AGENT CONTEXT, CHANGE REQUEST, the optional BLUEPRINTS and TASK, in that order |
| VibePrompt.LayoutShape | lib/vibeprompt.ts:145-164 | the prompt starts with `# SYSTEM CONTEXT\n` and ends with the task lines and exactly one `\n` |
| VibePrompt.OutputSpecLines | lib/vibeprompt.ts:173-186 | the `===DOC===` line is present exactly in `"prompt+md"` mode, and `===PROMPT===` always |
| VibePrompt.OutputSpecPrefix | lib/vibeprompt.ts:173-186 | the `"prompt"` lines are the first three `"prompt+md"` lines |
| VibePrompt.BuildCompilerInstruction | lib/vibeprompt.ts:167-200 | the instruction is a prefix that depends on the mode only, followed by the base prompt unchanged |
| VibePrompt.SplitCompilerOutput | lib/vibeprompt.ts:202-214 | the prompt is trimmed, and a doc is never empty. Without `===PROMPT===`, the prompt is the whole normalised text and there is no doc. |
| VibePrompt.SplitNormalizedAt | lib/vibeprompt.ts:206-208 | the split happens after the first prompt marker |
| VibePrompt.SplitWithoutDoc | lib/vibeprompt.ts:209-210 | with a prompt marker but no doc marker after it, the prompt is the trimmed rest and there is no doc |
| VibePrompt.SplitAfterPromptNoDoc | lib/vibeprompt.ts:209-210 | the text after the prompt marker without a doc marker gives its trimmed self as the prompt and no doc |
| VibePrompt.SplitAtDocAt | lib/vibeprompt.ts:209-213 | the prompt is the trimmed text before the first doc marker, and the doc is the trimmed text after it |
| VibePrompt.SplitAfterLeadingMarker | lib/vibeprompt.ts:211-213 | a doc marker right after the prompt marker gives an empty prompt and the doc |
| VibePrompt.SplitRoundTrip | lib/vibeprompt.ts:202-214 | `"===PROMPT===\n" + p + "\n===DOC===\n" + d` splits back into `{prompt: p, doc: d}`. This needs `p` and `d` trimmed and free of `\r`, `p` free of markers, and `d` non-empty. |
| Agents.AgentsDir | lib/agent.ts:42-47 | `data/agents` is exactly the default project's directory (two segments), and any other project has `data/projects/<id>/agents` |
| Agents.AgentPath | lib/agent.ts:52-54 | an agent's file is `<id>.md` in its project's agent directory |
| Agents.JoinPath | lib/agent.ts:46 | `path.join` of single-segment names is those names unchanged |
| Agents.ResolveResolved | lib/agent.ts:46 | normalising keeps every segment non-empty, not `.` and free of `/` |
| Agents.JoinResolved | lib/agent.ts:46 | a joined path is normalised: no segment is empty or `.`, and none holds `/` |
| Agents.ParentCancels | lib/agent.ts:46 | a segment followed by `..` cancels out among plain segments |
| Agents.ParentJoin | lib/agent.ts:46 | joining plain segments around `s/..` gives the plain segments alone |
| Agents.AgentsDirInjective | lib/agent.ts:42-47 | two projects whose ids are single segments never share a joined agent directory |
| Agents.AgentPathInjective | lib/agent.ts:42-54 | for a `/`-free agent id and a single-segment project id, the joined path determines the agent and its project |
| Agents.ParentProjectIsDefault | lib/agent.ts:42-54 | as written, the unchecked project id `..` joins to the default project's agent directory, so its agent files are the default project's |
| Agents.TargetProject | lib/agent.ts:117 | `projectId \|\| config.activeProject`: an absent or empty id means the active project |
| Agents.NameMatchAt | lib/agent.ts:73 | a match of `#\s*Sub-Agent:\s*(.+)$` gives a non-empty one-line group |
| Agents.FindNameMatch | lib/agent.ts:73 | the leftmost line that matches is used; with none, no line start matches |
| Agents.AgentName | lib/agent.ts:73-74 | a found name is trimmed and a single line |
| Agents.NameDefaultsToId | lib/agent.ts:74 | with no `# Sub-Agent: X` line the name is the id |
| Agents.NameOfNameLine | lib/agent.ts:71-110 | the name line the generator writes gives the name back |
| Agents.GenerateAgentMdText | lib/agent.ts:90-110 | the file is the name line, then Role, Design Decisions and Constraints (each value, or its placeholder when empty). The `## Prompt Blueprint (옵션)` section comes last, and only when the blueprint is non-empty. |
| Agents.ParseAgent | lib/agent.ts:71-85 | the parsed agent keeps the id and the text and has no category. Its sections are trimmed, and a blueprint is never `""`. |
| Agents.RoleReadsBack | lib/agent.ts:79-94 | the role section of a generated file reads back (or its placeholder) |
| Agents.DesignReadsBack | lib/agent.ts:80-97 | the design decisions read back (or their placeholder) |
| Agents.ConstraintsReadBack | lib/agent.ts:81-100 | the constraints read back (or their placeholder) |
| Agents.NameReadsBack | lib/agent.ts:71-110 | a trimmed one-line non-empty name reads back |
| Agents.ParseGeneratedAgent | lib/agent.ts:71-110 | `parseAgent(id, generateAgentMd(d))` gives back the name and the three sections (placeholders for empty ones). The blueprint comes back with `(옵션)\n` in front. |
| Agents.BlueprintReadsBackPrefixed | lib/agent.ts:82-105 | the blueprint does not read back as written: it gains the rest of the heading, `(옵션)` |
| Agents.BlankNameReadsRoleHeading | lib/agent.ts:73-93 | an empty name does not read back: `\s*` crosses the line end, and the name becomes `## Role` |
| Agents.MergeAgent | lib/agent.ts:219-231 | each field given in the input replaces the old one, and each one left out is kept. The `id` is unchanged, and `raw` is the regenerated Markdown. |
| Agents.MergedAgentReadsBack | lib/agent.ts:219-236 | rereading an updated agent's file gives back the returned name and sections. The category comes back absent. |
| Agents.UpdateGrowsBlueprint | lib/agent.ts:82-231 | an update that changes nothing adds another `(옵션)\n` to the blueprint |
| Agents.RereadUnchanged | lib/agent.ts:219-231 | regenerating an agent read from a file with no change puts `(옵션)\n` in front of its blueprint |
| Agents.ParseAgentWholeHeading | lib/agent.ts:71-85 | `parseAgent` with the blueprint read under its whole heading agrees with `parseAgent` on every other field |
| Agents.WholeHeadingBlueprintReadsBack | lib/agent.ts:102-106 | read under its whole heading, the blueprint of a generated file comes back unchanged |
| Agents.WholeHeadingUpdateKeepsBlueprint | lib/agent.ts:219-231 | with the whole-heading read, an update that changes nothing keeps the blueprint |
| AgentStore.GetAgentIn | lib/agent.ts:159-170 | `getAgent` succeeds exactly when the file exists, giving its parse, and otherwise fails with `Agent not found: <id>` |
| AgentStore.AgentIdOf | lib/agent.ts:126 | stripping `.md` gives the id whose file name it is |
| AgentStore.AgentIds | lib/agent.ts:141-154 | `listAgentIds` gives the ids of the `.md` names in listing order, and `[]` when the listing fails |
| AgentStore.AgentIdsComplete | lib/agent.ts:148-150 | every `.md` name gives an id |
| AgentStore.ListedAgentsAreStored | lib/agent.ts:124-130 | a successful listing holds one agent per `.md` name, in order, each what `getAgent` gives |
| AgentStore.ListedAgentsFail | lib/agent.ts:124-135 | a listing fails exactly when some `.md` name has no file |
| AgentStore.ListedAgentsStayFailed | lib/agent.ts:133-135 | one failed read fails the whole listing, whatever follows |
| AgentStore.Store.CreateAgent | lib/agent.ts:175-205 | a malformed id (not `[a-z0-9.-]+`) and an existing id are rejected, and nothing changes. Otherwise the file is `generateAgentMd(input)` and the result is its parse. |
| AgentStore.Store.UpdateAgent | lib/agent.ts:210-237 | a missing agent fails and nothing changes. Otherwise the merged record's file is written and the merged record returned. |
| AgentStore.Store.DeleteAgent | lib/agent.ts:242-252 | a missing file fails and nothing changes. Otherwise exactly that file is removed. |
| AgentStore.Store.ListAgents | lib/agent.ts:115-136 | the loop gives the parsed `.md` files in listing order, and `[]` when the listing or any read fails |
| Projects.ProjectCorePath | lib/project.ts:40-46 | the default project's core is `data/project.core.md`, and any other's is `data/projects/<id>/project.core.md` |
| Projects.ProjectCorePathInjective | lib/project.ts:40-46 | two projects whose ids are single segments never share a joined core file |
| Projects.ProjectDirHolds | lib/project.ts:218-221 | for single-segment ids, removing the joined `data/projects/<id>` removes that project's core and agent files and no other project's |
| Projects.NestedParentDirHoldsAll | lib/project.ts:210-224 | as written, `deleteProject("x/..")` joins to `data/projects` itself, which holds every other project's core file and agents |
| Projects.Fallback | lib/project.ts:83-89 | a missing or empty field is replaced by its placeholder |
| Projects.GenerateProjectCoreMdText | lib/project.ts:75-91 | the core file is `# Project Core`, then Purpose, Philosophy / Principles and Long-term Direction, then a line break |
| Projects.ParseProjectCore | lib/project.ts:63-70 | the parsed core keeps the text, and its sections are trimmed and `##`-free |
| Projects.PrinciplesHeading | lib/project.ts:66 | `Philosophy\s*/\s*Principles` matches a heading with any whitespace around the slash |
| Projects.PrinciplesTitleHeading | lib/project.ts:66-85 | the generated title `Philosophy / Principles` is a heading for the principles name, ending after the title |
| Projects.PurposeReadsBack | lib/project.ts:65-83 | the purpose of a generated core reads back |
| Projects.PrinciplesReadBack | lib/project.ts:66-86 | the principles read back under the whitespace-tolerant name |
| Projects.DirectionReadsBack | lib/project.ts:67-89 | the direction reads back |
| Projects.ParseGeneratedCore | lib/project.ts:63-91 | `parseProjectCore(generateProjectCoreMd(d))` gives back each field, or its placeholder when the field is missing or empty |
| Projects.DefaultCoreReadsPlaceholders | lib/project.ts:115-117 | the fallback core of a missing file reads as the three placeholders |
| Projects.FindIndex | lib/project.ts:106 | `find`/`findIndex` give the first entry with the id, and none exactly when the id is not registered |
| Projects.FindIndexAppended | lib/config.ts:89-96 | an appended entry with a new id is found at the end |
| Projects.FindIndexReplaced | lib/project.ts:194-200 | replacing the found entry by one with the same id keeps it found at the same index |
| Projects.RenameMeta | lib/project.ts:196-198 | the name changes only for a truthy input name, and the description whenever one is given. The id and creation time stay. |
| Projects.NewMeta | lib/project.ts:145-150 | the new registry entry carries the input's id, name and description |
| Projects.UpdatedProjectsSpec | lib/project.ts:192-202 | the registry update renames at most the found entry. Ids and length are kept. An input without a truthy name or a description leaves the registry as it is. |
| Projects.UpdatedProjectsConsistent | lib/project.ts:192-202 | renaming keeps the registry invariant |
| Projects.WithoutProject | lib/project.ts:218-221 | deleting the directory keeps exactly the agent files of the other projects |
| Projects.UpdatedCoreReadsBack | lib/project.ts:182-186 | each core section after an update is the input value when given, and otherwise the old one (its placeholder when empty) |
| Projects.ProjectStore.GetProject | lib/project.ts:104-123 | an unregistered id fails with `Project not found: <id>`. Otherwise the result is the registry entry with the parse of its core file, or of the fallback core. |
| Projects.ProjectStore.GetActiveProject | lib/project.ts:128-131 | with a consistent registry the active project is always found |
| Projects.ProjectStore.CreateProject | lib/project.ts:136-170 | a malformed id (not `[a-z0-9-]+`) and a registered id are rejected with nothing changed. Otherwise the entry is appended and the generated core written. The project read back is returned, and the invariant kept. |
| Projects.ProjectStore.UpdateProject | lib/project.ts:175-205 | an unknown project fails with nothing changed. Otherwise the merged core is written, the entry renamed as the input asks, and the project read back returned. |
| Projects.ProjectStore.DeleteProject | lib/project.ts:210-225 | `default` always fails with nothing changed. Any other project loses its entry, its core file and all its agents. |
| Config.DefaultConfig | lib/config.ts:24-39 | the defaults satisfy the registry invariant |
| Config.RemoveIdMembers | lib/config.ts:106 | the filter keeps exactly the entries with another id |
| Config.RemoveIdConcat | lib/config.ts:106 | the filter keeps order (it distributes over concatenation) |
| Config.RemoveAbsentId | lib/config.ts:106 | removing an absent id leaves the list unchanged |
| Config.HasProjectAfterRemove | lib/config.ts:106 | an id is registered after removal exactly when it was before and is not the removed one |
| Config.RemoveIdUnique | lib/config.ts:106 | removal keeps ids unique |
| Config.AddProjectSpec | lib/config.ts:89-96 | adding fails exactly on a registered id. Otherwise the entry is appended last and earlier entries are unchanged. Ids stay unique and the invariant is kept. |
| Config.RemoveProjectSpec | lib/config.ts:101-111 | removing `default` fails. Otherwise every entry with the id goes and the rest keep their order. The active project becomes `default` if it was the removed one and is unchanged otherwise. The invariant is kept. |
| Config.SetActiveSpec | lib/config.ts:76-84 | activating fails exactly on an unregistered id. Otherwise only `activeProject` changes. |
| Config.Merge | lib/config.ts:64-71 | the shallow merge takes each top-level key from the update when present and otherwise keeps the current one |
| Config.MergeTwice | lib/config.ts:68 | two merges are one merge with the later keys winning, and repeating a merge changes nothing |
| Config.MergeKeepsConsistent | lib/config.ts:68 | an update without registry keys keeps the invariant |
| Config.SystemConfig.AddProjectMeta | lib/config.ts:89-96 | the stored configuration becomes the added one, or stays on failure, and the invariant is kept |
| Config.SystemConfig.RemoveProjectMeta | lib/config.ts:101-111 | the stored configuration becomes the one with the entry removed, or stays on failure, and the invariant is kept |
| Config.SystemConfig.SetActiveProject | lib/config.ts:76-84 | the stored configuration becomes the activated one, or stays on failure, and the invariant is kept |
| Config.SystemConfig.UpdateConfig | lib/config.ts:64-71 | the stored and returned configuration is the shallow merge |
| Templates.FrontmatterEnd | lib/template.ts:25 | the block must open the text with `---\n`, and its group ends at the first `\n---` after that |
| Templates.Frontmatter | lib/template.ts:25-26 | the captured group is the text between the opening `---\n` and the closing `\n---` |
| Templates.FrontmatterEndOfBlock | lib/template.ts:25 | a block `---\n<fm>\n---` ends where `fm` does when `fm` has no `\n---` |
| Templates.NoFrontmatterNoMeta | lib/template.ts:25-26 | without `---\n` at the start or a later `\n---`, the result is `null` |
| Templates.NoBlock | lib/template.ts:25 | without `---\n` at the start or a later `\n---` there is no block |
| Templates.MetaOfBlock | lib/template.ts:25-44 | a file that opens with a block has that block's metadata |
| Templates.LineEntryAtFirstColon | lib/template.ts:32-37 | a line is split at its first `:`. The key is the trimmed text before it, and the value is the rest (with its colons), trimmed. A line without `:` or with an empty key is skipped. |
| Templates.MetaKeys | lib/template.ts:32-37 | a key is in `meta` exactly when some line sets it |
| Templates.MetaLastWins | lib/template.ts:35 | a later duplicate key overrides an earlier one |
| Templates.MissingKeyIsEmpty | lib/template.ts:39-44 | a key no line sets reads as `""` |
| Templates.ParseTemplateMeta | lib/template.ts:19-45 | the loop fills `meta` exactly as the specification function does |
| Templates.ListedTemplates | lib/template.ts:55-66 | each listed template carries its own file's metadata, with at most one per name |
| Templates.ListTemplates | lib/template.ts:50-72 | the loop gives the `.template.md` files with frontmatter in order, and `[]` on any failure |
| Templates.ListedTemplatesStayFailed | lib/template.ts:55-71 | one failed read fails the whole listing, whatever follows |
| Templates.GetTemplate | lib/template.ts:77-84 | the result is the first template with the id, or `Template not found: <id>` exactly when there is none |
| Templates.StripFrontmatter | lib/template.ts:98-100 | the stripped content is trimmed |
| Templates.StripBlock | lib/template.ts:98-100 | stripping removes exactly the leading block and trims the rest |
| Templates.StripWithoutBlock | lib/template.ts:98-100 | content without a leading block is only trimmed |
| Templates.ReplaceLiteralJoin | lib/template.ts:103-106 | every non-overlapping placeholder, from the left, is replaced, and nothing else changes. Content without the placeholder is unchanged. |
| Templates.ReplaceAgentNameJoin | lib/template.ts:103-106 | for a name without `$` the source's replace is that literal replace |
| Templates.DollarFreeSubstitution | lib/template.ts:105 | a replacement without `$` is inserted as written |
| Templates.DollarFreeReplace | lib/template.ts:103-106 | for a name without `$`, the replace with `$` patterns equals the literal replace |
| Templates.DollarNameKeepsPlaceholder | lib/template.ts:103-106 | the name `$&` puts the placeholder back instead of itself |
| Templates.TemplateAgentInput | lib/template.ts:118-127 | the agent input carries the given id, name and project and the template's category. Its role is trimmed and `##`-free, and an empty blueprint is left out. |
| Templates.CreateAgentFromTemplate | lib/template.ts:89-130 | an unknown template fails. Otherwise the result is `createAgent` on the template's input: the id is kept, there is no category, and a trimmed one-line name reads back. |
| Templates.GroupKey | lib/template.ts:142 | an empty category groups as `uncategorized`, so a key is never empty |
| Templates.InGroup | lib/template.ts:141-147 | a group holds only templates of the input with that key |
| Templates.InGroupEmpty | lib/template.ts:141-147 | a key no template has gets an empty group |
| Templates.GroupedIsFilter | lib/template.ts:139-147 | a category has a group exactly when a template has it, and the group holds its templates in input order |
| Templates.GroupSizes | lib/template.ts:139-147 | the categories are distinct, they are the keys, and the group sizes add up to the number of templates |
| Templates.GroupedOnObject | lib/template.ts:139-147 | grouping on a plain object fails exactly when a category is a name `{}` inherits, and otherwise is the grouping |
| Templates.InheritedCategoryFails | lib/template.ts:143-146 | a template with category `toString` makes the grouping throw |
| Templates.ListTemplatesByCategory | lib/template.ts:135-150 | the loop gives exactly the grouping on a plain object |
| GenerateRoute.Member | app/api/generate/route.ts:46-51 | `body[key]` is defined exactly when the body is an object with that key |
| GenerateRoute.UserInput | app/api/generate/route.ts:50 | the input is trimmed |
| GenerateRoute.Scope | app/api/generate/route.ts:53-55 | only `"project"` and `"agent"` pass |
| GenerateRoute.ChecksInOrder | app/api/generate/route.ts:53-64 | scope, then mode, then input, then agent list: the first failure decides the 400 message, and all passing is accepted |
| GenerateRoute.BlankInputIsEmpty | app/api/generate/route.ts:50-61 | input that is only whitespace reads as empty |
| GenerateRoute.EmptyInputRejected | app/api/generate/route.ts:59-61 | an empty input is rejected once scope and mode pass |
| GenerateRoute.NonArrayAgentsAreEmpty | app/api/generate/route.ts:47-64 | a `selectedAgents` that is not an array counts as missing |
| GenerateRoute.MissingAgentListRejected | app/api/generate/route.ts:62-64 | scope `"agent"` without an array is rejected once the rest passes |
| GenerateRoute.SameFieldsSameAnswer | app/api/generate/route.ts:46-64 | the answer depends on the body only through the four fields |
| GenerateRoute.AgentsLoadedWhenListed | app/api/generate/route.ts:79-82 | agents are read exactly when the scope is `"agent"` or the list is non-empty, which for an accepted request is exactly when the list is non-empty |
| GenerateRoute.StaticHostingFirst | app/api/generate/route.ts:29-37 | static hosting answers 501 before anything else |
| GenerateRoute.NonStringInputThrows | app/api/generate/route.ts:50 | a `userInput` that is neither a string nor `null` throws before any check |
| GenerateRoute.GeneratedPrompt | app/api/generate/route.ts:106 | `generatedPrompt` is the split prompt when it is non-empty, and otherwise the base prompt |
| GenerateRoute.AnswerShape | app/api/generate/route.ts:105-111 | the answer carries a document exactly in `"prompt+md"` mode, and its model is the setting or `gpt-4o-mini` |
| GenerateRoute.MarkedAnswerResponds | app/api/generate/route.ts:103-107 | a two-marker answer's prompt becomes `generatedPrompt`, and its doc becomes `generatedDoc` only in `"prompt+md"` mode |
| GenerateRoute.UnmarkedAnswerResponds | app/api/generate/route.ts:103-107 | an answer without the prompt marker is taken whole (normalised) or falls back to the base prompt, and `generatedDoc` is `""` in `"prompt+md"` mode |

## Left out

- File I/O is not modelled. This covers `readdir`, `readFile`, `writeFile`, `mkdir`, `access`, `unlink`, `rm` and the JSON file behind `getConfig`/`saveConfig`.
  - Directories and files are maps held by the store classes.
  - A directory listing is a parameter, with `None` when it cannot be read.
  - The content of a file read by `readAgent`/`readProjectCore` is a parameter, and a missing file (which throws) is not modelled.
  - `saveConfig` is the in-place change of `Config.SystemConfig` itself.
  - `getConfig` is one of the two constructors: `Default` for a missing file, `FromValue` for a parsed one.
- `createAgent` rethrows errors from `access` other than ENOENT. This is an I/O failure with no counterpart in the map.
- The fall-back aliasing in `getConfig` is left out. It returns the shared `DEFAULT_CONFIG` object, which later calls mutate. It depends on object identity across calls.
- `new Date().toISOString()` is not modelled. The creation time is a parameter (`createdAt`). The agent record's `createdAt` is never set by `lib/agent.ts` and is not modelled.
- `process.env` is not modelled. `NEXT_PUBLIC_BASE_PATH` and the API key's presence are booleans, and `OPENAI_MODEL` is an optional string.
- The OpenAI call is not modelled. `GenerateRoute.Respond` takes its `output_text` as a parameter.
- The framework's answer to an exception that escapes `POST` is not modelled. `GenerateRoute.Thrown` only records that one escapes.
- JSON numbers and booleans in a request body carry no payload. The handler only compares them with strings.
- `listAgentIds` in lib/vibeprompt.ts:54-61 is not modelled. It sorts with the locale-dependent `localeCompare` and filters on directory entry types. The `listAgentIds` of lib/agent.ts is modelled (`AgentStore.AgentIds`).
- `listProjects` (lib/project.ts:96-99) returns the registry's `projects` field as it is. It has no member of its own.
- AgentStore.Store.DeleteAgent, AgentStore.Store.UpdateAgent, AgentStore.GetAgentIn and Projects.ProjectStore.DeleteProject: key files by id, which is the source's behaviour only for ids that are single path segments. The source accepts `/` and `..` in the ids it does not check (project ids on every agent operation, agent ids outside `createAgent`, and `deleteProject`). `path.join` then resolves them to other projects' files, which the stores do not capture (see Findings).
- VibePrompt.BlockRoundTrip: stated only for titles without regular-expression metacharacters. The source splices the title into its pattern unescaped, so for `a+b` it finds no heading line and for `C++` the pattern does not compile.
- The generate endpoint is modelled up to the accepted request and the answer built from the compiler's output. The steps in between are not followed through: loading the agents with `readAgent`, reading the project core, composing the prompt and calling the compiler. The errors they raise, which the handler turns into a 500 with the message, are not modelled. Examples are a listed agent id that fails `readAgent`'s id check, such as an object (its text `[object Object]` is not a valid id), and a missing `data/project.core.md`.
- `readAgent` and `readProjectCore` read the default project's files (`data/agents/<id>.md`, `data/project.core.md`) whatever project is active. The model takes the file content as a parameter, so it does not show that the generate endpoint ignores the active project.
- VibePrompt.ExtractH2Section: covers only headings that start with a visible ASCII character, matched as literals. The source splices the heading into the pattern unescaped, so a heading with metacharacters is modelled by the literal it matches, e.g. `BlueprintHeadingAsMatched` for `Prompt Blueprint (옵션)`.
- Sections.MatchName: case-insensitive matching folds ASCII letters only. This is exact here: every name the source uses is ASCII, and without the `u` flag a non-ASCII character never matches an ASCII one.
- Sections.MatchName: `\s*` is matched greedily without backtracking. This is exact for the names the source uses, where every `\s*` is followed by a literal that is not whitespace.
- Config.SystemConfig.FromValue: accepts any parsed configuration. The registry invariant (`Consistent`) holds after each operation only when it held before, because the source never checks a configuration read from disk.

## Findings

| source | as written | input that shows it | evidently intended | confidence | as-written member | corrected member |
|---|---|---|---|---|---|---|
| lib/agent.ts:82-105 | `parseAgent` reads the blueprint under `Prompt Blueprint`, but `generateAgentMd` writes the heading `## Prompt Blueprint (옵션)`, so the read value starts with `(옵션)\n` | any agent with blueprint `b`, read, then updated with an empty input: the stored blueprint becomes `(옵션)\n(옵션)\nb` | the blueprint reads back as written, and a no-op update keeps it | high (not executed) | Agents.UpdateGrowsBlueprint | Agents.WholeHeadingUpdateKeepsBlueprint |
| lib/vibeprompt.ts:28-41 | the escape in `extractH2Section` never matches, so `(옵션)` becomes a regular-expression group and `readAgent` looks for the line `## Prompt Blueprint 옵션` | an agent file ending in `## Prompt Blueprint (옵션)\nx`: `readAgent` gives no blueprint | the heading is matched literally, and the blueprint `x` is read | high (not executed) | VibePrompt.ReadAgentMissesBlueprint | VibePrompt.ReadAgentEscapedFindsBlueprint |
| lib/agent.ts:42-54 | project ids reach `path.join` unchecked on every agent operation, so `..` climbs out of `data/projects` | `deleteAgent("foo", "..")` unlinks `data/agents/foo.md`, the default project's agent | ids that are single path segments, so distinct ids are distinct files | medium (not executed) | Agents.ParentProjectIsDefault | Agents.AgentPathInjective |
| lib/project.ts:210-224 | `deleteProject` joins its id unchecked and removes the result recursively | `deleteProject("x/..")` removes all of `data/projects` | only the project's own directory is removed | medium (not executed) | Projects.NestedParentDirHoldsAll | Projects.ProjectDirHolds |
| lib/template.ts:103-106 | `replace` with a string replacement interprets `$` patterns in the agent name | agent name `$&` with content `{{AGENT_NAME}}`: the result is `{{AGENT_NAME}}` | the name is inserted literally | medium (not executed) | Templates.DollarNameKeepsPlaceholder | Templates.ReplaceLiteralJoin |
| lib/template.ts:139-147 | `grouped` is a plain object, so `grouped[category]` is already set for names it inherits | a template with category `toString`: `grouped["toString"].push` throws | every template is placed under its category | medium (not executed) | Templates.InheritedCategoryFails | Templates.GroupSizes |
