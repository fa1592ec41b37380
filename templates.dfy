/**
 * The agent templates of lib/template.ts: the `key: value` frontmatter at
 * the head of a template file, the listing and lookup of templates, the
 * frontmatter strip and `{{AGENT_NAME}}` substitution that turn a template
 * into an agent, and the grouping of templates by category.
 */
module Templates {
  import opened Wrappers
  import opened Text
  import opened Sections
  import opened Agents
  import AgentStore

  /** The four frontmatter fields `parseTemplateMeta` returns. */
  datatype TemplateMeta = TemplateMeta(templateId: string, name: string, category: string, description: string)

  /** `AgentTemplate`: the frontmatter fields and the whole file. */
  datatype AgentTemplate = AgentTemplate(
    templateId: string,
    name: string,
    category: string,
    description: string,
    content: string)

  // ---------------------------------------------------------------------
  // The frontmatter block: `/^---\n([\s\S]*?)\n---/`

  const Opening: string := "---\n"
  const Closing: string := "\n---"

  /**
   * Where the lazy group of `/^---\n([\s\S]*?)\n---/` ends: the text must
   * open with `---\n`, and the group runs to the first `\n---` after that.
   */
  function FrontmatterEnd(content: string): (r: Option<nat>)
    ensures r.Some? ==> OccursAt(content, Opening, 0) && 4 <= r.value && OccursAt(content, Closing, r.value)
    ensures r.Some? ==> forall j: nat :: 4 <= j < r.value ==> !OccursAt(content, Closing, j)
    ensures r.None? ==> !OccursAt(content, Opening, 0) || forall j: nat :: 4 <= j ==> !OccursAt(content, Closing, j)
  {
    if OccursAt(content, Opening, 0) then IndexOfFrom(content, Closing, 4) else None
  }

  /** `frontmatterMatch[1]`, or `None` when the expression does not match. */
  function Frontmatter(content: string): (r: Option<string>)
    ensures r.Some? ==> exists j: nat :: FrontmatterEnd(content) == Some(j) && r.value == content[4..j]
  {
    match FrontmatterEnd(content)
    case None => None
    case Some(j) => Some(content[4..j])
  }

  /**
   * A block `---\n<fm>\n---` ends where `fm` does when `fm` holds no `\n---`
   * of its own: an occurrence that starts inside `fm` and runs past it would
   * need the closing newline to be a `-`.
   */
  lemma FrontmatterEndOfBlock(fm: string, rest: string)
    requires !Contains(fm, Closing)
    ensures FrontmatterEnd(Opening + fm + Closing + rest) == Some(4 + |fm|)
  {
    var s := Opening + fm + Closing + rest;
    var e := 4 + |fm|;
    assert s[..4] == Opening;
    assert s[e..e + 4] == Closing;
    forall j: nat | 4 <= j < e ensures !OccursAt(s, Closing, j) {
      if j + 4 <= e {
        assert s[j..j + 4] == fm[j - 4..j];
        assert !OccursAt(fm, Closing, j - 4);
      } else if j + 4 <= |s| {
        assert s[j..j + 4][e - j] == s[e];
      }
    }
    var r := IndexOfFrom(s, Closing, 4);
    assert OccursAt(s, Closing, e);
  }

  // ---------------------------------------------------------------------
  // One frontmatter line: `const [key, ...valueParts] = line.split(":")`

  /**
   * What one line puts into `meta`: nothing unless the text before the
   * first `:` is non-empty and there is a `:`; then the trimmed text before
   * it maps to the trimmed `valueParts.join(":")`.
   */
  function LineEntry(line: string): (e: Option<(string, string)>)
  {
    var parts := Split(line, ':');
    if parts[0] != "" && |parts| > 1 then Some((Trim(parts[0]), Trim(Join(parts[1..], ":")))) else None
  }

  /**
   * A line is split at its first `:` only: the key is the trimmed text in
   * front of it and the value all the rest, trimmed, so colons inside a
   * value survive. A line without `:`, or with `:` first, is skipped.
   */
  lemma LineEntryAtFirstColon(line: string)
    ensures LineEntry(line).Some? <==> ':' in line && FirstIndexOf(line, ':') > 0
    ensures LineEntry(line).Some? ==>
      LineEntry(line).value == (Trim(line[..FirstIndexOf(line, ':')]), Trim(line[FirstIndexOf(line, ':') + 1..]))
  {
    if ':' in line {
      SplitHeadRest(line, ':');
    }
  }

  /** The entry of each line, in order. */
  function Entries(lines: seq<string>): (es: seq<Option<(string, string)>>)
    ensures |es| == |lines|
    ensures forall i :: 0 <= i < |lines| ==> es[i] == LineEntry(lines[i])
  {
    seq(|lines|, i requires 0 <= i < |lines| => LineEntry(lines[i]))
  }

  /** `meta` after the loop: each entry in turn, a later one overwriting an earlier one. */
  function Fill(es: seq<Option<(string, string)>>): (meta: map<string, string>)
  {
    if es == [] then map[]
    else
      var meta := Fill(es[..|es| - 1]);
      match es[|es| - 1]
      case None => meta
      case Some((key, value)) => meta[key := value]
  }

  /** `meta` after the loop over `lines`. */
  function MetaOf(lines: seq<string>): map<string, string> {
    Fill(Entries(lines))
  }

  /** Entry `i` sets `key`. */
  predicate SetsKey(es: seq<Option<(string, string)>>, i: nat, key: string)
    requires i < |es|
  {
    es[i].Some? && es[i].value.0 == key
  }

  /** A key is in `meta` exactly when some line sets it. */
  lemma {:induction false} MetaKeys(es: seq<Option<(string, string)>>, key: string)
    ensures key in Fill(es) <==> exists i: nat :: i < |es| && SetsKey(es, i, key)
    decreases |es|
  {
    if es != [] {
      var init := es[..|es| - 1];
      MetaKeys(init, key);
      if exists i: nat :: i < |init| && SetsKey(init, i, key) {
        var i: nat :| i < |init| && SetsKey(init, i, key);
        assert SetsKey(es, i, key);
      }
      if exists i: nat :: i < |es| && SetsKey(es, i, key) {
        var i: nat :| i < |es| && SetsKey(es, i, key);
        if i < |init| {
          assert SetsKey(init, i, key);
        }
      }
      if key in Fill(es) && key !in Fill(init) {
        assert SetsKey(es, |es| - 1, key);
      }
    }
  }

  /** The last line that sets a key decides its value: a later duplicate overrides an earlier one. */
  lemma {:induction false} MetaLastWins(es: seq<Option<(string, string)>>, i: nat, key: string)
    requires i < |es| && SetsKey(es, i, key)
    requires forall j: nat :: i < j < |es| ==> !SetsKey(es, j, key)
    ensures key in Fill(es) && Fill(es)[key] == es[i].value.1
    decreases |es|
  {
    var init := es[..|es| - 1];
    if i < |es| - 1 {
      forall j: nat | i < j < |init| ensures !SetsKey(init, j, key) {
        assert !SetsKey(es, j, key);
      }
      MetaLastWins(init, i, key);
      assert !SetsKey(es, |es| - 1, key);
    }
  }

  /** `meta.key || ""`: a missing key reads as the empty string, as does an empty value. */
  function Lookup(meta: map<string, string>, key: string): string {
    if key in meta then meta[key] else ""
  }

  /** The fields `parseTemplateMeta` returns from the frontmatter `fm`. */
  function MetaFields(fm: string): TemplateMeta {
    var meta := MetaOf(Split(fm, '\n'));
    TemplateMeta(Lookup(meta, "templateId"), Lookup(meta, "name"), Lookup(meta, "category"), Lookup(meta, "description"))
  }

  /** `parseTemplateMeta(content)`, `None` standing for `null`. */
  function TemplateMetaOf(content: string): (r: Option<TemplateMeta>)
  {
    match Frontmatter(content)
    case None => None
    case Some(fm) => Some(MetaFields(fm))
  }

  /** A key no frontmatter line sets reads as "". */
  lemma MissingKeyIsEmpty(lines: seq<string>, key: string)
    requires forall i: nat :: i < |lines| ==> !SetsKey(Entries(lines), i, key)
    ensures Lookup(MetaOf(lines), key) == ""
  {
    MetaKeys(Entries(lines), key);
  }

  /** Without `---\n` at the very start, or without a later `\n---`, there is no block. */
  lemma NoBlock(content: string)
    requires !OccursAt(content, Opening, 0) || !Contains(content[4..], Closing)
    ensures FrontmatterEnd(content).None?
  {
    if FrontmatterEnd(content).Some? {
      var j := FrontmatterEnd(content).value;
      assert OccursAt(content[4..], Closing, j - 4) by {
        assert content[4..][j - 4..j] == content[j..j + 4];
      }
    }
  }

  /** A file that opens with a frontmatter block has the metadata of that block. */
  lemma MetaOfBlock(fm: string, rest: string)
    requires !Contains(fm, Closing)
    ensures TemplateMetaOf(Opening + fm + Closing + rest) == Some(MetaFields(fm))
  {
    FrontmatterEndOfBlock(fm, rest);
    assert (Opening + fm + Closing + rest)[4..4 + |fm|] == fm;
  }

  /** Without a frontmatter block at the very start there is no metadata (`null`). */
  lemma NoFrontmatterNoMeta(content: string)
    requires !OccursAt(content, Opening, 0) || !Contains(content[4..], Closing)
    ensures TemplateMetaOf(content).None?
  {
    NoBlock(content);
  }

  /** `parseTemplateMeta`: finds the block, then fills `meta` line by line. */
  method ParseTemplateMeta(content: string) returns (r: Option<TemplateMeta>)
    ensures r == TemplateMetaOf(content)
  {
    var fm := Frontmatter(content);
    if fm.None? {
      return None;
    }
    var lines := Split(fm.value, '\n');
    ghost var es := Entries(lines);
    var meta: map<string, string> := map[];
    var i := 0;
    while i < |lines|
      invariant 0 <= i <= |lines|
      invariant meta == Fill(es[..i])
    {
      assert es[..i + 1][..i] == es[..i];
      var entry := LineEntry(lines[i]);
      if entry.Some? {
        meta := meta[entry.value.0 := entry.value.1];
      }
      i := i + 1;
    }
    assert es[..i] == es;
    r := Some(TemplateMeta(Lookup(meta, "templateId"), Lookup(meta, "name"), Lookup(meta, "category"),
                           Lookup(meta, "description")));
  }

  // ---------------------------------------------------------------------
  // listTemplates and getTemplate

  /** A file name `listTemplates` reads: one that ends with `.template.md`. */
  predicate IsTemplateFile(name: string) {
    EndsWith(name, ".template.md")
  }

  /** `{ ...meta, content }`. */
  function WithContent(meta: TemplateMeta, content: string): (t: AgentTemplate)
  {
    AgentTemplate(meta.templateId, meta.name, meta.category, meta.description, content)
  }

  /** The frontmatter fields of a template. */
  function MetaOfTemplate(t: AgentTemplate): TemplateMeta {
    TemplateMeta(t.templateId, t.name, t.category, t.description)
  }

  /**
   * What the loop of `listTemplates` reaches over the names `names` of the
   * directory, whose files are `files`: one template per `.template.md`
   * file with frontmatter, in order, or `None` once a file cannot be read.
   * Each template carries its own file's metadata.
   */
  function ListedTemplates(files: map<string, string>, names: seq<string>): (r: Option<seq<AgentTemplate>>)
    ensures r.Some? ==> forall k :: 0 <= k < |r.value| ==>
      TemplateMetaOf(r.value[k].content) == Some(MetaOfTemplate(r.value[k]))
    ensures r.Some? ==> |r.value| <= |names|
  {
    if names == [] then Some([])
    else
      match ListedTemplates(files, names[..|names| - 1])
      case None => None
      case Some(acc) =>
        var last := names[|names| - 1];
        if !IsTemplateFile(last) then Some(acc)
        else if last !in files then None
        else
          match TemplateMetaOf(files[last])
          case None => Some(acc)
          case Some(meta) => Some(acc + [WithContent(meta, files[last])])
  }

  /**
   * `listTemplates()`: the directory listing (`None` when it cannot be
   * read) walked in order; any failure gives `[]`.
   */
  method ListTemplates(files: map<string, string>, listing: Option<seq<string>>) returns (templates: seq<AgentTemplate>)
    ensures listing.None? ==> templates == []
    ensures listing.Some? && ListedTemplates(files, listing.value).None? ==> templates == []
    ensures listing.Some? && ListedTemplates(files, listing.value).Some? ==>
      templates == ListedTemplates(files, listing.value).value
  {
    if listing.None? {
      return [];
    }
    var names := listing.value;
    templates := [];
    var i := 0;
    while i < |names|
      invariant 0 <= i <= |names|
      invariant ListedTemplates(files, names[..i]) == Some(templates)
    {
      var file := names[i];
      assert names[..i + 1][..i] == names[..i];
      if IsTemplateFile(file) {
        if file !in files {
          assert ListedTemplates(files, names[..i + 1]).None?;
          ListedTemplatesStayFailed(files, names, i + 1);
          return [];
        }
        var meta := ParseTemplateMeta(files[file]);
        if meta.Some? {
          templates := templates + [WithContent(meta.value, files[file])];
        }
      }
      i := i + 1;
    }
    assert names[..i] == names;
  }

  /** Once the listing fails on a prefix, it fails on the whole. */
  lemma {:induction false} ListedTemplatesStayFailed(files: map<string, string>, names: seq<string>, n: nat)
    requires n <= |names| && ListedTemplates(files, names[..n]).None?
    ensures ListedTemplates(files, names).None?
    decreases |names| - n
  {
    if n < |names| {
      assert names[..n + 1][..n] == names[..n];
      ListedTemplatesStayFailed(files, names, n + 1);
    } else {
      assert names[..n] == names;
    }
  }

  /**
   * `getTemplate(templateId)` over the listed templates: the first one with
   * that id, or the error when there is none.
   */
  function GetTemplate(templates: seq<AgentTemplate>, templateId: string): (r: Result<AgentTemplate>)
    ensures r.Ok? <==> exists i :: 0 <= i < |templates| && templates[i].templateId == templateId
    ensures r.Ok? ==> exists i :: 0 <= i < |templates| && templates[i] == r.value && r.value.templateId == templateId
                                  && forall j :: 0 <= j < i ==> templates[j].templateId != templateId
    ensures r.Err? ==> r.message == "Template not found: " + templateId
  {
    if templates == [] then Err("Template not found: " + templateId)
    else if templates[0].templateId == templateId then Ok(templates[0])
    else
      var r := GetTemplate(templates[1..], templateId);
      assert forall i :: 1 <= i < |templates| ==> templates[i] == templates[1..][i - 1];
      r
  }

  // ---------------------------------------------------------------------
  // createAgentFromTemplate: strip the frontmatter, fill in the name

  /**
   * `content.replace(/^---\n[\s\S]*?\n---\n?/, "").trim()`: the same
   * block as `parseTemplateMeta` finds, with one newline after it, is cut
   * off, and the rest trimmed.
   */
  function StripFrontmatter(content: string): (r: string)
    ensures IsTrimmed(r)
  {
    match FrontmatterEnd(content)
    case None => Trim(content)
    case Some(j) =>
      Trim(if j + 4 < |content| && content[j + 4] == '\n' then content[j + 5..] else content[j + 4..])
  }

  /** Content without a leading frontmatter block is only trimmed. */
  lemma StripWithoutBlock(content: string)
    requires !OccursAt(content, Opening, 0) || !Contains(content[4..], Closing)
    ensures StripFrontmatter(content) == Trim(content)
  {
    NoBlock(content);
  }

  /** Stripping removes exactly the leading block: what follows it is kept, trimmed. */
  lemma StripBlock(fm: string, body: string)
    requires !Contains(fm, Closing)
    ensures StripFrontmatter(Opening + fm + Closing + body) == Trim(body)
  {
    var s := Opening + fm + Closing + body;
    FrontmatterEndOfBlock(fm, body);
    assert s[4 + |fm| + 4..] == body;
    if body != [] && body[0] == '\n' {
      assert s[4 + |fm| + 5..] == body[1..];
      assert TrimStart(body) == TrimStart(body[1..]);
    }
  }

  /** The placeholder `/\{\{AGENT_NAME\}\}/g` stands for. */
  const Placeholder: string := "{{AGENT_NAME}}"

  /**
   * The text one match is replaced with when the replacement is a string
   * (GetSubstitution, section 22.1.3.19.1 of ECMAScript 2024, with no
   * capture groups): `$$` is `$`, `$&` the placeholder itself, `` $` `` the
   * text before the match and `$'` the text after it; any other `$` stands
   * for itself.
   */
  function Substitution(rep: string, before: string, after: string): string
    decreases |rep|
  {
    if rep == [] then []
    else if rep[0] == '$' && |rep| >= 2 && rep[1] in "$&`'" then
      (if rep[1] == '$' then "$" else if rep[1] == '&' then Placeholder else if rep[1] == '`' then before else after)
      + Substitution(rep[2..], before, after)
    else [rep[0]] + Substitution(rep[1..], before, after)
  }

  /** A replacement without `$` is inserted as it is. */
  lemma {:induction false} DollarFreeSubstitution(rep: string, before: string, after: string)
    requires '$' !in rep
    ensures Substitution(rep, before, after) == rep
    decreases |rep|
  {
    if rep != [] {
      DollarFreeSubstitution(rep[1..], before, after);
    }
  }

  /**
   * The global replace over the rest `s` of the text, `done` being the text
   * in front of it: each placeholder, from the left, gives way to the
   * substitution, and the scan resumes after it.
   */
  function ReplaceFrom(s: string, rep: string, done: string): string
    decreases |s|
  {
    match IndexOf(s, Placeholder)
    case None => s
    case Some(p) =>
      s[..p] + Substitution(rep, done + s[..p], s[p + |Placeholder|..])
      + ReplaceFrom(s[p + |Placeholder|..], rep, done + s[..p] + Placeholder)
  }

  /** `content.replace(/\{\{AGENT_NAME\}\}/g, agentName)`. */
  function ReplaceAgentName(content: string, agentName: string): string {
    ReplaceFrom(content, agentName, "")
  }

  /** Every placeholder, from the left, replaced by `agentName` as it is. */
  function ReplaceLiteral(s: string, agentName: string): string
    decreases |s|
  {
    match IndexOf(s, Placeholder)
    case None => s
    case Some(p) => s[..p] + agentName + ReplaceLiteral(s[p + |Placeholder|..], agentName)
  }

  /** No character of the placeholder after its second is a `{`. */
  lemma PlaceholderBraces()
    ensures Placeholder[0] == '{' && Placeholder[1] == '{'
    ensures forall k :: 2 <= k < |Placeholder| ==> Placeholder[k] != '{'
  {
  }

  /**
   * In front of a placeholder, a text without one holds none either, not
   * even one that runs into the placeholder: the placeholder has no proper
   * prefix that is also a suffix of it.
   */
  lemma FirstPlaceholder(a: string, rest: string)
    requires !Contains(a, Placeholder)
    ensures IndexOf(a + Placeholder + rest, Placeholder) == Some(|a|)
  {
    var s := a + Placeholder + rest;
    var n := |Placeholder|;
    PlaceholderBraces();
    assert s[|a|..|a| + n] == Placeholder;
    forall j: nat | j < |a| ensures !OccursAt(s, Placeholder, j) {
      if j + n <= |a| {
        assert s[j..j + n] == a[j..j + n];
        assert !OccursAt(a, Placeholder, j);
      } else if j + n <= |s| {
        var d := |a| - j;
        assert s[j..j + n][d] == s[|a|] == '{';
        if d == 1 {
          assert s[j..j + n][2] == s[|a| + 1] == '{';
        }
      }
    }
    assert OccursAt(s, Placeholder, |a|);
  }

  /**
   * With placeholder-free pieces between them, every placeholder is
   * replaced, left to right, and nothing else changes. With one piece:
   * content without the placeholder is unchanged.
   */
  lemma {:induction false} ReplaceLiteralJoin(parts: seq<string>, agentName: string)
    requires forall k :: 0 <= k < |parts| ==> !Contains(parts[k], Placeholder)
    ensures ReplaceLiteral(Join(parts, Placeholder), agentName) == Join(parts, agentName)
    decreases |parts|
  {
    if |parts| == 1 {
      assert IndexOf(parts[0], Placeholder).None?;
    } else if |parts| > 1 {
      var rest := Join(parts[1..], Placeholder);
      FirstPlaceholder(parts[0], rest);
      var s := parts[0] + Placeholder + rest;
      assert Join(parts, Placeholder) == s;
      assert s[..|parts[0]|] == parts[0];
      assert s[|parts[0]| + |Placeholder|..] == rest;
      ReplaceLiteralJoin(parts[1..], agentName);
    }
  }

  /** A name without `$` is inserted as it is: the replace is the literal one. */
  lemma {:induction false} DollarFreeReplace(s: string, agentName: string, done: string)
    requires '$' !in agentName
    ensures ReplaceFrom(s, agentName, done) == ReplaceLiteral(s, agentName)
    decreases |s|
  {
    match IndexOf(s, Placeholder)
    case None =>
    case Some(p) =>
      DollarFreeSubstitution(agentName, done + s[..p], s[p + |Placeholder|..]);
      DollarFreeReplace(s[p + |Placeholder|..], agentName, done + s[..p] + Placeholder);
  }

  /** For a name without `$`, the substitution of `createAgentFromTemplate` replaces every placeholder by the name. */
  lemma ReplaceAgentNameJoin(parts: seq<string>, agentName: string)
    requires forall k :: 0 <= k < |parts| ==> !Contains(parts[k], Placeholder)
    requires '$' !in agentName
    ensures ReplaceAgentName(Join(parts, Placeholder), agentName) == Join(parts, agentName)
  {
    DollarFreeReplace(Join(parts, Placeholder), agentName, "");
    ReplaceLiteralJoin(parts, agentName);
  }

  /** The name `$&` puts the placeholder back: the content keeps `{{AGENT_NAME}}`. */
  lemma DollarNameKeepsPlaceholder()
    ensures ReplaceAgentName(Placeholder, "$&") == Placeholder
    ensures ReplaceLiteral(Placeholder, "$&") == "$&"
  {
    assert IndexOf(Placeholder, Placeholder) == Some(0);
    assert Placeholder[14..] == [];
    assert Substitution("$&", "", "") == Placeholder + Substitution("", "", "");
  }

  /** The text a template turns into: frontmatter stripped, then the name filled in. */
  function AgentText(template: AgentTemplate, agentName: string): string {
    ReplaceAgentName(StripFrontmatter(template.content), agentName)
  }

  /**
   * The `CreateAgentInput` built from a template: the sections read from
   * the agent text with `extractSection`, an empty blueprint left out.
   */
  function TemplateAgentInput(template: AgentTemplate, agentId: string, agentName: string,
                              projectId: Option<string>): (input: CreateAgentInput)
    ensures input.id == agentId && input.name == agentName && input.projectId == projectId
    ensures input.category == Some(template.category)
    ensures IsTrimmed(input.role) && HashFree(input.role)
    ensures input.promptBlueprint.Some? ==> input.promptBlueprint.value != ""
  {
    var text := AgentText(template, agentName);
    var bp := ExtractSection(text, Literal("Prompt Blueprint"));
    CreateAgentInput(
      agentId,
      agentName,
      Some(template.category),
      ExtractSection(text, Literal("Role")),
      ExtractSection(text, Literal("Design Decisions")),
      ExtractSection(text, Literal("Constraints")),
      if bp == "" then None else Some(bp),
      projectId)
  }

  /** The agent file `createAgent` writes for that input. */
  function TemplateAgentFile(input: CreateAgentInput): string {
    GenerateAgentMd(input.name, input.role, input.designDecisions, input.constraints, input.promptBlueprint)
  }

  /**
   * `createAgentFromTemplate(templateId, agentId, agentName, projectId)`:
   * fails when there is no such template; otherwise it is `createAgent` on
   * the input built from the template. The category the input carries is
   * not written to the file, so the returned agent has none; a one-line,
   * trimmed, non-empty name reads back.
   */
  method CreateAgentFromTemplate(store: AgentStore.Store, templates: seq<AgentTemplate>, templateId: string,
                                 agentId: string, agentName: string, projectId: Option<string>,
                                 activeProject: string)
    returns (r: Result<Agent>)
    modifies store
    ensures GetTemplate(templates, templateId).Err? ==>
      r == Err("Template not found: " + templateId) && store.files == old(store.files)
    ensures GetTemplate(templates, templateId).Ok? && !AgentStore.ValidAgentId(agentId) ==>
      r == Err(AgentStore.InvalidAgentId) && store.files == old(store.files)
    ensures GetTemplate(templates, templateId).Ok? && AgentStore.ValidAgentId(agentId)
            && (TargetProject(projectId, activeProject), agentId) in old(store.files) ==>
      r == Err("Agent already exists: " + agentId) && store.files == old(store.files)
    ensures GetTemplate(templates, templateId).Ok? && AgentStore.ValidAgentId(agentId)
            && (TargetProject(projectId, activeProject), agentId) !in old(store.files) ==>
      store.files == old(store.files)[(TargetProject(projectId, activeProject), agentId) :=
        TemplateAgentFile(TemplateAgentInput(GetTemplate(templates, templateId).value, agentId, agentName, projectId))]
      && r == Ok(ParseAgent(agentId, store.files[(TargetProject(projectId, activeProject), agentId)]))
    ensures r.Ok? ==> r.value.id == agentId && r.value.category.None?
    ensures r.Ok? && agentName != [] && IsTrimmed(agentName) && IsSingleLine(agentName) ==> r.value.name == agentName
  {
    var template := GetTemplate(templates, templateId);
    if template.Err? {
      return Err(template.message);
    }
    var input := TemplateAgentInput(template.value, agentId, agentName, projectId);
    r := store.CreateAgent(input, activeProject);
    if r.Ok? && agentName != [] && IsTrimmed(agentName) && IsSingleLine(agentName) {
      NameReadsBack(agentId, agentName, input.role, input.designDecisions, input.constraints, input.promptBlueprint);
    }
  }

  // ---------------------------------------------------------------------
  // listTemplatesByCategory

  /** `template.category || "uncategorized"`. */
  function GroupKey(t: AgentTemplate): (key: string)
    ensures key != ""
  {
    if t.category == "" then "uncategorized" else t.category
  }

  /**
   * The names a plain object `{}` inherits from `Object.prototype`:
   * `grouped[name]` is already set for them, to something without `push`.
   */
  const InheritedKeys: set<string> := {
    "constructor", "hasOwnProperty", "isPrototypeOf", "propertyIsEnumerable", "toString", "valueOf",
    "toLocaleString", "__proto__", "__defineGetter__", "__defineSetter__", "__lookupGetter__", "__lookupSetter__"
  }

  /** The groups of a map keyed by category: each template appended to its category's group in turn. */
  function Grouped(ts: seq<AgentTemplate>): (g: map<string, seq<AgentTemplate>>)
  {
    if ts == [] then map[]
    else
      var g := Grouped(ts[..|ts| - 1]);
      var t := ts[|ts| - 1];
      g[GroupKey(t) := (if GroupKey(t) in g then g[GroupKey(t)] else []) + [t]]
  }

  /** The templates of one category, in input order. */
  function InGroup(ts: seq<AgentTemplate>, key: string): (r: seq<AgentTemplate>)
    ensures |r| <= |ts|
    ensures forall t :: t in r ==> t in ts && GroupKey(t) == key
  {
    if ts == [] then []
    else InGroup(ts[..|ts| - 1], key) + (if GroupKey(ts[|ts| - 1]) == key then [ts[|ts| - 1]] else [])
  }

  /**
   * A category has a group exactly when some template is in it, and the
   * group holds that category's templates in input order, no others.
   */
  lemma {:induction false} GroupedIsFilter(ts: seq<AgentTemplate>, key: string)
    ensures key in Grouped(ts) <==> exists i :: 0 <= i < |ts| && GroupKey(ts[i]) == key
    ensures key in Grouped(ts) ==> Grouped(ts)[key] == InGroup(ts, key)
    decreases |ts|
  {
    if ts != [] {
      var init := ts[..|ts| - 1];
      GroupedIsFilter(init, key);
      if exists i :: 0 <= i < |init| && GroupKey(init[i]) == key {
        var i :| 0 <= i < |init| && GroupKey(init[i]) == key;
        assert ts[i] == init[i];
      }
      if exists i :: 0 <= i < |ts| && GroupKey(ts[i]) == key {
        var i :| 0 <= i < |ts| && GroupKey(ts[i]) == key;
        if i < |init| {
          assert init[i] == ts[i];
        }
      }
      if key !in Grouped(init) {
        InGroupEmpty(init, key);
      }
    }
  }

  /** A category no template has gets an empty group. */
  lemma {:induction false} InGroupEmpty(ts: seq<AgentTemplate>, key: string)
    requires forall i :: 0 <= i < |ts| ==> GroupKey(ts[i]) != key
    ensures InGroup(ts, key) == []
    decreases |ts|
  {
    if ts != [] {
      InGroupEmpty(ts[..|ts| - 1], key);
    }
  }

  /** The categories in order of first appearance, each once. */
  function Categories(ts: seq<AgentTemplate>): (cs: seq<string>)
  {
    if ts == [] then []
    else
      var cs := Categories(ts[..|ts| - 1]);
      if GroupKey(ts[|ts| - 1]) in cs then cs else cs + [GroupKey(ts[|ts| - 1])]
  }

  /** No category is listed twice. */
  predicate Distinct(cs: seq<string>) {
    forall i, j :: 0 <= i < j < |cs| ==> cs[i] != cs[j]
  }

  /** The total size of the groups of `g` named in `cs`. */
  function TotalSize(g: map<string, seq<AgentTemplate>>, cs: seq<string>): nat
  {
    if cs == [] then 0
    else TotalSize(g, cs[..|cs| - 1]) + (if cs[|cs| - 1] in g then |g[cs[|cs| - 1]]| else 0)
  }

  /** Changing a group not named in `cs` does not change their total. */
  lemma {:induction false} TotalSizeOther(g: map<string, seq<AgentTemplate>>, cs: seq<string>, c: string,
                                          v: seq<AgentTemplate>)
    requires c !in cs
    ensures TotalSize(g[c := v], cs) == TotalSize(g, cs)
    decreases |cs|
  {
    if cs != [] {
      TotalSizeOther(g, cs[..|cs| - 1], c, v);
    }
  }

  /** Growing one group named once in `cs` by one grows their total by one. */
  lemma {:induction false} TotalSizeGrow(g: map<string, seq<AgentTemplate>>, cs: seq<string>, c: string,
                                         t: AgentTemplate)
    requires Distinct(cs) && c in cs && c in g
    ensures TotalSize(g[c := g[c] + [t]], cs) == TotalSize(g, cs) + 1
    decreases |cs|
  {
    var init := cs[..|cs| - 1];
    assert Distinct(init);
    if cs[|cs| - 1] == c {
      assert c !in init;
      TotalSizeOther(g, init, c, g[c] + [t]);
    } else {
      assert c in init;
      TotalSizeGrow(g, init, c, t);
    }
  }

  /**
   * Every template is placed exactly once: the categories are distinct,
   * they are the keys of the grouping, and the group sizes add up to the
   * number of templates.
   */
  lemma {:induction false} GroupSizes(ts: seq<AgentTemplate>)
    ensures Distinct(Categories(ts))
    ensures forall c :: c in Categories(ts) <==> c in Grouped(ts)
    ensures TotalSize(Grouped(ts), Categories(ts)) == |ts|
    decreases |ts|
  {
    if ts != [] {
      var init := ts[..|ts| - 1];
      var t := ts[|ts| - 1];
      var c := GroupKey(t);
      GroupSizes(init);
      var g := Grouped(init);
      var cs := Categories(init);
      if c in g {
        TotalSizeGrow(g, cs, c, t);
      } else {
        TotalSizeOther(g, cs, c, [t]);
        var empty: seq<AgentTemplate> := [];
        assert Grouped(ts) == g[c := empty + [t]];
        assert empty + [t] == [t];
        assert Categories(ts) == cs + [c];
        assert (cs + [c])[..|cs|] == cs;
      }
    }
  }

  /**
   * What `listTemplatesByCategory` gives on a plain object: the grouping,
   * unless some category is a name `{}` inherits, on which `push` fails.
   */
  function GroupedOnObject(ts: seq<AgentTemplate>): (r: Result<map<string, seq<AgentTemplate>>>)
    ensures r.Err? <==> exists i :: 0 <= i < |ts| && GroupKey(ts[i]) in InheritedKeys
    ensures r.Ok? ==> r.value == Grouped(ts)
  {
    if exists i :: 0 <= i < |ts| && GroupKey(ts[i]) in InheritedKeys then Err("grouped[category].push is not a function")
    else Ok(Grouped(ts))
  }

  /** A template whose category is `toString` makes the whole grouping fail. */
  lemma InheritedCategoryFails(t: AgentTemplate)
    requires t.category == "toString"
    ensures GroupedOnObject([t]).Err?
    ensures "toString" in Grouped([t]) && Grouped([t])["toString"] == [t]
  {
    assert GroupKey([t][0]) in InheritedKeys;
    assert [t][..0] == [];
  }

  /**
   * `listTemplatesByCategory()` over the listed templates: appends each
   * template to its category's group, and fails as soon as a category is a
   * name the object inherits.
   */
  method ListTemplatesByCategory(templates: seq<AgentTemplate>) returns (r: Result<map<string, seq<AgentTemplate>>>)
    ensures r == GroupedOnObject(templates)
  {
    var grouped: map<string, seq<AgentTemplate>> := map[];
    var i := 0;
    while i < |templates|
      invariant 0 <= i <= |templates|
      invariant grouped == Grouped(templates[..i])
      invariant forall k :: 0 <= k < i ==> GroupKey(templates[k]) !in InheritedKeys
    {
      var template := templates[i];
      var category := GroupKey(template);
      if category in InheritedKeys {
        return Err("grouped[category].push is not a function");
      }
      assert templates[..i + 1][..i] == templates[..i];
      if category !in grouped {
        grouped := grouped[category := []];
      }
      grouped := grouped[category := grouped[category] + [template]];
      i := i + 1;
    }
    assert templates[..i] == templates;
    r := Ok(grouped);
  }
}
