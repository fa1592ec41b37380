/**
 * The projects of lib/project.ts: where a project's core file lives, how
 * the core file is written and read back, and the operations that create,
 * update, look up and delete a project. The registry entries are those of
 * module Config; the core files are a map from project id to Markdown.
 */
module Projects {
  import opened Wrappers
  import opened Text
  import opened Sections
  import opened Config
  import opened Agents
  import AgentStore
  import VibePrompt

  /** `ProjectCore`: the three sections and the text they were read from. */
  type ProjectCore = VibePrompt.ProjectCore

  /** `Project`: the registry entry with its core. */
  datatype Project = Project(meta: ProjectMeta, core: ProjectCore)

  /** `CreateProjectInput`. */
  datatype CreateProjectInput = CreateProjectInput(
    id: string,
    name: string,
    description: Option<string>,
    purpose: Option<string>,
    principles: Option<string>,
    direction: Option<string>)

  /** `UpdateProjectInput`: every field may be left out. */
  datatype UpdateProjectInput = UpdateProjectInput(
    name: Option<string>,
    description: Option<string>,
    purpose: Option<string>,
    principles: Option<string>,
    direction: Option<string>)

  // ---------------------------------------------------------------------
  // Paths

  /** `getProjectCorePath(projectId)`: the default project keeps the first version's place. */
  function ProjectCorePath(projectId: string): (p: Path)
    ensures projectId == DefaultProjectId <==> p == ["data", "project.core.md"]
    ensures projectId != DefaultProjectId ==> p == ProjectDir(projectId) + ["project.core.md"]
  {
    if projectId == DefaultProjectId then ["data", "project.core.md"]
    else ["data", "projects", projectId, "project.core.md"]
  }

  /** The directory `deleteProject` removes: `data/projects/<id>`. */
  function ProjectDir(projectId: string): Path {
    ["data", "projects", projectId]
  }

  /** For a single-segment id, joining leaves the core path as it is. */
  lemma PlainProjectCorePath(projectId: string)
    requires Segment(projectId)
    ensures JoinPath(ProjectCorePath(projectId)) == ProjectCorePath(projectId)
  {
    LiteralSegments();
    var d := ProjectCorePath(projectId);
    assert forall i :: 0 <= i < |d| ==> Segment(d[i]);
  }

  /** For a single-segment id, joining leaves the project directory as it is. */
  lemma PlainProjectDir(projectId: string)
    requires Segment(projectId)
    ensures JoinPath(ProjectDir(projectId)) == ProjectDir(projectId)
  {
    LiteralSegments();
    var d := ProjectDir(projectId);
    assert forall i :: 0 <= i < |d| ==> Segment(d[i]);
  }

  /** Two projects whose ids are single segments never share a core file. */
  lemma ProjectCorePathInjective(p: string, q: string)
    requires Segment(p) && Segment(q)
    requires JoinPath(ProjectCorePath(p)) == JoinPath(ProjectCorePath(q))
    ensures p == q
  {
    PlainProjectCorePath(p);
    PlainProjectCorePath(q);
    if p != DefaultProjectId && q != DefaultProjectId {
      assert ProjectCorePath(p)[2] == p && ProjectCorePath(q)[2] == q;
    }
  }

  /** `path` lies inside the directory `dir`. */
  predicate Under(path: Path, dir: Path) {
    |dir| <= |path| && path[..|dir|] == dir
  }

  /** On unjoined segment lists, `data/projects/<id>` holds that project's files and no other's. */
  lemma SegmentsUnderProjectDir(id: string, agentId: string, p: string)
    requires id != DefaultProjectId
    ensures Under(AgentPath(agentId, p), ProjectDir(id)) <==> p == id
    ensures Under(ProjectCorePath(p), ProjectDir(id)) <==> p == id
  {
    var a := AgentPath(agentId, p);
    assert a[..|a| - 1] == AgentsDir(p);
    if p == DefaultProjectId {
      assert a[1] == "agents" != "projects";
      assert ProjectCorePath(p)[1] == "project.core.md" != "projects";
      assert !Under(ProjectCorePath(p), ProjectDir(id));
    } else {
      assert a[..3] == ["data", "projects", p];
      assert ProjectCorePath(p)[..3] == ["data", "projects", p];
    }
  }

  /**
   * Removing `data/projects/<id>` removes the core file of that project and
   * the agent files of that project, and no other project's files, when the
   * ids are single segments.
   */
  lemma ProjectDirHolds(id: string, agentId: string, p: string)
    requires id != DefaultProjectId && Segment(id) && Segment(p) && '/' !in agentId
    ensures Under(JoinPath(AgentPath(agentId, p)), JoinPath(ProjectDir(id))) <==> p == id
    ensures Under(JoinPath(ProjectCorePath(p)), JoinPath(ProjectDir(id))) <==> p == id
  {
    PlainAgentPath(agentId, p);
    PlainProjectCorePath(p);
    PlainProjectDir(id);
    SegmentsUnderProjectDir(id, agentId, p);
  }

  /** `x/..` falls apart at its one `/`. */
  lemma SplitParent(x: string)
    requires '/' !in x
    ensures Split(x + "/..", '/') == [x, ".."]
  {
    var s := x + "/..";
    assert s == x + ['/'] + "..";
    FirstIndexOfJoined(x, '/', "..");
    assert s[..|x|] == x && s[|x| + 1..] == "..";
  }

  /**
   * As written, `deleteProject` joins the id unchecked: for `x/..` the
   * directory it removes is `data/projects` itself, which holds the core file
   * and the agents of every other project.
   */
  lemma NestedParentDirHoldsAll(x: string, p: string, agentId: string)
    requires Segment(x) && Segment(p) && p != DefaultProjectId && '/' !in agentId
    ensures JoinPath(ProjectDir(x + "/..")) == ["data", "projects"]
    ensures Under(JoinPath(ProjectCorePath(p)), JoinPath(ProjectDir(x + "/..")))
    ensures Under(JoinPath(AgentPath(agentId, p)), JoinPath(ProjectDir(x + "/..")))
  {
    LiteralSegments();
    var d := ProjectDir(x + "/..");
    SplitParent(x);
    assert Pieces(d) == ["data"] + Pieces(d[1..]);
    assert Pieces(d[1..]) == ["projects"] + Pieces(d[2..]);
    assert Pieces(d[2..]) == [x, ".."] + Pieces([]);
    assert Pieces(d) == ["data", "projects"] + [x, ".."] + [];
    ParentCancels([], ["data", "projects"], x, []);
    PlainAgentPath(agentId, p);
    PlainProjectCorePath(p);
    assert AgentPath(agentId, p)[..2] == ["data", "projects"];
    assert ProjectCorePath(p)[..2] == ["data", "projects"];
  }

  // ---------------------------------------------------------------------
  // The core file

  const CoreHead: string := "# Project Core"
  const PurposeTitle: string := "Purpose"
  const PrinciplesTitle: string := "Philosophy / Principles"
  const DirectionTitle: string := "Long-term Direction"
  const PurposePlaceholder: string := "- (프로젝트 목적을 정의하세요)"
  const PrinciplesPlaceholder: string := "- (설계 원칙을 정의하세요)"
  const DirectionPlaceholder: string := "- (장기 방향성을 정의하세요)"

  /** `value || placeholder` on an optional string. */
  function Fallback(value: Option<string>, placeholder: string): (r: string)
    ensures Truthy(value) ==> r == value.value
    ensures !Truthy(value) ==> r == placeholder
  {
    if Truthy(value) then value.value else placeholder
  }

  /** The three sections of a core file, in the order they are written. */
  function CoreSections(purpose: Option<string>, principles: Option<string>, direction: Option<string>)
    : seq<(string, string)>
  {
    [(PurposeTitle, Fallback(purpose, PurposePlaceholder)),
     (PrinciplesTitle, Fallback(principles, PrinciplesPlaceholder)),
     (DirectionTitle, Fallback(direction, DirectionPlaceholder))]
  }

  /** `generateProjectCoreMd(data)`: the heading line, the three sections and a final line break. */
  function GenerateProjectCoreMd(purpose: Option<string>, principles: Option<string>, direction: Option<string>)
    : string
  {
    Doc(CoreHead, CoreSections(purpose, principles, direction), "\n")
  }

  /** The core file, section by section. */
  lemma GenerateProjectCoreMdText(purpose: Option<string>, principles: Option<string>, direction: Option<string>)
    ensures GenerateProjectCoreMd(purpose, principles, direction)
         == CoreHead + Field(PurposeTitle, Fallback(purpose, PurposePlaceholder))
            + Field(PrinciplesTitle, Fallback(principles, PrinciplesPlaceholder))
            + Field(DirectionTitle, Fallback(direction, DirectionPlaceholder)) + "\n"
  {
    var fs := CoreSections(purpose, principles, direction);
    FieldsOfThree(fs[0], fs[1], fs[2]);
    assert fs == [fs[0], fs[1], fs[2]];
    var x0, x1, x2 := Field(fs[0].0, fs[0].1), Field(fs[1].0, fs[1].1), Field(fs[2].0, fs[2].1);
    ConcatAssoc(CoreHead, x0 + x1 + x2, "\n");
    ConcatAssoc(CoreHead, x0 + x1, x2);
    ConcatAssoc(CoreHead, x0, x1);
  }

  /**
   * The principles heading as the source searches it,
   * `Philosophy\s*\/\s*Principles`: any whitespace around the slash.
   */
  const PrinciplesName: SectionName := Literal("Philosophy") + PrinciplesTail

  /** `parseProjectCore(content)`. */
  function ParseProjectCore(content: string): (c: ProjectCore)
    ensures c.raw == content
    ensures IsTrimmed(c.purpose) && IsTrimmed(c.principles) && IsTrimmed(c.direction)
    ensures HashFree(c.purpose) && HashFree(c.principles) && HashFree(c.direction)
  {
    VibePrompt.ProjectCore(
      ExtractSection(content, Literal(PurposeTitle)),
      ExtractSection(content, PrinciplesName),
      ExtractSection(content, Literal(DirectionTitle)),
      content)
  }

  // ---------------------------------------------------------------------
  // Reading a generated core file back

  /** `\s*` skips exactly a run of whitespace that a visible character ends. */
  lemma {:induction false} SkipSpacesOver(s: string, i: nat, w: string)
    requires i + |w| <= |s| && s[i..i + |w|] == w && IsBlank(w)
    requires i + |w| == |s| || !IsSpace(s[i + |w|])
    ensures SkipSpaces(s, i) == i + |w|
    decreases |w|
  {
    if w != [] {
      assert s[i] == w[0];
      assert s[i + 1..i + 1 + |w[1..]|] == w[1..];
      SkipSpacesOver(s, i + 1, w[1..]);
    }
  }

  /** A slice that spells `x + y` spells `x` and then `y`. */
  lemma SliceConcat(s: string, i: nat, x: string, y: string)
    requires i + |x| + |y| <= |s| && s[i..i + |x| + |y|] == x + y
    ensures s[i..i + |x|] == x && s[i + |x|..i + |x| + |y|] == y
  {
    assert s[i..i + |x|] == s[i..i + |x| + |y|][..|x|];
    assert s[i + |x|..i + |x| + |y|] == s[i..i + |x| + |y|][|x|..];
  }

  /** `\s*` from `i` stops at `j` when `s[i..j]` is blank and a visible character follows. */
  lemma SkipSpacesTo(s: string, i: nat, j: nat, w: string)
    requires j == i + |w| && j < |s| && s[i..j] == w && IsBlank(w) && !IsSpace(s[j])
    ensures SkipSpaces(s, i) == j
  {
    SkipSpacesOver(s, i, w);
  }

  /** Matching `\s*\/\s*` from `i` when the whitespace runs end at the slash `j` and at `e`. */
  lemma SlashMatch(s: string, i: nat, j: nat, e: nat)
    requires i <= j < e <= |s| && s[j] == '/'
    requires SkipSpaces(s, i) == j && SkipSpaces(s, j + 1) == e
    ensures MatchName(s, i, [Spaces, Lit('/'), Spaces]) == Some(e)
  {
    assert [Spaces, Lit('/'), Spaces] == [Spaces] + ([Lit('/')] + [Spaces]);
    MatchSpacesHead(s, i, [Lit('/')] + [Spaces]);
    MatchLitHead(s, j, '/', [Spaces]);
    MatchSpacesOnly(s, j + 1);
  }

  /** After `##` and a run of whitespace, a heading is matched from the first visible character on. */
  lemma HeadingAfterSpaces(s: string, i: nat, w0: string, name: SectionName)
    requires IsBlank(w0) && i + 2 + |w0| < |s| && !IsSpace(s[i + 2 + |w0|])
    requires s[i..i + 2] == "##" && s[i + 2..i + 2 + |w0|] == w0
    ensures HeadingEnd(s, i, name) == MatchName(s, i + 2 + |w0|, name)
  {
    assert s[i] == '#' && s[i + 1] == '#';
    SkipSpacesOver(s, i + 2, w0);
    assert HeadingEnd(s, i, name) == MatchName(s, SkipSpaces(s, i + 2), name);
    MatchNameFrom(s, SkipSpaces(s, i + 2), i + 2 + |w0|, name);
  }

  /** Matching a name depends on where it starts only. */
  lemma MatchNameFrom(s: string, a: nat, b: nat, name: SectionName)
    requires a == b <= |s|
    ensures MatchName(s, a, name) == MatchName(s, b, name)
  {
  }

  /** What follows `Philosophy` in the principles name. */
  const PrinciplesTail: SectionName := [Spaces, Lit('/'), Spaces] + Literal("Principles")

  /** A name `<x>\s*\/\s*<y>` matches `x`, the spaced slash, then `y`. */
  lemma SpacedSlashMatch(s: string, p: nat, a: nat, j: nat, b: nat, f: nat, x: string, y: string, w1: string, w2: string)
    requires a == p + |x| && j == a + |w1| && b == j + 1 + |w2| && f == b + |y| <= |s| && s[j] == '/'
    requires s[p..a] == x && s[a..j] == w1 && s[j + 1..b] == w2 && s[b..b + |y|] == y
    requires IsBlank(w1) && IsBlank(w2)
    requires y != [] && !IsSpace(y[0])
    ensures MatchName(s, p, Literal(x) + ([Spaces, Lit('/'), Spaces] + Literal(y))) == Some(f)
  {
    MatchLiteralTo(s, p, a, x);
    MatchNameThen(s, p, Literal(x), [Spaces, Lit('/'), Spaces] + Literal(y), a);
    assert s[b] == y[0] by {
      assert s[b..b + |y|][0] == y[0];
    }
    VisibleChar('/');
    SkipSpacesTo(s, a, j, w1);
    SkipSpacesTo(s, j + 1, b, w2);
    SlashMatch(s, a, j, b);
    MatchNameThen(s, a, [Spaces, Lit('/'), Spaces], Literal(y), b);
    MatchLiteralTo(s, b, f, y);
  }

  /** A heading `##`, whitespace, `<x>`, whitespace, `/`, whitespace, `<y>` is one for `<x>\s*\/\s*<y>`. */
  lemma SpacedSlashHeading(s: string, i: nat, x: string, y: string, w0: string, w1: string, w2: string, h: string)
    requires IsBlank(w0) && IsBlank(w1) && IsBlank(w2)
    requires x != [] && !IsSpace(x[0]) && y != [] && !IsSpace(y[0])
    requires h == "##" + (w0 + (x + ((w1 + ("/" + w2)) + y)))
    requires i + |h| <= |s| && s[i..i + |h|] == h
    ensures HeadingEnd(s, i, Literal(x) + ([Spaces, Lit('/'), Spaces] + Literal(y))) == Some(i + |h|)
  {
    SlashHeadingSlices(s, i, x, y, w0, w1, w2, h, i + 2 + |w0|);
    SlashTailMatch(s, i + 2 + |w0|, x, y, w1, w2);
    HeadingAfterSpaces(s, i, w0, Literal(x) + ([Spaces, Lit('/'), Spaces] + Literal(y)));
  }

  /** `<x>`, whitespace, `/`, whitespace, `<y>` at `p` matches the spaced-slash name. */
  lemma SlashTailMatch(s: string, p: nat, x: string, y: string, w1: string, w2: string)
    requires IsBlank(w1) && IsBlank(w2) && x != [] && y != [] && !IsSpace(y[0])
    requires p + |x| + |w1 + ("/" + w2)| + |y| <= |s|
    requires s[p..p + |x| + |w1 + ("/" + w2)| + |y|] == x + ((w1 + ("/" + w2)) + y)
    ensures s[p] == x[0]
    ensures MatchName(s, p, Literal(x) + ([Spaces, Lit('/'), Spaces] + Literal(y)))
         == Some(p + |x| + |w1 + ("/" + w2)| + |y|)
  {
    SlashHeadingTail(s, p, x, y, w1, w2);
    assert s[p] == s[p..p + |x|][0] == x[0];
    SpacedSlashMatch(s, p, p + |x|, p + |x| + |w1|, p + |x| + |w1| + 1 + |w2|,
      p + |x| + |w1 + ("/" + w2)| + |y|, x, y, w1, w2);
  }

  /** Where the parts of a `## <x> / <y>` heading sit in `s`. */
  lemma SlashHeadingSlices(s: string, i: nat, x: string, y: string, w0: string, w1: string, w2: string, h: string, p: nat)
    requires h == "##" + (w0 + (x + ((w1 + ("/" + w2)) + y)))
    requires i + |h| <= |s| && s[i..i + |h|] == h && p == i + 2 + |w0|
    ensures s[i..i + 2] == "##" && s[i + 2..p] == w0
    ensures s[p..p + |x| + |w1 + ("/" + w2)| + |y|] == x + ((w1 + ("/" + w2)) + y)
  {
    SliceConcat(s, i, "##", w0 + (x + ((w1 + ("/" + w2)) + y)));
    SliceConcat(s, i + 2, w0, x + ((w1 + ("/" + w2)) + y));
  }

  /** Where the parts of `<x> / <y>` sit in `s`. */
  lemma SlashHeadingTail(s: string, p: nat, x: string, y: string, w1: string, w2: string)
    requires p + |x| + |w1 + ("/" + w2)| + |y| <= |s|
    requires s[p..p + |x| + |w1 + ("/" + w2)| + |y|] == x + ((w1 + ("/" + w2)) + y)
    ensures s[p..p + |x|] == x && s[p + |x|..p + |x| + |w1|] == w1
    ensures s[p + |x| + |w1|] == '/'
    ensures s[p + |x| + |w1| + 1..p + |x| + |w1| + 1 + |w2|] == w2
    ensures s[p + |x| + |w1| + 1 + |w2|..p + |x| + |w1| + 1 + |w2| + |y|] == y
  {
    SliceConcat(s, p, x, (w1 + ("/" + w2)) + y);
    SliceConcat(s, p + |x|, w1 + ("/" + w2), y);
    SliceConcat(s, p + |x|, w1, "/" + w2);
    SliceConcat(s, p + |x| + |w1|, "/", w2);
    assert s[p + |x| + |w1|] == s[p + |x| + |w1|..p + |x| + |w1| + 1][0];
  }

  /**
   * A heading `##`, whitespace, `Philosophy`, whitespace, `/`, whitespace,
   * `Principles` is a heading for the principles section, whatever the
   * whitespace.
   */
  lemma PrinciplesHeading(s: string, i: nat, w0: string, w1: string, w2: string, h: string)
    requires IsBlank(w0) && IsBlank(w1) && IsBlank(w2)
    requires h == "##" + (w0 + ("Philosophy" + ((w1 + ("/" + w2)) + "Principles")))
    requires i + |h| <= |s| && s[i..i + |h|] == h
    ensures HeadingEnd(s, i, PrinciplesName) == Some(i + |h|)
  {
    VisibleChar('P');
    SpacedSlashHeading(s, i, "Philosophy", "Principles", w0, w1, w2, h);
  }

  /** The heading the generator writes is one of them. */
  lemma PrinciplesTitleHeading(s: string, i: nat)
    requires i + 3 + |PrinciplesTitle| <= |s| && s[i..i + 3 + |PrinciplesTitle|] == "## " + PrinciplesTitle
    ensures HeadingEnd(s, i, PrinciplesName) == Some(i + 3 + |PrinciplesTitle|)
  {
    var h := "##" + (" " + ("Philosophy" + ((" " + ("/" + " ")) + "Principles")));
    assert h == "## " + PrinciplesTitle;
    PrinciplesHeading(s, i, " ", " ", " ", h);
  }

  /** The titles and placeholders of a core file hold no `##` and start visibly. */
  lemma CoreSectionsGood(purpose: Option<string>, principles: Option<string>, direction: Option<string>)
    requires purpose.Some? ==> HashFree(purpose.value)
    requires principles.Some? ==> HashFree(principles.value)
    requires direction.Some? ==> HashFree(direction.value)
    ensures GoodFields(CoreSections(purpose, principles, direction))
    ensures HashFree(CoreHead)
  {
    VisibleChar('P');
    VisibleChar('L');
    assert HashFree(PurposeTitle) && HashFree(PrinciplesTitle) && HashFree(DirectionTitle);
    assert HashFree(PurposePlaceholder) && HashFree(PrinciplesPlaceholder) && HashFree(DirectionPlaceholder);
    assert HashFree(CoreHead);
  }

  /** The placeholders read back unchanged. */
  lemma CorePlaceholdersAreValues()
    ensures SectionValue(PurposePlaceholder) && SectionValue(PrinciplesPlaceholder) && SectionValue(DirectionPlaceholder)
  {
    VisibleChar('-');
    VisibleChar(')');
    assert HashFree(PurposePlaceholder) && HashFree(PrinciplesPlaceholder) && HashFree(DirectionPlaceholder);
  }

  /** A field value that reads back: the given value when it is one, else the placeholder. */
  lemma FallbackIsValue(value: Option<string>, placeholder: string)
    requires value.Some? ==> SectionValue(value.value)
    requires SectionValue(placeholder)
    ensures SectionValue(Fallback(value, placeholder))
  {
  }

  /** The purpose section of a generated core file reads back. */
  lemma PurposeReadsBack(purpose: Option<string>, principles: Option<string>, direction: Option<string>)
    requires purpose.Some? ==> SectionValue(purpose.value)
    requires principles.Some? ==> HashFree(principles.value)
    requires direction.Some? ==> HashFree(direction.value)
    ensures ExtractSection(GenerateProjectCoreMd(purpose, principles, direction), Literal(PurposeTitle))
         == Fallback(purpose, PurposePlaceholder)
  {
    var fs := CoreSections(purpose, principles, direction);
    assert GoodFields(fs) && HashFree(CoreHead) by { CoreSectionsGood(purpose, principles, direction); }
    assert IsTrimmed(fs[0].1) by { CorePlaceholdersAreValues(); }
    assert IsBlank("\n");
    assert fs[0].0[..|PurposeTitle|] == PurposeTitle;
    FieldOfDoc(CoreHead, fs, "\n", 0, PurposeTitle);
  }

  /** The direction section of a generated core file reads back. */
  lemma DirectionReadsBack(purpose: Option<string>, principles: Option<string>, direction: Option<string>)
    requires purpose.Some? ==> HashFree(purpose.value)
    requires principles.Some? ==> HashFree(principles.value)
    requires direction.Some? ==> SectionValue(direction.value)
    ensures ExtractSection(GenerateProjectCoreMd(purpose, principles, direction), Literal(DirectionTitle))
         == Fallback(direction, DirectionPlaceholder)
  {
    var fs := CoreSections(purpose, principles, direction);
    assert GoodFields(fs) && HashFree(CoreHead) by { CoreSectionsGood(purpose, principles, direction); }
    assert IsTrimmed(fs[2].1) by { CorePlaceholdersAreValues(); }
    assert IsBlank("\n");
    assert fs[2].0[..|DirectionTitle|] == DirectionTitle;
    assert forall j :: 0 <= j < 2 ==> Differs(fs[j].0, DirectionTitle) by {
      assert DiffersAt(PurposeTitle, DirectionTitle, 0) && DiffersAt(PrinciplesTitle, DirectionTitle, 0);
    }
    FieldOfDoc(CoreHead, fs, "\n", 2, DirectionTitle);
  }

  /** No principles heading starts before the second section when the first title parts from `Philosophy`. */
  lemma NoPrinciplesHeadingFirst(head: string, fs: seq<(string, string)>, tail: string)
    requires 2 <= |fs| && GoodFields(fs) && HashFree(head) && (tail == [] || tail[0] != '#')
    requires 2 <= |fs[0].0| && fs[0].0[0] == 'P' && Fold(fs[0].0[1]) != 'h'
    ensures NoHeadingBefore(Doc(head, fs, tail), |head| + |Fields(fs[..1])|, PrinciplesName)
  {
    NoHeadingInHead(head, fs, tail, PrinciplesName);
    assert PrinciplesName == Literal("Ph") + PrinciplesName[2..];
    NoHeadingStepNamed(head, fs, tail, 0, "Ph", PrinciplesName[2..]);
  }

  /** A section titled `Philosophy / Principles` opens with a principles heading. */
  lemma PrinciplesHeadingInDoc(head: string, fs: seq<(string, string)>, tail: string, i: nat)
    requires i < |fs| && fs[i].0 == PrinciplesTitle
    ensures |head| + |Fields(fs[..i])| + 2 <= |Doc(head, fs, tail)|
    ensures HeadingEnd(Doc(head, fs, tail), |head| + |Fields(fs[..i])| + 2, PrinciplesName)
         == Some(|head| + |Fields(fs[..i])| + 5 + |fs[i].0|)
  {
    FieldHeadingInDoc(head, fs, tail, i);
    PrinciplesTitleHeading(Doc(head, fs, tail), |head| + |Fields(fs[..i])| + 2);
  }

  /**
   * In a document whose second section is titled `Philosophy / Principles`
   * and whose first title parts from `Philosophy` at its second character,
   * the principles section reads back.
   */
  lemma PrinciplesOfDoc(head: string, fs: seq<(string, string)>, tail: string)
    requires 2 <= |fs| && GoodFields(fs) && HashFree(head) && IsBlank(tail)
    requires 2 <= |fs[0].0| && fs[0].0[0] == 'P' && Fold(fs[0].0[1]) != 'h'
    requires fs[1].0 == PrinciplesTitle && IsTrimmed(fs[1].1)
    ensures ExtractSection(Doc(head, fs, tail), PrinciplesName) == fs[1].1
  {
    assert tail == [] || tail[0] != '#' by { if tail != [] { assert IsSpace(tail[0]); } }
    NoPrinciplesHeadingFirst(head, fs, tail);
    PrinciplesHeadingInDoc(head, fs, tail, 1);
    FieldOfDocNamed(head, fs, tail, 1, PrinciplesName);
  }

  /** The principles section of a generated core file reads back under its whitespace-tolerant name. */
  lemma PrinciplesReadBack(purpose: Option<string>, principles: Option<string>, direction: Option<string>)
    requires purpose.Some? ==> HashFree(purpose.value)
    requires principles.Some? ==> SectionValue(principles.value)
    requires direction.Some? ==> HashFree(direction.value)
    ensures ExtractSection(GenerateProjectCoreMd(purpose, principles, direction), PrinciplesName)
         == Fallback(principles, PrinciplesPlaceholder)
  {
    var fs := CoreSections(purpose, principles, direction);
    assert GoodFields(fs) && HashFree(CoreHead) by { CoreSectionsGood(purpose, principles, direction); }
    assert IsTrimmed(fs[1].1) by { CorePlaceholdersAreValues(); }
    assert IsBlank("\n");
    assert fs[0].0 == PurposeTitle && fs[1].0 == PrinciplesTitle;
    PrinciplesOfDoc(CoreHead, fs, "\n");
  }

  /**
   * A generated core file reads back: each section is the value given for
   * it, or its placeholder when the value is missing or empty.
   */
  lemma ParseGeneratedCore(purpose: Option<string>, principles: Option<string>, direction: Option<string>)
    requires purpose.Some? ==> SectionValue(purpose.value)
    requires principles.Some? ==> SectionValue(principles.value)
    requires direction.Some? ==> SectionValue(direction.value)
    ensures ParseProjectCore(GenerateProjectCoreMd(purpose, principles, direction))
         == VibePrompt.ProjectCore(Fallback(purpose, PurposePlaceholder), Fallback(principles, PrinciplesPlaceholder),
                                   Fallback(direction, DirectionPlaceholder),
                                   GenerateProjectCoreMd(purpose, principles, direction))
  {
    PurposeReadsBack(purpose, principles, direction);
    PrinciplesReadBack(purpose, principles, direction);
    DirectionReadsBack(purpose, principles, direction);
  }

  /** The core `getProject` falls back to when the file is missing: every section is its placeholder. */
  lemma DefaultCoreReadsPlaceholders()
    ensures ParseProjectCore(GenerateProjectCoreMd(None, None, None)).purpose == PurposePlaceholder
    ensures ParseProjectCore(GenerateProjectCoreMd(None, None, None)).principles == PrinciplesPlaceholder
    ensures ParseProjectCore(GenerateProjectCoreMd(None, None, None)).direction == DirectionPlaceholder
  {
    ParseGeneratedCore(None, None, None);
  }

  // ---------------------------------------------------------------------
  // The registry operations

  /** A character `[a-z0-9-]` accepts. */
  predicate IsProjectIdChar(c: char) {
    ('a' <= c <= 'z') || ('0' <= c <= '9') || c == '-'
  }

  /** `/^[a-z0-9-]+$/.test(id)`. */
  predicate ValidProjectId(id: string) {
    id != [] && forall i :: 0 <= i < |id| ==> IsProjectIdChar(id[i])
  }

  const InvalidProjectId: string := "Project ID must be lowercase alphanumeric with hyphens only"

  /** `projects.findIndex((p) => p.id === id)`, and the entry `find` returns: the first with that id. */
  function FindIndex(projects: seq<ProjectMeta>, id: string): (r: Option<nat>)
    ensures r.None? <==> !HasProject(projects, id)
    ensures r.Some? ==> r.value < |projects| && projects[r.value].id == id
    ensures r.Some? ==> forall j :: 0 <= j < r.value ==> projects[j].id != id
  {
    if projects == [] then None
    else if projects[0].id == id then Some(0)
    else
      match FindIndex(projects[1..], id)
      case None =>
        assert forall j :: 0 <= j < |projects| ==> projects[j].id != id by {
          forall j | 0 <= j < |projects| ensures projects[j].id != id {
            if j > 0 { assert projects[j] == projects[1..][j - 1]; }
          }
        }
        None
      case Some(k) =>
        assert projects[k + 1] == projects[1..][k];
        assert forall j :: 0 <= j < k + 1 ==> projects[j].id != id by {
          forall j | 0 <= j < k + 1 ensures projects[j].id != id {
            if j > 0 { assert projects[j] == projects[1..][j - 1]; }
          }
        }
        Some(k + 1)
  }

  /** The entry appended for a new id is the one found for it. */
  lemma FindIndexAppended(projects: seq<ProjectMeta>, meta: ProjectMeta)
    requires !HasProject(projects, meta.id)
    ensures FindIndex(projects + [meta], meta.id) == Some(|projects|)
  {
    var ps := projects + [meta];
    assert ps[|projects|].id == meta.id;
    assert ps[..|projects|] == projects;
  }

  /** Replacing the found entry by one with the same id keeps it the one found. */
  lemma FindIndexReplaced(projects: seq<ProjectMeta>, id: string, k: nat, meta: ProjectMeta)
    requires FindIndex(projects, id) == Some(k) && meta.id == id
    ensures FindIndex(projects[k := meta], id) == Some(k)
  {
    var ps := projects[k := meta];
    assert ps[k].id == id;
    assert forall j :: 0 <= j < k ==> ps[j] == projects[j];
  }

  /** The entry of a new project. */
  function NewMeta(input: CreateProjectInput, createdAt: string): (m: ProjectMeta)
    ensures m.id == input.id && m.name == input.name && m.description == input.description
  {
    ProjectMeta(input.id, input.name, input.description, createdAt)
  }

  /**
   * The in-place change `updateProject` makes to the entry: the name when
   * the input name is truthy, the description whenever one is given.
   */
  function RenameMeta(meta: ProjectMeta, input: UpdateProjectInput): (m: ProjectMeta)
    ensures m.id == meta.id && m.createdAt == meta.createdAt
    ensures m.name == (if Truthy(input.name) then input.name.value else meta.name)
    ensures m.description == CoalesceOption(input.description, meta.description)
  {
    meta.(name := if Truthy(input.name) then input.name.value else meta.name,
          description := CoalesceOption(input.description, meta.description))
  }

  /** The registry after `updateProject`: the found entry renamed, when the input touches the entry. */
  function UpdatedProjects(projects: seq<ProjectMeta>, projectId: string, input: UpdateProjectInput)
    : (r: seq<ProjectMeta>)
  {
    if Truthy(input.name) || input.description.Some? then
      match FindIndex(projects, projectId)
      case None => projects
      case Some(k) => projects[k := RenameMeta(projects[k], input)]
    else projects
  }

  /**
   * Updating the registry renames at most the found entry: ids, length and
   * every other entry stay, and an input without a truthy name or a
   * description leaves the registry as it is.
   */
  lemma UpdatedProjectsSpec(projects: seq<ProjectMeta>, projectId: string, input: UpdateProjectInput)
    ensures |UpdatedProjects(projects, projectId, input)| == |projects|
    ensures forall j :: 0 <= j < |projects| ==> UpdatedProjects(projects, projectId, input)[j].id == projects[j].id
    ensures forall j :: 0 <= j < |projects| && Some(j) != FindIndex(projects, projectId) ==>
      UpdatedProjects(projects, projectId, input)[j] == projects[j]
    ensures !Truthy(input.name) && input.description.None? ==> UpdatedProjects(projects, projectId, input) == projects
    ensures FindIndex(projects, projectId).Some? ==>
      FindIndex(UpdatedProjects(projects, projectId, input), projectId) == FindIndex(projects, projectId)
      && UpdatedProjects(projects, projectId, input)[FindIndex(projects, projectId).value]
         == RenameMeta(projects[FindIndex(projects, projectId).value], input)
  {
    var f := FindIndex(projects, projectId);
    if f.Some? && (Truthy(input.name) || input.description.Some?) {
      FindIndexReplaced(projects, projectId, f.value, RenameMeta(projects[f.value], input));
    }
    if f.Some? && !(Truthy(input.name) || input.description.Some?) {
      assert projects[f.value] == RenameMeta(projects[f.value], input);
    }
  }

  /** Renaming entries keeps the registry invariant. */
  lemma UpdatedProjectsConsistent(c: ConfigValue, projectId: string, input: UpdateProjectInput)
    requires Consistent(c)
    ensures Consistent(c.(projects := UpdatedProjects(c.projects, projectId, input)))
  {
    var ps := UpdatedProjects(c.projects, projectId, input);
    UpdatedProjectsSpec(c.projects, projectId, input);
    forall id | HasProject(c.projects, id) ensures HasProject(ps, id) {
      var i :| 0 <= i < |c.projects| && c.projects[i].id == id;
      assert ps[i].id == id;
    }
  }

  /** The agent files that survive removing `data/projects/<id>`: those of the other projects. */
  function WithoutProject(files: map<AgentStore.Key, string>, projectId: string): (r: map<AgentStore.Key, string>)
    ensures forall k :: k in r <==> k in files && k.0 != projectId
    ensures forall k :: k in r ==> r[k] == files[k]
  {
    map k | k in files && k.0 != projectId :: files[k]
  }

  /** The core file `updateProject` writes: each section the input gives, else the one read from the old file. */
  function UpdatedCoreMd(core: ProjectCore, input: UpdateProjectInput): string {
    GenerateProjectCoreMd(Some(Coalesce(input.purpose, core.purpose)),
                          Some(Coalesce(input.principles, core.principles)),
                          Some(Coalesce(input.direction, core.direction)))
  }

  /**
   * The updated core reads back field by field: a section given in the
   * input replaces the old one, a section left out keeps the old one, and
   * a section that ends up empty reads as its placeholder.
   */
  lemma UpdatedCoreReadsBack(core: ProjectCore, input: UpdateProjectInput)
    requires SectionValue(core.purpose) && SectionValue(core.principles) && SectionValue(core.direction)
    requires input.purpose.Some? ==> SectionValue(input.purpose.value)
    requires input.principles.Some? ==> SectionValue(input.principles.value)
    requires input.direction.Some? ==> SectionValue(input.direction.value)
    ensures ParseProjectCore(UpdatedCoreMd(core, input)).purpose
         == OrElse(Coalesce(input.purpose, core.purpose), PurposePlaceholder)
    ensures ParseProjectCore(UpdatedCoreMd(core, input)).principles
         == OrElse(Coalesce(input.principles, core.principles), PrinciplesPlaceholder)
    ensures ParseProjectCore(UpdatedCoreMd(core, input)).direction
         == OrElse(Coalesce(input.direction, core.direction), DirectionPlaceholder)
  {
    ParseGeneratedCore(Some(Coalesce(input.purpose, core.purpose)),
                       Some(Coalesce(input.principles, core.principles)),
                       Some(Coalesce(input.direction, core.direction)));
  }

  /**
   * The projects: the registry (`config.json`), the core files by project
   * id and the agent files, which deleting a project also removes.
   */
  class ProjectStore {
    const config: SystemConfig
    const agents: AgentStore.Store
    var cores: map<string, string>

    /** A data directory with no core file yet. */
    constructor(config: SystemConfig, agents: AgentStore.Store)
      ensures this.config == config && this.agents == agents && cores == map[]
    {
      this.config := config;
      this.agents := agents;
      cores := map[];
    }

    /** The core file of a project, or the generated default when it cannot be read. */
    function CoreContent(projectId: string): string
      reads this
    {
      if projectId in cores then cores[projectId] else GenerateProjectCoreMd(None, None, None)
    }

    /** `getProject(projectId)`. */
    function GetProject(projectId: string): (r: Result<Project>)
      reads this, config
      ensures r.Err? <==> !HasProject(config.projects, projectId)
      ensures r.Err? ==> r.message == "Project not found: " + projectId
      ensures r.Ok? ==> r.value.meta.id == projectId && r.value.meta in config.projects
      ensures r.Ok? ==> r.value.core == ParseProjectCore(CoreContent(projectId))
    {
      match FindIndex(config.projects, projectId)
      case None => Err("Project not found: " + projectId)
      case Some(k) => Ok(Project(config.projects[k], ParseProjectCore(CoreContent(projectId))))
    }

    /** `getActiveProject()`: with a consistent registry it always succeeds. */
    function GetActiveProject(): (r: Result<Project>)
      reads this, config
      ensures Consistent(config.Value()) ==> r.Ok? && r.value.meta.id == config.activeProject
    {
      GetProject(config.activeProject)
    }

    /**
     * `createProject(input)`: rejects a malformed id, then an id already
     * registered; otherwise registers the entry, writes the core file and
     * returns the project read back.
     */
    method CreateProject(input: CreateProjectInput, createdAt: string) returns (r: Result<Project>)
      modifies this, config
      ensures !ValidProjectId(input.id)
        ==> r == Err(InvalidProjectId) && config.Value() == old(config.Value()) && cores == old(cores)
      ensures ValidProjectId(input.id) && HasProject(old(config.projects), input.id)
        ==> r == Err("Project already exists: " + input.id)
            && config.Value() == old(config.Value()) && cores == old(cores)
      ensures ValidProjectId(input.id) && !HasProject(old(config.projects), input.id)
        ==> config.Value() == old(config.Value()).(projects := old(config.projects) + [NewMeta(input, createdAt)])
            && cores == old(cores)[input.id := GenerateProjectCoreMd(input.purpose, input.principles, input.direction)]
            && r == Ok(Project(NewMeta(input, createdAt), ParseProjectCore(cores[input.id])))
      ensures r.Ok? ==> GetProject(input.id) == r
      ensures old(Consistent(config.Value())) ==> Consistent(config.Value())
    {
      if !ValidProjectId(input.id) {
        return Err(InvalidProjectId);
      }
      var meta := NewMeta(input, createdAt);
      AddProjectSpec(config.Value(), meta);
      var added := config.AddProjectMeta(meta);
      if added.Failed? {
        return Err(added.message);
      }
      var content := GenerateProjectCoreMd(input.purpose, input.principles, input.direction);
      cores := cores[input.id := content];
      FindIndexAppended(old(config.projects), meta);
      r := Ok(Project(meta, ParseProjectCore(content)));
    }

    /**
     * `updateProject(projectId, input)`: fails for an unknown project;
     * otherwise rewrites the core file from the merged sections, renames
     * the registry entry when the input asks for it and returns the project
     * read back.
     */
    method UpdateProject(projectId: string, input: UpdateProjectInput) returns (r: Result<Project>)
      modifies this, config
      ensures old(GetProject(projectId)).Err?
        ==> r == Err("Project not found: " + projectId) && config.Value() == old(config.Value()) && cores == old(cores)
      ensures old(GetProject(projectId)).Ok?
        ==> cores == old(cores)[projectId := UpdatedCoreMd(old(GetProject(projectId)).value.core, input)]
            && config.Value() == old(config.Value()).(projects := UpdatedProjects(old(config.projects), projectId, input))
            && r == Ok(Project(RenameMeta(old(GetProject(projectId)).value.meta, input),
                               ParseProjectCore(UpdatedCoreMd(old(GetProject(projectId)).value.core, input))))
      ensures old(Consistent(config.Value())) ==> Consistent(config.Value())
    {
      var found := GetProject(projectId);
      if found.Err? {
        return Err(found.message);
      }
      var k := FindIndex(config.projects, projectId).value;
      assert found.value.meta == config.projects[k];
      var newCore := UpdatedCoreMd(found.value.core, input);
      cores := cores[projectId := newCore];
      UpdatedProjectsSpec(config.projects, projectId, input);
      if Consistent(config.Value()) {
        UpdatedProjectsConsistent(config.Value(), projectId, input);
      }
      config.projects := UpdatedProjects(config.projects, projectId, input);
      assert FindIndex(config.projects, projectId) == Some(k);
      assert config.projects[k] == RenameMeta(found.value.meta, input);
      assert CoreContent(projectId) == newCore;
      r := GetProject(projectId);
    }

    /**
     * `deleteProject(projectId)`: the default project cannot be deleted;
     * any other loses its registry entry, its core file and its agents.
     */
    method DeleteProject(projectId: string) returns (r: Outcome)
      modifies this, config, agents
      ensures projectId == DefaultProjectId
        ==> r == Failed("Cannot delete default project") && config.Value() == old(config.Value())
            && cores == old(cores) && agents.files == old(agents.files)
      ensures projectId != DefaultProjectId
        ==> r == Done && config.Value() == RemoveProject(old(config.Value()), projectId).value
            && cores == old(cores) - {projectId}
            && agents.files == WithoutProject(old(agents.files), projectId)
      ensures projectId != DefaultProjectId ==> GetProject(projectId).Err?
      ensures old(Consistent(config.Value())) ==> Consistent(config.Value())
    {
      if projectId == DefaultProjectId {
        return Failed("Cannot delete default project");
      }
      RemoveProjectSpec(config.Value(), projectId);
      HasProjectAfterRemove(config.projects, projectId, projectId);
      var removed := config.RemoveProjectMeta(projectId);
      cores := cores - {projectId};
      agents.files := WithoutProject(agents.files, projectId);
      r := removed;
    }
  }
}
