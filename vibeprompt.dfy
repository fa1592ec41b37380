/**
 * The prompt builder of lib/vibeprompt.ts: newline normalisation, the
 * line-anchored `## Heading` extractor, the readers of the project core and
 * of an agent file (over the file's text), the runnable prompt, the
 * instruction for the prompt compiler and the splitter of its output.
 */
module VibePrompt {
  import opened Wrappers
  import opened Text
  import Sections

  /** An agent as the prompt builder sees it (`AgentContext`). */
  datatype AgentContext = AgentContext(
    id: string,
    name: Option<string>,
    role: string,
    designDecisions: string,
    constraints: string,
    promptBlueprint: Option<string>,
    raw: string)

  /** The three sections of the project core (`ProjectCore`). */
  datatype ProjectCore = ProjectCore(purpose: string, principles: string, direction: string, raw: string)

  /** `OutputMode`: `"prompt"` or `"prompt+md"`. */
  datatype OutputMode = Prompt | PromptMd

  // ---------------------------------------------------------------------
  // normalizeNewlines

  /** `s.replace(/\r\n/g, "\n")`: every CR LF pair, scanning left to right, becomes LF. */
  function ReplaceCRLF(s: string): (r: string)
    ensures |r| <= |s|
  {
    if |s| >= 2 && s[0] == '\r' && s[1] == '\n' then "\n" + ReplaceCRLF(s[2..])
    else if s == [] then []
    else [s[0]] + ReplaceCRLF(s[1..])
  }

  /** Text without carriage returns has no CR LF pair to replace. */
  lemma {:induction false} ReplaceCRLFNoCR(s: string)
    requires NoCR(s)
    ensures ReplaceCRLF(s) == s
    decreases |s|
  {
    if s != [] {
      assert s[0] != '\r';
      assert NoCR(s[1..]);
      ReplaceCRLFNoCR(s[1..]);
      assert s == [s[0]] + s[1..];
    }
  }

  /** `s` without its carriage returns. */
  function DropCR(s: string): string {
    if s == [] then [] else (if s[0] == '\r' then [] else [s[0]]) + DropCR(s[1..])
  }

  lemma {:induction false} DropCRConcat(a: string, b: string)
    ensures DropCR(a + b) == DropCR(a) + DropCR(b)
    decreases |a|
  {
    if a == [] {
      assert a + b == b;
    } else {
      assert (a + b)[1..] == a[1..] + b;
      DropCRConcat(a[1..], b);
    }
  }

  /** Replacing CR LF by LF removes carriage returns and nothing else. */
  lemma {:induction false} ReplaceCRLFOnlyDropsCR(s: string)
    ensures DropCR(ReplaceCRLF(s)) == DropCR(s)
    decreases |s|
  {
    if |s| >= 2 && s[0] == '\r' && s[1] == '\n' {
      ReplaceCRLFOnlyDropsCR(s[2..]);
      DropCRConcat("\n", ReplaceCRLF(s[2..]));
      assert s == "\r\n" + s[2..];
      DropCRConcat("\r\n", s[2..]);
    } else if s != [] {
      ReplaceCRLFOnlyDropsCR(s[1..]);
      DropCRConcat([s[0]], ReplaceCRLF(s[1..]));
      assert s == [s[0]] + s[1..];
      DropCRConcat([s[0]], s[1..]);
    }
  }

  /** `normalizeNewlines(s)`: CR LF to LF, then trim. */
  function NormalizeNewlines(s: string): (r: string)
    ensures IsTrimmed(r) && |r| <= |s|
  {
    var t := ReplaceCRLF(s);
    assert |Trim(t)| <= |t| by { assert |TrimEnd(TrimStart(t))| <= |TrimStart(t)|; }
    Trim(t)
  }

  /** Text without carriage returns that is already trimmed is left as it is. */
  lemma NormalizeNewlinesPlain(s: string)
    requires NoCR(s) && IsTrimmed(s)
    ensures NormalizeNewlines(s) == s
  {
    ReplaceCRLFNoCR(s);
    TrimTrimmed(s);
  }

  /** Without carriage returns, normalising is trimming. */
  lemma NormalizeNewlinesNoCR(s: string)
    requires NoCR(s)
    ensures NormalizeNewlines(s) == Trim(s)
  {
    ReplaceCRLFNoCR(s);
  }

  // ---------------------------------------------------------------------
  // extractH2Section

  /**
   * Backtracking `\s*$` after a greedy run that reached `k`: the last position
   * in `[e, k]` where `$` holds.
   */
  function LastLineEnd(s: string, e: nat, k: nat): (r: Option<nat>)
    requires e <= k <= |s|
    ensures r.Some? ==> e <= r.value <= k && LineEnd(s, r.value)
    ensures forall p: nat :: e <= p <= k && (r.None? || r.value < p) ==> !LineEnd(s, p)
    decreases k
  {
    if LineEnd(s, k) then Some(k) else if k == e then None else LastLineEnd(s, e, k - 1)
  }

  /**
   * A heading usable as a literal: it starts with a printable ASCII
   * character other than the space (so not with whitespace, and a greedy
   * `\s+` in front of it never has to give characters back).
   */
  predicate PlainHeading(h: string) {
    h != [] && '!' <= h[0] <= '~'
  }

  /** The characters the escape in `extractH2Section` was meant to escape. */
  const RegexSpecials: string := ".*+?^${}()|[]\\"

  /**
   * A heading the unescaped pattern matches as itself: it holds no regular
   * expression metacharacter.
   */
  predicate MetaFree(h: string) {
    forall k :: 0 <= k < |h| ==> h[k] !in RegexSpecials
  }

  /**
   * `^##\s+<h>\s*$` (multiline, case-sensitive) tried at `i`: the end of the
   * match, if there is one.
   */
  function H2HeadingEnd(s: string, i: nat, h: string): (r: Option<nat>)
    requires i <= |s| && PlainHeading(h)
    ensures r.Some? ==> LineStart(s, i) && Sections.HashPairAt(s, i) && i + 3 + |h| <= r.value <= |s|
    ensures r.Some? ==> LineEnd(s, r.value)
  {
    if LineStart(s, i) && Sections.HashPairAt(s, i) then
      var j := Sections.SkipSpaces(s, i + 2);
      if j > i + 2 && j + |h| <= |s| && s[j..j + |h|] == h then
        var e := j + |h|;
        LastLineEnd(s, e, Sections.SkipSpaces(s, e))
      else None
    else None
  }

  /** The leftmost heading line for `h` at or after `from`: its start and the end of the match. */
  function FindH2(s: string, h: string, from: nat): (r: Option<(nat, nat)>)
    requires from <= |s| && PlainHeading(h)
    ensures r.Some? ==> from <= r.value.0 <= |s| && H2HeadingEnd(s, r.value.0, h) == Some(r.value.1)
    ensures forall j: nat :: from <= j <= |s| && (r.None? || j < r.value.0) ==> H2HeadingEnd(s, j, h).None?
    decreases |s| - from
  {
    match H2HeadingEnd(s, from, h)
    case Some(e) => Some((from, e))
    case None => if from == |s| then None else FindH2(s, h, from + 1)
  }

  /** `^##\s+` (multiline) at `t`: a line that starts a new level-two section. */
  predicate H2LineAt(s: string, t: nat) {
    t + 2 < |s| && LineStart(s, t) && Sections.HashPairAt(s, t) && IsSpace(s[t + 2])
  }

  /** `rest.search(/^##\s+/m)` from `from`: the first such line, or the end of the text for -1. */
  function NextH2Line(s: string, from: nat): (t: nat)
    requires from <= |s|
    ensures from <= t <= |s|
    ensures t == |s| || H2LineAt(s, t)
    ensures forall k: nat :: from <= k < t ==> !H2LineAt(s, k)
    decreases |s| - from
  {
    if from == |s| || H2LineAt(s, from) then from else NextH2Line(s, from + 1)
  }

  /**
   * `extractH2Section(md, heading)` for a heading without regular
   * expression metacharacters: the first line `## <heading>` (whitespace
   * after `##` and at the end allowed) of the normalised text, and the
   * trimmed text from there to the next line that starts with `##` and
   * whitespace. A line `### x` does not end the section.
   */
  function ExtractH2Section(md: string, h: string): (r: string)
    requires PlainHeading(h)
    ensures IsTrimmed(r)
    ensures forall t: nat :: 0 < t < |r| ==> !H2LineAt(r, t)
  {
    var src := NormalizeNewlines(md);
    match FindH2(src, h, 0)
    case None => ""
    case Some((i, p)) =>
      var rest := src[p..];
      var body := rest[..NextH2Line(rest, 0)];
      assert forall t: nat :: 0 < t < |Trim(body)| ==> !H2LineAt(Trim(body), t) by {
        NoH2LineInside(rest, NextH2Line(rest, 0));
      }
      Trim(body)
  }

  /** Without a heading line for `h` in the normalised text the section is empty. */
  lemma NoH2HeadingEmpty(md: string, h: string)
    requires PlainHeading(h)
    requires forall i: nat :: i <= |NormalizeNewlines(md)| ==> H2HeadingEnd(NormalizeNewlines(md), i, h).None?
    ensures ExtractH2Section(md, h) == ""
  {
  }

  /** Trimming the text before the first heading line cannot bring one to light past position 0. */
  lemma NoH2LineInside(rest: string, stop: nat)
    requires stop <= |rest|
    requires forall k: nat :: k < stop ==> !H2LineAt(rest, k)
    ensures var r := Trim(rest[..stop]); forall t: nat :: 0 < t < |r| ==> !H2LineAt(r, t)
  {
    var body := rest[..stop];
    var k := TrimIsSlice(body);
    var r := Trim(body);
    forall t: nat | 0 < t < |r| ensures !H2LineAt(r, t) {
      if t + 2 < |r| {
        assert r == body[k..k + |r|];
        assert k + t + 2 < stop;
        assert r[t - 1] == rest[k + t - 1] && r[t] == rest[k + t];
        assert r[t + 1] == rest[k + t + 1] && r[t + 2] == rest[k + t + 2];
        assert !H2LineAt(rest, k + t);
      }
    }
  }

  /**
   * What `extractH2Section` returns, stated without the search: when the
   * first heading line for `h` in the normalised text `s` ends at `hEnd`
   * and the next `##` line after it starts at `bEnd` (or the text ends
   * there), the section is the trimmed text in between.
   */
  lemma H2Between(md: string, h: string, hStart: nat, hEnd: nat, bEnd: nat)
    requires PlainHeading(h)
    requires hStart <= hEnd <= bEnd <= |NormalizeNewlines(md)|
    requires forall j: nat :: j < hStart ==> H2HeadingEnd(NormalizeNewlines(md), j, h).None?
    requires H2HeadingEnd(NormalizeNewlines(md), hStart, h) == Some(hEnd)
    requires forall j: nat :: hEnd < j < bEnd ==> !H2LineAt(NormalizeNewlines(md), j)
    requires bEnd == |NormalizeNewlines(md)| || (hEnd < bEnd && H2LineAt(NormalizeNewlines(md), bEnd))
    ensures ExtractH2Section(md, h) == Trim(NormalizeNewlines(md)[hEnd..bEnd])
  {
    FindH2Least(NormalizeNewlines(md), h, hStart, hEnd);
    H2Cut(md, h, hStart, hEnd, bEnd);
  }

  /** `H2Between` once the heading search is known to stop at `hStart`. */
  lemma H2Cut(md: string, h: string, hStart: nat, hEnd: nat, bEnd: nat)
    requires PlainHeading(h)
    requires hStart <= hEnd <= bEnd <= |NormalizeNewlines(md)|
    requires FindH2(NormalizeNewlines(md), h, 0) == Some((hStart, hEnd))
    requires forall j: nat :: hEnd < j < bEnd ==> !H2LineAt(NormalizeNewlines(md), j)
    requires bEnd == |NormalizeNewlines(md)| || (hEnd < bEnd && H2LineAt(NormalizeNewlines(md), bEnd))
    ensures ExtractH2Section(md, h) == Trim(NormalizeNewlines(md)[hEnd..bEnd])
  {
    RestStop(NormalizeNewlines(md), hEnd, bEnd);
    H2At(md, h, hStart, hEnd, bEnd);
  }

  /** The section once the heading match and the next `##` line are known. */
  lemma H2At(md: string, h: string, i: nat, p: nat, q: nat)
    requires PlainHeading(h) && p <= q <= |NormalizeNewlines(md)|
    requires FindH2(NormalizeNewlines(md), h, 0) == Some((i, p))
    requires NextH2Line(NormalizeNewlines(md)[p..], 0) == q - p
    ensures ExtractH2Section(md, h) == Trim(NormalizeNewlines(md)[p..q])
  {
    var v := FindH2(NormalizeNewlines(md), h, 0).value;
    assert ExtractH2Section(md, h)
        == Trim(NormalizeNewlines(md)[v.1..][..NextH2Line(NormalizeNewlines(md)[v.1..], 0)]);
    assert v.1 == p;
    TrimDropTake(NormalizeNewlines(md), p, q);
  }

  /** After a heading match ending at `hEnd`, the next `##` line of the rest is the one at `bEnd`. */
  lemma RestStop(s: string, hEnd: nat, bEnd: nat)
    requires hEnd <= bEnd <= |s| && LineEnd(s, hEnd)
    requires forall j: nat :: hEnd < j < bEnd ==> !H2LineAt(s, j)
    requires bEnd == |s| || (hEnd < bEnd && H2LineAt(s, bEnd))
    ensures NextH2Line(s[hEnd..], 0) == bEnd - hEnd
  {
    var rest := s[hEnd..];
    var stop := bEnd - hEnd;
    forall t: nat | t < stop ensures !H2LineAt(rest, t) {
      RestLine(s, hEnd, t);
    }
    if stop < |rest| {
      RestLine(s, hEnd, stop);
    }
    NextH2LineLeast(rest, stop);
  }

  /** The search for a heading line stops at the first one. */
  lemma FindH2Least(s: string, h: string, i: nat, e: nat)
    requires PlainHeading(h) && i <= |s|
    requires forall j: nat :: j < i ==> H2HeadingEnd(s, j, h).None?
    requires H2HeadingEnd(s, i, h) == Some(e)
    ensures FindH2(s, h, 0) == Some((i, e))
  {
  }

  /** The search for the next `##` line stops at the first one. */
  lemma NextH2LineLeast(s: string, t: nat)
    requires t <= |s|
    requires forall k: nat :: k < t ==> !H2LineAt(s, k)
    requires t == |s| || H2LineAt(s, t)
    ensures NextH2Line(s, 0) == t
  {
  }

  /**
   * In the text after a heading match (which ends at a line end), a `##`
   * line at `t` is one of the whole text, and none is at the very start.
   */
  lemma RestLine(s: string, p: nat, t: nat)
    requires p <= |s| && LineEnd(s, p) && t <= |s| - p
    ensures H2LineAt(s[p..], t) <==> (0 < t && H2LineAt(s, p + t))
  {
    var rest := s[p..];
    if t == 0 {
      assert p < |s| ==> rest[0] == s[p] && IsLineTerminator(s[p]);
    } else if t + 2 < |rest| {
      assert rest[t - 1] == s[p + t - 1] && rest[t] == s[p + t];
      assert rest[t + 1] == s[p + t + 1] && rest[t + 2] == s[p + t + 2];
    }
  }

  // ---------------------------------------------------------------------
  // readAgent / readProjectCore over the file's text

  /**
   * The blueprint heading of `readAgent` as the regular expression sees it.
   * The escape of the heading never fires (its pattern asks for a
   * metacharacter followed by two backslashes and a bracket), so the
   * parentheses in `Prompt Blueprint (옵션)` form a group and the line that
   * matches is `## Prompt Blueprint 옵션`.
   */
  const BlueprintHeadingAsMatched: string := "Prompt Blueprint 옵션"

  /** The heading the agent files carry, matched literally as the escape intends. */
  const BlueprintHeadingEscaped: string := "Prompt Blueprint (옵션)"

  /** `/^[a-z0-9._-]+$/i`. */
  predicate ValidReadAgentId(id: string) {
    |id| >= 1 && forall i :: 0 <= i < |id| ==> IsReadAgentIdChar(id[i])
  }

  predicate IsReadAgentIdChar(c: char) {
    ('a' <= c <= 'z') || ('A' <= c <= 'Z') || ('0' <= c <= '9') || c == '.' || c == '_' || c == '-'
  }

  /**
   * `/^#\s*Sub-Agent:\s*(.+)\s*$/i` on the first line, then `trim` of the
   * group. After `Sub-Agent:` the rest of the line must be whitespace, one
   * run of characters other than line terminators, and whitespace; an
   * all-whitespace rest still matches (with an empty name) when it holds a
   * character that is not a line terminator.
   */
  function FirstLineName(line: string): (r: Option<string>)
    ensures r.Some? ==> IsTrimmed(r.value) && IsSingleLine(r.value)
  {
    if |line| == 0 || line[0] != '#' then None
    else match Sections.MatchName(line, Sections.SkipSpaces(line, 1), Sections.Literal("Sub-Agent:"))
      case None => None
      case Some(e) =>
        var t := line[e..];
        if IsBlank(t) then
          (if exists k :: 0 <= k < |t| && !IsLineTerminator(t[k]) then Some("") else None)
        else if IsSingleLine(Trim(t)) then Some(Trim(t))
        else None
  }

  /** The name line the agent files are written with is read back. */
  lemma FirstLineNameOfHeader(name: string)
    requires name != [] && IsTrimmed(name) && IsSingleLine(name)
    ensures FirstLineName("# Sub-Agent: " + name) == Some(name)
  {
    var line := "# Sub-Agent: " + name;
    VisibleChar('S');
    assert line[1] == ' ' && line[2] == 'S';
    assert Sections.SkipSpaces(line, 1) == 2;
    assert line[2..12] == "Sub-Agent:";
    Sections.MatchLiteral(line, 2, "Sub-Agent:");
    assert line[12..] == " " + name;
    TrimAround(" ", name, "");
    assert " " + name + "" == " " + name;
    assert !IsBlank(line[12..]) by { assert line[13] == name[0]; }
  }

  /**
   * `readAgent(id)` once the file `data/agents/<id>.md` has been read into
   * `content`.
   */
  function ReadAgent(id: string, content: string, blueprintHeading: string): (r: Result<AgentContext>)
    requires PlainHeading(blueprintHeading)
    ensures r.Err? <==> !ValidReadAgentId(id)
    ensures r.Ok? ==> r.value.id == id && r.value.raw == NormalizeNewlines(content)
    ensures r.Ok? && r.value.promptBlueprint.Some? ==> r.value.promptBlueprint.value != ""
  {
    if !ValidReadAgentId(id) then Err("Invalid agent id.")
    else
      var raw := NormalizeNewlines(content);
      var firstLine := Split(raw, '\n')[0];
      var bp := ExtractH2Section(raw, blueprintHeading);
      Ok(AgentContext(
        id,
        FirstLineName(firstLine),
        ExtractH2Section(raw, "Role"),
        ExtractH2Section(raw, "Design Decisions"),
        ExtractH2Section(raw, "Constraints"),
        if bp == "" then None else Some(bp),
        raw))
  }

  /** `readProjectCore()` once `data/project.core.md` has been read into `content`. */
  function ReadProjectCore(content: string): (r: ProjectCore)
    ensures r.raw == NormalizeNewlines(content)
    ensures IsTrimmed(r.purpose) && IsTrimmed(r.principles) && IsTrimmed(r.direction)
  {
    var raw := NormalizeNewlines(content);
    ProjectCore(
      ExtractH2Section(raw, "Purpose"),
      ExtractH2Section(raw, "Philosophy / Principles"),
      ExtractH2Section(raw, "Long-term Direction"),
      raw)
  }

  // ---------------------------------------------------------------------
  // block and composeRunnablePrompt

  /** `block(title, content)`: a `## title` section, or nothing for blank content. */
  function Block(title: string, content: string): (r: string)
    ensures r == "" <==> IsBlank(content)
    ensures !IsBlank(content) ==> r == "## " + title + "\n" + Trim(content) + "\n"
  {
    var c := Trim(content);
    if c == "" then "" else "## " + title + "\n" + c + "\n"
  }

  /**
   * A block reads back: `extractH2Section` finds the trimmed content under its
   * title, for titles the unescaped pattern matches literally.
   */
  lemma BlockRoundTrip(title: string, content: string)
    requires PlainHeading(title) && MetaFree(title) && NoCR(title)
    requires !IsBlank(content) && NoCR(content) && Sections.HashFree(content)
    ensures ExtractH2Section(Block(title, content), title) == Trim(content)
  {
    var c := Trim(content);
    Sections.HashFreeTrim(content);
    TrimKeepsOut(content, '\r');
    assert Block(title, content) == "## " + title + "\n" + c + "\n";
    BlockTextRoundTrip(title, c);
  }

  lemma BlockTextRoundTrip(title: string, c: string)
    requires PlainHeading(title) && NoCR(title)
    requires c != [] && IsTrimmed(c) && NoCR(c) && Sections.HashFree(c)
    ensures ExtractH2Section("## " + title + "\n" + c + "\n", title) == c
  {
    var pre := "## " + title;
    var x := pre + "\n" + c;
    NormalizedBlockText(title, c);
    H2HeadingAtStart(title, c);
    NoH2LineAfter(pre, c);
    H2Between(x + "\n", title, 0, |pre|, |x|);
    TrimAfterBreak(pre, c);
  }

  /** A block without carriage returns normalises to itself without its final newline. */
  lemma NormalizedBlockText(title: string, c: string)
    requires NoCR(title) && NoCR(c) && c != [] && IsTrimmed(c)
    ensures NormalizeNewlines("## " + title + "\n" + c + "\n") == "## " + title + "\n" + c
  {
    var x := "## " + title + "\n" + c;
    VisibleChar('#');
    assert x[0] == '#' && x[|x| - 1] == c[|c| - 1];
    NormalizeTrailingNewline(x);
  }

  /** Normalising drops the final newline of a trimmed text without carriage returns. */
  lemma NormalizeTrailingNewline(x: string)
    requires NoCR(x) && IsTrimmed(x)
    ensures NormalizeNewlines(x + "\n") == x
  {
    NormalizeLine(x);
    TrimDropsNewline(x);
  }

  /** A text without carriage returns followed by a newline is normalised by trimming. */
  lemma NormalizeLine(x: string)
    requires NoCR(x)
    ensures NormalizeNewlines(x + "\n") == Trim(x + "\n")
  {
    NoCRConcat(x, "\n");
    NormalizeNewlinesNoCR(x + "\n");
  }

  /** `## <title>` on the first line, with text on the next line: a heading line for `title`. */
  lemma H2HeadingAtStart(title: string, c: string)
    requires PlainHeading(title) && c != [] && !IsSpace(c[0])
    ensures H2HeadingEnd("## " + title + "\n" + c, 0, title) == Some(3 + |title|)
  {
    var s := "## " + title + "\n" + c;
    var e := 3 + |title|;
    VisibleChar(title[0]);
    assert s[2] == ' ' && s[3] == title[0];
    assert Sections.SkipSpaces(s, 2) == 3;
    assert s[3..e] == title;
    assert s[e] == '\n' && s[e + 1] == c[0];
    assert Sections.SkipSpaces(s, e) == e + 1;
    assert LastLineEnd(s, e, e + 1) == Some(e);
  }

  /** Below a line with no `##` in the rest of the text, no `##` line starts. */
  lemma NoH2LineAfter(pre: string, c: string)
    requires Sections.HashFree(c)
    ensures var s := pre + "\n" + c; forall j: nat :: |pre| < j ==> !H2LineAt(s, j)
  {
    var s := pre + "\n" + c;
    forall j: nat | |pre| < j ensures !H2LineAt(s, j) {
      if j + 1 < |s| {
        assert s[j] == c[j - |pre| - 1] && s[j + 1] == c[j - |pre|];
        assert !Sections.HashPairAt(c, j - |pre| - 1);
      }
    }
  }

  /** The facts about the two blueprint headings that the proofs below use. */
  lemma BlueprintHeadingFacts()
    ensures PlainHeading(BlueprintHeadingEscaped) && PlainHeading(BlueprintHeadingAsMatched)
    ensures |BlueprintHeadingEscaped| == 21 && |BlueprintHeadingAsMatched| == 19
    ensures NoCR(BlueprintHeadingEscaped) && IsSingleLine(BlueprintHeadingEscaped)
    ensures forall k :: 0 <= k < 21 ==> BlueprintHeadingEscaped[k] != '#'
    ensures BlueprintHeadingEscaped[17] == '(' && BlueprintHeadingAsMatched[17] == '옵'
  {
  }

  /**
   * No line of a blueprint block written under its whole heading is a
   * heading line for `Prompt Blueprint 옵션`: the first line has `(` where
   * that heading has `옵`, and no later line starts with `##`.
   */
  lemma NoAsMatchedHeading(c: string)
    requires Sections.HashFree(c)
    ensures forall i: nat :: i <= |"## " + BlueprintHeadingEscaped + "\n" + c| ==>
      H2HeadingEnd("## " + BlueprintHeadingEscaped + "\n" + c, i, BlueprintHeadingAsMatched).None?
  {
    BlueprintHeadingFacts();
    var s := "## " + BlueprintHeadingEscaped + "\n" + c;
    forall i: nat | i <= |s| ensures H2HeadingEnd(s, i, BlueprintHeadingAsMatched).None? {
      if i == 0 {
        VisibleChar('P');
        assert s[2] == ' ' && s[3] == 'P';
        assert Sections.SkipSpaces(s, 2) == 3;
        assert s[3..22][17] == s[20] == '(';
      } else if i < 25 {
        assert s[i - 1] == ("## " + BlueprintHeadingEscaped)[i - 1];
        assert !LineStart(s, i);
      } else if i + 1 < |s| {
        assert s[i] == c[i - 25] && s[i + 1] == c[i - 24];
        assert !Sections.HashPairAt(c, i - 25);
      }
    }
  }

  /** A blueprint block without carriage returns is already normalised, once its final newline is gone. */
  lemma BlueprintBlockText(c: string)
    requires c != [] && IsTrimmed(c) && NoCR(c)
    ensures Block(BlueprintHeadingEscaped, c) == "## " + BlueprintHeadingEscaped + "\n" + c + "\n"
    ensures NormalizeNewlines(Block(BlueprintHeadingEscaped, c)) == "## " + BlueprintHeadingEscaped + "\n" + c
    ensures NormalizeNewlines("## " + BlueprintHeadingEscaped + "\n" + c) == "## " + BlueprintHeadingEscaped + "\n" + c
  {
    BlueprintHeadingFacts();
    TrimTrimmed(c);
    NormalizedBlockText(BlueprintHeadingEscaped, c);
    var x := "## " + BlueprintHeadingEscaped + "\n" + c;
    VisibleChar('#');
    assert x[0] == '#' && x[|x| - 1] == c[|c| - 1];
    NoCRConcat("## " + BlueprintHeadingEscaped, "\n");
    NoCRConcat("## " + BlueprintHeadingEscaped + "\n", c);
    NormalizeNewlinesPlain(x);
  }

  /**
   * `readAgent` as written never finds the blueprint of an agent file: a
   * file whose blueprint block carries the heading the agent files are
   * written with, `## Prompt Blueprint (옵션)`, reads with no blueprint,
   * because the pattern built from that heading matches the line
   * `## Prompt Blueprint 옵션` only.
   */
  lemma ReadAgentMissesBlueprint(id: string, c: string)
    requires ValidReadAgentId(id)
    requires c != [] && IsTrimmed(c) && NoCR(c) && Sections.HashFree(c)
    ensures ReadAgent(id, Block(BlueprintHeadingEscaped, c), BlueprintHeadingAsMatched).Ok?
    ensures ReadAgent(id, Block(BlueprintHeadingEscaped, c), BlueprintHeadingAsMatched).value.promptBlueprint.None?
  {
    BlueprintHeadingFacts();
    BlueprintBlockText(c);
    NoAsMatchedHeading(c);
    NoH2HeadingEmpty("## " + BlueprintHeadingEscaped + "\n" + c, BlueprintHeadingAsMatched);
  }

  /**
   * With the heading matched as written, as its escape intends, the same
   * file reads with its blueprint.
   */
  lemma ReadAgentEscapedFindsBlueprint(id: string, c: string)
    requires ValidReadAgentId(id)
    requires c != [] && IsTrimmed(c) && NoCR(c) && Sections.HashFree(c)
    ensures ReadAgent(id, Block(BlueprintHeadingEscaped, c), BlueprintHeadingEscaped).Ok?
    ensures ReadAgent(id, Block(BlueprintHeadingEscaped, c), BlueprintHeadingEscaped).value.promptBlueprint == Some(c)
  {
    BlueprintHeadingFacts();
    BlueprintBlockText(c);
    BlockTextRoundTrip(BlueprintHeadingEscaped, c);
    assert ExtractH2Section("## " + BlueprintHeadingEscaped + "\n" + c, BlueprintHeadingEscaped)
        == ExtractH2Section(Block(BlueprintHeadingEscaped, c), BlueprintHeadingEscaped);
  }

  /** The placeholder a blank core section gets. */
  const EmptyPlaceholder: string := "- (비어있음)"

  /** `block(title, content) || "## title\n- (비어있음)\n\n"` for a core section. */
  function CoreSection(title: string, content: string): (r: string)
    ensures IsBlank(content) ==> r == "## " + title + "\n" + EmptyPlaceholder + "\n\n"
    ensures !IsBlank(content) ==> r == Block(title, content)
  {
    var b := Block(title, content);
    if b == "" then "## " + title + "\n" + EmptyPlaceholder + "\n\n" else b
  }

  /** `block(title, content) || "## title\n- (비어있음)\n"` for an agent field. */
  function AgentField(title: string, content: string): (r: string)
    ensures IsBlank(content) ==> r == "## " + title + "\n" + EmptyPlaceholder + "\n"
    ensures !IsBlank(content) ==> r == Block(title, content)
    ensures |r| > 0 && r[0] == '#'
  {
    var b := Block(title, content);
    if b == "" then "## " + title + "\n" + EmptyPlaceholder + "\n" else b
  }

  /** The `projectContext` part of the prompt. */
  function ProjectContext(core: ProjectCore): string {
    "# PROJECT CONTEXT\n\n"
      + CoreSection("Purpose", core.purpose)
      + CoreSection("Philosophy / Principles", core.principles)
      + CoreSection("Long-term Direction", core.direction)
  }

  /** `a.name ?? a.id`: the name when it is defined, even if empty; otherwise the id. */
  function DisplayName(a: AgentContext): (r: string)
    ensures a.name.Some? ==> r == a.name.value
    ensures a.name.None? ==> r == a.id
  {
    match a.name
    case Some(n) => n
    case None => a.id
  }

  /** The header line of one agent's entry. */
  function AgentHeader(a: AgentContext): string {
    "## Agent: " + DisplayName(a) + "\n"
  }

  /** The blueprint part of one agent's entry: present when the blueprint is a non-empty string. */
  function AgentBlueprint(a: AgentContext): (r: string)
    ensures r != "" <==> a.promptBlueprint.Some? && a.promptBlueprint.value != ""
  {
    match a.promptBlueprint
    case Some(bp) => if bp != "" then "## Prompt Blueprint\n" + Trim(bp) + "\n" else ""
    case None => ""
  }

  /** The role, design decisions, constraints and blueprint of one agent's entry. */
  function AgentFields(a: AgentContext): (r: string)
    ensures |r| > 0 && r[0] == '#'
  {
    AgentField("Role", a.role)
      + AgentField("Design Decisions", a.designDecisions)
      + AgentField("Constraints", a.constraints)
      + AgentBlueprint(a)
  }

  /** One agent's entry in `SUB-AGENT CONTEXT`, trimmed. */
  function AgentEntry(a: AgentContext): string {
    Trim(AgentHeader(a) + AgentFields(a))
  }

  /** An entry starts with its header: the trim only cuts its end. */
  lemma AgentEntryStartsWithHeader(a: AgentContext)
    ensures var e := AgentEntry(a); var h := AgentHeader(a);
      |h| <= |e| && e[..|h|] == h
  {
    var h := AgentHeader(a);
    var fields := AgentFields(a);
    VisibleChar('#');
    assert fields[0] == '#' && h[0] == '#';
    TrimKeepsPrefix(h, fields);
  }

  /** The entries of all agents, in input order. */
  function AgentEntries(agents: seq<AgentContext>): (r: seq<string>)
    ensures |r| == |agents| && forall i :: 0 <= i < |agents| ==> r[i] == AgentEntry(agents[i])
  {
    seq(|agents|, i requires 0 <= i < |agents| => AgentEntry(agents[i]))
  }

  /** The heading of a non-empty `SUB-AGENT CONTEXT` section, with its blank line. */
  const AgentContextHeading: string := "# SUB-AGENT CONTEXT\n\n"

  /** The `agentContext` part of the prompt. */
  function AgentContextSection(agents: seq<AgentContext>): (r: string)
    ensures |agents| == 0 ==> r == "# SUB-AGENT CONTEXT\n(없음)\n\n"
    ensures |agents| > 0 ==> r == AgentContextHeading + Join(AgentEntries(agents), "\n\n") + "\n\n"
  {
    if |agents| == 0 then "# SUB-AGENT CONTEXT\n(없음)\n\n"
    else AgentContextHeading + Join(AgentEntries(agents), "\n\n") + "\n\n"
  }

  /** Agent `i`'s entry sits at its offset. */
  lemma AgentEntryAt(agents: seq<AgentContext>, i: nat)
    requires i < |agents|
    ensures OccursAt(AgentContextSection(agents), AgentEntries(agents)[i],
      |AgentContextHeading| + JoinOffset(AgentEntries(agents), "\n\n", i))
  {
    JoinInFrame(AgentContextHeading, AgentEntries(agents), "\n\n", "\n\n", i);
  }

  /** Where an agent's entry is, its header is. */
  lemma HeaderWithEntry(s: string, agents: seq<AgentContext>, i: nat, o: nat)
    requires i < |agents| && OccursAt(s, AgentEntries(agents)[i], o)
    ensures OccursAt(s, AgentHeader(agents[i]), o)
  {
    AgentEntryStartsWithHeader(agents[i]);
    var e := AgentEntries(agents)[i];
    assert e == AgentEntry(agents[i]);
    OccursPrefix(s, e, AgentHeader(agents[i]), o);
  }

  /** Agent `i`'s header sits where its entry does. */
  lemma AgentAt(agents: seq<AgentContext>, i: nat)
    requires i < |agents|
    ensures OccursAt(AgentContextSection(agents), AgentHeader(agents[i]),
      |AgentContextHeading| + JoinOffset(AgentEntries(agents), "\n\n", i))
  {
    AgentEntryAt(agents, i);
    HeaderWithEntry(AgentContextSection(agents), agents, i,
      |AgentContextHeading| + JoinOffset(AgentEntries(agents), "\n\n", i));
  }

  /**
   * Agents keep their input order: the entry of agent `i`, headed by its
   * name or id, ends before the entry of a later agent `j` starts.
   */
  lemma AgentsInOrder(agents: seq<AgentContext>, i: nat, j: nat)
    requires i < j < |agents|
    ensures OccursAt(AgentContextSection(agents), AgentHeader(agents[i]),
      |AgentContextHeading| + JoinOffset(AgentEntries(agents), "\n\n", i))
    ensures OccursAt(AgentContextSection(agents), AgentHeader(agents[j]),
      |AgentContextHeading| + JoinOffset(AgentEntries(agents), "\n\n", j))
    ensures JoinOffset(AgentEntries(agents), "\n\n", i) + |AgentEntries(agents)[i]|
      < JoinOffset(AgentEntries(agents), "\n\n", j)
  {
    AgentAt(agents, i);
    AgentAt(agents, j);
    JoinOrder(AgentEntries(agents), "\n\n", i, j);
  }

  /** The agent carries a blueprint that is not blank (`a.promptBlueprint?.trim()` is truthy). */
  predicate HasBlueprint(a: AgentContext) {
    a.promptBlueprint.Some? && !IsBlank(a.promptBlueprint.value)
  }

  /** The trimmed non-blank blueprints, in agent order. */
  function Blueprints(agents: seq<AgentContext>): (bps: seq<string>)
    ensures |bps| <= |agents|
    ensures forall k :: 0 <= k < |bps| ==> bps[k] != "" && IsTrimmed(bps[k])
  {
    if agents == [] then []
    else
      var a := agents[0];
      var rest := Blueprints(agents[1..]);
      if HasBlueprint(a) then
        var t := Trim(a.promptBlueprint.value);
        TrimEmpty(a.promptBlueprint.value);
        assert forall k :: 0 < k < |[t] + rest| ==> ([t] + rest)[k] == rest[k - 1];
        [t] + rest
      else rest
  }

  /** The blueprint of the first agent, if it has one, as a list of at most one item. */
  function FirstBlueprint(a: AgentContext): seq<string> {
    if HasBlueprint(a) then [Trim(a.promptBlueprint.value)] else []
  }

  /** One step of `Blueprints`: the first agent's blueprint, then the rest's. */
  lemma BlueprintsCons(agents: seq<AgentContext>)
    requires agents != []
    ensures Blueprints(agents) == FirstBlueprint(agents[0]) + Blueprints(agents[1..])
  {
  }

  /** There are no blueprints exactly when no agent has a non-blank one. */
  lemma {:induction false} NoBlueprints(agents: seq<AgentContext>)
    ensures Blueprints(agents) == [] <==> forall i :: 0 <= i < |agents| ==> !HasBlueprint(agents[i])
    decreases |agents|
  {
    if agents != [] {
      BlueprintsCons(agents);
      NoBlueprints(agents[1..]);
      assert forall i :: 1 <= i < |agents| ==> agents[i] == agents[1..][i - 1];
    }
  }

  /** One step of `Blueprints` over two lists put one after the other. */
  lemma BlueprintsConsConcat(xs: seq<AgentContext>, ys: seq<AgentContext>)
    requires xs != []
    ensures Blueprints(xs + ys) == FirstBlueprint(xs[0]) + Blueprints(xs[1..] + ys)
  {
    BlueprintsCons(xs + ys);
    assert (xs + ys)[0] == xs[0];
    assert (xs + ys)[1..] == xs[1..] + ys;
  }

  /** Collecting blueprints commutes with putting agent lists one after the other. */
  lemma {:induction false} BlueprintsConcat(xs: seq<AgentContext>, ys: seq<AgentContext>)
    ensures Blueprints(xs + ys) == Blueprints(xs) + Blueprints(ys)
    decreases |xs|
  {
    if xs == [] {
      assert xs + ys == ys;
    } else {
      BlueprintsConsConcat(xs, ys);
      BlueprintsCons(xs);
      BlueprintsConcat(xs[1..], ys);
      ConcatAssoc(FirstBlueprint(xs[0]), Blueprints(xs[1..]), Blueprints(ys));
    }
  }

  /** The heading and text of blueprint number `i + 1`. */
  function BlueprintItem(i: nat, bp: string): string {
    "## Blueprint " + NatToString(i + 1) + "\n" + bp
  }

  /** The numbered blueprint items, in order. */
  function BlueprintItems(bps: seq<string>): (r: seq<string>)
    ensures |r| == |bps| && forall i :: 0 <= i < |bps| ==> r[i] == BlueprintItem(i, bps[i])
  {
    seq(|bps|, i requires 0 <= i < |bps| => BlueprintItem(i, bps[i]))
  }

  /** The heading of the `SUB-AGENT PROMPT BLUEPRINTS` section. */
  const BlueprintsHeading: string := "# SUB-AGENT PROMPT BLUEPRINTS\n"

  /** The `blueprintInsert` part of the prompt. */
  function BlueprintInsert(agents: seq<AgentContext>): (r: string)
    ensures r == "" <==> forall i :: 0 <= i < |agents| ==> !HasBlueprint(agents[i])
  {
    NoBlueprints(agents);
    var bps := Blueprints(agents);
    if |bps| == 0 then ""
    else BlueprintsHeading + Join(BlueprintItems(bps), "\n\n") + "\n\n---\n\n"
  }

  /** Blueprint `i + 1` is the `i`-th non-blank blueprint in agent order, at a fixed offset. */
  lemma BlueprintsNumbered(agents: seq<AgentContext>, i: nat)
    requires i < |Blueprints(agents)|
    ensures var items := BlueprintItems(Blueprints(agents));
      OccursAt(BlueprintInsert(agents), BlueprintItem(i, Blueprints(agents)[i]),
        |BlueprintsHeading| + JoinOffset(items, "\n\n", i))
  {
    JoinInFrame(BlueprintsHeading, BlueprintItems(Blueprints(agents)), "\n\n", "\n\n---\n\n", i);
  }

  const SystemHeading: string := "# SYSTEM CONTEXT\n"

  const SystemContext: string :=
    SystemHeading
    + "You are assisting with a software project.\n"
    + "Do not invent new design decisions.\n"
    + "Only work within the given context.\n\n"

  const Rule: string := "---\n\n"

  const TaskLines: string :=
    "# TASK\n- Apply the requested change only where relevant\n- Respect all existing design decisions\n- If something is ambiguous, ask questions before implementing\n- Output the result for immediate use in vibe coding"

  /** The `CHANGE REQUEST` section with the trimmed user input. */
  function ChangeRequest(userInput: string): string {
    "# CHANGE REQUEST\n" + Trim(userInput) + "\n\n"
  }

  /** The sections between the system context and the task, each closed by a rule. */
  function MiddleSections(core: ProjectCore, agents: seq<AgentContext>, userInput: string): string {
    Rule
      + ProjectContext(core) + Rule
      + AgentContextSection(agents) + Rule
      + ChangeRequest(userInput) + Rule
      + BlueprintInsert(agents)
  }

  /** The prompt before its final `trim() + "\n"`: the sections in their fixed order. */
  function Layout(core: ProjectCore, agents: seq<AgentContext>, userInput: string): string {
    SystemContext + MiddleSections(core, agents, userInput) + TaskLines + "\n"
  }

  /** `composeRunnablePrompt({core, agents, userInput}).basePrompt`. */
  function ComposeRunnablePrompt(core: ProjectCore, agents: seq<AgentContext>, userInput: string): string {
    Trim(Layout(core, agents, userInput)) + "\n"
  }

  /** Whatever stands between them, the system context and the task lines make a trimmed text. */
  lemma FramedTrimmed(m: string)
    ensures IsTrimmed(SystemContext + m + TaskLines)
  {
    var x := SystemContext + m + TaskLines;
    assert |SystemContext| > 0 && SystemContext[0] == '#';
    assert |TaskLines| > 0 && TaskLines[|TaskLines| - 1] == 'g';
    assert x[0] == '#';
    assert x[|x| - 1] == 'g';
    VisibleChar('#');
    VisibleChar('g');
  }

  /** A text framed by `h` and `t` and a closing newline starts with `h` and ends with `t` and the newline. */
  lemma Framed(h: string, m: string, t: string)
    ensures (h + m + t + "\n")[..|h|] == h
    ensures EndsWith(h + m + t + "\n", t + "\n")
  {
    assert h + m + t + "\n" == h + m + (t + "\n");
    assert (h + m + (t + "\n"))[|h + m|..] == t + "\n";
  }

  /** The final trim changes nothing: the prompt is the sections in their fixed order. */
  lemma ComposeIsLayout(core: ProjectCore, agents: seq<AgentContext>, userInput: string)
    ensures ComposeRunnablePrompt(core, agents, userInput) == Layout(core, agents, userInput)
  {
    var m := MiddleSections(core, agents, userInput);
    FramedTrimmed(m);
    TrimDropsNewline(SystemContext + m + TaskLines);
  }

  /** The prompt runs from `# SYSTEM CONTEXT` to the task lines and one closing newline. */
  lemma LayoutShape(core: ProjectCore, agents: seq<AgentContext>, userInput: string)
    ensures Layout(core, agents, userInput)[..|SystemContext|] == SystemContext
    ensures EndsWith(Layout(core, agents, userInput), TaskLines + "\n")
  {
    Framed(SystemContext, MiddleSections(core, agents, userInput), TaskLines);
  }

  // ---------------------------------------------------------------------
  // buildCompilerInstruction

  /** The lines of `outputSpec` for a mode. */
  function OutputSpecLines(mode: OutputMode): (lines: seq<string>)
    ensures "===DOC===" in lines <==> mode == PromptMd
    ensures "===PROMPT===" in lines
  {
    var promptOnly := ["출력은 반드시 아래 마커 포맷으로만 제공한다.", "===PROMPT===", "(실행용 프롬프트 본문)"];
    if mode == PromptMd then promptOnly + ["===DOC===", "(옵션: 문서형 출력 마크다운 본문)"] else promptOnly
  }

  /** The lines for `"prompt"` are the first lines for `"prompt+md"`. */
  lemma OutputSpecPrefix()
    ensures OutputSpecLines(Prompt) == OutputSpecLines(PromptMd)[..3]
  {
  }

  const CompilerIntro: string :=
    "너는 \"프롬프트 컴파일러\"다.\n"
    + "아래 입력(base prompt)을 사람이 바로 Claude Code/GPT/Cursor에 붙여 넣어 실행할 수 있도록 다듬어라.\n"
    + "- 새로운 설계 결정을 발명하지 말 것\n"
    + "- 제공된 Design Decisions / Constraints를 우선 적용\n"
    + "- 중복 제거/문장 정리/빈 섹션 제거는 허용\n"
    + "- 모호하면 질문을 유도하는 형태로 TASK를 조정할 수 있음\n\n"

  /** Everything the instruction puts before the base prompt; it depends on the mode only. */
  function CompilerPrefix(mode: OutputMode): string {
    CompilerIntro + Join(OutputSpecLines(mode), "\n") + "\n\n" + "---\n\n" + "BASE_PROMPT:\n"
  }

  /** `buildCompilerInstruction({basePrompt, outputMode})`. */
  function BuildCompilerInstruction(basePrompt: string, mode: OutputMode): (r: string)
    ensures |r| == |CompilerPrefix(mode)| + |basePrompt|
    ensures r[..|CompilerPrefix(mode)|] == CompilerPrefix(mode)
    ensures r[|CompilerPrefix(mode)|..] == basePrompt
  {
    CompilerPrefix(mode) + basePrompt
  }

  // ---------------------------------------------------------------------
  // splitCompilerOutput

  const PromptMarker: string := "===PROMPT==="
  const DocMarker: string := "===DOC==="

  /** The parts the compiler's answer is split into. */
  datatype CompilerOutput = CompilerOutput(prompt: string, doc: Option<string>)

  /** The part of `splitCompilerOutput` after the prompt marker: the trimmed `rest` is split at the doc marker. */
  function SplitAfterPrompt(rest: string): (r: CompilerOutput)
    ensures IsTrimmed(r.prompt)
    ensures r.doc.Some? ==> r.doc.value != "" && IsTrimmed(r.doc.value)
  {
    SplitAtDoc(Trim(rest))
  }

  /** The trimmed text after the prompt marker, split at its first doc marker; a blank doc is no doc. */
  function SplitAtDoc(afterP: string): (r: CompilerOutput)
    ensures IsTrimmed(r.prompt)
    ensures r.doc.Some? ==> r.doc.value != "" && IsTrimmed(r.doc.value)
  {
    match IndexOf(afterP, DocMarker)
    case None => CompilerOutput(Trim(afterP), None)
    case Some(d) =>
      var doc := Trim(afterP[d + |DocMarker|..]);
      CompilerOutput(Trim(afterP[..d]), if doc == "" then None else Some(doc))
  }

  /** `splitCompilerOutput` once the text is normalised: without a prompt marker the whole text is the prompt. */
  function SplitNormalized(text: string): (r: CompilerOutput)
    ensures r.doc.Some? ==> r.doc.value != "" && IsTrimmed(r.doc.value)
  {
    match IndexOf(text, PromptMarker)
    case None => CompilerOutput(text, None)
    case Some(p) => SplitAfterPrompt(text[p + |PromptMarker|..])
  }

  /** `splitCompilerOutput({outputText})`. */
  function SplitCompilerOutput(outputText: string): (r: CompilerOutput)
    ensures IsTrimmed(r.prompt)
    ensures r.doc.Some? ==> r.doc.value != "" && IsTrimmed(r.doc.value)
    ensures !Contains(NormalizeNewlines(outputText), PromptMarker)
      ==> r == CompilerOutput(NormalizeNewlines(outputText), None)
  {
    SplitNormalized(NormalizeNewlines(outputText))
  }

  /** After the first prompt marker, the normalised text is split by what follows it. */
  lemma SplitNormalizedAt(text: string, p: nat)
    requires IndexOf(text, PromptMarker) == Some(p)
    ensures SplitNormalized(text) == SplitAfterPrompt(text[p + |PromptMarker|..])
  {
    var q := IndexOf(text, PromptMarker).value;
    assert SplitNormalized(text) == SplitAfterPrompt(text[q + |PromptMarker|..]);
    assert q == p;
  }

  /** Without a doc marker after the prompt marker, the prompt is the trimmed rest and there is no doc. */
  lemma SplitWithoutDoc(outputText: string, p: nat)
    requires IndexOf(NormalizeNewlines(outputText), PromptMarker) == Some(p)
    requires !Contains(NormalizeNewlines(outputText)[p + |PromptMarker|..], DocMarker)
    ensures SplitCompilerOutput(outputText)
         == CompilerOutput(Trim(NormalizeNewlines(outputText)[p + |PromptMarker|..]), None)
  {
    SplitNormalizedAt(NormalizeNewlines(outputText), p);
    SplitAfterPromptNoDoc(NormalizeNewlines(outputText)[p + |PromptMarker|..]);
  }

  /** Without a doc marker, the rest after the prompt marker is the prompt, trimmed. */
  lemma SplitAfterPromptNoDoc(rest: string)
    requires !Contains(rest, DocMarker)
    ensures SplitAfterPrompt(rest) == CompilerOutput(Trim(rest), None)
  {
    TrimKeepsOutPattern(rest, DocMarker);
    assert IndexOf(Trim(rest), DocMarker) == None;
    TrimTrimmed(Trim(rest));
  }

  /** A trimmed text splits at its first doc marker `k`. */
  lemma SplitAtDocAt(t: string, k: nat, prompt: string, doc: string)
    requires IndexOf(t, DocMarker).Some? && IndexOf(t, DocMarker).value == k
    requires Trim(t[..k]) == prompt
    requires Trim(t[k + |DocMarker|..]) == doc && doc != ""
    ensures SplitAtDoc(t) == CompilerOutput(prompt, Some(doc))
  {
    var q := IndexOf(t, DocMarker).value;
    assert q == k;
  }

  /** A marker-free string cannot hold the marker. */
  predicate MarkerFree(s: string) {
    !Contains(s, PromptMarker) && !Contains(s, DocMarker)
  }

  /** The facts about the two markers that the splitting proofs use. */
  lemma MarkerFacts()
    ensures |PromptMarker| == 12 && PromptMarker[0] == '=' && NoCR(PromptMarker)
    ensures |DocMarker| == 9 && DocMarker[0] == '=' && '\n' !in DocMarker && NoCR(DocMarker)
  {
  }

  /** The answer the instruction asks for: the prompt marker, the prompt, the doc marker, the doc. */
  function MarkedAnswer(p: string, d: string): string {
    PromptMarker + "\n" + p + "\n" + DocMarker + "\n" + d
  }

  /** What follows the prompt marker in `MarkedAnswer(p, d)`. */
  function AfterPromptMarker(p: string, d: string): string {
    "\n" + p + "\n" + DocMarker + "\n" + d
  }

  /** The answer starts with the prompt marker, which is followed by `AfterPromptMarker(p, d)`. */
  lemma MarkedAnswerSplit(p: string, d: string)
    ensures MarkedAnswer(p, d) == PromptMarker + AfterPromptMarker(p, d)
    ensures OccursAt(MarkedAnswer(p, d), PromptMarker, 0)
  {
    assert MarkedAnswer(p, d) == PromptMarker + AfterPromptMarker(p, d);
    assert MarkedAnswer(p, d)[..|PromptMarker|] == PromptMarker;
  }

  /** The answer is left as it is by the normalisation of newlines. */
  lemma MarkedAnswerNormal(p: string, d: string)
    requires IsTrimmed(d) && d != [] && NoCR(p) && NoCR(d)
    ensures NormalizeNewlines(MarkedAnswer(p, d)) == MarkedAnswer(p, d)
  {
    MarkerFacts();
    MarkedAnswerSplit(p, d);
    var out := MarkedAnswer(p, d);
    NoCRConcat(PromptMarker, "\n");
    NoCRConcat(PromptMarker + "\n", p);
    NoCRConcat(PromptMarker + "\n" + p, "\n");
    NoCRConcat(PromptMarker + "\n" + p + "\n", DocMarker);
    NoCRConcat(PromptMarker + "\n" + p + "\n" + DocMarker, "\n");
    NoCRConcat(PromptMarker + "\n" + p + "\n" + DocMarker + "\n", d);
    VisibleChar('=');
    assert out[0] == '=';
    assert out[|out| - 1] == d[|d| - 1];
    NormalizeNewlinesPlain(out);
  }

  /** The whole answer is split after its prompt marker. */
  lemma MarkedAnswerFirstStep(p: string, d: string)
    requires IsTrimmed(d) && d != [] && NoCR(p) && NoCR(d)
    ensures SplitCompilerOutput(MarkedAnswer(p, d)) == SplitAfterPrompt(AfterPromptMarker(p, d))
  {
    MarkedAnswerNormal(p, d);
    MarkedAnswerSplit(p, d);
    var out := MarkedAnswer(p, d);
    assert IndexOf(out, PromptMarker) == Some(0);
    assert out[|PromptMarker|..] == AfterPromptMarker(p, d);
    SplitNormalizedAt(out, 0);
  }

  /** Trimming two newlines, a marker `m`, a newline and a doc drops the leading newlines. */
  lemma TrimAroundMarkerNoPrompt(m: string, d: string)
    requires IsTrimmed(d) && d != [] && m != [] && !IsSpace(m[0])
    ensures Trim("\n" + [] + "\n" + m + "\n" + d) == m + "\n" + d
  {
    assert IsTrimmed(m + "\n" + d) by {
      assert (m + "\n" + d)[0] == m[0];
      assert (m + "\n" + d)[|m + "\n" + d| - 1] == d[|d| - 1];
    }
    assert "\n" + [] + "\n" + m + "\n" + d == "\n\n" + (m + "\n" + d) + [];
    TrimAround("\n\n", m + "\n" + d, []);
  }

  /** Trimming a newline, a prompt, a newline, a marker `m`, a newline and a doc drops the leading newline. */
  lemma TrimAroundMarker(p: string, m: string, d: string)
    requires IsTrimmed(p) && IsTrimmed(d) && d != [] && p != []
    ensures Trim("\n" + p + "\n" + m + "\n" + d) == p + "\n" + m + "\n" + d
  {
    assert IsTrimmed(p + "\n" + m + "\n" + d) by {
      assert (p + "\n" + m + "\n" + d)[0] == p[0];
      assert (p + "\n" + m + "\n" + d)[|p + "\n" + m + "\n" + d| - 1] == d[|d| - 1];
    }
    assert "\n" + p + "\n" + m + "\n" + d == "\n" + (p + "\n" + m + "\n" + d);
    TrimDropsLeadingNewline(p + "\n" + m + "\n" + d);
  }

  /** The first occurrence of a marker `m` after a prompt free of it is the one after the prompt. */
  lemma MarkerAfterPrompt(p: string, m: string, d: string)
    requires !Contains(p, m) && m != [] && '\n' !in m
    ensures IndexOf(p + "\n" + m + "\n" + d, m) == Some(|p| + 1)
  {
    MarkerAfterNewline(m, d);
    IndexOfPast(p, "\n" + m + "\n" + d, m);
    assert p + "\n" + m + "\n" + d == p + ("\n" + m + "\n" + d);
  }

  /** A marker `m` free of newlines, after a newline, is found at 1. */
  lemma MarkerAfterNewline(m: string, d: string)
    requires m != [] && '\n' !in m
    ensures IndexOf("\n" + m + "\n" + d, m) == Some(1)
  {
    assert OccursAt("\n" + m + "\n" + d, m, 1) by {
      assert ("\n" + m + "\n" + d)[1..1 + |m|] == m;
    }
    assert !OccursAt("\n" + m + "\n" + d, m, 0) by {
      assert ("\n" + m + "\n" + d)[0] == '\n' && m[0] != '\n';
    }
  }

  /** A marker `m` at the start of a text is found at 0. */
  lemma MarkerFirst(m: string, d: string)
    ensures IndexOf(m + "\n" + d, m) == Some(0)
  {
    assert (m + "\n" + d)[..|m|] == m;
    assert OccursAt(m + "\n" + d, m, 0);
  }

  /** What follows a marker `m` found at `k`, after its newline, trims to the doc. */
  lemma AfterMarker(pre: string, m: string, d: string, k: nat)
    requires IsTrimmed(d) && k == |pre|
    ensures Trim((pre + m + "\n" + d)[k + |m|..]) == d
  {
    assert (pre + m + "\n" + d)[k + |m|..] == "\n" + d;
    TrimDropsLeadingNewline(d);
  }

  /** What precedes a marker `m` found at `k`, after a prompt and a newline, trims to the prompt. */
  lemma BeforeMarker(p: string, m: string, d: string, k: nat)
    requires IsTrimmed(p) && k == |p| + 1
    ensures Trim((p + "\n" + m + "\n" + d)[..k]) == p
  {
    assert (p + "\n" + m + "\n" + d)[..k] == p + "\n";
    TrimDropsNewline(p);
  }

  /** A rest whose trimmed text `t` starts with the doc marker splits into an empty prompt and the doc. */
  lemma SplitAfterLeadingMarker(rest: string, t: string, d: string)
    requires Trim(rest) == t && d != []
    requires IndexOf(t, DocMarker) == Some(0) && Trim(t[|DocMarker|..]) == d
    ensures SplitAfterPrompt(rest) == CompilerOutput([], Some(d))
  {
    assert SplitAfterPrompt(rest) == SplitAtDoc(t);
    var q := IndexOf(t, DocMarker).value;
    assert q == 0;
    assert t[..q] == [];
    TrimTrimmed([]);
  }

  /** What follows a leading marker `m` and its newline trims to the doc. */
  lemma AfterLeadingMarker(m: string, d: string)
    requires IsTrimmed(d)
    ensures Trim((m + "\n" + d)[|m|..]) == d
  {
    assert (m + "\n" + d)[|m|..] == "\n" + d;
    TrimDropsLeadingNewline(d);
  }

  /** With an empty prompt, the answer's rest is the doc marker and the doc. */
  lemma SplitAfterEmptyPrompt(d: string)
    requires IsTrimmed(d) && d != []
    ensures SplitAfterPrompt(AfterPromptMarker([], d)) == CompilerOutput([], Some(d))
  {
    var t := DocMarker + "\n" + d;
    assert Trim(AfterPromptMarker([], d)) == t by {
      MarkerFacts();
      VisibleChar('=');
      TrimAroundMarkerNoPrompt(DocMarker, d);
    }
    assert IndexOf(t, DocMarker) == Some(0) by { MarkerFirst(DocMarker, d); }
    assert Trim(t[|DocMarker|..]) == d by { AfterLeadingMarker(DocMarker, d); }
    SplitAfterLeadingMarker(AfterPromptMarker([], d), t, d);
  }

  /** With a prompt, the answer's rest splits at the doc marker that follows the prompt. */
  lemma SplitAfterPromptGiven(p: string, d: string)
    requires IsTrimmed(p) && IsTrimmed(d) && d != [] && p != []
    requires !Contains(p, DocMarker)
    ensures SplitAfterPrompt(AfterPromptMarker(p, d)) == CompilerOutput(p, Some(d))
  {
    assert Trim(AfterPromptMarker(p, d)) == p + "\n" + DocMarker + "\n" + d by {
      TrimAroundMarker(p, DocMarker, d);
    }
    assert IndexOf(p + "\n" + DocMarker + "\n" + d, DocMarker) == Some(|p| + 1) by {
      MarkerFacts();
      MarkerAfterPrompt(p, DocMarker, d);
    }
    var q := IndexOf(p + "\n" + DocMarker + "\n" + d, DocMarker).value;
    BeforeMarker(p, DocMarker, d, q);
    AfterMarker(p + "\n", DocMarker, d, q);
    SplitAtDocAt(p + "\n" + DocMarker + "\n" + d, q, p, d);
  }

  /** Split after the prompt marker, the answer's rest gives back the prompt and the doc. */
  lemma SplitAfterPromptPair(p: string, d: string)
    requires IsTrimmed(p) && IsTrimmed(d) && d != []
    requires !Contains(p, DocMarker)
    ensures SplitAfterPrompt(AfterPromptMarker(p, d)) == CompilerOutput(p, Some(d))
  {
    if p == [] {
      SplitAfterEmptyPrompt(d);
    } else {
      SplitAfterPromptGiven(p, d);
    }
  }

  /** The two-marker answer the instruction asks for splits back into its parts. */
  lemma SplitRoundTrip(p: string, d: string)
    requires IsTrimmed(p) && IsTrimmed(d) && d != []
    requires MarkerFree(p) && NoCR(p) && NoCR(d)
    ensures SplitCompilerOutput(MarkedAnswer(p, d)) == CompilerOutput(p, Some(d))
  {
    MarkedAnswerFirstStep(p, d);
    SplitAfterPromptPair(p, d);
  }
}
