/**
 * The Markdown section extractor `extractSection(content, sectionName)`,
 * written three times in the source with the same regular expressions
 * (lib/agent.ts, lib/project.ts and the local helper in lib/template.ts):
 *
 *   match `##\s*<name>[\s\S]*?(?=##|$)` case-insensitively, then delete the
 *   leading `##\s*<name>` from the match and trim.
 *
 * The heading may start anywhere (there is no `^` and no multiline flag),
 * and the lazy body stops at the first `##` anywhere after the heading,
 * including the first two characters of a `###`, or at the end of input.
 * The model scans for exactly that instead of running a regular expression
 * engine.
 */
module Sections {
  import opened Wrappers
  import opened Text

  /**
   * One element of a section name as the source splices it into the
   * pattern: a literal character, or `\s*` (which only
   * the principles heading of lib/project.ts uses, around its slash).
   */
  datatype NameElem = Lit(c: char) | Spaces

  type SectionName = seq<NameElem>

  /** A name made of literal characters only. */
  function Literal(s: string): (p: SectionName)
    ensures |p| == |s| && forall i :: 0 <= i < |s| ==> p[i] == Lit(s[i])
  {
    seq(|s|, i requires 0 <= i < |s| => Lit(s[i]))
  }

  /**
   * Character comparison under the `i` flag. Without the `u` flag,
   * ECMAScript compares upper-cased characters and never lets a non-ASCII
   * character match an ASCII one; every name the source uses is ASCII, so
   * folding the ASCII letters is the whole story.
   */
  function Fold(c: char): char {
    if 'A' <= c <= 'Z' then (c as int + 32) as char else c
  }

  /** Greedy `\s*` from `i`: the end of the whitespace run. */
  function SkipSpaces(s: string, i: nat): (j: nat)
    requires i <= |s|
    ensures i <= j <= |s|
    ensures forall k :: i <= k < j ==> IsSpace(s[k])
    ensures j == |s| || !IsSpace(s[j])
    decreases |s| - i
  {
    if i < |s| && IsSpace(s[i]) then SkipSpaces(s, i + 1) else i
  }

  /**
   * Matches `name` at `i` and returns where the match ends. Each `\s*` is
   * greedy; in every name of the source a `\s*` is followed by a non-space
   * literal, so giving characters back could never help and greedy
   * matching is what the regular expression engine finds.
   */
  function MatchName(s: string, i: nat, name: SectionName): (r: Option<nat>)
    requires i <= |s|
    ensures r.Some? ==> i <= r.value <= |s|
    decreases |name|
  {
    if name == [] then Some(i)
    else match name[0]
      case Spaces => MatchName(s, SkipSpaces(s, i), name[1..])
      case Lit(c) => if i < |s| && Fold(s[i]) == Fold(c) then MatchName(s, i + 1, name[1..]) else None
  }

  /** `##` starts at `j`. */
  predicate HashPairAt(s: string, j: nat) {
    j + 1 < |s| && s[j] == '#' && s[j + 1] == '#'
  }

  /** No `##` anywhere in `s`. */
  predicate HashFree(s: string) {
    forall j: nat :: j < |s| ==> !HashPairAt(s, j)
  }

  /** The end of the heading `##\s*<name>` that starts at `i`, if one does. */
  function HeadingEnd(s: string, i: nat, name: SectionName): (r: Option<nat>)
    requires i <= |s|
    ensures r.Some? ==> HashPairAt(s, i) && i + 2 <= r.value <= |s|
  {
    if HashPairAt(s, i) then MatchName(s, SkipSpaces(s, i + 2), name) else None
  }

  /** The leftmost heading for `name` at or after `from`: its start and end. */
  function FindHeading(s: string, name: SectionName, from: nat): (r: Option<(nat, nat)>)
    requires from <= |s|
    ensures r.Some? ==> from <= r.value.0 <= |s| && HeadingEnd(s, r.value.0, name) == Some(r.value.1)
    ensures forall j: nat :: from <= j <= |s| && (r.None? || j < r.value.0) ==> HeadingEnd(s, j, name).None?
    decreases |s| - from
  {
    match HeadingEnd(s, from, name)
    case Some(e) => Some((from, e))
    case None => if from == |s| then None else FindHeading(s, name, from + 1)
  }

  /** The lookahead `(?=##|$)`: the first `##` at or after `from`, or the end. */
  function NextHashPair(s: string, from: nat): (j: nat)
    requires from <= |s|
    ensures from <= j <= |s|
    ensures j == |s| || HashPairAt(s, j)
    ensures forall k: nat :: from <= k < j ==> !HashPairAt(s, k)
    decreases |s| - from
  {
    if from == |s| || HashPairAt(s, from) then from else NextHashPair(s, from + 1)
  }

  /** The lookahead stops at the first `##` and nowhere else. */
  lemma NextHashPairLeast(s: string, from: nat, j: nat)
    requires from <= j <= |s|
    requires j == |s| || HashPairAt(s, j)
    requires forall k: nat :: from <= k < j ==> !HashPairAt(s, k)
    ensures NextHashPair(s, from) == j
  {
  }

  /**
   * `extractSection(content, sectionName)`. The `replace` on the match
   * removes the heading at its very start, so what is trimmed is the text
   * from the end of the heading up to the next `##` or the end of input.
   */
  function ExtractSection(content: string, name: SectionName): (r: string)
    ensures IsTrimmed(r) && HashFree(r)
  {
    match FindHeading(content, name, 0)
    case None => ""
    case Some((start, end)) =>
      var stop := NextHashPair(content, end);
      var body := content[end..stop];
      assert HashFree(body) by {
        forall j: nat | j < |body| ensures !HashPairAt(body, j) {
          assert !HashPairAt(content, end + j);
        }
      }
      assert HashFree(Trim(body)) by { HashFreeTrim(body); }
      Trim(body)
  }

  /** Without a heading line for `name` the section is empty. */
  lemma NoHeadingNoSection(content: string, name: SectionName)
    requires forall j: nat :: j <= |content| ==> HeadingEnd(content, j, name).None?
    ensures ExtractSection(content, name) == ""
  {
  }

  /** Trimming cannot create a `##`. */
  lemma HashFreeTrim(s: string)
    requires HashFree(s)
    ensures HashFree(Trim(s))
  {
    var k := TrimIsSlice(s);
    var r := Trim(s);
    forall j: nat | j < |r| ensures !HashPairAt(r, j) {
      assert !HashPairAt(s, k + j);
    }
  }

  /**
   * What `extractSection` returns, stated without the search: when the
   * first heading for `name` spans `[hStart, hEnd)` and the next `##` after
   * it starts at `bEnd` (or the input ends there), the section is the
   * trimmed text in between.
   */
  lemma SectionBetween(text: string, name: SectionName, hStart: nat, hEnd: nat, bEnd: nat)
    requires hStart <= hEnd <= bEnd <= |text|
    requires forall j: nat :: j < hStart ==> HeadingEnd(text, j, name).None?
    requires HeadingEnd(text, hStart, name) == Some(hEnd)
    requires forall j: nat :: hEnd <= j < bEnd ==> !HashPairAt(text, j)
    requires bEnd == |text| || HashPairAt(text, bEnd)
    ensures ExtractSection(text, name) == Trim(text[hEnd..bEnd])
  {
    assert FindHeading(text, name, 0) == Some((hStart, hEnd));
    assert NextHashPair(text, hEnd) == bEnd;
  }

  /** Appending text after a `##`-free string keeps it free of `##` if no `##` straddles the joint. */
  lemma HashFreeConcat(x: string, y: string)
    requires HashFree(x) && HashFree(y)
    requires x == [] || y == [] || x[|x| - 1] != '#' || y[0] != '#'
    ensures HashFree(x + y)
  {
    var s := x + y;
    forall j: nat | j < |s| ensures !HashPairAt(s, j) {
      if j + 1 < |x| {
        assert !HashPairAt(x, j);
        assert s[j] == x[j] && s[j + 1] == x[j + 1];
      } else if j >= |x| && j + 1 < |s| {
        assert !HashPairAt(y, j - |x|);
        assert s[j] == y[j - |x|] && s[j + 1] == y[j + 1 - |x|];
      } else if j + 1 == |x| && j + 1 < |s| {
        assert s[j] == x[|x| - 1] && s[j + 1] == y[0];
      }
    }
  }

  /** A literal name matches its own text exactly. */
  lemma {:induction false} MatchLiteral(s: string, i: nat, lit: string)
    requires i + |lit| <= |s| && s[i..i + |lit|] == lit
    ensures MatchName(s, i, Literal(lit)) == Some(i + |lit|)
    decreases |lit|
  {
    if lit != [] {
      assert s[i] == lit[0];
      assert Literal(lit)[1..] == Literal(lit[1..]);
      assert s[i + 1..i + 1 + |lit[1..]|] == lit[1..];
      MatchLiteral(s, i + 1, lit[1..]);
    }
  }

  /** `MatchLiteral` with the end of the match given as an index. */
  lemma MatchLiteralTo(s: string, i: nat, j: nat, lit: string)
    requires j == i + |lit| <= |s| && s[i..j] == lit
    ensures MatchName(s, i, Literal(lit)) == Some(j)
  {
    MatchLiteral(s, i, lit);
  }

  /** A leading `\s*` skips the whitespace run and matches the rest after it. */
  lemma MatchSpacesHead(s: string, i: nat, rest: SectionName)
    requires i <= |s|
    ensures MatchName(s, i, [Spaces] + rest) == MatchName(s, SkipSpaces(s, i), rest)
  {
    assert ([Spaces] + rest)[1..] == rest;
  }

  /** A name that is a lone `\s*` ends where the whitespace run ends. */
  lemma MatchSpacesOnly(s: string, i: nat)
    requires i <= |s|
    ensures MatchName(s, i, [Spaces]) == Some(SkipSpaces(s, i))
  {
    assert [Spaces][1..] == [];
  }

  /** A leading literal character consumes one matching character. */
  lemma MatchLitHead(s: string, i: nat, c: char, rest: SectionName)
    requires i < |s| && s[i] == c
    ensures MatchName(s, i, [Lit(c)] + rest) == MatchName(s, i + 1, rest)
  {
    assert ([Lit(c)] + rest)[1..] == rest;
  }

  /** Matching a concatenated name is matching its parts one after the other. */
  lemma {:induction false} MatchNameConcat(s: string, i: nat, p: SectionName, q: SectionName)
    requires i <= |s|
    ensures MatchName(s, i, p + q)
         == (match MatchName(s, i, p) case None => None case Some(e) => MatchName(s, e, q))
    decreases |p|
  {
    if p == [] {
      assert p + q == q;
    } else {
      assert (p + q)[0] == p[0];
      assert (p + q)[1..] == p[1..] + q;
      match p[0]
      case Spaces => MatchNameConcat(s, SkipSpaces(s, i), p[1..], q);
      case Lit(c) => if i < |s| && Fold(s[i]) == Fold(c) { MatchNameConcat(s, i + 1, p[1..], q); }
    }
  }

  /** When `p` matches up to `e`, matching `p + q` goes on with `q` from `e`. */
  lemma MatchNameThen(s: string, i: nat, p: SectionName, q: SectionName, e: nat)
    requires i <= |s| && MatchName(s, i, p) == Some(e)
    ensures MatchName(s, i, p + q) == MatchName(s, e, q)
  {
    MatchNameConcat(s, i, p, q);
    var v := MatchName(s, i, p).value;
    assert v == e;
  }

  /** The heading `## <word>` at `i` is a heading for the literal name `word`. */
  lemma HeadingLiteral(s: string, i: nat, word: string)
    requires i + 3 + |word| <= |s| && s[i..i + 3 + |word|] == "## " + word
    requires word != [] && !IsSpace(word[0])
    ensures HeadingEnd(s, i, Literal(word)) == Some(i + 3 + |word|)
  {
    assert s[i] == '#' && s[i + 1] == '#' && s[i + 2] == ' ' && s[i + 3] == word[0];
    assert SkipSpaces(s, i + 2) == i + 3;
    assert s[i + 3..i + 3 + |word|] == word;
    MatchLiteral(s, i + 3, word);
  }

  /** A literal name fails to match where the text leaves it, case folded, after a common start. */
  lemma {:induction false} MatchLiteralFails(s: string, i: nat, lit: string, k: nat)
    requires k < |lit| && i + k < |s|
    requires forall m :: 0 <= m < k ==> Fold(s[i + m]) == Fold(lit[m])
    requires Fold(s[i + k]) != Fold(lit[k])
    ensures MatchName(s, i, Literal(lit)).None?
    decreases k
  {
    assert Literal(lit)[0] == Lit(lit[0]);
    assert Literal(lit)[1..] == Literal(lit[1..]);
    if k > 0 {
      assert Fold(s[i]) == Fold(lit[0]);
      forall m | 0 <= m < k - 1 ensures Fold(s[i + 1 + m]) == Fold(lit[1..][m]) {
        assert Fold(s[i + (m + 1)]) == Fold(lit[m + 1]);
      }
      MatchLiteralFails(s, i + 1, lit[1..], k - 1);
    }
  }

  /**
   * A heading `## <other>` at `i` is not one for a name that starts with
   * the literal `word` when `other` leaves `word` at its last character.
   */
  lemma HeadingMismatch(s: string, i: nat, other: string, word: string, rest: SectionName)
    requires i + 3 + |other| <= |s| && s[i..i + 3 + |other|] == "## " + other
    requires 0 < |word| <= |other| && !IsSpace(other[0])
    requires other[..|word| - 1] == word[..|word| - 1]
    requires Fold(other[|word| - 1]) != Fold(word[|word| - 1])
    ensures HeadingEnd(s, i, Literal(word) + rest).None?
  {
    assert s[i] == '#' && s[i + 1] == '#' && s[i + 2] == ' ' && s[i + 3] == other[0];
    assert SkipSpaces(s, i + 2) == i + 3;
    forall m | 0 <= m < |word| - 1 ensures Fold(s[i + 3 + m]) == Fold(word[m]) {
      assert s[i + 3 + m] == other[m];
      assert other[m] == other[..|word| - 1][m];
    }
    assert s[i + 3 + (|word| - 1)] == other[|word| - 1];
    MatchLiteralFails(s, i + 3, word, |word| - 1);
    MatchNameConcat(s, i + 3, Literal(word), rest);
  }

  // ---------------------------------------------------------------------
  // Sections as the generators write them

  /** A section as the Markdown generators write it: a blank line, `## title`, the value on the next line. */
  function Field(title: string, v: string): string {
    "\n\n## " + title + "\n" + v
  }

  /** No heading for `name` starts before `n`. */
  predicate NoHeadingBefore(s: string, n: nat, name: SectionName) {
    forall j: nat :: j < n && j <= |s| ==> HeadingEnd(s, j, name).None?
  }

  /** No `##` starts inside `x` in `pre + x + post`, when `x` has none and none straddles its end. */
  lemma PairFreeAt(pre: string, x: string, post: string)
    requires HashFree(x)
    requires x == [] || post == [] || x[|x| - 1] != '#' || post[0] != '#'
    ensures forall j: nat :: |pre| <= j < |pre| + |x| ==> !HashPairAt(pre + x + post, j)
  {
    var s := pre + x + post;
    forall j: nat | |pre| <= j < |pre| + |x| ensures !HashPairAt(s, j) {
      assert s[j] == x[j - |pre|];
      if j + 1 < |pre| + |x| {
        assert !HashPairAt(x, j - |pre|);
        assert s[j + 1] == x[j + 1 - |pre|];
      } else if j + 1 < |s| {
        assert s[j + 1] == post[0];
      }
    }
  }

  /** A `##`-free start of the text holds no heading. */
  lemma PrefixNoHeading(a: string, b: string, name: SectionName)
    requires HashFree(a)
    requires a == [] || b == [] || a[|a| - 1] != '#' || b[0] != '#'
    ensures NoHeadingBefore(a + b, |a|, name)
  {
    PairFreeAt([], a, b);
    assert [] + a + b == a + b;
  }

  /**
   * A field whose title leaves `word` (the literal start of `name`) holds no
   * heading for `name`.
   */
  lemma FieldNoHeading(a: string, title: string, v: string, b: string, word: string, rest: SectionName)
    requires NoHeadingBefore(a + Field(title, v) + b, |a|, Literal(word) + rest)
    requires 0 < |word| <= |title| && !IsSpace(title[0])
    requires title[..|word| - 1] == word[..|word| - 1] && Fold(title[|word| - 1]) != Fold(word[|word| - 1])
    requires HashFree(title) && HashFree(v)
    requires b == [] || b[0] != '#'
    ensures NoHeadingBefore(a + Field(title, v) + b, |a| + |Field(title, v)|, Literal(word) + rest)
  {
    var s := a + Field(title, v) + b;
    var name := Literal(word) + rest;
    var o := |a|;
    var x := "# " + title + "\n" + v;
    HashFreeConcat("# ", title);
    HashFreeConcat("# " + title, "\n");
    HashFreeConcat("# " + title + "\n", v);
    assert s == (a + "\n\n#") + x + b;
    PairFreeAt(a + "\n\n#", x, b);
    assert s[o + 2..o + 2 + 3 + |title|] == "## " + title;
    HeadingMismatch(s, o + 2, title, word, rest);
    forall j: nat | o <= j < o + |Field(title, v)| ensures HeadingEnd(s, j, name).None? {
      if j < o + 2 {
        assert s[j] == '\n';
      }
    }
  }

  /** What separates a field's value from the text after it, up to the next `##` or the end. */
  function Gap(b: string): string {
    if |b| >= 4 && b[..4] == "\n\n##" then "\n\n" else b
  }

  /** A suffix of a `##`-free text is `##`-free. */
  lemma HashFreeSuffix(t: string, k: nat)
    requires HashFree(t) && k <= |t|
    ensures HashFree(t[k..])
  {
    forall j: nat | j < |t[k..]| ensures !HashPairAt(t[k..], j) {
      assert !HashPairAt(t, k + j);
    }
  }

  /** What follows the gap: the next field from its `##` on, or nothing. */
  function AfterGap(b: string): string {
    if |b| >= 4 && b[..4] == "\n\n##" then b[2..] else []
  }

  /** A field's text cut at the end of its heading (`k` characters into the title) and at the next `##`. */
  lemma FieldLayout(a: string, title: string, v: string, b: string, k: nat)
    requires k <= |title|
    ensures a + Field(title, v) + b
         == (a + "\n\n## " + title[..k]) + (title[k..] + "\n" + v + Gap(b)) + AfterGap(b)
  {
    assert title == title[..k] + title[k..];
    assert b == Gap(b) + AfterGap(b) by {
      if |b| >= 4 && b[..4] == "\n\n##" { assert b == b[..2] + b[2..]; }
    }
  }

  /** The body of a field, up to the next `##`, holds none. */
  lemma FieldBodyClean(title: string, v: string, b: string, k: nat)
    requires k <= |title| && HashFree(title) && HashFree(v)
    requires (HashFree(b) && (b == [] || b[0] != '#')) || (|b| >= 4 && b[..4] == "\n\n##")
    ensures HashFree(title[k..] + "\n" + v + Gap(b))
    ensures AfterGap(b) == [] || (title[k..] + "\n" + v + Gap(b))[|title[k..] + "\n" + v + Gap(b)| - 1] != '#'
  {
    HashFreeSuffix(title, k);
    HashFreeConcat(title[k..], "\n");
    HashFreeConcat(title[k..] + "\n", v);
    var gapped := |b| >= 4 && b[..4] == "\n\n##";
    if gapped {
      assert Gap(b) == "\n\n";
      assert HashFree(Gap(b));
    }
    HashFreeConcat(title[k..] + "\n" + v, Gap(b));
  }

  /** The section found between a heading and the next `##`, for a text already cut into its parts. */
  lemma SectionOfParts(s: string, pre: string, body: string, post: string, name: SectionName, hStart: nat)
    requires s == pre + body + post
    requires hStart <= |pre|
    requires NoHeadingBefore(s, hStart, name)
    requires HeadingEnd(s, hStart, name) == Some(|pre|)
    requires forall j: nat :: |pre| <= j < |pre| + |body| ==> !HashPairAt(s, j)
    requires post == [] || (|post| >= 2 && post[0] == '#' && post[1] == '#')
    ensures ExtractSection(s, name) == Trim(body)
  {
    assert s[|pre|..|pre| + |body|] == body;
    SectionBetween(s, name, hStart, |pre|, |pre| + |body|);
  }

  /**
   * The section a generator wrote reads back: when the first heading for
   * `name` is the one of this field and it ends `k` characters into the
   * title, the section is the rest of the title, the value and the gap up
   * to the next field, trimmed.
   */
  lemma FieldSection(a: string, title: string, v: string, b: string, name: SectionName, k: nat)
    requires k <= |title|
    requires HeadingEnd(a + Field(title, v) + b, |a| + 2, name) == Some(|a| + 5 + k)
    requires NoHeadingBefore(a + Field(title, v) + b, |a|, name)
    requires HashFree(title) && HashFree(v)
    requires (HashFree(b) && (b == [] || b[0] != '#')) || (|b| >= 4 && b[..4] == "\n\n##")
    ensures ExtractSection(a + Field(title, v) + b, name) == Trim(title[k..] + "\n" + v + Gap(b))
  {
    var s := a + Field(title, v) + b;
    var pre := a + "\n\n## " + title[..k];
    var body := title[k..] + "\n" + v + Gap(b);
    FieldLayout(a, title, v, b, k);
    FieldBodyClean(title, v, b, k);
    PairFreeAt(pre, body, AfterGap(b));
    forall j: nat | j < |a| + 2 && j <= |s| ensures HeadingEnd(s, j, name).None? {
      if j >= |a| { assert s[j] == '\n'; }
    }
    SectionOfParts(s, pre, body, AfterGap(b), name, |a| + 2);
  }

  /** The name for a concatenated literal is the names of its parts, one after the other. */
  lemma LiteralConcat(x: string, y: string)
    ensures Literal(x + y) == Literal(x) + Literal(y)
  {
  }

  /** A field whose title starts with the literal `word` has a heading for `word` that ends after it. */
  lemma FieldHeading(s: string, a: string, title: string, v: string, b: string, word: string)
    requires s == a + Field(title, v) + b
    requires 0 < |word| <= |title| && title[..|word|] == word && !IsSpace(word[0])
    ensures HeadingEnd(s, |a| + 2, Literal(word)) == Some(|a| + 5 + |word|)
  {
    assert s[|a| + 2..|a| + 2 + 3 + |word|] == "## " + word;
    HeadingLiteral(s, |a| + 2, word);
  }

  /** A field whose heading is its whole title gives back its trimmed value when the gap is blank. */
  lemma WholeTitleValue(title: string, k: nat, v: string, b: string)
    requires k == |title| && IsTrimmed(v) && IsBlank(Gap(b))
    ensures Trim(title[k..] + "\n" + v + Gap(b)) == v
  {
    assert title[k..] + "\n" + v + Gap(b) == "\n" + v + Gap(b);
    TrimAround("\n", v, Gap(b));
  }

  /** Between a value and the next field, or the end, there is only whitespace. */
  lemma GapBlank(b: string)
    requires IsBlank(b) || (|b| >= 4 && b[..4] == "\n\n##")
    ensures IsBlank(Gap(b))
  {
    if |b| >= 4 && b[..4] == "\n\n##" {
      assert Gap(b) == "\n\n";
    }
  }

  // ---------------------------------------------------------------------
  // Documents as the generators write them: a first line, then sections

  /** The sections `(title, value)` written one after the other. */
  function Fields(fs: seq<(string, string)>): string
    decreases |fs|
  {
    if fs == [] then "" else Fields(fs[..|fs| - 1]) + Field(fs[|fs| - 1].0, fs[|fs| - 1].1)
  }

  /** A first line, the sections, and the text after them. */
  function Doc(head: string, fs: seq<(string, string)>, tail: string): string {
    head + Fields(fs) + tail
  }

  /** Titles that start with a visible character and titles and values free of `##`. */
  predicate GoodFields(fs: seq<(string, string)>) {
    forall j :: 0 <= j < |fs| ==> fs[j].0 != [] && !IsSpace(fs[j].0[0]) && HashFree(fs[j].0) && HashFree(fs[j].1)
  }

  /** `title` and `lit` agree, case folded, before `k` and differ at `k`. */
  predicate DiffersAt(title: string, lit: string, k: nat) {
    k < |lit| && k < |title| && title[..k] == lit[..k] && Fold(title[k]) != Fold(lit[k])
  }

  /** A heading with this title is not one for the literal name `lit`. */
  predicate Differs(title: string, lit: string) {
    exists k: nat :: k < |lit| && DiffersAt(title, lit, k)
  }

  /** Appending one section. */
  lemma FieldsSnoc(fs: seq<(string, string)>, f: (string, string))
    ensures Fields(fs + [f]) == Fields(fs) + Field(f.0, f.1)
  {
    assert (fs + [f])[..|fs|] == fs;
  }

  /** Three sections one after the other. */
  lemma FieldsOfThree(f0: (string, string), f1: (string, string), f2: (string, string))
    ensures Fields([f0, f1, f2]) == Field(f0.0, f0.1) + Field(f1.0, f1.1) + Field(f2.0, f2.1)
  {
    FieldsSnoc([], f0);
    assert [] + [f0] == [f0];
    FieldsSnoc([f0], f1);
    assert [f0] + [f1] == [f0, f1];
    FieldsSnoc([f0, f1], f2);
    assert [f0, f1] + [f2] == [f0, f1, f2];
  }

  /** The sections of two lists one after the other. */
  lemma {:induction false} FieldsAppend(xs: seq<(string, string)>, ys: seq<(string, string)>)
    ensures Fields(xs + ys) == Fields(xs) + Fields(ys)
    decreases |ys|
  {
    if ys == [] {
      assert xs + ys == xs;
    } else {
      var init := ys[..|ys| - 1];
      var y := ys[|ys| - 1];
      assert ys == init + [y];
      assert xs + ys == (xs + init) + [y];
      FieldsSnoc(xs + init, y);
      FieldsSnoc(init, y);
      FieldsAppend(xs, init);
    }
  }

  /** The sections, cut before the `i`-th one. */
  lemma FieldsSplit(fs: seq<(string, string)>, i: nat)
    requires i < |fs|
    ensures Fields(fs) == Fields(fs[..i]) + Field(fs[i].0, fs[i].1) + Fields(fs[i + 1..])
  {
    assert fs == fs[..i + 1] + fs[i + 1..];
    FieldsAppend(fs[..i + 1], fs[i + 1..]);
    FieldsPrefix(fs, i);
  }

  /** The sections up to and including the `i`-th one. */
  lemma FieldsPrefix(fs: seq<(string, string)>, i: nat)
    requires i < |fs|
    ensures Fields(fs[..i + 1]) == Fields(fs[..i]) + Field(fs[i].0, fs[i].1)
  {
    assert fs[..i + 1] == fs[..i] + [fs[i]];
    FieldsSnoc(fs[..i], fs[i]);
  }

  /** Sections start with a newline. */
  lemma FieldsStart(fs: seq<(string, string)>, i: nat)
    requires i < |fs|
    ensures Fields(fs[i..]) != [] && Fields(fs[i..])[0] == '\n'
  {
    FieldsSplit(fs[i..], 0);
    assert fs[i..][..0] == [];
  }

  /** The document cut around its `i`-th section. */
  lemma DocAt(head: string, fs: seq<(string, string)>, tail: string, i: nat)
    requires i < |fs|
    ensures Doc(head, fs, tail)
         == (head + Fields(fs[..i])) + Field(fs[i].0, fs[i].1) + (Fields(fs[i + 1..]) + tail)
  {
    FieldsSplit(fs, i);
  }

  /** No heading starts in the first line of a document. */
  lemma NoHeadingInHead(head: string, fs: seq<(string, string)>, tail: string, name: SectionName)
    requires HashFree(head)
    requires tail == [] || tail[0] != '#'
    ensures NoHeadingBefore(Doc(head, fs, tail), |head| + |Fields(fs[..0])|, name)
  {
    assert fs[..0] == [];
    if fs != [] { FieldsStart(fs, 0); assert fs[0..] == fs; }
    PrefixNoHeading(head, Fields(fs) + tail, name);
    assert Doc(head, fs, tail) == head + (Fields(fs) + tail);
  }

  /** A section whose title differs from `lit` adds no heading for it. */
  lemma NoHeadingStep(head: string, fs: seq<(string, string)>, tail: string, j: nat, lit: string)
    requires j < |fs| && GoodFields(fs) && Differs(fs[j].0, lit)
    requires tail == [] || tail[0] != '#'
    requires NoHeadingBefore(Doc(head, fs, tail), |head| + |Fields(fs[..j])|, Literal(lit))
    ensures NoHeadingBefore(Doc(head, fs, tail), |head| + |Fields(fs[..j + 1])|, Literal(lit))
  {
    var k: nat :| k < |lit| && DiffersAt(fs[j].0, lit, k);
    assert lit == lit[..k + 1] + lit[k + 1..];
    LiteralConcat(lit[..k + 1], lit[k + 1..]);
    assert fs[j].0[..k] == lit[..k + 1][..k];
    NoHeadingStepNamed(head, fs, tail, j, lit[..k + 1], Literal(lit[k + 1..]));
  }

  /**
   * A section whose title leaves `word`, the literal start of `name`, at its
   * last character adds no heading for `name`.
   */
  lemma NoHeadingStepNamed(head: string, fs: seq<(string, string)>, tail: string, j: nat, word: string, rest: SectionName)
    requires j < |fs| && GoodFields(fs)
    requires 0 < |word| <= |fs[j].0| && fs[j].0[..|word| - 1] == word[..|word| - 1]
    requires Fold(fs[j].0[|word| - 1]) != Fold(word[|word| - 1])
    requires tail == [] || tail[0] != '#'
    requires NoHeadingBefore(Doc(head, fs, tail), |head| + |Fields(fs[..j])|, Literal(word) + rest)
    ensures NoHeadingBefore(Doc(head, fs, tail), |head| + |Fields(fs[..j + 1])|, Literal(word) + rest)
  {
    var a := head + Fields(fs[..j]);
    var b := Fields(fs[j + 1..]) + tail;
    DocAt(head, fs, tail, j);
    if j + 1 < |fs| { FieldsStart(fs, j + 1); } else { assert fs[j + 1..] == []; }
    FieldNoHeading(a, fs[j].0, fs[j].1, b, word, rest);
    FieldsPrefix(fs, j);
  }

  /** The heading line of the `i`-th section, inside the document. */
  lemma FieldHeadingInDoc(head: string, fs: seq<(string, string)>, tail: string, i: nat)
    requires i < |fs|
    ensures |head| + |Fields(fs[..i])| + 5 + |fs[i].0| <= |Doc(head, fs, tail)|
    ensures Doc(head, fs, tail)[|head| + |Fields(fs[..i])| + 2..|head| + |Fields(fs[..i])| + 5 + |fs[i].0|]
         == "## " + fs[i].0
  {
    var a := head + Fields(fs[..i]);
    DocAt(head, fs, tail, i);
    assert Field(fs[i].0, fs[i].1) == "\n\n" + ("## " + fs[i].0) + ("\n" + fs[i].1);
    assert Doc(head, fs, tail) == a + "\n\n" + ("## " + fs[i].0) + ("\n" + fs[i].1 + (Fields(fs[i + 1..]) + tail));
  }

  /**
   * The `i`-th section of a document reads back under any name whose first
   * heading is the one of that section, when its value is trimmed and the
   * heading covers the whole title.
   */
  lemma FieldOfDocNamed(head: string, fs: seq<(string, string)>, tail: string, i: nat, name: SectionName)
    requires i < |fs| && GoodFields(fs) && IsBlank(tail) && IsTrimmed(fs[i].1)
    requires NoHeadingBefore(Doc(head, fs, tail), |head| + |Fields(fs[..i])|, name)
    requires |head| + |Fields(fs[..i])| + 2 <= |Doc(head, fs, tail)|
    requires HeadingEnd(Doc(head, fs, tail), |head| + |Fields(fs[..i])| + 2, name)
          == Some(|head| + |Fields(fs[..i])| + 5 + |fs[i].0|)
    ensures ExtractSection(Doc(head, fs, tail), name) == fs[i].1
  {
    var a := head + Fields(fs[..i]);
    var b := Fields(fs[i + 1..]) + tail;
    DocAt(head, fs, tail, i);
    AfterField(fs, tail, i);
    if IsBlank(b) { BlankClean(b); }
    FieldSection(a, fs[i].0, fs[i].1, b, name, |fs[i].0|);
    GapBlank(b);
    WholeTitleValue(fs[i].0, |fs[i].0|, fs[i].1, b);
  }

  /** No heading for `lit` starts before the `i`-th section when every earlier title differs from it. */
  lemma {:induction false} NoHeadingInFields(head: string, fs: seq<(string, string)>, tail: string, i: nat, lit: string)
    requires i <= |fs| && HashFree(head) && GoodFields(fs)
    requires forall j :: 0 <= j < i ==> Differs(fs[j].0, lit)
    requires tail == [] || tail[0] != '#'
    ensures NoHeadingBefore(Doc(head, fs, tail), |head| + |Fields(fs[..i])|, Literal(lit))
  {
    if i == 0 {
      NoHeadingInHead(head, fs, tail, Literal(lit));
    } else {
      NoHeadingInFields(head, fs, tail, i - 1, lit);
      NoHeadingStep(head, fs, tail, i - 1, lit);
    }
  }

  /** Whitespace holds no `##` and does not start with `#`. */
  lemma BlankClean(b: string)
    requires IsBlank(b)
    ensures HashFree(b) && (b == [] || b[0] != '#')
  {
    forall j: nat | j < |b| ensures !HashPairAt(b, j) { assert IsSpace(b[j]); }
    if b != [] { assert IsSpace(b[0]); }
  }

  /** After the `i`-th section come whitespace only, or the next section. */
  lemma AfterField(fs: seq<(string, string)>, tail: string, i: nat)
    requires i < |fs| && IsBlank(tail)
    ensures IsBlank(Fields(fs[i + 1..]) + tail)
         || (|Fields(fs[i + 1..]) + tail| >= 4 && (Fields(fs[i + 1..]) + tail)[..4] == "\n\n##")
  {
    var b := Fields(fs[i + 1..]) + tail;
    if i + 1 < |fs| {
      FieldsSplit(fs[i + 1..], 0);
      assert fs[i + 1..][..0] == [];
      assert b[..4] == "\n\n##";
    } else {
      assert fs[i + 1..] == [];
      assert b == tail;
    }
  }

  /**
   * The `i`-th section of a document reads back when it is the first whose
   * title starts with the literal name `lit`: as its value if the title is
   * `lit` itself and the value is trimmed, and, for the last section, as the
   * rest of its title and its value, trimmed.
   */
  lemma FieldOfDoc(head: string, fs: seq<(string, string)>, tail: string, i: nat, lit: string)
    requires i < |fs| && HashFree(head) && GoodFields(fs) && IsBlank(tail)
    requires forall j :: 0 <= j < i ==> Differs(fs[j].0, lit)
    requires 0 < |lit| <= |fs[i].0| && fs[i].0[..|lit|] == lit
    ensures fs[i].0 == lit && IsTrimmed(fs[i].1) ==> ExtractSection(Doc(head, fs, tail), Literal(lit)) == fs[i].1
    ensures i == |fs| - 1 && tail == []
      ==> ExtractSection(Doc(head, fs, tail), Literal(lit)) == Trim(fs[i].0[|lit|..] + "\n" + fs[i].1)
  {
    var s := Doc(head, fs, tail);
    var a := head + Fields(fs[..i]);
    var b := Fields(fs[i + 1..]) + tail;
    assert tail == [] || tail[0] != '#' by { if tail != [] { assert IsSpace(tail[0]); } }
    NoHeadingInFields(head, fs, tail, i, lit);
    DocAt(head, fs, tail, i);
    FieldHeading(s, a, fs[i].0, fs[i].1, b, lit);
    AfterField(fs, tail, i);
    if IsBlank(b) { BlankClean(b); }
    FieldSection(a, fs[i].0, fs[i].1, b, Literal(lit), |lit|);
    if fs[i].0 == lit && IsTrimmed(fs[i].1) {
      GapBlank(b);
      WholeTitleValue(fs[i].0, |lit|, fs[i].1, b);
    }
    if i == |fs| - 1 && tail == [] {
      assert fs[i + 1..] == [];
      assert b == [] && Gap(b) == [];
      assert fs[i].0[|lit|..] + "\n" + fs[i].1 + Gap(b) == fs[i].0[|lit|..] + "\n" + fs[i].1;
    }
  }

  /** A document none of whose titles starts with the literal name `lit` has no such section. */
  lemma NoFieldOfDoc(head: string, fs: seq<(string, string)>, tail: string, lit: string)
    requires HashFree(head) && GoodFields(fs) && IsBlank(tail)
    requires forall j :: 0 <= j < |fs| ==> Differs(fs[j].0, lit)
    ensures ExtractSection(Doc(head, fs, tail), Literal(lit)) == ""
  {
    var s := Doc(head, fs, tail);
    assert tail == [] || tail[0] != '#' by { if tail != [] { assert IsSpace(tail[0]); } }
    NoHeadingInFields(head, fs, tail, |fs|, lit);
    assert fs[..|fs|] == fs;
    forall j: nat | |head| + |Fields(fs)| <= j <= |s| ensures HeadingEnd(s, j, Literal(lit)).None? {
      if j < |s| { assert IsSpace(s[j]); }
    }
    NoHeadingNoSection(s, Literal(lit));
  }
}
