/**
 * The JavaScript string primitives the source relies on, over `string`
 * (a sequence of characters): `trim`, `indexOf`, `split`/`join`, the regular
 * expression class `\s`, and decimal formatting of numbers.
 */
module Text {
  import opened Wrappers

  /** ECMAScript LineTerminator: what `.` refuses and what `^`/`$` see in multiline mode. */
  predicate IsLineTerminator(c: char) {
    c == '\n' || c == '\r' || c == '\U{2028}' || c == '\U{2029}'
  }

  /**
   * ECMAScript WhiteSpace or LineTerminator. This is both the regular
   * expression class `\s` and the set of characters `trim` removes.
   */
  predicate IsSpace(c: char) {
    || IsLineTerminator(c)
    || c == ' ' || c == '\t' || c == '\U{000B}' || c == '\U{000C}'
    || c == '\U{00A0}' || c == '\U{1680}' || ('\U{2000}' <= c <= '\U{200A}')
    || c == '\U{202F}' || c == '\U{205F}' || c == '\U{3000}' || c == '\U{FEFF}'
  }

  /** A printable ASCII character other than the space is not whitespace. */
  lemma VisibleChar(c: char)
    requires '!' <= c <= '~'
    ensures !IsSpace(c)
  {
  }

  /** Only whitespace (JavaScript: `!s.trim()`). */
  predicate IsBlank(s: string) {
    forall i :: 0 <= i < |s| ==> IsSpace(s[i])
  }

  /** `^` in multiline mode: the start of the text or just after a line terminator. */
  predicate LineStart(s: string, i: nat)
    requires i <= |s|
  {
    i == 0 || IsLineTerminator(s[i - 1])
  }

  /** `$` in multiline mode: the end of the text or just before a line terminator. */
  predicate LineEnd(s: string, p: nat)
    requires p <= |s|
  {
    p == |s| || IsLineTerminator(s[p])
  }

  /** Neither starts nor ends with whitespace. */
  predicate IsTrimmed(s: string) {
    s == [] || (!IsSpace(s[0]) && !IsSpace(s[|s| - 1]))
  }

  /** Contains no line terminator: a single line. */
  predicate IsSingleLine(s: string) {
    forall i :: 0 <= i < |s| ==> !IsLineTerminator(s[i])
  }

  /** The longest suffix of `s` that does not start with whitespace. */
  function TrimStart(s: string): (r: string)
    ensures |r| <= |s| && r == s[|s| - |r|..]
    ensures IsBlank(s[..|s| - |r|])
    ensures r == [] || !IsSpace(r[0])
  {
    if s != [] && IsSpace(s[0]) then TrimStart(s[1..]) else s
  }

  /** The longest prefix of `s` that does not end with whitespace. */
  function TrimEnd(s: string): (r: string)
    ensures |r| <= |s| && r == s[..|r|]
    ensures IsBlank(s[|r|..])
    ensures r == [] || !IsSpace(r[|r| - 1])
  {
    if s != [] && IsSpace(s[|s| - 1]) then TrimEnd(s[..|s| - 1]) else s
  }

  /** `String.prototype.trim`. */
  function Trim(s: string): (r: string)
    ensures IsTrimmed(r)
  {
    TrimEnd(TrimStart(s))
  }

  /** `trim` leaves nothing exactly when the text is blank. */
  lemma TrimEmpty(s: string)
    ensures Trim(s) == [] <==> IsBlank(s)
  {
    var t := TrimStart(s);
    assert s == s[..|s| - |t|] + t;
  }

  /** `TrimStart` drops a blank prefix and stops at the first non-space. */
  lemma {:induction false} TrimStartBlankPrefix(w: string, x: string)
    requires IsBlank(w) && (x == [] || !IsSpace(x[0]))
    ensures TrimStart(w + x) == x
    decreases |w|
  {
    if w == [] {
      assert w + x == x;
    } else {
      assert (w + x)[1..] == w[1..] + x;
      TrimStartBlankPrefix(w[1..], x);
    }
  }

  /** `TrimEnd` drops a blank suffix and stops at the last non-space. */
  lemma {:induction false} TrimEndBlankSuffix(x: string, w: string)
    requires IsBlank(w) && (x == [] || !IsSpace(x[|x| - 1]))
    ensures TrimEnd(x + w) == x
    decreases |w|
  {
    if w == [] {
      assert x + w == x;
    } else {
      assert (x + w)[..|x + w| - 1] == x + w[..|w| - 1];
      TrimEndBlankSuffix(x, w[..|w| - 1]);
    }
  }

  /** The trimmed string is a slice of the original. */
  lemma TrimIsSlice(s: string) returns (k: nat)
    ensures k + |Trim(s)| <= |s| && Trim(s) == s[k..k + |Trim(s)|]
  {
    var t := TrimStart(s);
    k := |s| - |t|;
    var r := TrimEnd(t);
    assert t == s[k..];
    assert r == t[..|r|];
  }

  /** Trimming adds no character. */
  lemma TrimKeepsOut(s: string, c: char)
    requires c !in s
    ensures c !in Trim(s)
  {
    var k := TrimIsSlice(s);
    var r := Trim(s);
    forall i | 0 <= i < |r| ensures r[i] != c { assert r[i] == s[k + i]; }
  }

  /** Trimming removes exactly the whitespace around a trimmed core. */
  lemma TrimAround(w1: string, x: string, w2: string)
    requires IsBlank(w1) && IsBlank(w2) && IsTrimmed(x)
    ensures Trim(w1 + x + w2) == x
  {
    assert w1 + x + w2 == w1 + (x + w2);
    if x == [] {
      assert IsBlank(w1 + w2);
      TrimStartBlankPrefix(w1 + w2, []);
      assert w1 + w2 + [] == w1 + x + w2;
    } else {
      TrimStartBlankPrefix(w1, x + w2);
      TrimEndBlankSuffix(x, w2);
    }
  }

  /** The trimmed text after a line break is what follows it. */
  lemma TrimAfterBreak(pre: string, c: string)
    requires IsTrimmed(c)
    ensures var x := pre + "\n" + c; Trim(x[|pre|..|x|]) == c
  {
    var x := pre + "\n" + c;
    assert x[|pre|..|x|] == "\n" + c;
    TrimAround("\n", c, "");
    assert "\n" + c + "" == "\n" + c;
  }

  /** A trimmed string is its own trim. */
  lemma TrimTrimmed(x: string)
    requires IsTrimmed(x)
    ensures Trim(x) == x
  {
    TrimAround([], x, []);
    assert [] + x + [] == x;
  }

  /** Trimming keeps a prefix that starts with a non-space when more text follows. */
  lemma TrimKeepsPrefix(x: string, y: string)
    requires x != [] && !IsSpace(x[0])
    requires !IsBlank(y)
    ensures Trim(x + y) == x + TrimEnd(y)
  {
    var v := TrimEnd(y);
    var rest := y[|v|..];
    assert y == v + rest;
    var xv := x + v;
    assert xv[|xv| - 1] == v[|v| - 1];
    assert x + y == xv + rest;
    assert (x + y)[0] == x[0];
    TrimStartBlankPrefix([], x + y);
    assert [] + (x + y) == x + y;
    TrimEndBlankSuffix(xv, rest);
  }

  /** `pat` occurs in `s` at index `i`. */
  predicate OccursAt(s: string, pat: string, i: nat) {
    i + |pat| <= |s| && s[i..i + |pat|] == pat
  }

  /** A slice of `y` is the same slice of `x + y`, moved by `|x|`. */
  lemma SliceAfter(x: string, y: string, i: nat, j: nat)
    requires i <= j <= |y|
    ensures (x + y)[|x| + i..|x| + j] == y[i..j]
  {
  }

  /** Trimming a prefix of a suffix is trimming the slice between them. */
  lemma TrimDropTake(s: string, i: nat, j: nat)
    requires i <= j <= |s|
    ensures Trim(s[i..][..j - i]) == Trim(s[i..j])
  {
    assert s[i..][..j - i] == s[i..j];
  }

  /** No carriage return anywhere in `s`. */
  predicate NoCR(s: string) {
    forall i :: 0 <= i < |s| ==> s[i] != '\r'
  }

  /** Text without carriage returns stays so when joined. */
  lemma NoCRConcat(a: string, b: string)
    requires NoCR(a) && NoCR(b)
    ensures NoCR(a + b)
  {
    forall i | 0 <= i < |a + b| ensures (a + b)[i] != '\r' {
      if i < |a| { assert (a + b)[i] == a[i]; } else { assert (a + b)[i] == b[i - |a|]; }
    }
  }

  /** Trimming a trimmed text with a newline after it gives the text back. */
  lemma TrimDropsLeadingNewline(x: string)
    requires IsTrimmed(x)
    ensures Trim("\n" + x) == x
  {
    TrimAround("\n", x, []);
    assert "\n" + x + [] == "\n" + x;
  }

  /** A trimmed text with a newline after it trims back to itself. */
  lemma TrimDropsNewline(x: string)
    requires IsTrimmed(x)
    ensures Trim(x + "\n") == x
  {
    TrimAround([], x, "\n");
    assert [] + x + "\n" == x + "\n";
  }

  /** `s.endsWith(t)`. */
  predicate EndsWith(s: string, t: string) {
    |t| <= |s| && s[|s| - |t|..] == t
  }

  /** `s.includes(pat)`. */
  predicate Contains(s: string, pat: string) {
    exists i: nat :: i <= |s| && OccursAt(s, pat, i)
  }

  /** `s.indexOf(pat, from)`: the first occurrence at or after `from`, or `None` for -1. */
  function IndexOfFrom(s: string, pat: string, from: nat): (r: Option<nat>)
    ensures r.Some? ==> from <= r.value && OccursAt(s, pat, r.value)
    ensures forall j: nat :: from <= j && (r.None? || j < r.value) ==> !OccursAt(s, pat, j)
    decreases |s| - from
  {
    if from + |pat| > |s| then None
    else if s[from..from + |pat|] == pat then Some(from)
    else IndexOfFrom(s, pat, from + 1)
  }

  /** `s.indexOf(pat)`. */
  function IndexOf(s: string, pat: string): (r: Option<nat>)
    ensures r.None? <==> !Contains(s, pat)
    ensures r.Some? ==> OccursAt(s, pat, r.value) && forall j: nat :: j < r.value ==> !OccursAt(s, pat, j)
  {
    IndexOfFrom(s, pat, 0)
  }

  /** Concatenation regroups. */
  lemma ConcatAssoc<T>(a: seq<T>, b: seq<T>, c: seq<T>)
    ensures a + (b + c) == a + b + c
  {
  }

  /** No occurrence of `pat` in `a + b` starts inside `a` when `a` has none and `b[0]` is not in `pat`. */
  lemma NoOccurrenceInFront(a: string, b: string, pat: string, j: nat)
    requires !Contains(a, pat)
    requires b != [] && b[0] !in pat
    requires j < |a|
    ensures !OccursAt(a + b, pat, j)
  {
    var s := a + b;
    if j + |pat| <= |a| {
      assert s[j..j + |pat|] == a[j..j + |pat|];
      assert !OccursAt(a, pat, j);
    } else if j + |pat| <= |s| {
      assert s[j..j + |pat|][|a| - j] == b[0];
    }
  }

  /** An occurrence in `b` is one in `a + b`, moved by `|a|`. */
  lemma OccurrenceShifted(a: string, b: string, pat: string, k: nat)
    ensures OccursAt(a + b, pat, |a| + k) <==> OccursAt(b, pat, k)
  {
    if |a| + k + |pat| <= |a + b| {
      assert (a + b)[|a| + k..|a| + k + |pat|] == b[k..k + |pat|];
    }
  }

  /** The first occurrence of `pat` in `a + b` is past `a` when `a` has none and `b[0]` is not in `pat`. */
  lemma IndexOfPast(a: string, b: string, pat: string)
    requires !Contains(a, pat)
    requires b != [] && b[0] !in pat
    ensures IndexOf(a + b, pat) == (match IndexOf(b, pat) case None => None case Some(k) => Some(|a| + k))
  {
    var s := a + b;
    match IndexOf(b, pat)
    case None =>
      forall j: nat ensures !OccursAt(s, pat, j) {
        if j < |a| {
          NoOccurrenceInFront(a, b, pat, j);
        } else {
          OccurrenceShifted(a, b, pat, j - |a|);
        }
      }
    case Some(k) =>
      OccurrenceShifted(a, b, pat, k);
      forall j: nat | j < |a| + k ensures !OccursAt(s, pat, j) {
        if j < |a| {
          NoOccurrenceInFront(a, b, pat, j);
        } else {
          OccurrenceShifted(a, b, pat, j - |a|);
        }
      }
  }

  /** A slice of a text without `pat` has no `pat` either. */
  lemma SliceKeepsOutPattern(s: string, pat: string, k: nat, n: nat)
    requires !Contains(s, pat) && k <= n <= |s|
    ensures !Contains(s[k..n], pat)
  {
    if Contains(s[k..n], pat) {
      var i: nat :| i <= n - k && OccursAt(s[k..n], pat, i);
      forall j | 0 <= j < |pat| ensures s[k + i..k + i + |pat|][j] == pat[j] {
        assert s[k..n][i..i + |pat|][j] == pat[j];
      }
      assert OccursAt(s, pat, k + i);
    }
  }

  /** Trimming a text without `pat` leaves none. */
  lemma TrimKeepsOutPattern(s: string, pat: string)
    requires !Contains(s, pat)
    ensures !Contains(Trim(s), pat)
  {
    var k := TrimIsSlice(s);
    SliceKeepsOutPattern(s, pat, k, k + |Trim(s)|);
  }

  /** The index of the first `c` in `s`. */
  function FirstIndexOf(s: string, c: char): (r: nat)
    requires c in s
    ensures r < |s| && s[r] == c && c !in s[..r]
  {
    if s[0] == c then 0 else FirstIndexOf(s[1..], c) + 1
  }

  /** The first `c` in `x + [c] + y` is the one after `x` when `x` has none. */
  lemma {:induction false} FirstIndexOfJoined(x: string, c: char, y: string)
    requires c !in x
    ensures FirstIndexOf(x + [c] + y, c) == |x|
    decreases |x|
  {
    if x != [] {
      assert (x + [c] + y)[1..] == x[1..] + [c] + y;
      assert c !in x[1..] by {
        assert forall k :: 0 <= k < |x[1..]| ==> x[1..][k] == x[k + 1];
      }
      FirstIndexOfJoined(x[1..], c, y);
    }
  }

  /** `s.split(sep)` for a one-character separator. */
  function Split(s: string, sep: char): (parts: seq<string>)
    ensures |parts| >= 1
    ensures forall k :: 0 <= k < |parts| ==> sep !in parts[k]
    decreases |s|
  {
    if sep !in s then [s]
    else
      var i := FirstIndexOf(s, sep);
      [s[..i]] + Split(s[i + 1..], sep)
  }

  /** `parts.join(sep)`. */
  function Join(parts: seq<string>, sep: string): string
  {
    if |parts| == 0 then ""
    else if |parts| == 1 then parts[0]
    else parts[0] + sep + Join(parts[1..], sep)
  }

  /** Where `parts[i]` starts in `Join(parts, sep)`. */
  function JoinOffset(parts: seq<string>, sep: string, i: nat): nat
    requires i <= |parts|
  {
    if i == 0 then 0 else |parts[0]| + |sep| + JoinOffset(parts[1..], sep, i - 1)
  }

  /** Each part sits in the joined string at its offset. */
  lemma {:induction false} JoinAt(parts: seq<string>, sep: string, i: nat)
    requires i < |parts|
    ensures OccursAt(Join(parts, sep), parts[i], JoinOffset(parts, sep, i))
    decreases i
  {
    if i == 0 {
      if |parts| > 1 { assert Join(parts, sep) == parts[0] + (sep + Join(parts[1..], sep)); }
    } else {
      JoinAt(parts[1..], sep, i - 1);
      var pre := parts[0] + sep;
      var rest := Join(parts[1..], sep);
      assert Join(parts, sep) == pre + rest;
      var o := JoinOffset(parts[1..], sep, i - 1);
      assert (pre + rest)[|pre| + o..|pre| + o + |parts[i]|] == rest[o..o + |parts[i]|];
    }
  }

  /** Each part sits at its offset, shifted by the text in front, when the joined parts are framed. */
  lemma JoinInFrame(pre: string, parts: seq<string>, sep: string, post: string, i: nat)
    requires i < |parts|
    ensures OccursAt(pre + Join(parts, sep) + post, parts[i], |pre| + JoinOffset(parts, sep, i))
  {
    var joined := Join(parts, sep);
    JoinAt(parts, sep, i);
    var o := JoinOffset(parts, sep, i);
    var s := pre + joined + post;
    assert s[|pre| + o..|pre| + o + |parts[i]|] == joined[o..o + |parts[i]|];
  }

  /** Where a string occurs, so does each of its prefixes. */
  lemma OccursPrefix(s: string, p: string, q: string, o: nat)
    requires OccursAt(s, p, o) && |q| <= |p| && p[..|q|] == q
    ensures OccursAt(s, q, o)
  {
    assert s[o..o + |q|] == p[..|q|];
  }

  /** Parts come in order: each ends, and its separator with it, before the next one starts. */
  lemma {:induction false} JoinOrder(parts: seq<string>, sep: string, i: nat, j: nat)
    requires i < j < |parts|
    ensures JoinOffset(parts, sep, i) + |parts[i]| + |sep| <= JoinOffset(parts, sep, j)
    decreases i
  {
    if i > 0 {
      JoinOrder(parts[1..], sep, i - 1, j - 1);
    }
  }

  /** Splitting and joining with the same separator gives the original string back. */
  lemma {:induction false} SplitJoin(s: string, sep: char)
    ensures Join(Split(s, sep), [sep]) == s
    decreases |s|
  {
    if sep in s {
      var i := FirstIndexOf(s, sep);
      var rest := Split(s[i + 1..], sep);
      SplitJoin(s[i + 1..], sep);
      assert Split(s, sep) == [s[..i]] + rest;
      assert (([s[..i]] + rest)[1..]) == rest;
      assert Join(Split(s, sep), [sep]) == s[..i] + [sep] + Join(rest, [sep]);
      assert s == s[..i] + [sep] + s[i + 1..];
    }
  }

  /**
   * `const [head, ...rest] = s.split(sep)`: the head is the text before the
   * first separator, and `rest.join(sep)` is all the text after it.
   */
  lemma SplitHeadRest(s: string, sep: char)
    requires sep in s
    ensures var parts := Split(s, sep); var i := FirstIndexOf(s, sep);
      |parts| >= 2 && parts[0] == s[..i] && Join(parts[1..], [sep]) == s[i + 1..]
  {
    var i := FirstIndexOf(s, sep);
    SplitJoin(s[i + 1..], sep);
    assert Split(s, sep)[1..] == Split(s[i + 1..], sep);
  }

  /** One decimal digit. */
  function DigitChar(d: nat): char
    requires d < 10
  {
    ['0', '1', '2', '3', '4', '5', '6', '7', '8', '9'][d]
  }

  /** `String(n)` for a natural number. */
  function NatToString(n: nat): (r: string)
    ensures |r| >= 1
  {
    if n < 10 then [DigitChar(n)] else NatToString(n / 10) + [DigitChar(n % 10)]
  }
}
