/** The JavaScript string operations the pipeline relies on: white space as
    ECMAScript defines it, `trim`, `replace(/\s+/g, " ")`, `split(/\s+/)`,
    `indexOf`, `split(sep)`, `slice` and the decimal rendering of an index. */
module Strings {
  import opened Common

  /** The code points ECMAScript counts as white space or line terminators:
      exactly what `\s` matches and what `trim` removes. */
  predicate IsSpace(c: char) {
    var n := c as int;
    n == 0x09 || n == 0x0A || n == 0x0B || n == 0x0C || n == 0x0D || n == 0x20
    || n == 0xA0 || n == 0x1680 || (0x2000 <= n <= 0x200A)
    || n == 0x2028 || n == 0x2029 || n == 0x202F || n == 0x205F || n == 0x3000 || n == 0xFEFF
  }

  predicate AllSpace(s: string) {
    forall i :: 0 <= i < |s| ==> IsSpace(s[i])
  }

  predicate NoSpace(s: string) {
    forall i :: 0 <= i < |s| ==> !IsSpace(s[i])
  }

  /** `s` without its leading white space. */
  function TrimStart(s: string): (r: string)
    ensures |r| <= |s| && r == s[|s| - |r|..]
    ensures AllSpace(s[..|s| - |r|])
    ensures r == [] || !IsSpace(r[0])
  {
    if s != [] && IsSpace(s[0]) then
      var r := TrimStart(s[1..]);
      TrimStartStep(s, r);
      r
    else s
  }

  /** Dropping one leading blank before trimming the rest trims the whole. */
  lemma TrimStartStep(s: string, r: string)
    requires s != [] && IsSpace(s[0])
    requires |r| <= |s| - 1 && r == s[1..][|s| - 1 - |r|..]
    requires AllSpace(s[1..][..|s| - 1 - |r|])
    ensures |r| <= |s| && r == s[|s| - |r|..]
    ensures AllSpace(s[..|s| - |r|])
  {
    var k := |s| - |r|;
    assert forall i :: 1 <= i < k ==> s[i] == s[1..][..k - 1][i - 1];
  }

  /** Leading white space, when there is some, makes the text shorter. */
  lemma TrimStartShrinks(s: string)
    requires s != [] && IsSpace(s[0])
    ensures |TrimStart(s)| < |s|
  {
    assert TrimStart(s) == TrimStart(s[1..]);
  }

  /** Text ending in a visible character keeps that character when trimmed
      at the start. */
  lemma {:induction false} TrimStartKeepsLast(s: string)
    requires s != [] && !IsSpace(s[|s| - 1])
    ensures TrimStart(s) != [] && TrimStart(s)[|TrimStart(s)| - 1] == s[|s| - 1]
  {
    if IsSpace(s[0]) {
      assert |s| > 1;
      TrimStartKeepsLast(s[1..]);
    }
  }

  /** `s` without its trailing white space. */
  function TrimEnd(s: string): (r: string)
    ensures |r| <= |s| && r == s[..|r|]
    ensures AllSpace(s[|r|..])
    ensures r == [] || !IsSpace(r[|r| - 1])
  {
    if s != [] && IsSpace(s[|s| - 1]) then
      var r := TrimEnd(s[..|s| - 1]);
      TrimEndStep(s, r);
      r
    else s
  }

  /** Dropping one trailing blank before trimming the rest trims the whole. */
  lemma TrimEndStep(s: string, r: string)
    requires s != [] && IsSpace(s[|s| - 1])
    requires |r| <= |s| - 1 && r == s[..|s| - 1][..|r|]
    requires AllSpace(s[..|s| - 1][|r|..])
    ensures |r| <= |s| && r == s[..|r|]
    ensures AllSpace(s[|r|..])
  {
    assert forall i :: |r| <= i < |s| - 1 ==> s[i] == s[..|s| - 1][|r|..][i - |r|];
  }

  /** `String.prototype.trim`: empty exactly for blank text, otherwise
      starting and ending with a visible character. */
  function Trim(s: string): (r: string)
    ensures r == [] <==> AllSpace(s)
    ensures r != [] ==> !IsSpace(r[0]) && !IsSpace(r[|r| - 1])
  {
    var t := TrimStart(s);
    assert s == s[..|s| - |t|] + t;
    TrimEnd(t)
  }

  /** `s.slice(0, n)`. */
  function Prefix(s: string, n: nat): (r: string)
    ensures |r| == Min(n, |s|) && r == s[..|r|]
  {
    if |s| <= n then s else s[..n]
  }

  /** `s.replace(/\/$/, "")`: one trailing slash removed, if there is one. */
  function DropTrailingSlash(s: string): string {
    if s != [] && s[|s| - 1] == '/' then s[..|s| - 1] else s
  }

  /** The decimal rendering of `n`, as a template literal prints it. */
  function NatToString(n: nat): (s: string)
    ensures s != []
  {
    if n < 10 then ["0123456789"[n]] else NatToString(n / 10) + ["0123456789"[n % 10]]
  }

  // ---------------------------------------------------------------------------
  // Words, white-space runs and the regular expressions over them

  /** The longest prefix of `s` holding no white space. */
  function TakeWord(s: string): (w: string)
    ensures |w| <= |s| && w == s[..|w|]
    ensures NoSpace(w)
    ensures |w| == |s| || IsSpace(s[|w|])
  {
    if s == [] || IsSpace(s[0]) then [] else [s[0]] + TakeWord(s[1..])
  }

  /** The maximal runs of visible characters of `s`, in order: the
      reference meaning of "the words of a text". */
  function Words(s: string): (ws: seq<string>)
    ensures forall k :: 0 <= k < |ws| ==> ws[k] != [] && NoSpace(ws[k])
    decreases |s|
  {
    if s == [] then []
    else if IsSpace(s[0]) then Words(s[1..])
    else var w := TakeWord(s); [w] + Words(s[|w|..])
  }

  /** `s.split(/\s+/)`: the pieces between maximal runs of white space,
      including an empty piece before a leading run and after a trailing one. */
  function SplitOnBlankRuns(s: string): (parts: seq<string>)
    ensures |parts| >= 1
    decreases |s|
  {
    var w := TakeWord(s);
    if |w| == |s| then [s]
    else
      TrimStartShrinks(s[|w|..]);
      [w] + SplitOnBlankRuns(TrimStart(s[|w|..]))
  }

  /** `s.replace(/[\s\n]+/g, " ")`: every maximal run of white space becomes
      a single space. */
  function CollapseBlankRuns(s: string): (r: string)
    decreases |s|
  {
    if s == [] then []
    else if IsSpace(s[0]) then
      TrimStartShrinks(s);
      " " + CollapseBlankRuns(TrimStart(s))
    else
      var w := TakeWord(s);
      w + CollapseBlankRuns(s[|w|..])
  }

  /** A word followed by nothing or by white space is what TakeWord reads. */
  lemma {:induction false} TakeWordOfWordThen(w: string, y: string)
    requires w != [] && NoSpace(w)
    requires y == [] || IsSpace(y[0])
    ensures TakeWord(w + y) == w
  {
    assert (w + y)[0] == w[0];
    if |w| > 1 {
      assert (w + y)[1..] == w[1..] + y;
      TakeWordOfWordThen(w[1..], y);
    } else {
      assert (w + y)[1..] == y;
    }
  }

  /** Blank text has no words. */
  lemma {:induction false} WordsOfBlank(b: string)
    requires AllSpace(b)
    ensures Words(b) == []
  {
    if b != [] {
      WordsOfBlank(b[1..]);
    }
  }

  /** Leading white space does not change the words. */
  lemma {:induction false} WordsTrimStart(s: string)
    ensures Words(TrimStart(s)) == Words(s)
  {
    if s != [] && IsSpace(s[0]) {
      WordsTrimStart(s[1..]);
    }
  }

  /** Trailing white space does not change the words. */
  lemma {:induction false} WordsAppendBlank(a: string, b: string)
    requires AllSpace(b)
    ensures Words(a + b) == Words(a)
    decreases |a|
  {
    if a == [] {
      assert a + b == b;
      WordsOfBlank(b);
    } else if IsSpace(a[0]) {
      assert (a + b)[1..] == a[1..] + b;
      WordsAppendBlank(a[1..], b);
    } else {
      var w := TakeWord(a);
      if |w| == |a| {
        assert a == w;
        TakeWordOfWordThen(w, b);
      } else {
        assert a + b == w + (a[|w|..] + b);
        TakeWordOfWordThen(w, a[|w|..] + b);
      }
      assert (a + b)[|w|..] == a[|w|..] + b;
      WordsAppendBlank(a[|w|..], b);
    }
  }

  /** Trimming does not change the words. */
  lemma WordsTrim(s: string)
    ensures Words(Trim(s)) == Words(s)
  {
    var t := TrimStart(s);
    var u := TrimEnd(t);
    assert Trim(s) == u;
    assert t == u + t[|u|..];
    WordsAppendBlank(u, t[|u|..]);
    WordsTrimStart(s);
  }

  /** Collapsing each white-space run into one space keeps the words. */
  lemma {:induction false} WordsCollapse(s: string)
    ensures Words(CollapseBlankRuns(s)) == Words(s)
    decreases |s|
  {
    if s == [] {
    } else if IsSpace(s[0]) {
      var rest := TrimStart(s);
      TrimStartShrinks(s);
      assert (" " + CollapseBlankRuns(rest))[1..] == CollapseBlankRuns(rest);
      WordsCollapse(rest);
      WordsTrimStart(s);
    } else {
      var w := TakeWord(s);
      var rest := s[|w|..];
      var c := CollapseBlankRuns(rest);
      assert c == [] || IsSpace(c[0]) by {
        if rest != [] {
          assert IsSpace(rest[0]);
          assert c == " " + CollapseBlankRuns(TrimStart(rest));
        }
      }
      TakeWordOfWordThen(w, c);
      assert (w + c)[|w|..] == c;
      WordsCollapse(rest);
    }
  }

  /** On text that neither starts nor ends with white space, splitting at
      white-space runs yields exactly its words. */
  lemma {:induction false} SplitTrimmedIsWords(s: string)
    requires s != [] && !IsSpace(s[0]) && !IsSpace(s[|s| - 1])
    ensures SplitOnBlankRuns(s) == Words(s)
    decreases |s|
  {
    var w := TakeWord(s);
    if |w| == |s| {
      assert s[|w|..] == [];
      assert w == s;
    } else {
      var rest := s[|w|..];
      var t := TrimStart(rest);
      assert rest[|rest| - 1] == s[|s| - 1];
      TrimStartKeepsLast(rest);
      TrimStartShrinks(rest);
      SplitTrimmedIsWords(t);
      WordsTrimStart(rest);
    }
  }

  // ---------------------------------------------------------------------------
  // indexOf and split with a separator string

  predicate OccursAt(s: string, pat: string, i: nat) {
    i + |pat| <= |s| && s[i..i + |pat|] == pat
  }

  lemma OccursShift(s: string, pat: string, j: nat)
    requires s != []
    ensures OccursAt(s, pat, j + 1) <==> OccursAt(s[1..], pat, j)
  {
    if j + 1 + |pat| <= |s| {
      assert s[j + 1..j + 1 + |pat|] == s[1..][j..j + |pat|];
    }
  }

  /** No occurrence at the front nor in the tail means no occurrence at all. */
  lemma NoneShifted(s: string, pat: string)
    requires s != [] && !OccursAt(s, pat, 0)
    requires forall j: nat :: !OccursAt(s[1..], pat, j)
    ensures forall j: nat :: !OccursAt(s, pat, j)
  {
    forall j: nat ensures !OccursAt(s, pat, j) {
      if j > 0 {
        OccursShift(s, pat, j - 1);
      }
    }
  }

  /** The first occurrence in the tail, shifted by one, is the first in the
      whole text when there is none at the front. */
  lemma SomeShifted(s: string, pat: string, k: nat)
    requires s != [] && !OccursAt(s, pat, 0)
    requires OccursAt(s[1..], pat, k)
    requires forall j: nat :: j < k ==> !OccursAt(s[1..], pat, j)
    ensures OccursAt(s, pat, k + 1)
    ensures forall j: nat :: j < k + 1 ==> !OccursAt(s, pat, j)
  {
    OccursShift(s, pat, k);
    forall j: nat | j < k + 1 ensures !OccursAt(s, pat, j) {
      if j > 0 {
        OccursShift(s, pat, j - 1);
      }
    }
  }

  /** `s.indexOf(pat)`: the first position at which `pat` occurs, or none. */
  function IndexOf(s: string, pat: string): (r: Option<nat>)
    ensures r.Some? ==> OccursAt(s, pat, r.value)
    ensures r.Some? ==> forall j: nat :: j < r.value ==> !OccursAt(s, pat, j)
    ensures r.None? ==> forall j: nat :: !OccursAt(s, pat, j)
    decreases |s|
  {
    if |s| < |pat| then None
    else if s[..|pat|] == pat then Some(0)
    else
      match IndexOf(s[1..], pat)
      case None => NoneShifted(s, pat); None
      case Some(k) => SomeShifted(s, pat, k); Some(k + 1)
  }

  /** The first occurrence, once known, is what IndexOf reports. */
  lemma IndexOfIs(s: string, pat: string, i: nat)
    requires OccursAt(s, pat, i)
    requires forall j: nat :: j < i ==> !OccursAt(s, pat, j)
    ensures IndexOf(s, pat) == Some(i)
  {
  }

  /** `s.split(sep)` for a non-empty separator string. */
  function SplitBy(s: string, sep: string): (parts: seq<string>)
    requires sep != []
    ensures |parts| >= 1
    decreases |s|
  {
    match IndexOf(s, sep)
    case None => [s]
    case Some(i) => [s[..i]] + SplitBy(s[i + |sep|..], sep)
  }

  /** `parts.join(sep)`. */
  function Join(parts: seq<string>, sep: string): string {
    if |parts| == 0 then []
    else if |parts| == 1 then parts[0]
    else parts[0] + sep + Join(parts[1..], sep)
  }

  /** Joining the pieces of a split with the separator restores the text. */
  lemma {:induction false} JoinSplit(s: string, sep: string)
    requires sep != []
    ensures Join(SplitBy(s, sep), sep) == s
    decreases |s|
  {
    match IndexOf(s, sep)
    case None =>
    case Some(i) =>
      var rest := s[i + |sep|..];
      var tail := SplitBy(rest, sep);
      JoinSplit(rest, sep);
      assert ([s[..i]] + tail)[1..] == tail;
      assert Join([s[..i]] + tail, sep) == s[..i] + sep + Join(tail, sep);
      assert s == s[..i] + sep + rest;
  }

  /** No piece of a split contains the separator. */
  lemma {:induction false} SplitPartsAreFree(s: string, sep: string)
    requires sep != []
    ensures forall k :: 0 <= k < |SplitBy(s, sep)| ==> IndexOf(SplitBy(s, sep)[k], sep).None?
    decreases |s|
  {
    match IndexOf(s, sep)
    case None =>
    case Some(i) =>
      var rest := s[i + |sep|..];
      BeforeFirstIsFree(s, sep, i);
      SplitPartsAreFree(rest, sep);
      var parts := SplitBy(s, sep);
      assert parts == [s[..i]] + SplitBy(rest, sep);
      forall k | 0 <= k < |parts|
        ensures IndexOf(parts[k], sep).None?
      {
        if k > 0 {
          assert parts[k] == SplitBy(rest, sep)[k - 1];
        }
      }
  }

  /** The text before the first occurrence of the separator holds none. */
  lemma BeforeFirstIsFree(s: string, sep: string, i: nat)
    requires sep != [] && IndexOf(s, sep) == Some(i)
    ensures IndexOf(s[..i], sep).None?
  {
    var head := s[..i];
    forall j: nat ensures !OccursAt(head, sep, j) {
      if OccursAt(head, sep, j) {
        assert s[j..j + |sep|] == head[j..j + |sep|];
        assert OccursAt(s, sep, j);
      }
    }
  }

  lemma OccursAtChar(s: string, c: char)
    ensures forall j: nat {:trigger OccursAt(s, [c], j)} :: OccursAt(s, [c], j) <==> j < |s| && s[j] == c
  {
    forall j: nat | j < |s| ensures s[j..j + 1] == [c] <==> s[j] == c {
      assert s[j..j + 1] == [s[j]];
    }
  }

  /** Splitting at a one-character separator distributes over an occurrence
      of that character. */
  lemma {:induction false} SplitConcatChar(a: string, b: string, c: char)
    ensures SplitBy(a + [c] + b, [c]) == SplitBy(a, [c]) + SplitBy(b, [c])
    decreases |a|
  {
    var s := a + [c] + b;
    OccursAtChar(a, c);
    OccursAtChar(s, c);
    match IndexOf(a, [c])
    case None =>
      forall j: nat | j < |a| ensures !OccursAt(s, [c], j) {
        assert !OccursAt(a, [c], j);
      }
      IndexOfIs(s, [c], |a|);
      assert s[..|a|] == a;
      assert s[|a| + 1..] == b;
    case Some(i) =>
      forall j: nat | j < i ensures !OccursAt(s, [c], j) {
        assert !OccursAt(a, [c], j);
      }
      IndexOfIs(s, [c], i);
      assert s[..i] == a[..i];
      assert s[i + 1..] == a[i + 1..] + [c] + b;
      SplitConcatChar(a[i + 1..], b, c);
  }

  /** Text free of a character splits at it into itself alone. */
  lemma SplitWithout(s: string, c: char)
    requires c !in s
    ensures SplitBy(s, [c]) == [s]
  {
    OccursAtChar(s, c);
    assert IndexOf(s, [c]).None?;
  }

  /** Splitting the join of pieces free of a one-character separator gives
      back the pieces. */
  lemma {:induction false} SplitJoin(parts: seq<string>, c: char)
    requires |parts| >= 1
    requires forall k :: 0 <= k < |parts| ==> c !in parts[k]
    ensures SplitBy(Join(parts, [c]), [c]) == parts
    decreases |parts|
  {
    if |parts| == 1 {
      SplitWithout(parts[0], c);
    } else {
      SplitJoin(parts[1..], c);
      SplitWithout(parts[0], c);
      SplitConcatChar(parts[0], Join(parts[1..], [c]), c);
    }
  }
}
