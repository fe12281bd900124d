/**
  The handful of Python `str` operations the assistant's decision logic is
  built from: substring membership (`p in s`), `str.find`, `str.replace`,
  `str.split`, `str.join` and `str.strip()`.  Each is defined the way
  CPython computes it (left to right, non-overlapping) and related to an
  independent description by lemmas.
 */
module Text {
  import opened Common

  /** `p` occurs in `s` starting at index `i`. */
  predicate OccursAt(s: string, p: string, i: int) {
    0 <= i && i + |p| <= |s| && s[i..i + |p|] == p
  }

  /** Python's `p in s` on strings. */
  predicate Contains(s: string, p: string) {
    exists i :: 0 <= i <= |s| - |p| && OccursAt(s, p, i)
  }

  /** Python's `any(p in s for p in ps)`. */
  predicate ContainsAny(s: string, ps: seq<string>) {
    exists k :: 0 <= k < |ps| && Contains(s, ps[k])
  }

  /** A phrase placed anywhere inside a string is found there. */
  lemma ContainsInfix(a: string, p: string, b: string)
    ensures Contains(a + p + b, p)
  {
    var s := a + p + b;
    assert s[|a|..|a| + |p|] == p;
    assert OccursAt(s, p, |a|);
  }

  /** A phrase with a character that `s` lacks does not occur in `s`. */
  lemma MissingChar(s: string, p: string, k: int)
    requires 0 <= k < |p| && p[k] !in s
    ensures !Contains(s, p)
  {
    forall i | 0 <= i <= |s| - |p|
      ensures !OccursAt(s, p, i)
    {
      assert s[i..i + |p|][k] == s[i + k];
      assert s[i + k] in s;
    }
  }

  /** A member of `ps` placed anywhere inside a string makes `ContainsAny` hold. */
  lemma ContainsAnyInfix(a: string, ps: seq<string>, k: int, b: string)
    requires 0 <= k < |ps|
    ensures ContainsAny(a + ps[k] + b, ps)
  {
    ContainsInfix(a, ps[k], b);
  }

  // ---------------------------------------------------------------------------
  // str.find

  /** The first index at or after `k` where `p` occurs in `s`, if any; `FindFromSpec` states it is the first. */
  function FindFrom(s: string, p: string, k: nat): (r: Option<nat>)
    requires k <= |s|
    ensures r.Some? ==> k <= r.value && OccursAt(s, p, r.value)
    decreases |s| - k
  {
    if k + |p| > |s| then None
    else if s[k..k + |p|] == p then Some(k)
    else FindFrom(s, p, k + 1)
  }

  /** No occurrence at or after `k` comes before the one `FindFrom` reports, and `None` means none at all. */
  lemma {:induction false} FindFromSpec(s: string, p: string, k: nat)
    requires k <= |s|
    ensures var r := FindFrom(s, p, k);
      r.Some? ==> forall j :: k <= j < r.value ==> !OccursAt(s, p, j)
    ensures FindFrom(s, p, k).None? ==> forall j :: k <= j ==> !OccursAt(s, p, j)
    decreases |s| - k
  {
    if k + |p| <= |s| && s[k..k + |p|] != p {
      FindFromSpec(s, p, k + 1);
      assert !OccursAt(s, p, k);
    }
  }

  /** Python's `s.find(p)`, with `None` for CPython's `-1`; `FindSpec` states what it finds. */
  function Find(s: string, p: string): (r: Option<nat>)
    ensures r.Some? ==> OccursAt(s, p, r.value)
  {
    FindFrom(s, p, 0)
  }

  /** `find` succeeds exactly when `p` occurs, and then at its first occurrence. */
  lemma FindSpec(s: string, p: string)
    ensures Find(s, p).Some? <==> Contains(s, p)
    ensures var r := Find(s, p);
      r.Some? ==> forall j :: 0 <= j < r.value ==> !OccursAt(s, p, j)
  {
    FindFromSpec(s, p, 0);
    var r := Find(s, p);
    if r.Some? {
      assert OccursAt(s, p, r.value);
    }
  }

  /** An occurrence before which the first character of `p` never appears is the first one. */
  lemma FindAtFirstChar(s: string, p: string, i: int)
    requires OccursAt(s, p, i) && |p| > 0 && p[0] !in s[..i]
    ensures Find(s, p) == Some(i)
  {
    FindSpec(s, p);
    assert Contains(s, p);
    forall j | 0 <= j < i
      ensures !OccursAt(s, p, j)
    {
      assert s[j] == s[..i][j];
      assert s[j..j + |p|][0] == s[j];
    }
  }

  /** The text before the first occurrence of `p` does not contain `p`. */
  lemma PrefixBeforeFirst(s: string, p: string, i: nat)
    requires |p| > 0 && i <= |s|
    requires forall j :: 0 <= j < i ==> !OccursAt(s, p, j)
    ensures !Contains(s[..i], p)
  {
    var t := s[..i];
    forall j | 0 <= j <= |t| - |p|
      ensures !OccursAt(t, p, j)
    {
      assert t[j..j + |p|] == s[j..j + |p|];
      assert !OccursAt(s, p, j);
    }
  }

  // ---------------------------------------------------------------------------
  // str.replace

  /**
    Python's `s.replace(pat, rep)` for a non-empty `pat`: scan left to
    right, replacing each occurrence and resuming the scan after it.
   */
  function Replace(s: string, pat: string, rep: string): (r: string)
    requires |pat| > 0
    ensures |rep| <= |pat| ==> |r| <= |s|
    ensures |rep| == |pat| ==> |r| == |s|
    decreases |s|
  {
    if |s| < |pat| then s
    else if s[..|pat|] == pat then rep + Replace(s[|pat|..], pat, rep)
    else [s[0]] + Replace(s[1..], pat, rep)
  }

  /** Replacing leaves a prefix untouched when `pat` does not start inside it. */
  lemma {:induction false} ReplaceUpTo(s: string, pat: string, rep: string, i: nat)
    requires |pat| > 0 && i <= |s|
    requires forall j :: 0 <= j < i ==> !OccursAt(s, pat, j)
    ensures Replace(s, pat, rep) == s[..i] + Replace(s[i..], pat, rep)
    decreases i
  {
    if i == 0 {
      assert s[..0] == [] && s[0..] == s;
    } else if |s| < |pat| {
      assert s[..i] + s[i..] == s;
    } else {
      var t := s[1..];
      ReplaceSkipFirst(s, pat, rep);
      NoOccurrenceAfterFirst(s, pat, i);
      ReplaceUpTo(t, pat, rep, i - 1);
      assert t[i - 1..] == s[i..];
      ConsPrefix(s, i, Replace(s[i..], pat, rep));
    }
  }

  /** Putting the first character back in front of the next `i - 1` gives the first `i`. */
  lemma ConsPrefix(s: string, i: nat, r: string)
    requires 0 < i <= |s|
    ensures [s[0]] + (s[1..][..i - 1] + r) == s[..i] + r
  {
    assert [s[0]] + s[1..][..i - 1] == s[..i];
  }

  /** When `pat` does not start at index 0, the first character is copied and the scan moves on. */
  lemma ReplaceSkipFirst(s: string, pat: string, rep: string)
    requires |pat| > 0 && |pat| <= |s| && !OccursAt(s, pat, 0)
    ensures Replace(s, pat, rep) == [s[0]] + Replace(s[1..], pat, rep)
  {
    assert s[..|pat|] != pat by { assert s[0..|pat|] == s[..|pat|]; }
  }

  /** Dropping the first character shifts every non-occurrence before `i` down by one. */
  lemma NoOccurrenceAfterFirst(s: string, pat: string, i: nat)
    requires 0 < i <= |s|
    requires forall j :: 0 <= j < i ==> !OccursAt(s, pat, j)
    ensures forall j :: 0 <= j < i - 1 ==> !OccursAt(s[1..], pat, j)
  {
    var t := s[1..];
    forall j | 0 <= j < i - 1
      ensures !OccursAt(t, pat, j)
    {
      assert !OccursAt(s, pat, j + 1);
      if j + |pat| <= |t| {
        assert t[j..j + |pat|] == s[j + 1..j + 1 + |pat|] by { assert t == s[1..]; }
      }
    }
  }

  /** Replacing a pattern that does not occur is the identity. */
  lemma ReplaceAbsent(s: string, pat: string, rep: string)
    requires |pat| > 0 && !Contains(s, pat)
    ensures Replace(s, pat, rep) == s
  {
    ReplaceUpTo(s, pat, rep, |s|);
    assert s[..|s|] == s && s[|s|..] == [];
  }

  /**
    Replacing a single character is a pointwise map: every `a` becomes
    `b` and every other character stays.
   */
  lemma {:induction false} ReplaceChar(s: string, a: char, b: char)
    ensures |Replace(s, [a], [b])| == |s|
    ensures forall k :: 0 <= k < |s| ==>
      Replace(s, [a], [b])[k] == (if s[k] == a then b else s[k])
    decreases |s|
  {
    if |s| > 0 {
      ReplaceChar(s[1..], a, b);
      var head := if s[0] == a then b else s[0];
      assert s[..1] == [a] <==> s[0] == a;
      assert Replace(s, [a], [b]) == [head] + Replace(s[1..], [a], [b]);
    }
  }

  /** After replacing `a` by a different character, no `a` is left. */
  lemma ReplaceCharRemoves(s: string, a: char, b: char)
    requires a != b
    ensures a !in Replace(s, [a], [b])
  {
    ReplaceChar(s, a, b);
    var r := Replace(s, [a], [b]);
    forall k | 0 <= k < |r|
      ensures r[k] != a
    {
    }
  }

  // ---------------------------------------------------------------------------
  // str.split and str.join

  /** Python's `s.split(sep)` for a non-empty separator. */
  function Split(s: string, sep: string): (r: seq<string>)
    requires |sep| > 0
    ensures |r| >= 1
    decreases |s|
  {
    match Find(s, sep)
    case None => [s]
    case Some(i) => [s[..i]] + Split(s[i + |sep|..], sep)
  }

  /** A split has more than one piece exactly when the separator occurs. */
  lemma SplitInTwo(s: string, sep: string)
    requires |sep| > 0
    ensures |Split(s, sep)| >= 2 <==> Contains(s, sep)
  {
    FindSpec(s, sep);
    match Find(s, sep)
    case None =>
    case Some(i) => SplitAtFirst(s, sep, i);
  }

  /** When the first separator sits at `i`, the first piece is what precedes it. */
  lemma SplitAtFirst(s: string, sep: string, i: nat)
    requires |sep| > 0 && Find(s, sep) == Some(i)
    ensures Split(s, sep) == [s[..i]] + Split(s[i + |sep|..], sep)
  {
    SplitUnfold(s, sep);
    var rest := s[i + |sep|..];
    assert Split(s, sep) == [s[..i]] + Split(rest, sep);
  }

  /** `Split` taken one step. */
  lemma SplitUnfold(s: string, sep: string)
    requires |sep| > 0
    ensures Split(s, sep) == match Find(s, sep)
      case None => [s]
      case Some(i) => [s[..i]] + Split(s[i + |sep|..], sep)
  {
  }

  /** No piece of a split contains the separator. */
  lemma {:induction false} SplitPiecesLackSep(s: string, sep: string)
    requires |sep| > 0
    ensures forall k :: 0 <= k < |Split(s, sep)| ==> !Contains(Split(s, sep)[k], sep)
    decreases |s|
  {
    FindSpec(s, sep);
    match Find(s, sep)
    case None =>
    case Some(i) =>
      var rest := s[i + |sep|..];
      PrefixBeforeFirst(s, sep, i);
      SplitPiecesLackSep(rest, sep);
      SplitAtFirst(s, sep, i);
      var r := Split(s, sep);
      forall k | 0 <= k < |r|
        ensures !Contains(r[k], sep)
      {
        if k > 0 {
          assert r[k] == Split(rest, sep)[k - 1];
        }
      }
  }

  /** The text of `s` before the first `sep`, or all of `s` when `sep` does not occur. */
  function UpToFirst(s: string, sep: string): string {
    match Find(s, sep)
    case None => s
    case Some(j) => s[..j]
  }

  /** The text of `s` after its first `sep`. */
  function AfterFirst(s: string, sep: string): string
    requires Contains(s, sep)
  {
    FindSpec(s, sep);
    s[Find(s, sep).value + |sep|..]
  }

  /**
    The second piece of a split is the text between the first and the
    second separator, or up to the end when there is no second one.
   */
  lemma SplitSecondPiece(s: string, sep: string)
    requires |sep| > 0 && Contains(s, sep)
    ensures |Split(s, sep)| >= 2
    ensures Split(s, sep)[1] == UpToFirst(AfterFirst(s, sep), sep)
  {
    FindSpec(s, sep);
    var i := Find(s, sep).value;
    var rest := s[i + |sep|..];
    SplitAtFirst(s, sep, i);
    match Find(rest, sep)
    case None =>
    case Some(j) => SplitAtFirst(rest, sep, j);
  }

  /** Python's `sep.join(pieces)`. */
  function Join(pieces: seq<string>, sep: string): string
    decreases |pieces|
  {
    if |pieces| == 0 then []
    else if |pieces| == 1 then pieces[0]
    else pieces[0] + sep + Join(pieces[1..], sep)
  }

  /** Joining the pieces of a split with the same separator gives back the string. */
  lemma {:induction false} JoinSplit(s: string, sep: string)
    requires |sep| > 0
    ensures Join(Split(s, sep), sep) == s
    decreases |s|
  {
    match Find(s, sep)
    case None =>
    case Some(i) =>
      var rest := s[i + |sep|..];
      JoinSplit(rest, sep);
      JoinSplitAtFirst(s, sep, sep, i);
      assert s[i..i + |sep|] == sep;
      assert s == s[..i] + s[i..i + |sep|] + rest;
  }

  /** At the first occurrence, `Replace` emits the prefix, then `rep`, then carries on after it. */
  lemma ReplaceAtFirst(s: string, pat: string, rep: string, i: nat)
    requires |pat| > 0 && OccursAt(s, pat, i)
    requires forall j :: 0 <= j < i ==> !OccursAt(s, pat, j)
    ensures Replace(s, pat, rep) == s[..i] + rep + Replace(s[i + |pat|..], pat, rep)
  {
    ReplaceUpTo(s, pat, rep, i);
    var t := s[i..];
    assert t[..|pat|] == pat by { assert t[..|pat|] == s[i..i + |pat|]; }
    ReplaceAtStart(t, pat, rep);
    assert t[|pat|..] == s[i + |pat|..];
  }

  /** A string that starts with `pat` is replaced by `rep` followed by the replaced rest. */
  lemma ReplaceAtStart(t: string, pat: string, rep: string)
    requires |pat| > 0 && |pat| <= |t| && t[..|pat|] == pat
    ensures Replace(t, pat, rep) == rep + Replace(t[|pat|..], pat, rep)
  {
  }

  /** At the first occurrence, `sep.join(s.split(pat))` emits the prefix, then `sep`, then the rest. */
  lemma JoinSplitAtFirst(s: string, pat: string, sep: string, i: nat)
    requires |pat| > 0 && Find(s, pat) == Some(i)
    ensures Join(Split(s, pat), sep) == s[..i] + sep + Join(Split(s[i + |pat|..], pat), sep)
  {
    var tail := Split(s[i + |pat|..], pat);
    SplitAtFirst(s, pat, i);
    assert ([s[..i]] + tail)[1..] == tail;
  }

  /**
    CPython's identity `s.replace(pat, rep) == rep.join(s.split(pat))`:
    the scanning definition of `Replace` agrees with cutting the string at
    every occurrence and gluing the pieces back with `rep`.
   */
  lemma {:induction false} ReplaceIsJoinOfSplit(s: string, pat: string, rep: string)
    requires |pat| > 0
    ensures Replace(s, pat, rep) == Join(Split(s, pat), rep)
    decreases |s|
  {
    FindSpec(s, pat);
    match Find(s, pat)
    case None =>
      ReplaceAbsent(s, pat, rep);
    case Some(i) =>
      var rest := s[i + |pat|..];
      ReplaceAtFirst(s, pat, rep, i);
      JoinSplitAtFirst(s, pat, rep, i);
      ReplaceIsJoinOfSplit(rest, pat, rep);
  }

  // ---------------------------------------------------------------------------
  // str.strip

  /**
    Python's `str.isspace()` for one character: the characters whose
    bidirectional class is WS, B or S, or whose category is Zs.
   */
  predicate IsSpace(c: char) {
    || ('\t' <= c <= '\r')
    || ('\U{1C}' <= c <= '\U{1F}')
    || c == ' ' || c == '\U{85}' || c == '\U{A0}' || c == '\U{1680}'
    || ('\U{2000}' <= c <= '\U{200A}')
    || c == '\U{2028}' || c == '\U{2029}' || c == '\U{202F}'
    || c == '\U{205F}' || c == '\U{3000}'
  }

  predicate AllSpace(s: string) {
    forall k :: 0 <= k < |s| ==> IsSpace(s[k])
  }

  /** Neither end of `s` is whitespace. */
  predicate IsTrimmed(s: string) {
    s == [] || (!IsSpace(s[0]) && !IsSpace(s[|s| - 1]))
  }

  /** The length of the whitespace run at the start of `s`. */
  function LeadingSpace(s: string): (n: nat)
    ensures n <= |s|
    decreases |s|
  {
    if |s| == 0 || !IsSpace(s[0]) then 0 else 1 + LeadingSpace(s[1..])
  }

  /** `LeadingSpace(s)` characters of whitespace, then a non-space or the end. */
  lemma {:induction false} LeadingSpaceSpec(s: string)
    ensures AllSpace(s[..LeadingSpace(s)])
    ensures LeadingSpace(s) < |s| ==> !IsSpace(s[LeadingSpace(s)])
    decreases |s|
  {
    if |s| > 0 && IsSpace(s[0]) {
      var rest := s[1..];
      LeadingSpaceSpec(rest);
      var m := LeadingSpace(rest);
      var n := m + 1;
      assert LeadingSpace(s) == n;
      var head := s[..n];
      var inner := rest[..m];
      forall k | 0 <= k < n
        ensures IsSpace(head[k])
      {
        if k > 0 {
          assert head[k] == s[k] == inner[k - 1];
        }
      }
      if n < |s| {
        assert s[n] == rest[m];
      }
    }
  }

  /** The length of the whitespace run at the end of `s`. */
  function TrailingSpace(s: string): (n: nat)
    ensures n <= |s|
    decreases |s|
  {
    if |s| == 0 || !IsSpace(s[|s| - 1]) then 0 else 1 + TrailingSpace(s[..|s| - 1])
  }

  /** `TrailingSpace(s)` characters of whitespace at the end, after a non-space or the start. */
  lemma {:induction false} TrailingSpaceSpec(s: string)
    ensures AllSpace(s[|s| - TrailingSpace(s)..])
    ensures TrailingSpace(s) < |s| ==> !IsSpace(s[|s| - 1 - TrailingSpace(s)])
    decreases |s|
  {
    if |s| > 0 && IsSpace(s[|s| - 1]) {
      var init := s[..|s| - 1];
      TrailingSpaceSpec(init);
      var m := TrailingSpace(init);
      var n := m + 1;
      assert TrailingSpace(s) == n;
      var tail := s[|s| - n..];
      var inner := init[|init| - m..];
      forall k | 0 <= k < n
        ensures IsSpace(tail[k])
      {
        if k < m {
          assert inner[k] == init[|init| - m + k];
          assert init[|init| - m + k] == s[|s| - n + k];
          assert tail[k] == s[|s| - n + k];
        } else {
          assert tail[k] == s[|s| - 1];
        }
      }
      if n < |s| {
        assert s[|s| - 1 - n] == init[|init| - 1 - m];
      }
    }
  }

  /** Python's `s.strip()`; `StripSpec` states what it removes. */
  function Strip(s: string): (r: string)
    ensures IsTrimmed(r)
  {
    var i := LeadingSpace(s);
    var t := s[i..];
    var r := t[..|t| - TrailingSpace(t)];
    StripCore(s, i, r);
    r
  }

  /**
    `Strip(s)` is `s` with only whitespace removed from its two ends, and
    it is empty exactly when `s` is all whitespace.
   */
  lemma StripSpec(s: string)
    ensures var r := Strip(s);
      exists i :: 0 <= i <= |s| - |r| && OccursAt(s, r, i) && AllSpace(s[..i]) && AllSpace(s[i + |r|..])
    ensures Strip(s) == [] <==> AllSpace(s)
  {
    var i := LeadingSpace(s);
    var t := s[i..];
    StripCore(s, i, t[..|t| - TrailingSpace(t)]);
  }

  /** The facts `Strip` promises, for the slice it computes. */
  lemma StripCore(s: string, i: nat, r: string)
    requires i == LeadingSpace(s)
    requires r == s[i..][..|s[i..]| - TrailingSpace(s[i..])]
    ensures IsTrimmed(r) && 0 <= i <= |s| - |r| && OccursAt(s, r, i)
    ensures AllSpace(s[..i]) && AllSpace(s[i + |r|..])
    ensures r == [] <==> AllSpace(s)
  {
    var t := s[i..];
    var n := TrailingSpace(t);
    LeadingSpaceSpec(s);
    TrailingSpaceSpec(t);
    assert s[i..i + |r|] == r;
    assert s[i + |r|..] == t[|t| - n..];
    assert r == [] ==> i == |s| by {
      if i < |s| {
        assert t[0] == s[i];
      }
    }
    if r == [] {
      assert s[..i] == s;
    } else {
      assert r[0] == s[i];
      assert r[|r| - 1] == t[|t| - 1 - n];
    }
  }

  /** A phrase found in a piece of `s` is found in `s`. */
  lemma ContainsInPiece(s: string, t: string, i: int, p: string)
    requires OccursAt(s, t, i) && Contains(t, p)
    ensures Contains(s, p)
  {
    var j :| 0 <= j <= |t| - |p| && OccursAt(t, p, j);
    assert t == s[i..i + |t|];
    forall k | 0 <= k < |p|
      ensures s[i + j + k] == p[k]
    {
      assert p[k] == t[j..j + |p|][k] == t[j + k];
    }
    assert s[i + j..i + j + |p|] == p;
    assert OccursAt(s, p, i + j);
  }

  /** Stripping cannot create an occurrence: `Strip(s)` is a piece of `s`. */
  lemma StripKeepsAbsence(s: string, p: string)
    requires !Contains(s, p)
    ensures !Contains(Strip(s), p)
  {
    var r := Strip(s);
    StripSpec(s);
    var i :| 0 <= i <= |s| - |r| && OccursAt(s, r, i) && AllSpace(s[..i]) && AllSpace(s[i + |r|..]);
    if Contains(r, p) {
      ContainsInPiece(s, r, i, p);
    }
  }

  /** A whitespace prefix adds its length to the leading run. */
  lemma {:induction false} LeadingSpaceAppend(a: string, x: string)
    requires AllSpace(a)
    ensures LeadingSpace(a + x) == |a| + LeadingSpace(x)
    decreases |a|
  {
    if |a| > 0 {
      assert (a + x)[0] == a[0];
      assert (a + x)[1..] == a[1..] + x;
      LeadingSpaceAppend(a[1..], x);
    } else {
      assert a + x == x;
    }
  }

  /** A whitespace suffix adds its length to the trailing run. */
  lemma {:induction false} TrailingSpaceAppend(x: string, b: string)
    requires AllSpace(b)
    ensures TrailingSpace(x + b) == TrailingSpace(x) + |b|
    decreases |b|
  {
    if |b| > 0 {
      var s := x + b;
      assert s[|s| - 1] == b[|b| - 1];
      assert s[..|s| - 1] == x + b[..|b| - 1];
      TrailingSpaceAppend(x, b[..|b| - 1]);
    } else {
      assert x + b == x;
    }
  }

  /** Stripping removes exactly the whitespace padding around a trimmed, non-empty middle. */
  lemma StripPadded(a: string, m: string, b: string)
    requires AllSpace(a) && AllSpace(b) && m != [] && IsTrimmed(m)
    ensures Strip(a + m + b) == m
  {
    var s := a + m + b;
    assert s == a + (m + b);
    LeadingSpaceAppend(a, m + b);
    assert (m + b)[0] == m[0];
    var t := s[|a|..];
    assert t == m + b;
    TrailingSpaceAppend(m, b);
    assert m[|m| - 1] == m[|m| - 1];
    assert t[..|t| - |b|] == m;
  }

  /** Stripping a string whose ends are not whitespace changes nothing. */
  lemma StripTrimmed(s: string)
    requires IsTrimmed(s)
    ensures Strip(s) == s
  {
  }

  /** `Strip` is idempotent. */
  lemma StripIdempotent(s: string)
    ensures Strip(Strip(s)) == Strip(s)
  {
    StripTrimmed(Strip(s));
  }
}
