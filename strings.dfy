/**
 * The JavaScript string operations the generator is built from, with their
 * JavaScript meaning: `String.prototype.replace` with a string pattern
 * (first occurrence only, with `$`-patterns in the replacement),
 * `split(sep)`/`join(sep)` (every occurrence), `indexOf` and `trim`.
 */
module Strings {
  import opened Wrappers

  /** `pat` occurs in `s` starting at index `i`. */
  predicate OccursAt(s: string, pat: string, i: int) {
    0 <= i && i + |pat| <= |s| && s[i..i + |pat|] == pat
  }

  /** `s.startsWith(p)`. */
  predicate StartsWith(s: string, p: string) {
    |p| <= |s| && s[..|p|] == p
  }

  predicate Contains(s: string, pat: string) {
    exists i :: 0 <= i <= |s| && OccursAt(s, pat, i)
  }

  /** No character of `a` occurs in `b`. */
  predicate SharesNoChar(a: string, b: string) {
    forall i :: 0 <= i < |a| ==> a[i] !in b
  }

  /** `s.indexOf(pat, from)`: the first occurrence at or after `from`. */
  function IndexOf(s: string, pat: string, from: nat): (r: Option<nat>)
    decreases |s| - from
    ensures r.Some? ==> from <= r.value && r.value + |pat| <= |s|
  {
    if |s| < from + |pat| then None
    else if s[from..from + |pat|] == pat then Some(from)
    else IndexOf(s, pat, from + 1)
  }

  /** `indexOf` finds the first occurrence at or after `from`, and `None` means there is none. */
  lemma {:induction false} IndexOfFirst(s: string, pat: string, from: nat)
    decreases |s| - from
    ensures IndexOf(s, pat, from).Some? ==>
      from <= IndexOf(s, pat, from).value && OccursAt(s, pat, IndexOf(s, pat, from).value)
    ensures IndexOf(s, pat, from).Some? ==>
      forall j :: from <= j < IndexOf(s, pat, from).value ==> !OccursAt(s, pat, j)
    ensures IndexOf(s, pat, from).None? ==> forall j :: from <= j ==> !OccursAt(s, pat, j)
  {
    if |s| < from + |pat| {
    } else if s[from..from + |pat|] == pat {
    } else {
      IndexOfFirst(s, pat, from + 1);
    }
  }

  /**
   * The replacement text of `String.prototype.replace` for a string pattern
   * (no capture groups): `$$` is `$`, `$&` the matched text, `` $` `` the
   * text before the match, `$'` the text after it; any other `$` is kept.
   */
  function Substitution(rep: string, matched: string, before: string, after: string): string
    decreases |rep|
  {
    if |rep| == 0 then ""
    else if rep[0] == '$' && 2 <= |rep| && rep[1] == '$' then "$" + Substitution(rep[2..], matched, before, after)
    else if rep[0] == '$' && 2 <= |rep| && rep[1] == '&' then matched + Substitution(rep[2..], matched, before, after)
    else if rep[0] == '$' && 2 <= |rep| && rep[1] == '`' then before + Substitution(rep[2..], matched, before, after)
    else if rep[0] == '$' && 2 <= |rep| && rep[1] == '\'' then after + Substitution(rep[2..], matched, before, after)
    else [rep[0]] + Substitution(rep[1..], matched, before, after)
  }

  /** `i` is the first index at which `pat` occurs in `s`. */
  predicate FirstOccurrence(s: string, pat: string, i: int) {
    OccursAt(s, pat, i) && forall j :: 0 <= j < i ==> !OccursAt(s, pat, j)
  }

  /** `s.replace(pat, rep)` for string arguments: only the first occurrence is replaced. */
  function ReplaceFirst(s: string, pat: string, rep: string): (r: string)
  {
    match IndexOf(s, pat, 0)
    case None => s
    case Some(i) =>
      s[..i] + Substitution(rep, pat, s[..i], s[i + |pat|..]) + s[i + |pat|..]
  }

  /** `replace` leaves a text without the pattern as it is. */
  lemma ReplaceFirstNone(s: string, pat: string, rep: string)
    requires forall j :: !OccursAt(s, pat, j)
    ensures ReplaceFirst(s, pat, rep) == s
  {
    IndexOfFirst(s, pat, 0);
  }

  /** `replace` puts the substituted replacement where the pattern first occurs. */
  lemma ReplaceFirstAt(s: string, pat: string, rep: string, i: nat)
    requires FirstOccurrence(s, pat, i)
    ensures ReplaceFirst(s, pat, rep) == s[..i] + Substitution(rep, pat, s[..i], s[i + |pat|..]) + s[i + |pat|..]
  {
    IndexOfFirst(s, pat, 0);
    assert IndexOf(s, pat, 0) == Some(i);
  }

  /** `parts.join(sep)`. */
  function Join(parts: seq<string>, sep: string): string
    decreases |parts|
  {
    if |parts| == 0 then ""
    else if |parts| == 1 then parts[0]
    else parts[0] + sep + Join(parts[1..], sep)
  }

  /** Joining two lists is joining each and putting the separator between them. */
  lemma {:induction false} JoinAppend(a: seq<string>, b: seq<string>, sep: string)
    requires a != []
    ensures Join(a + b, sep) == if b == [] then Join(a, sep) else Join(a, sep) + sep + Join(b, sep)
    decreases |a|
  {
    if b == [] {
      assert a + b == a;
    } else if |a| == 1 {
      assert (a + b)[1..] == b;
    } else {
      assert (a + b)[1..] == a[1..] + b;
      JoinAppend(a[1..], b, sep);
    }
  }

  /** `s.split(sep)` for a non-empty separator: rejoining gives `s` back and no piece holds `sep`. */
  function Split(s: string, sep: string): (parts: seq<string>)
    requires sep != ""
    decreases |s|
    ensures 1 <= |parts|
    ensures Join(parts, sep) == s
    ensures forall k :: 0 <= k < |parts| ==> !Contains(parts[k], sep)
  {
    IndexOfFirst(s, sep, 0);
    match IndexOf(s, sep, 0)
    case None => [s]
    case Some(i) =>
      var head := s[..i];
      var rest := Split(s[i + |sep|..], sep);
      assert s == head + sep + s[i + |sep|..];
      assert !Contains(head, sep) by {
        forall j | 0 <= j ensures !OccursAt(head, sep, j) {
          if OccursAt(head, sep, j) {
            assert head[j..j + |sep|] == s[j..j + |sep|];
            assert OccursAt(s, sep, j);
          }
        }
      }
      [head] + rest
  }

  /** `s.split(pat).join(rep)`: every occurrence of `pat` becomes `rep`. */
  function ReplaceAll(s: string, pat: string, rep: string): (r: string)
    requires pat != ""
    ensures !Contains(s, pat) ==> r == s
  {
    IndexOfFirst(s, pat, 0);
    Join(Split(s, pat), rep)
  }

  /** JavaScript's white space and line terminators, which `trim` removes. */
  predicate IsWhitespace(c: char) {
    c == ' ' || c == '\t' || c == '\n' || c == '\r' || c == '\U{B}' || c == '\U{C}'
    || c == '\U{A0}' || c == '\U{1680}' || ('\U{2000}' <= c <= '\U{200A}')
    || c == '\U{2028}' || c == '\U{2029}' || c == '\U{202F}' || c == '\U{205F}'
    || c == '\U{3000}' || c == '\U{FEFF}'
  }

  function TrimStart(s: string): (r: string)
    decreases |s|
    ensures |r| <= |s| && r == s[|s| - |r|..]
    ensures r == [] || !IsWhitespace(r[0])
    ensures forall i :: 0 <= i < |s| - |r| ==> IsWhitespace(s[i])
  {
    if s != [] && IsWhitespace(s[0]) then TrimStart(s[1..]) else s
  }

  function TrimEnd(s: string): (r: string)
    decreases |s|
    ensures |r| <= |s| && r == s[..|r|]
    ensures r == [] || !IsWhitespace(r[|r| - 1])
    ensures forall i :: |r| <= i < |s| ==> IsWhitespace(s[i])
  {
    if s != [] && IsWhitespace(s[|s| - 1]) then TrimEnd(s[..|s| - 1]) else s
  }

  /** `s.trim()`. */
  function Trim(s: string): string {
    TrimEnd(TrimStart(s))
  }

  // ---------------------------------------------------------------------
  // Properties

  /** A replacement without `$` is inserted literally. */
  lemma {:induction false} SubstitutionLiteral(rep: string, matched: string, before: string, after: string)
    requires '$' !in rep
    ensures Substitution(rep, matched, before, after) == rep
    decreases |rep|
  {
    if |rep| > 0 {
      assert rep[0] != '$';
      assert '$' !in rep[1..];
      SubstitutionLiteral(rep[1..], matched, before, after);
      assert rep == [rep[0]] + rep[1..];
    }
  }

  /**
   * If character `pat[k]` appears neither in `a` nor earlier in `pat`, the
   * text `a + pat + b` has no occurrence of `pat` that starts inside `a`.
   */
  lemma NoOccurrenceBefore(a: string, pat: string, b: string, k: nat)
    requires k < |pat| && pat[k] !in a && pat[k] !in pat[..k]
    ensures forall j :: 0 <= j < |a| ==> !OccursAt(a + pat + b, pat, j)
  {
    var s := a + pat + b;
    forall j | 0 <= j < |a| && OccursAt(s, pat, j) ensures false {
    }
  }

  /** A text without the character `pat[k]` holds no occurrence of `pat`. */
  lemma NoOccurrenceWithout(p: string, pat: string, k: nat)
    requires k < |pat| && pat[k] !in p
    ensures !Contains(p, pat)
  {
    forall j | OccursAt(p, pat, j) ensures false {
    }
  }

  /**
   * `replace` finds the marker right after `a` when `a` cannot hide an
   * earlier occurrence; a `$`-free replacement then lands exactly there.
   */
  lemma ReplaceFirstAfter(a: string, pat: string, b: string, rep: string, k: nat)
    requires k < |pat| && pat[k] !in a && pat[k] !in pat[..k]
    requires '$' !in rep
    ensures ReplaceFirst(a + pat + b, pat, rep) == a + rep + b
  {
    var s := a + pat + b;
    NoOccurrenceBefore(a, pat, b, k);
    assert s[|a|..|a| + |pat|] == pat;
    assert OccursAt(s, pat, |a|);
    assert s[..|a|] == a && s[|a| + |pat|..] == b;
    ReplaceFirstAt(s, pat, rep, |a|);
    SubstitutionLiteral(rep, pat, a, b);
  }

  /** `split` cuts `a + sep + b` right after `a` when `a` cannot hide an earlier occurrence. */
  lemma SplitAfter(a: string, sep: string, b: string, k: nat)
    requires k < |sep| && sep[k] !in a && sep[k] !in sep[..k]
    ensures Split(a + sep + b, sep) == [a] + Split(b, sep)
  {
    var s := a + sep + b;
    NoOccurrenceBefore(a, sep, b, k);
    assert s[|a|..|a| + |sep|] == sep;
    assert OccursAt(s, sep, |a|);
    IndexOfFirst(s, sep, 0);
    assert IndexOf(s, sep, 0) == Some(|a|);
    assert s[..|a|] == a;
    assert s[|a| + |sep|..] == b;
  }

  /**
   * Splitting a joined list gives the list back when every piece lacks a
   * character `sep[k]` that does not appear earlier in `sep`.
   */
  lemma {:induction false} SplitJoin(parts: seq<string>, sep: string, k: nat)
    requires 1 <= |parts| && k < |sep| && sep[k] !in sep[..k]
    requires forall i :: 0 <= i < |parts| ==> sep[k] !in parts[i]
    ensures Split(Join(parts, sep), sep) == parts
    decreases |parts|
  {
    if |parts| == 1 {
      NoOccurrenceWithout(parts[0], sep, k);
      IndexOfFirst(parts[0], sep, 0);
      assert IndexOf(parts[0], sep, 0).None?;
    } else {
      SplitAfter(parts[0], sep, Join(parts[1..], sep), k);
      SplitJoin(parts[1..], sep, k);
      assert parts == [parts[0]] + parts[1..];
    }
  }

  /** `split/join` replaces the first occurrence and carries on after it. */
  lemma ReplaceAllStep(s: string, pat: string, rep: string, i: nat)
    requires pat != "" && IndexOf(s, pat, 0) == Some(i)
    ensures ReplaceAll(s, pat, rep) == s[..i] + rep + ReplaceAll(s[i + |pat|..], pat, rep)
  {
    var parts := Split(s[i + |pat|..], pat);
    assert Split(s, pat) == [s[..i]] + parts;
    assert ([s[..i]] + parts)[1..] == parts;
  }

  /** Overlapping occurrences of `q` and `pat` agree on the first shared position. */
  lemma OverlapAgrees(s: string, q: string, j: int, pat: string, i: int)
    requires q != "" && pat != "" && OccursAt(s, q, j) && OccursAt(s, pat, i)
    requires i < j + |q| && j < i + |pat|
    ensures var p := if i < j then j else i; q[p - j] == pat[p - i]
  {
    var p := if i < j then j else i;
    assert s[j..j + |q|][p - j] == s[p] == s[i..i + |pat|][p - i];
  }

  /** A template marker `{{NAME}}`: two opening braces and no further one. */
  predicate Placeholder(p: string) {
    3 <= |p| && p[0] == '{' && p[1] == '{' && forall k :: 2 <= k < |p| ==> p[k] != '{'
  }

  /**
   * Occurrences of `q` and `pat` can never overlap: they share no character,
   * or they are markers whose names start with different letters.
   */
  predicate CannotOverlap(q: string, pat: string) {
    SharesNoChar(q, pat) || (Placeholder(q) && Placeholder(pat) && q[2] != pat[2])
  }

  /** The characters of `s` covered by an occurrence of `pat` at `i` are those of `pat`. */
  lemma CharsAt(s: string, pat: string, i: int)
    requires OccursAt(s, pat, i)
    ensures forall k :: i <= k < i + |pat| ==> s[k] == pat[k - i]
  {
    forall k | i <= k < i + |pat| ensures s[k] == pat[k - i] {
      assert s[i..i + |pat|][k - i] == s[k];
    }
  }

  /** Occurrences of `q` and `pat` are disjoint when they cannot overlap. */
  lemma NoOverlap(s: string, q: string, j: int, pat: string, i: int)
    requires q != "" && pat != "" && OccursAt(s, q, j) && OccursAt(s, pat, i) && CannotOverlap(q, pat)
    ensures j + |q| <= i || i + |pat| <= j
  {
    if SharesNoChar(q, pat) {
      if i < j + |q| && j < i + |pat| {
        OverlapAgrees(s, q, j, pat, i);
        assert false;
      }
    } else {
      CharsAt(s, q, j);
      CharsAt(s, pat, i);
      assert s[j] == q[0] && s[j + 1] == q[1] && s[j + 2] == q[2];
      assert s[i] == pat[0] && s[i + 1] == pat[1] && s[i + 2] == pat[2];
    }
  }

  /** An occurrence stays where it is when text is appended. */
  lemma OccursInPrefix(a: string, b: string, q: string, j: int)
    requires OccursAt(a, q, j)
    ensures OccursAt(a + b, q, j)
  {
    assert (a + b)[j..j + |q|] == a[j..j + |q|];
  }

  /** An occurrence moves by `|a|` when `a` is prepended. */
  lemma OccursInSuffix(a: string, b: string, q: string, j: int)
    requires OccursAt(b, q, j)
    ensures OccursAt(a + b, q, |a| + j)
  {
    assert (a + b)[|a| + j..|a| + j + |q|] == b[j..j + |q|];
  }

  /** An occurrence inside a suffix slice, re-indexed. */
  lemma OccursInDrop(s: string, q: string, j: int, lo: nat)
    requires OccursAt(s, q, j) && lo <= j
    ensures OccursAt(s[lo..], q, j - lo)
  {
    assert s[lo..][j - lo..j - lo + |q|] == s[j..j + |q|];
  }

  /** An occurrence inside a prefix slice. */
  lemma OccursInTake(s: string, q: string, j: int, hi: nat)
    requires OccursAt(s, q, j) && j + |q| <= hi <= |s|
    ensures OccursAt(s[..hi], q, j)
  {
    assert s[..hi][j..j + |q|] == s[j..j + |q|];
  }

  /** Replacing every occurrence of `pat` keeps any text that cannot overlap `pat`. */
  lemma {:induction false} ReplaceAllKeeps(s: string, pat: string, rep: string, q: string)
    requires pat != "" && CannotOverlap(q, pat) && Contains(s, q)
    ensures Contains(ReplaceAll(s, pat, rep), q)
    decreases |s|
  {
    var j :| 0 <= j <= |s| && OccursAt(s, q, j);
    var r := ReplaceAll(s, pat, rep);
    match IndexOf(s, pat, 0)
    case None =>
      assert OccursAt(r, q, j);
    case Some(i) =>
      if q == "" {
        assert OccursAt(r, q, 0);
      } else {
        var head, tail := s[..i], s[i + |pat|..];
        var rt := ReplaceAll(tail, pat, rep);
        ReplaceAllStep(s, pat, rep, i);
        assert r == (head + rep) + rt;
        NoOverlap(s, q, j, pat, i);
        if j + |q| <= i {
          OccursInTake(s, q, j, i);
          OccursInPrefix(head, rep, q, j);
          OccursInPrefix(head + rep, rt, q, j);
          assert OccursAt(r, q, j);
        } else {
          OccursInDrop(s, q, j, i + |pat|);
          ReplaceAllKeeps(tail, pat, rep, q);
          var j' :| 0 <= j' <= |rt| && OccursAt(rt, q, j');
          var front := head + rep;
          OccursInSuffix(front, rt, q, j');
          assert OccursAt(r, q, |front| + j');
        }
      }
  }

  /** Trimming ignores white space appended at the end. */
  lemma {:induction false} TrimEndAppend(s: string, w: string)
    requires forall i :: 0 <= i < |w| ==> IsWhitespace(w[i])
    ensures TrimEnd(s + w) == TrimEnd(s)
    decreases |w|
  {
    if |w| > 0 {
      var s' := s + w[..|w| - 1];
      assert (s + w)[..|s + w| - 1] == s';
      TrimEndAppend(s, w[..|w| - 1]);
    } else {
      assert s + w == s;
    }
  }

  /** A joined string starts with its first part, followed by the separator when there are more. */
  lemma JoinHead(parts: seq<string>, sep: string)
    requires 1 <= |parts|
    ensures |parts[0]| <= |Join(parts, sep)| && Join(parts, sep)[..|parts[0]|] == parts[0]
    ensures |parts| == 1 ==> Join(parts, sep) == parts[0]
    ensures 2 <= |parts| ==> Join(parts, sep) == parts[0] + sep + Join(parts[1..], sep)
  {
  }

  /** A string without the one-character pattern `[c]` does not hold `c`. */
  lemma NotContainsChar(t: string, c: char)
    requires !Contains(t, [c])
    ensures c !in t
  {
    if c in t {
      var i :| 0 <= i < |t| && t[i] == c;
      assert t[i..i + 1] == [c];
      assert OccursAt(t, [c], i);
    }
  }

  /** `split` cuts at the first occurrence of the separator. */
  lemma SplitFirst(s: string, sep: string, i: nat)
    requires sep != "" && FirstOccurrence(s, sep, i)
    ensures Split(s, sep) == [s[..i]] + Split(s[i + |sep|..], sep)
  {
    IndexOfFirst(s, sep, 0);
    assert IndexOf(s, sep, 0) == Some(i);
  }

  /** `split` leaves a text without the separator whole. */
  lemma SplitWhole(s: string, sep: string)
    requires sep != "" && !Contains(s, sep)
    ensures Split(s, sep) == [s]
  {
    IndexOfFirst(s, sep, 0);
  }

  /** An occurrence ends with the pattern's last character. */
  lemma OccursLast(s: string, pat: string, j: int)
    requires pat != "" && OccursAt(s, pat, j)
    ensures s[j + |pat| - 1] == pat[|pat| - 1]
  {
    assert s[j..j + |pat|][|pat| - 1] == s[j + |pat| - 1];
  }

  /** An occurrence in `x + [c]` lies inside `x` when `c` is not part of the pattern. */
  lemma OccursSnoc(x: string, c: char, pat: string, j: int)
    requires pat != "" && OccursAt(x + [c], pat, j) && c !in pat
    ensures OccursAt(x, pat, j)
  {
    var s := x + [c];
    if j + |pat| <= |x| {
      assert s[j..j + |pat|] == x[j..j + |pat|];
    } else {
      OccursLast(s, pat, j);
      assert false;
    }
  }

  /** Appending a character outside the pattern leaves the first occurrence where it is. */
  lemma FirstOccurrenceSnoc(x: string, c: char, pat: string, i: int)
    requires pat != "" && FirstOccurrence(x, pat, i) && c !in pat
    ensures FirstOccurrence(x + [c], pat, i)
  {
    OccursInPrefix(x, [c], pat, i);
    forall j | 0 <= j < i && OccursAt(x + [c], pat, j) ensures false {
      OccursSnoc(x, c, pat, j);
    }
  }

  /** Appending a character outside the pattern adds no occurrence. */
  lemma NotContainsSnoc(x: string, c: char, pat: string)
    requires pat != "" && !Contains(x, pat) && c !in pat
    ensures !Contains(x + [c], pat)
  {
    forall j | 0 <= j <= |x + [c]| && OccursAt(x + [c], pat, j) ensures false {
      OccursSnoc(x, c, pat, j);
    }
  }

  /**
   * `split/join` replaces every occurrence: a text built by joining pieces
   * with the marker comes out with every marker replaced.
   */
  lemma ReplaceAllEvery(parts: seq<string>, pat: string, rep: string, k: nat)
    requires 1 <= |parts| && k < |pat| && pat[k] !in pat[..k]
    requires forall i :: 0 <= i < |parts| ==> pat[k] !in parts[i]
    ensures ReplaceAll(Join(parts, pat), pat, rep) == Join(parts, rep)
  {
    SplitJoin(parts, pat, k);
  }

  /**
   * `replace` replaces only the first occurrence: of the same text, only the
   * first marker is replaced and the others stay.
   */
  lemma ReplaceFirstOnly(parts: seq<string>, pat: string, rep: string, k: nat)
    requires 2 <= |parts| && k < |pat| && pat[k] !in pat[..k] && '$' !in rep
    requires forall i :: 0 <= i < |parts| ==> pat[k] !in parts[i]
    ensures ReplaceFirst(Join(parts, pat), pat, rep) == parts[0] + rep + Join(parts[1..], pat)
  {
    JoinHead(parts, pat);
    ReplaceFirstAfter(parts[0], pat, Join(parts[1..], pat), rep, k);
  }

  /** A character missing from a joined string is missing from every part. */
  lemma {:induction false} JoinKeepsChars(parts: seq<string>, sep: string, c: char)
    requires c !in Join(parts, sep)
    ensures forall k :: 0 <= k < |parts| ==> c !in parts[k]
    decreases |parts|
  {
    if |parts| >= 2 {
      var rest := Join(parts[1..], sep);
      assert Join(parts, sep) == parts[0] + sep + rest;
      assert c !in parts[0] && c !in rest;
      JoinKeepsChars(parts[1..], sep, c);
      forall k | 1 <= k < |parts| ensures c !in parts[k] {
        assert parts[k] == parts[1..][k - 1];
      }
    }
  }

  /** A character outside the separator appended to a text ends up in the last piece. */
  lemma {:induction false} SplitSnoc(x: string, c: char, sep: string)
    requires sep != "" && c !in sep
    ensures var parts := Split(x, sep);
      Split(x + [c], sep) == parts[..|parts| - 1] + [parts[|parts| - 1] + [c]]
    decreases |x|
  {
    var found := IndexOf(x, sep, 0);
    if found.None? {
      SplitSnocWhole(x, c, sep);
    } else {
      var i := found.value;
      var tail := x[i + |sep|..];
      var rest, rest' := Split(tail, sep), Split(tail + [c], sep);
      SplitSnocAt(x, c, sep, i);
      SplitSnoc(tail, c, sep);
      LastPieceSnoc(x[..i], rest, rest', [c], Split(x, sep), Split(x + [c], sep));
    }
  }

  /** Without a separator the text and the text with `c` appended are both one piece. */
  lemma SplitSnocWhole(x: string, c: char, sep: string)
    requires sep != "" && c !in sep && IndexOf(x, sep, 0).None?
    ensures Split(x, sep) == [x] && Split(x + [c], sep) == [x + [c]]
  {
    IndexOfFirst(x, sep, 0);
    assert !Contains(x, sep);
    NotContainsSnoc(x, c, sep);
    SplitWhole(x + [c], sep);
  }

  /** Appending `c` leaves the first cut where it is. */
  lemma SplitSnocAt(x: string, c: char, sep: string, i: nat)
    requires sep != "" && c !in sep && IndexOf(x, sep, 0) == Some(i)
    ensures Split(x, sep) == [x[..i]] + Split(x[i + |sep|..], sep)
    ensures Split(x + [c], sep) == [x[..i]] + Split(x[i + |sep|..] + [c], sep)
  {
    IndexOfFirst(x, sep, 0);
    FirstOccurrenceSnoc(x, c, sep, i);
    SplitFirst(x + [c], sep, i);
    assert (x + [c])[..i] == x[..i];
    assert (x + [c])[i + |sep|..] == x[i + |sep|..] + [c];
  }

  /** Extending the last piece commutes with putting a piece in front. */
  lemma LastPieceSnoc(head: string, rest: seq<string>, rest': seq<string>, w: string, all: seq<string>, all': seq<string>)
    requires rest != [] && rest' == rest[..|rest| - 1] + [rest[|rest| - 1] + w]
    requires all == [head] + rest && all' == [head] + rest'
    ensures all' == all[..|all| - 1] + [all[|all| - 1] + w]
  {
  }
}
