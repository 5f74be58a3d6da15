/**
 * What the HTML builder promises, proved about its spec functions: the
 * merge of a track's sessions (which sessions remain, in which order, where
 * the merged papers go, when it fails, that no paper is lost, and that a
 * second merge changes nothing), the layout of the table of contents, the
 * grouping of the sidebar, the path extraction of the file lookup, and
 * which markers the subpages replace.
 */
module HtmlBuilderProofs {
  import opened Wrappers
  import opened Strings
  import opened Sequences
  import opened Records
  import opened SessionHelperProofs
  import opened HtmlBuilder

  // ---------------------------------------------------------------------
  // Merging the sessions of a track

  /** The short titles of the sessions, in order. */
  function Titles(s: seq<Session>): (r: seq<string>)
    ensures |r| == |s| && forall i :: 0 <= i < |s| ==> r[i] == s[i].shortTitle
  {
    seq(|s|, i requires 0 <= i < |s| => s[i].shortTitle)
  }

  /** The short titles that are not merge keys, in order. */
  function Unmerged(rules: map<string, MergeRule>, titles: seq<string>): (r: seq<string>)
    ensures forall x :: x in r ==> x in titles && x !in rules
    decreases |titles|
  {
    if titles == [] then []
    else
      var n := |titles| - 1;
      var rest := Unmerged(rules, titles[..n]);
      assert forall x :: x in rest ==> x in titles;
      rest + (if titles[n] in rules then [] else [titles[n]])
  }

  /** No merge target is itself a merge key, as in `SESSION_MATCHING`. */
  predicate TargetsAreNotKeys(rules: map<string, MergeRule>) {
    forall k :: k in rules ==> rules[k].shortTitle !in rules
  }

  lemma SessionMatchingTargets()
    ensures TargetsAreNotKeys(SESSION_MATCHING)
  {
    assert SESSION_MATCHING.Keys == {"UP-YP02"};
    assert "UP-YP01" != "UP-YP02" by { assert "UP-YP01"[6] != "UP-YP02"[6]; }
  }

  /** A merge step that merges: the removed session is the key, the titles of the others stay where they are. */
  lemma MergeStepTitles(rules: map<string, MergeRule>, cur: seq<Session>, i: nat, next: seq<Session>)
    requires i < |cur| && MergeStep(rules, cur, i) == Some(next)
    ensures cur[i].shortTitle !in rules ==> next == cur
    ensures cur[i].shortTitle in rules ==> Titles(next) == Titles(cur)[..i] + Titles(cur)[i + 1..]
  {
    if cur[i].shortTitle in rules {
      var t := SessionIndex(cur, rules[cur[i].shortTitle].shortTitle).value;
      var merged := cur[t := cur[t].(papers := cur[t].papers + cur[i].papers)];
      assert next == merged[..i] + merged[i + 1..];
      assert Titles(merged) == Titles(cur);
      assert Titles(next) == Titles(merged)[..i] + Titles(merged)[i + 1..];
    }
  }

  /** Taking one more title into the unmerged prefix. */
  lemma UnmergedStep(rules: map<string, MergeRule>, T: seq<string>, i: nat)
    requires 0 < i <= |T|
    ensures Unmerged(rules, T[..i]) + T[i..]
      == Unmerged(rules, T[..i - 1]) + ((if T[i - 1] in rules then [] else [T[i - 1]]) + T[i..])
  {
    assert T[..i][..i - 1] == T[..i - 1];
    var U := Unmerged(rules, T[..i - 1]);
    AppendAssoc(U, if T[i - 1] in rules then [] else [T[i - 1]], T[i..]);
  }

  /** The titles after a merge step at `i - 1`, for the merge loop. */
  lemma MergeStepTitlesFrom(rules: map<string, MergeRule>, cur: seq<Session>, i: nat, next: seq<Session>)
    requires 0 < i <= |cur| && MergeStep(rules, cur, i - 1) == Some(next)
    requires forall j :: i <= j < |cur| ==> cur[j].shortTitle !in rules
    ensures i - 1 <= |next|
    ensures Titles(next)[..i - 1] == Titles(cur)[..i - 1]
    ensures Titles(next)[i - 1..] == (if cur[i - 1].shortTitle in rules then [] else [cur[i - 1].shortTitle]) + Titles(cur)[i..]
    ensures forall j :: i - 1 <= j < |next| ==> next[j].shortTitle !in rules
  {
    var T := Titles(cur);
    MergeStepTitles(rules, cur, i - 1, next);
    var T' := Titles(next);
    if cur[i - 1].shortTitle in rules {
      assert T'[..i - 1] == T[..i - 1];
      assert T'[i - 1..] == T[i..];
      forall j | i - 1 <= j < |next| ensures next[j].shortTitle !in rules {
        assert T'[j] == T[j + 1];
      }
    } else {
      assert T[i - 1..] == [T[i - 1]] + T[i..];
    }
  }

  /** The merge loop from index `i` down keeps the non-key titles before `i` and everything after it. */
  lemma {:induction false} MergeFromTitles(rules: map<string, MergeRule>, cur: seq<Session>, i: nat, r: seq<Session>)
    requires i <= |cur| && MergeFrom(rules, cur, i) == Some(r)
    requires forall j :: i <= j < |cur| ==> cur[j].shortTitle !in rules
    ensures Titles(r) == Unmerged(rules, Titles(cur)[..i]) + Titles(cur)[i..]
    decreases i
  {
    var T := Titles(cur);
    if i == 0 {
      assert T[..0] == [] && T[0..] == T;
    } else {
      var next := MergeStep(rules, cur, i - 1).value;
      MergeStepTitlesFrom(rules, cur, i, next);
      MergeFromTitles(rules, next, i - 1, r);
      UnmergedStep(rules, T, i);
    }
  }

  /**
   * After the merge the sessions of a track are its sessions whose short
   * title is not a merge key, in their order: every key session is gone.
   */
  lemma ConcatSessionsTitles(rules: map<string, MergeRule>, sessions: seq<Session>, r: seq<Session>)
    requires ConcatSessions(rules, sessions) == Some(r)
    ensures Titles(r) == Unmerged(rules, Titles(sessions))
    ensures forall k :: 0 <= k < |r| ==> r[k].shortTitle !in rules
  {
    MergeFromTitles(rules, sessions, |sessions|, r);
    assert Titles(sessions)[..|sessions|] == Titles(sessions);
    assert Titles(sessions)[|sessions|..] == [];
    forall k | 0 <= k < |r| ensures r[k].shortTitle !in rules {
      assert Titles(r)[k] in Unmerged(rules, Titles(sessions));
    }
  }

  /** Without key sessions the merge loop changes nothing. */
  lemma {:induction false} MergeFromNoKeys(rules: map<string, MergeRule>, cur: seq<Session>, i: nat)
    requires i <= |cur| && forall j :: 0 <= j < |cur| ==> cur[j].shortTitle !in rules
    ensures MergeFrom(rules, cur, i) == Some(cur)
    decreases i
  {
    if i > 0 {
      MergeFromNoKeys(rules, cur, i - 1);
    }
  }

  /** Merging the sessions of a track a second time changes nothing. */
  lemma ConcatSessionsIdempotent(rules: map<string, MergeRule>, sessions: seq<Session>, r: seq<Session>)
    requires ConcatSessions(rules, sessions) == Some(r)
    ensures ConcatSessions(rules, r) == Some(r)
  {
    ConcatSessionsTitles(rules, sessions, r);
    MergeFromNoKeys(rules, r, |r|);
  }

  /** A merge step moves papers between sessions and loses none. */
  lemma MergeStepBag(rules: map<string, MergeRule>, cur: seq<Session>, i: nat, next: seq<Session>)
    requires TargetsAreNotKeys(rules)
    requires i < |cur| && MergeStep(rules, cur, i) == Some(next)
    ensures SumBags(next, SessionBag) == SumBags(cur, SessionBag)
  {
    if cur[i].shortTitle in rules {
      var s := cur[i];
      var target := rules[s.shortTitle].shortTitle;
      var t := SessionIndex(cur, target).value;
      assert cur[t].shortTitle == target && target !in rules;
      var x := cur[t].(papers := cur[t].papers + s.papers);
      var merged := cur[t := x];
      assert next == merged[..i] + merged[i + 1..];
      assert SessionBag(x) == SessionBag(cur[t]) + SessionBag(s) by {
        assert multiset(cur[t].papers + s.papers) == multiset(cur[t].papers) + multiset(s.papers);
      }
      SumBagsGrow(cur, t, x, SessionBag, SessionBag(s));
      SumBagsRemove(merged, i, SessionBag);
      assert merged[i] == s;
      BagCancel(SumBags(next, SessionBag), SessionBag(s), SumBags(cur, SessionBag));
    }
  }

  lemma {:induction false} MergeFromBag(rules: map<string, MergeRule>, cur: seq<Session>, i: nat, r: seq<Session>)
    requires TargetsAreNotKeys(rules)
    requires i <= |cur| && MergeFrom(rules, cur, i) == Some(r)
    ensures SumBags(r, SessionBag) == SumBags(cur, SessionBag)
    decreases i
  {
    if i > 0 {
      var next := MergeStep(rules, cur, i - 1).value;
      MergeStepBag(rules, cur, i - 1, next);
      MergeFromBag(rules, next, i - 1, r);
    }
  }

  /** The merged sessions hold exactly the papers of the track's sessions: none is lost or doubled. */
  lemma ConcatSessionsBag(rules: map<string, MergeRule>, sessions: seq<Session>, r: seq<Session>)
    requires TargetsAreNotKeys(rules) && ConcatSessions(rules, sessions) == Some(r)
    ensures SumBags(r, SessionBag) == SumBags(sessions, SessionBag)
  {
    MergeFromBag(rules, sessions, |sessions|, r);
  }

  /** Some key session among the first `i` has a target that no session has as short title. */
  predicate MissingTarget(rules: map<string, MergeRule>, cur: seq<Session>, i: nat)
    requires i <= |cur|
  {
    exists j :: 0 <= j < i && cur[j].shortTitle in rules && rules[cur[j].shortTitle].shortTitle !in Titles(cur)
  }

  /** A successful merge step keeps the titles before `i`, and every non-key title is still there. */
  lemma MergeStepKeeps(rules: map<string, MergeRule>, cur: seq<Session>, i: nat, next: seq<Session>)
    requires i < |cur| && MergeStep(rules, cur, i) == Some(next)
    ensures |next| >= i && Titles(next)[..i] == Titles(cur)[..i]
    ensures forall x :: x !in rules ==> (x in Titles(next) <==> x in Titles(cur))
  {
    MergeStepTitles(rules, cur, i, next);
    if cur[i].shortTitle in rules {
      var T := Titles(cur);
      assert T == T[..i] + [T[i]] + T[i + 1..];
      forall x | x !in rules ensures x in Titles(next) <==> x in T {
        assert x in T <==> x in T[..i] || x == T[i] || x in T[i + 1..];
      }
    }
  }

  /** A successful merge step leaves the question whether a target is missing unchanged. */
  lemma MissingTargetKept(rules: map<string, MergeRule>, cur: seq<Session>, next: seq<Session>, n: nat)
    requires TargetsAreNotKeys(rules) && n < |cur| && n <= |next|
    requires Titles(next)[..n] == Titles(cur)[..n]
    requires forall x :: x !in rules ==> (x in Titles(next) <==> x in Titles(cur))
    requires !(cur[n].shortTitle in rules && rules[cur[n].shortTitle].shortTitle !in Titles(cur))
    ensures MissingTarget(rules, next, n) <==> MissingTarget(rules, cur, n + 1)
  {
    var T, T' := Titles(cur), Titles(next);
    if MissingTarget(rules, next, n) {
      var j :| 0 <= j < n && next[j].shortTitle in rules && rules[next[j].shortTitle].shortTitle !in T';
      assert T'[..n][j] == T[..n][j];
      assert cur[j].shortTitle in rules && rules[cur[j].shortTitle].shortTitle !in T;
    }
    if MissingTarget(rules, cur, n + 1) {
      var j :| 0 <= j < n + 1 && cur[j].shortTitle in rules && rules[cur[j].shortTitle].shortTitle !in T;
      assert j < n;
      assert T'[..n][j] == T[..n][j];
      assert next[j].shortTitle in rules && rules[next[j].shortTitle].shortTitle !in T';
    }
  }

  /** A merge step fails exactly when its session is a key whose target no session has. */
  lemma MergeStepFails(rules: map<string, MergeRule>, cur: seq<Session>, i: nat)
    requires i < |cur|
    ensures MergeStep(rules, cur, i).None? <==>
      (cur[i].shortTitle in rules && rules[cur[i].shortTitle].shortTitle !in Titles(cur))
  {
    var s := cur[i];
    if s.shortTitle in rules {
      SessionIndexFirst(cur, rules[s.shortTitle].shortTitle);
    }
  }

  lemma {:induction false} MergeFromFails(rules: map<string, MergeRule>, cur: seq<Session>, i: nat)
    requires TargetsAreNotKeys(rules) && i <= |cur|
    ensures MergeFrom(rules, cur, i).None? <==> MissingTarget(rules, cur, i)
    decreases i
  {
    if i > 0 {
      MergeStepFails(rules, cur, i - 1);
      var step := MergeStep(rules, cur, i - 1);
      if step.Some? {
        var next := step.value;
        MergeStepKeeps(rules, cur, i - 1, next);
        MergeFromFails(rules, next, i - 1);
        MissingTargetKept(rules, cur, next, i - 1);
      }
    }
  }

  /**
   * The merge fails (JavaScript's `TypeError` on the missing target) exactly
   * when some session of the track is a merge key whose target short title
   * no session of the track has.
   */
  lemma ConcatSessionsFails(rules: map<string, MergeRule>, sessions: seq<Session>)
    requires TargetsAreNotKeys(rules)
    ensures ConcatSessions(rules, sessions).None? <==>
      exists j :: 0 <= j < |sessions| && sessions[j].shortTitle in rules
        && forall k :: 0 <= k < |sessions| ==> sessions[k].shortTitle != rules[sessions[j].shortTitle].shortTitle
  {
    MergeFromFails(rules, sessions, |sessions|);
  }

  /**
   * The papers the backward loop appends to the session with short title
   * `target`: those of the key sessions that name it, the last one first.
   */
  function Absorbed(rules: map<string, MergeRule>, s: seq<Session>, target: string): seq<Paper>
    decreases |s|
  {
    if s == [] then []
    else
      var n := |s| - 1;
      Contribution(rules, s[n], target) + Absorbed(rules, s[..n], target)
  }

  /** The papers one session adds to `target` when it is merged: all of them if it is a key naming `target`. */
  function Contribution(rules: map<string, MergeRule>, s: Session, target: string): seq<Paper> {
    if s.shortTitle in rules && rules[s.shortTitle].shortTitle == target then s.papers else []
  }

  /** `Absorbed` unfolded once on a prefix of the sessions. */
  lemma AbsorbedLast(rules: map<string, MergeRule>, s: seq<Session>, i: nat, target: string)
    requires 0 < i <= |s|
    ensures Absorbed(rules, s[..i], target) == Contribution(rules, s[i - 1], target) + Absorbed(rules, s[..i - 1], target)
  {
    assert s[..i][..i - 1] == s[..i - 1];
  }

  /** Changing the papers of a session that is not a key does not change what is absorbed. */
  lemma {:induction false} AbsorbedUpdate(rules: map<string, MergeRule>, s: seq<Session>, t: nat, x: Session, target: string)
    requires t < |s| && s[t].shortTitle !in rules && x.shortTitle == s[t].shortTitle
    ensures Absorbed(rules, s[t := x], target) == Absorbed(rules, s, target)
    decreases |s|
  {
    var n := |s| - 1;
    if t < n {
      assert s[t := x][..n] == s[..n][t := x];
      AbsorbedUpdate(rules, s[..n], t, x, target);
    } else {
      assert s[t := x][..n] == s[..n];
    }
  }

  /** The first session with a short title is the same after the papers of a session change. */
  lemma SessionIndexUpdate(cur: seq<Session>, t: nat, x: Session, target: string)
    requires t < |cur| && x.shortTitle == cur[t].shortTitle
    ensures SessionIndex(cur[t := x], target) == SessionIndex(cur, target)
  {
    var u := cur[t := x];
    assert forall j :: 0 <= j < |cur| ==> u[j].shortTitle == cur[j].shortTitle;
    var a, b := SessionIndex(u, target), SessionIndex(cur, target);
    SessionIndexFirst(u, target);
    SessionIndexFirst(cur, target);
    if a.Some? && b.Some? && a.value != b.value {
      assert false;
    }
  }

  /** The first session with a short title moves down by one when a session before it is removed. */
  lemma SessionIndexRemove(s: seq<Session>, i: nat, target: string, f: nat)
    requires i < |s| && s[i].shortTitle != target && SessionIndex(s, target) == Some(f)
    ensures SessionIndex(s[..i] + s[i + 1..], target) == Some(if f < i then f else f - 1)
  {
    SessionIndexFirst(s, target);
    var n := s[..i] + s[i + 1..];
    var f' := if f < i then f else f - 1;
    assert n[f'] == s[f];
    forall j | 0 <= j < f' ensures n[j].shortTitle != target {
      assert n[j] == (if j < i then s[j] else s[j + 1]);
    }
    var v := SessionIndex(n, target);
    SessionIndexFirst(n, target);
    if v.value != f' {
      assert false;
    }
  }

  /** After the papers of session `t` grow and session `i` is removed, the first `target` session is the old one. */
  lemma MergedTargetFound(cur: seq<Session>, i: nat, t: nat, merged: seq<Session>, next: seq<Session>, target: string, f: nat)
    requires i < |cur| && t < |cur| && t != i
    requires merged == cur[t := cur[t].(papers := cur[t].papers + cur[i].papers)] && next == merged[..i] + merged[i + 1..]
    requires cur[i].shortTitle != target && SessionIndex(cur, target) == Some(f)
    ensures SessionIndex(next, target).Some? && next[SessionIndex(next, target).value] == merged[f]
  {
    SessionIndexUpdate(cur, t, merged[t], target);
    SessionIndexRemove(merged, i, target, f);
    RemoveAt(merged, i, f);
  }

  /** The first session with a short title that is not a key, found again after a merge step. */
  lemma MergeStepTarget(rules: map<string, MergeRule>, cur: seq<Session>, i: nat, next: seq<Session>, target: string, f: nat)
    requires TargetsAreNotKeys(rules) && target !in rules
    requires i < |cur| && MergeStep(rules, cur, i) == Some(next)
    requires SessionIndex(cur, target) == Some(f)
    ensures SessionIndex(next, target).Some?
    ensures next[SessionIndex(next, target).value].papers == cur[f].papers + Contribution(rules, cur[i], target)
  {
    var s := cur[i];
    if s.shortTitle in rules {
      var t := SessionIndex(cur, rules[s.shortTitle].shortTitle).value;
      var x := cur[t].(papers := cur[t].papers + s.papers);
      var merged := cur[t := x];
      assert next == merged[..i] + merged[i + 1..];
      assert f != i && t != i;
      MergedTargetFound(cur, i, t, merged, next, target, f);
      assert rules[s.shortTitle].shortTitle == target ==> t == f;
    }
  }

  /** A merge step does not change what the sessions before it contribute. */
  lemma MergeStepAbsorbed(rules: map<string, MergeRule>, cur: seq<Session>, i: nat, next: seq<Session>, target: string)
    requires TargetsAreNotKeys(rules)
    requires i < |cur| && MergeStep(rules, cur, i) == Some(next)
    ensures Absorbed(rules, next[..i], target) == Absorbed(rules, cur[..i], target)
  {
    var s := cur[i];
    if s.shortTitle in rules {
      var t := SessionIndex(cur, rules[s.shortTitle].shortTitle).value;
      var x := cur[t].(papers := cur[t].papers + s.papers);
      var merged := cur[t := x];
      assert next[..i] == merged[..i];
      if t < i {
        assert merged[..i] == cur[..i][t := x];
        AbsorbedUpdate(rules, cur[..i], t, x, target);
      } else {
        assert merged[..i] == cur[..i];
      }
    }
  }

  lemma {:induction false} MergeFromTarget(rules: map<string, MergeRule>, cur: seq<Session>, i: nat, r: seq<Session>, target: string, f: nat)
    requires TargetsAreNotKeys(rules) && target !in rules
    requires i <= |cur| && MergeFrom(rules, cur, i) == Some(r)
    requires SessionIndex(cur, target) == Some(f)
    ensures SessionIndex(r, target).Some?
    ensures r[SessionIndex(r, target).value].papers == cur[f].papers + Absorbed(rules, cur[..i], target)
    decreases i
  {
    if i == 0 {
      assert cur[..0] == [];
    } else {
      var next := MergeStep(rules, cur, i - 1).value;
      assert MergeFrom(rules, next, i - 1) == Some(r);
      MergeStepTarget(rules, cur, i - 1, next, target, f);
      MergeStepAbsorbed(rules, cur, i - 1, next, target);
      var f' := SessionIndex(next, target).value;
      MergeFromTarget(rules, next, i - 1, r, target, f');
      AbsorbedLast(rules, cur, i, target);
      AppendAssoc(cur[f].papers, Contribution(rules, cur[i - 1], target), Absorbed(rules, cur[..i - 1], target));
    }
  }

  /**
   * The first session with a target short title keeps its papers and gets
   * the papers of the key sessions that name it appended, the last of them
   * first; the papers are not re-sorted.
   */
  lemma ConcatSessionsTarget(rules: map<string, MergeRule>, sessions: seq<Session>, r: seq<Session>, target: string, f: nat)
    requires TargetsAreNotKeys(rules) && target !in rules
    requires ConcatSessions(rules, sessions) == Some(r) && SessionIndex(sessions, target) == Some(f)
    ensures SessionIndex(r, target).Some?
    ensures r[SessionIndex(r, target).value].papers == sessions[f].papers + Absorbed(rules, sessions, target)
  {
    MergeFromTarget(rules, sessions, |sessions|, r, target, f);
    assert sessions[..|sessions|] == sessions;
  }
}
