/**
 * What the HTML builder promises about the text it produces: the `find`
 * command line, the path extracted from its output, the author line, the
 * layout of the table of contents and of a track block, the grouping of the
 * sidebar, and which markers survive on a subpage.
 */
module HtmlLayoutProofs {
  import opened Wrappers
  import opened Strings
  import opened Sequences
  import opened Records
  import opened HtmlBuilder

  // ---------------------------------------------------------------------
  // File lookup

  /**
   * The three markers of the `find` template are filled in with the search
   * path, the search id and the extension, when these hold no `{` to be
   * mistaken for a later marker and no `$` pattern.
   */
  lemma SearchCommandShape(searchPath: string, searchId: string, extension: string)
    requires '{' !in searchPath && '{' !in searchId
    requires '$' !in searchPath && '$' !in searchId && '$' !in extension
    ensures SearchCommand(searchPath, searchId, extension)
      == "find " + searchPath + " -name \"*" + searchId + "." + extension + "\""
  {
    FillMarkers("find ", " -name \"*", ".", "\"", searchPath, searchId, extension);
  }

  /** The three replacements of `getFileByID` on any template with the markers in this order. */
  lemma FillMarkers(w1: string, w2: string, w3: string, w4: string, searchPath: string, searchId: string, extension: string)
    requires '{' !in w1 && '{' !in w2 && '{' !in w3 && 'I' !in w1 && 'I' !in w2
    requires '{' !in searchPath && '{' !in searchId
    requires '$' !in searchPath && '$' !in searchId && '$' !in extension
    ensures var t := w1 + "{{SEARCHPATH}}" + w2 + "{{ID}}" + w3 + "{{EXTENSION}}" + w4;
      ReplaceFirst(ReplaceFirst(ReplaceFirst(t, "{{ID}}", searchId), "{{SEARCHPATH}}", searchPath), "{{EXTENSION}}", extension)
        == w1 + searchPath + w2 + searchId + w3 + extension + w4
  {
    var SP, ID, EXT := "{{SEARCHPATH}}", "{{ID}}", "{{EXTENSION}}";
    var t := w1 + SP + w2 + ID + w3 + EXT + w4;
    var head, tail := w1 + SP + w2, w3 + EXT + w4;
    assert 'I' !in SP && ID[2] == 'I' && ID[..2] == "{{" && SP[0] == '{' && EXT[0] == '{';
    // the search id
    AppendAssoc(head + ID, w3, EXT);
    AppendAssoc(head + ID, w3 + EXT, w4);
    assert t == head + ID + tail;
    ReplaceFirstAfter(head, ID, tail, searchId, 2);
    var r1 := head + searchId + tail;
    // the search path
    var mid := w2 + searchId + tail;
    AppendAssoc(w1 + SP, w2, searchId);
    AppendAssoc(w1 + SP, w2 + searchId, tail);
    AppendAssoc(w1, SP, mid);
    assert r1 == w1 + SP + mid;
    ReplaceFirstAfter(w1, SP, mid, searchPath, 0);
    var r2 := w1 + searchPath + mid;
    // the extension
    var front := w1 + searchPath + w2 + searchId + w3;
    AppendAssoc(w1 + searchPath, w2, searchId);
    AppendAssoc(w1 + searchPath, w2 + searchId, tail);
    AppendAssoc(w1 + searchPath + w2 + searchId, w3 + EXT, w4);
    AppendAssoc(w1 + searchPath + w2 + searchId, w3, EXT);
    assert r2 == front + EXT + w4;
    ReplaceFirstAfter(front, EXT, w4, extension, 0);
  }

  /** `getFileByID` searches for the id padded to three digits, under the search path, with the extension. */
  lemma FileByIdSearches(searchPath: string, id: string, extension: string, find: string -> string)
    requires '{' !in searchPath && '{' !in id && '$' !in searchPath && '$' !in id && '$' !in extension
    ensures FileById(searchPath, id, extension, find)
      == ExtractPath(find("find " + searchPath + " -name \"*" + PaddedId(id) + "." + extension + "\""))
    ensures FileByIdAsWritten(searchPath, id, extension, find)
      == ExtractPathAsWritten(find("find " + searchPath + " -name \"*" + PaddedId(id) + "." + extension + "\""))
  {
    var p := PaddedId(id);
    assert p == Zeros(|p| - |id|) + id;
    SearchCommandShape(searchPath, p, extension);
  }

  /**
   * A non-empty search output gives a path that starts with `Proceedings/`
   * and lies on one line; an empty output gives no path.
   */
  lemma ExtractPathShape(output: string)
    ensures ExtractPath(output).None? <==> output == ""
    ensures output != "" ==>
      var path := ExtractPath(output).value;
      |PATH_TO_PROCEEDINGS| <= |path| && path[..|PATH_TO_PROCEEDINGS|] == PATH_TO_PROCEEDINGS && '\n' !in path
  {
    if output != "" {
      var piece := PieceOr(Split(FirstLine(output), PATH_TO_PROCEEDINGS), 1);
      FirstLinePiece(output);
      TrimmedPath(piece);
    }
  }

  /** The piece of the first line after the first `Proceedings/` lies on that line. */
  lemma FirstLinePiece(output: string)
    ensures '\n' !in PieceOr(Split(FirstLine(output), PATH_TO_PROCEEDINGS), 1)
  {
    var lines := Split(output, NEW_LINE_CHAR);
    NotContainsChar(lines[0], '\n');
    var parts := Split(lines[0], PATH_TO_PROCEEDINGS);
    JoinKeepsChars(parts, PATH_TO_PROCEEDINGS, '\n');
  }

  /** Trimming `Proceedings/` and a one-line piece keeps the prefix and adds no line break. */
  lemma TrimmedPath(piece: string)
    requires '\n' !in piece
    ensures var path := Trim(PATH_TO_PROCEEDINGS + piece);
      |PATH_TO_PROCEEDINGS| <= |path| && path[..|PATH_TO_PROCEEDINGS|] == PATH_TO_PROCEEDINGS && '\n' !in path
  {
    var s := PATH_TO_PROCEEDINGS + piece;
    assert '\n' !in s;
    assert TrimStart(s) == s;
    var path := TrimEnd(s);
    assert s[11] == '/' && !IsWhitespace(s[11]);
    assert path[..12] == s[..12];
  }

  /**
   * As written, the path is the text between the first and the second
   * `Proceedings/` of the whole output, trimmed, whatever lines it spans.
   */
  lemma ExtractPathAsWrittenBetween(a: string, m: string, b: string)
    requires 'P' !in a && 'P' !in m
    ensures ExtractPathAsWritten(a + PATH_TO_PROCEEDINGS + m + PATH_TO_PROCEEDINGS + b) == Some(Trim(PATH_TO_PROCEEDINGS + m))
  {
    var P := PATH_TO_PROCEEDINGS;
    var rest := m + P + b;
    assert a + P + m + P + b == a + P + rest;
    SplitAfter(a, P, rest, 0);
    SplitAfter(m, P, b, 0);
  }

  /** The path of the first file only: the text after the first `Proceedings/` of the first line, trimmed. */
  lemma ExtractPathFirstLine(a: string, m: string, b: string)
    requires 'P' !in a && 'P' !in m && '\n' !in a && '\n' !in m
    ensures ExtractPath(a + PATH_TO_PROCEEDINGS + m + NEW_LINE_CHAR + b) == Some(Trim(PATH_TO_PROCEEDINGS + m))
  {
    var P := PATH_TO_PROCEEDINGS;
    var line := a + P + m;
    assert '\n' !in line;
    assert line + NEW_LINE_CHAR + b == line + "\n" + b;
    SplitAfter(line, NEW_LINE_CHAR, b, 0);
    NoOccurrenceWithout(m, P, 0);
    SplitAfter(a, P, m, 0);
    SplitWhole(m, P);
  }

  /**
   * A search output that reports two files, each under `dir`: as written,
   * the path runs from the first file across the line break into the
   * directory of the second; the first file's path is the one intended.
   */
  lemma ExtractPathTwoFiles(dir: string, first: string, second: string)
    requires 'P' !in dir && 'P' !in first && '\n' !in dir && '\n' !in first
    requires dir != [] && !IsWhitespace(dir[|dir| - 1])
    ensures var output := dir + PATH_TO_PROCEEDINGS + first + NEW_LINE_CHAR + dir + PATH_TO_PROCEEDINGS + second + NEW_LINE_CHAR;
      ExtractPathAsWritten(output) == Some(PATH_TO_PROCEEDINGS + first + NEW_LINE_CHAR + dir)
      && ExtractPath(output) == Some(Trim(PATH_TO_PROCEEDINGS + first))
  {
    var P, NL := PATH_TO_PROCEEDINGS, NEW_LINE_CHAR;
    var m := first + NL + dir;
    var b := second + NL;
    var X := dir + P + first + NL;
    var output := X + dir + P + second + NL;
    assert 'P' !in m;
    AppendAssoc(X + dir + P, second, NL);
    GroupMiddleThree(dir + P, first, NL, dir, P, b);
    assert output == dir + P + m + P + b;
    ExtractPathAsWrittenBetween(dir, m, b);
    AppendAssoc(P, first + NL, dir);
    AppendAssoc(P, first, NL);
    TrimVisible(P + m);
    AppendAssoc(X, dir, P);
    AppendAssoc(X, dir + P, b);
    ExtractPathFirstLine(dir, first, dir + P + b);
  }

  /** A generic string fact: trimming leaves a text with visible ends as it is. */
  lemma TrimVisible(s: string)
    requires s != [] && !IsWhitespace(s[0]) && !IsWhitespace(s[|s| - 1])
    ensures Trim(s) == s
  {
    assert TrimStart(s) == s;
  }

  /** A generic fact about concatenation: six pieces, the middle three grouped together. */
  lemma GroupMiddleThree(a: string, b: string, c: string, d: string, e: string, f: string)
    ensures a + b + c + d + e + f == a + (b + c + d) + e + f
    ensures a + b + c + d + (e + f) == a + b + c + d + e + f
  {
    AppendAssoc(a, b, c);
    AppendAssoc(a, b + c, d);
    AppendAssoc(a + b + c + d, e, f);
  }

  /** With the files `p007.pdf` and `p1007.pdf` found under `/out/Proceedings/`. */
  lemma ExtractPathIdSeven()
    ensures var output := "/out/" + PATH_TO_PROCEEDINGS + "a/p007.pdf" + NEW_LINE_CHAR
        + "/out/" + PATH_TO_PROCEEDINGS + "b/p1007.pdf" + NEW_LINE_CHAR;
      ExtractPathAsWritten(output) == Some(PATH_TO_PROCEEDINGS + "a/p007.pdf" + NEW_LINE_CHAR + "/out/")
      && ExtractPath(output) == Some(PATH_TO_PROCEEDINGS + "a/p007.pdf")
  {
    var dir, first, second := "/out/", "a/p007.pdf", "b/p1007.pdf";
    IdSevenFileNames(dir, first);
    ExtractPathTwoFiles(dir, first, second);
    TrimVisible(PATH_TO_PROCEEDINGS + first);
  }

  /** What the two file names of the example contain: no `P`, no line break, visible ends. */
  lemma IdSevenFileNames(dir: string, first: string)
    requires dir == "/out/" && first == "a/p007.pdf"
    ensures 'P' !in dir && 'P' !in first && '\n' !in dir && '\n' !in first
    ensures dir != [] && !IsWhitespace(dir[|dir| - 1])
    ensures var s := PATH_TO_PROCEEDINGS + first; s != [] && !IsWhitespace(s[0]) && !IsWhitespace(s[|s| - 1])
  {
  }

  // ---------------------------------------------------------------------
  // Authors

  /** The author line splits back into the names when no name holds `&`. */
  lemma ConcatAuthorsSplit(list: seq<Author>)
    requires 1 <= |list| && forall i :: 0 <= i < |list| ==> '&' !in list[i].name
    ensures Split(ConcatAuthors(AuthorList(list)), AUTHOR_CONCAT_SYMBOL) == Names(list)
  {
    assert AUTHOR_CONCAT_SYMBOL[1] == '&' && AUTHOR_CONCAT_SYMBOL[..1] == " ";
    SplitJoin(Names(list), AUTHOR_CONCAT_SYMBOL, 1);
  }

  // ---------------------------------------------------------------------
  // Track blocks and the table of contents

  /**
   * A track block starts with the preface entry and then the track header
   * when the preface is inserted before, with the header and then the
   * preface entry when it is not, and with the header alone without a
   * preface; then come the blocks of the merged sessions, one per line.
   */
  lemma TrackTextLayout(t: Templates, escape: string -> string, rules: map<string, MergeRule>, key: string, title: string,
                        sessions: seq<Session>, preface: Option<Preface>, text: string)
    requires TrackText(t, escape, rules, key, title, sessions, preface) == Some(text)
    ensures var header := TrackHeader(t, escape, key, title);
      match preface
      case None => StartsWith(text, header)
      case Some(p) =>
        if p.insertBefore then StartsWith(text, PrefaceEntry(t, p) + NEW_LINE_CHAR + header)
        else StartsWith(text, header + NEW_LINE_CHAR + PrefaceEntry(t, p))
    ensures ConcatSessions(rules, sessions).Some?
    ensures text == Join(TrackHead(t, escape, key, title, preface)
                         + SessionBlocks(t, escape, ConcatSessions(rules, sessions).value), NEW_LINE_CHAR)
  {
    var merged := ConcatSessions(rules, sessions).value;
    var head := Join(TrackHead(t, escape, key, title, preface), NEW_LINE_CHAR);
    var blocks := SessionBlocks(t, escape, merged);
    assert text == AppendLines(head, blocks);
    JoinAppend(TrackHead(t, escape, key, title, preface), blocks, NEW_LINE_CHAR);
    assert StartsWith(text, head) by {
      if blocks != [] {
        AppendAssoc(head, NEW_LINE_CHAR, Join(blocks, NEW_LINE_CHAR));
        assert text[..|head|] == head;
      }
    }
    var lines := TrackHead(t, escape, key, title, preface);
    if |lines| == 2 {
      JoinHead(lines, NEW_LINE_CHAR);
      assert lines[1..] == [lines[1]];
    }
  }

  /** The number of tracks among the first `n` that open a conference. */
  function Opens(tracks: seq<Track>, n: nat): (r: nat)
    requires n <= |tracks|
    ensures r <= n
  {
    if n == 0 then 0 else Opens(tracks, n - 1) + (if OpensConference(tracks, n - 1) then 1 else 0)
  }

  lemma {:induction false} OpensMonotone(tracks: seq<Track>, m: nat, n: nat)
    requires m <= n <= |tracks|
    ensures Opens(tracks, m) + (n - m) >= Opens(tracks, n) >= Opens(tracks, m)
    decreases n - m
  {
    if m < n {
      OpensMonotone(tracks, m, n - 1);
    }
  }

  lemma {:induction false} OpensPrefix(tracks: seq<Track>, n: nat, m: nat)
    requires m <= n <= |tracks|
    ensures Opens(tracks[..n], m) == Opens(tracks, m)
    decreases m
  {
    if m > 0 {
      OpensPrefix(tracks, n, m - 1);
      assert OpensConference(tracks[..n], m - 1) == OpensConference(tracks, m - 1);
    }
  }

  /** The line of the block of track `i`: one line per track before it and per conference opened up to it. */
  function BlockLine(tracks: seq<Track>, i: nat): nat
    requires i < |tracks|
  {
    i + Opens(tracks, i + 1)
  }

  /** The line of the conference header that track `i` opens, right before its block. */
  function HeaderLine(tracks: seq<Track>, i: nat): nat
    requires i < |tracks|
  {
    i + Opens(tracks, i)
  }

  /**
   * `lines` are the blocks `blocks` of the tracks in order, with the header
   * `headers[i]` right before the block of each track `i` that opens a
   * conference, and nothing else; every block is present.
   */
  predicate Layout(tracks: seq<Track>, blocks: seq<Option<string>>, headers: seq<string>, lines: seq<string>)
    requires |blocks| == |tracks| && |headers| == |tracks|
  {
    |lines| == |tracks| + Opens(tracks, |tracks|)
    && (forall i :: 0 <= i < |tracks| ==> (BlockLine(tracks, i) < |lines| && blocks[i] == Some(lines[BlockLine(tracks, i)])))
    && (forall i :: 0 <= i < |tracks| && OpensConference(tracks, i) ==>
          (HeaderLine(tracks, i) < |lines| && lines[HeaderLine(tracks, i)] == headers[i]))
  }

  /** The positions of the first `n` tracks do not depend on the tracks after them. */
  lemma PositionsPrefix(tracks: seq<Track>, n: nat)
    requires n <= |tracks|
    ensures Opens(tracks[..n], n) == Opens(tracks, n)
    ensures forall i :: 0 <= i < n ==> OpensConference(tracks[..n], i) == OpensConference(tracks, i)
    ensures forall i :: 0 <= i < n ==> BlockLine(tracks[..n], i) == BlockLine(tracks, i)
    ensures forall i :: 0 <= i < n ==> HeaderLine(tracks[..n], i) == HeaderLine(tracks, i)
  {
    OpensPrefix(tracks, n, n);
    forall i | 0 <= i < n
      ensures OpensConference(tracks[..n], i) == OpensConference(tracks, i)
      ensures BlockLine(tracks[..n], i) == BlockLine(tracks, i)
      ensures HeaderLine(tracks[..n], i) == HeaderLine(tracks, i)
    {
      OpensPrefix(tracks, n, i);
      OpensPrefix(tracks, n, i + 1);
    }
  }

  /** The lines of the tracks before the last lie before the last track's lines. */
  lemma PositionsBefore(tracks: seq<Track>, n: nat)
    requires n < |tracks|
    ensures forall i :: 0 <= i < n ==> BlockLine(tracks, i) < n + Opens(tracks, n)
  {
    forall i | 0 <= i < n ensures BlockLine(tracks, i) < n + Opens(tracks, n) {
      OpensMonotone(tracks, i + 1, n);
    }
  }

  /** The last track's header, if any, comes right after the earlier lines, and its block after that. */
  lemma PositionsLast(tracks: seq<Track>, n: nat)
    requires n < |tracks|
    ensures HeaderLine(tracks, n) == n + Opens(tracks, n)
    ensures BlockLine(tracks, n) == n + Opens(tracks, n) + (if OpensConference(tracks, n) then 1 else 0)
  {
  }

  /** The layout carries over to one more track. */
  lemma LayoutSnoc(tracks: seq<Track>, blocks: seq<Option<string>>, headers: seq<string>, prev: seq<string>, lines: seq<string>)
    requires tracks != [] && |blocks| == |tracks| && |headers| == |tracks|
    requires var n := |tracks| - 1;
      Layout(tracks[..n], blocks[..n], headers[..n], prev) && blocks[n].Some?
      && lines == if OpensConference(tracks, n) then prev + [headers[n], blocks[n].value] else prev + [blocks[n].value]
    ensures Layout(tracks, blocks, headers, lines)
  {
    var n := |tracks| - 1;
    PositionsPrefix(tracks, n);
    PositionsBefore(tracks, n);
    PositionsLast(tracks, n);
    assert |prev| == n + Opens(tracks, n);
    forall i | 0 <= i < n ensures BlockLine(tracks, i) < |lines| && blocks[i] == Some(lines[BlockLine(tracks, i)]) {
      assert blocks[..n][i] == blocks[i];
      assert lines[BlockLine(tracks, i)] == prev[BlockLine(tracks[..n], i)];
    }
    forall i | 0 <= i < n && OpensConference(tracks, i)
      ensures HeaderLine(tracks, i) < |lines| && lines[HeaderLine(tracks, i)] == headers[i]
    {
      assert headers[..n][i] == headers[i];
      assert OpensConference(tracks[..n], i);
      assert lines[HeaderLine(tracks, i)] == prev[HeaderLine(tracks[..n], i)];
    }
  }

  /** Whatever the blocks and headers, the assembled lines have the layout. */
  lemma {:induction false} AssembleLayout(tracks: seq<Track>, blocks: seq<Option<string>>, headers: seq<string>, lines: seq<string>)
    requires |blocks| == |tracks| && |headers| == |tracks|
    requires Assemble(tracks, blocks, headers) == Some(lines)
    ensures Layout(tracks, blocks, headers, lines)
    decreases |tracks|
  {
    if tracks != [] {
      var n := |tracks| - 1;
      var prev := Assemble(tracks[..n], blocks[..n], headers[..n]).value;
      AssembleLayout(tracks[..n], blocks[..n], headers[..n], prev);
      LayoutSnoc(tracks, blocks, headers, prev, lines);
    }
  }

  /**
   * The table of contents holds one block per track, in order, and a
   * conference header right before the block of each track that is the
   * first or whose conference differs from the previous track's; there are
   * no other lines.
   */
  lemma TocLinesLayout(t: Templates, escape: string -> string, rules: map<string, MergeRule>,
                       prefaces: map<string, Preface>, tracks: seq<Track>, lines: seq<string>)
    requires TocLines(t, escape, rules, prefaces, tracks) == Some(lines)
    ensures Layout(tracks, TocBlocks(t, escape, rules, prefaces, tracks), TocHeaders(t, tracks), lines)
  {
    TocLinesAssemble(t, escape, rules, prefaces, tracks);
    AssembleLayout(tracks, TocBlocks(t, escape, rules, prefaces, tracks), TocHeaders(t, tracks), lines);
  }

  /** The table of contents fails exactly when the block of some track fails. */
  lemma {:induction false} TocLinesFailure(t: Templates, escape: string -> string, rules: map<string, MergeRule>,
                                           prefaces: map<string, Preface>, tracks: seq<Track>)
    ensures TocLines(t, escape, rules, prefaces, tracks).None? <==>
      exists i :: 0 <= i < |tracks| && TrackBlock(t, escape, rules, prefaces, tracks[i]).None?
    decreases |tracks|
  {
    if exists i :: 0 <= i < |tracks| && TrackBlock(t, escape, rules, prefaces, tracks[i]).None? {
      var i :| 0 <= i < |tracks| && TrackBlock(t, escape, rules, prefaces, tracks[i]).None?;
      TocLinesAssemble(t, escape, rules, prefaces, tracks);
      AssembleFails(tracks, TocBlocks(t, escape, rules, prefaces, tracks), TocHeaders(t, tracks), i);
    } else if tracks != [] {
      var n := |tracks| - 1;
      TocLinesFailure(t, escape, rules, prefaces, tracks[..n]);
      forall i | 0 <= i < n ensures TrackBlock(t, escape, rules, prefaces, tracks[..n][i]).Some? {
        assert tracks[..n][i] == tracks[i];
      }
    }
  }

  // ---------------------------------------------------------------------
  // Sidebar

  function GroupBag(g: ConferenceGroup): multiset<Track> {
    multiset(g.tracks)
  }

  /** Every track lands in exactly one group: the groups split the tracks without loss or duplication. */
  lemma {:induction false} ConferenceGroupsPartition(tracks: seq<Track>)
    ensures SumBags(ConferenceGroups(tracks), GroupBag) == multiset(tracks)
    decreases |tracks|
  {
    if tracks != [] {
      var n := |tracks| - 1;
      var x := tracks[n];
      ConferenceGroupsPartition(tracks[..n]);
      assert tracks == tracks[..n] + [x];
      ConferenceGroupsSnoc(tracks[..n], x);
      var groups := ConferenceGroups(tracks[..n]);
      match GroupIndex(groups, x.conference) {
        case None =>
          SumBagsSnoc(groups, ConferenceGroup(x.conference, [x]), GroupBag);
        case Some(k) =>
          var g := groups[k].(tracks := groups[k].tracks + [x]);
          assert GroupBag(g) == GroupBag(groups[k]) + multiset{x};
          SumBagsGrow(groups, k, g, GroupBag, multiset{x});
      }
    }
  }

  /**
   * The groups have distinct conferences, one for every conference of the
   * tracks, and a group holds the tracks of its conference in their order.
   */
  lemma ConferenceGroupsShape(tracks: seq<Track>)
    ensures var groups := ConferenceGroups(tracks);
      (forall j, k :: 0 <= j < k < |groups| ==> groups[j].conference != groups[k].conference)
      && (forall i :: 0 <= i < |tracks| ==> exists k :: 0 <= k < |groups| && groups[k].conference == tracks[i].conference)
      && (forall k :: 0 <= k < |groups| ==>
            (Subsequence(groups[k].tracks, tracks)
             && forall x :: x in groups[k].tracks ==> x.conference == groups[k].conference))
  {
    var groups := ConferenceGroups(tracks);
    var keys := FirstSeen(Conferences(tracks));
    FirstSeenMembers(Conferences(tracks));
    forall i | 0 <= i < |tracks| ensures exists k :: 0 <= k < |groups| && groups[k].conference == tracks[i].conference {
      assert Conferences(tracks)[i] in keys;
      var k :| 0 <= k < |keys| && keys[k] == tracks[i].conference;
      assert groups[k].conference == tracks[i].conference;
    }
    forall k | 0 <= k < |groups| ensures Subsequence(groups[k].tracks, tracks) {
      TracksOfOrder(tracks, keys[k]);
    }
  }

  /** The tracks of a conference keep their order. */
  lemma {:induction false} TracksOfOrder(tracks: seq<Track>, conference: string)
    ensures Subsequence(TracksOf(tracks, conference), tracks)
    decreases |tracks|
  {
    if tracks == [] {
      SubsequenceEmpty(tracks);
    } else {
      var n := |tracks| - 1;
      TracksOfOrder(tracks[..n], conference);
      assert tracks == tracks[..n] + [tracks[n]];
      SubsequenceSnoc(TracksOf(tracks[..n], conference), tracks[..n], tracks[n]);
    }
  }

  /** Every track of the conference is among its tracks. */
  lemma {:induction false} TracksOfComplete(tracks: seq<Track>, conference: string)
    ensures forall i :: 0 <= i < |tracks| && tracks[i].conference == conference ==> tracks[i] in TracksOf(tracks, conference)
    decreases |tracks|
  {
    if tracks != [] {
      var n := |tracks| - 1;
      TracksOfComplete(tracks[..n], conference);
      forall i | 0 <= i < n ensures tracks[..n][i] == tracks[i] {
      }
    }
  }

  // ---------------------------------------------------------------------
  // Subpages

  /** A character of a marker: a brace or a capital letter. */
  predicate MarkerChar(c: char) {
    c == '{' || c == '}' || 'A' <= c <= 'Z'
  }

  /** A marker made of braces and capital letters shares no character with the hidden marker. */
  lemma HiddenApart(pat: string)
    requires forall k :: 0 <= k < |pat| ==> MarkerChar(pat[k])
    ensures SharesNoChar(HIDDEN_MARKER, pat)
  {
    var h := HIDDEN_MARKER;
    assert forall i :: 0 <= i < |h| ==> !MarkerChar(h[i]);
  }

  /** The text markers of a paper subpage, spelled out. */
  lemma TextMarkerShape(pat: string)
    requires pat == "{{TITLE}}" || pat == "{{SESSION}}" || pat == "{{AUTHORS}}" || pat == "{{DOI}}" || pat == "{{PATH}}"
    ensures (forall k :: 0 <= k < |pat| ==> MarkerChar(pat[k])) && Placeholder(pat) && pat[2] != 'V'
  {
  }

  /** The video marker, spelled out. */
  lemma VideoMarkerShape(q: string)
    requires q == "{{VIDEOPATH}}"
    ensures Placeholder(q) && q[2] == 'V'
  {
  }

  /** The text markers of a paper subpage cannot overlap the hidden marker or the video marker. */
  lemma SubpageMarkersApart(pat: string)
    requires pat == "{{TITLE}}" || pat == "{{SESSION}}" || pat == "{{AUTHORS}}" || pat == "{{DOI}}" || pat == "{{PATH}}"
    ensures pat != "" && CannotOverlap(HIDDEN_MARKER, pat) && CannotOverlap("{{VIDEOPATH}}", pat)
  {
    TextMarkerShape(pat);
    HiddenApart(pat);
    VideoMarkerShape("{{VIDEOPATH}}");
  }

  /**
   * Without a video the subpage keeps the hidden marker and the video
   * marker wherever the template has them: they are replaced by nothing.
   */
  lemma PaperSubpageWithoutVideo(t: Templates, paper: Paper, video: Option<string>, pdf: Option<string>, q: string)
    requires !Present(video) && (q == HIDDEN_MARKER || q == "{{VIDEOPATH}}") && Contains(t.paperSubpage, q)
    ensures Contains(PaperSubpage(t, paper, video, pdf), q)
  {
    var h0 := WithVideo(t.paperSubpage, video);
    SubpageMarkersApart("{{TITLE}}");
    ReplaceAllKeeps(h0, "{{TITLE}}", paper.title, q);
    var h1 := ReplaceAll(h0, "{{TITLE}}", paper.title);
    SubpageMarkersApart("{{SESSION}}");
    ReplaceAllKeeps(h1, "{{SESSION}}", paper.session.title, q);
    var h2 := ReplaceAll(h1, "{{SESSION}}", paper.session.title);
    SubpageMarkersApart("{{AUTHORS}}");
    ReplaceAllKeeps(h2, "{{AUTHORS}}", ConcatAuthors(paper.authors), q);
    var h3 := ReplaceAll(h2, "{{AUTHORS}}", ConcatAuthors(paper.authors));
    SubpageMarkersApart("{{DOI}}");
    ReplaceAllKeeps(h3, "{{DOI}}", paper.doi, q);
    var h4 := ReplaceAll(h3, "{{DOI}}", paper.doi);
    SubpageMarkersApart("{{PATH}}");
    ReplaceAllKeeps(h4, "{{PATH}}", JoinArgument(pdf), q);
  }

  /** A text that lacks one character of a pattern does not hold the pattern. */
  lemma MissingCharAbsent(s: string, pat: string, k: nat)
    requires k < |pat| && pat[k] !in s
    ensures !Contains(s, pat)
  {
    forall i | 0 <= i <= |s| ensures !OccursAt(s, pat, i) {
      if i + |pat| <= |s| {
        assert s[i..i + |pat|][k] == s[i + k];
      }
    }
  }

  /** Replacing a marker that a text cannot hold leaves the text as it is. */
  lemma ReplaceAllMissing(s: string, pat: string, rep: string, k: nat)
    requires k < |pat| && pat[k] !in s
    ensures ReplaceAll(s, pat, rep) == s
  {
    MissingCharAbsent(s, pat, k);
  }

  /** A marker once in a text, between parts lacking one of its characters, is replaced there. */
  lemma ReplaceAllOnce(a: string, pat: string, b: string, rep: string, k: nat)
    requires k < |pat| && pat[k] !in pat[..k] && pat[k] !in a && pat[k] !in b
    ensures ReplaceAll(a + pat + b, pat, rep) == a + rep + b
  {
    var parts := [a, b];
    assert parts[1..] == [b];
    ReplaceAllEvery(parts, pat, rep, k);
  }

  /** A text without the characters by which the subpage markers before `{{PATH}}`, and `{{PATH}}` itself, differ. */
  predicate LacksMarkerChars(x: string) {
    'I' !in x && 'S' !in x && 'U' !in x && 'D' !in x && 'A' !in x
  }

  /** The `A` of `{{PATH}}` does not occur before it in the marker. */
  lemma PathMarkerA()
    ensures 3 < |"{{PATH}}"| && "{{PATH}}"[3] == 'A' && "{{PATH}}"[3] !in "{{PATH}}"[..3]
  {
    assert "{{PATH}}"[..3] == "{{P";
  }

  /**
   * A paper subpage template with one `{{PATH}}`, around which no other
   * marker can occur, becomes the template with the PDF path in its place.
   */
  lemma PaperSubpageOnePath(t: Templates, paper: Paper, a: string, b: string, path: string)
    requires t.paperSubpage == a + "{{PATH}}" + b && LacksMarkerChars(a) && LacksMarkerChars(b)
    ensures PaperSubpage(t, paper, None, Some(path)) == a + path + b
  {
    var s := t.paperSubpage;
    assert 'I' !in s && 'S' !in s && 'U' !in s && 'D' !in s;
    PaperSubpageOnlyPath(t, paper, path);
    PathMarkerA();
    ReplaceAllOnce(a, "{{PATH}}", b, path, 3);
  }

  /** A paper subpage template without the characters `I`, `S`, `U`, `D` holds no marker but `{{PATH}}`. */
  lemma PaperSubpageOnlyPath(t: Templates, paper: Paper, path: string)
    requires 'I' !in t.paperSubpage && 'S' !in t.paperSubpage && 'U' !in t.paperSubpage && 'D' !in t.paperSubpage
    ensures PaperSubpage(t, paper, None, Some(path)) == ReplaceAll(t.paperSubpage, "{{PATH}}", path)
  {
    var s := t.paperSubpage;
    ReplaceAllMissing(s, "{{TITLE}}", paper.title, 3);
    ReplaceAllMissing(s, "{{SESSION}}", paper.session.title, 2);
    ReplaceAllMissing(s, "{{AUTHORS}}", ConcatAuthors(paper.authors), 3);
    ReplaceAllMissing(s, "{{DOI}}", paper.doi, 2);
  }

  /** A preface subpage template with one `{{PATH}}` likewise. */
  lemma PrefaceSubpageOnePath(t: Templates, preface: Preface, a: string, b: string, path: string)
    requires t.prefaceSubpage == a + "{{PATH}}" + b && LacksMarkerChars(a) && LacksMarkerChars(b)
    ensures PrefaceSubpage(t, preface, Some(path)) == a + path + b
  {
    var s := t.prefaceSubpage;
    assert 'I' !in s && 'U' !in s;
    ReplaceAllMissing(s, "{{TITLE}}", preface.title, 3);
    ReplaceAllMissing(s, "{{AUTHORS}}", preface.authors, 3);
    PathMarkerA();
    ReplaceAllOnce(a, "{{PATH}}", b, path, 3);
  }

  /** `{{P`, then the path `A`, then `TH}}` spell `{{PATH}}` again. */
  lemma PathAroundPath(a: string, b: string)
    requires a == "{{P" && b == "TH}}"
    ensures a + "{{PATH}}" + b == "{{P{{PATH}}TH}}" && LacksMarkerChars(a) && LacksMarkerChars(b)
    ensures a + "A" + b == "{{PATH}}" && Contains("{{PATH}}", "{{PATH}}")
  {
    assert OccursAt("{{PATH}}", "{{PATH}}", 0);
  }

  /**
   * Each marker is replaced where it occurs when its turn comes; a
   * replacement can join with the text around it into a new marker, which
   * then stays: the PDF path `A` in `{{P{{PATH}}TH}}` leaves `{{PATH}}`.
   */
  lemma PaperSubpageMarkerReappears(t: Templates, paper: Paper)
    requires t.paperSubpage == "{{P{{PATH}}TH}}"
    ensures PaperSubpage(t, paper, None, Some("A")) == "{{PATH}}"
    ensures Contains(PaperSubpage(t, paper, None, Some("A")), "{{PATH}}")
  {
    PathAroundPath("{{P", "TH}}");
    PaperSubpageOnePath(t, paper, "{{P", "TH}}", "A");
  }

  /** The same holds for a preface subpage. */
  lemma PrefaceSubpageMarkerReappears(t: Templates, preface: Preface)
    requires t.prefaceSubpage == "{{P{{PATH}}TH}}"
    ensures PrefaceSubpage(t, preface, Some("A")) == "{{PATH}}"
    ensures Contains(PrefaceSubpage(t, preface, Some("A")), "{{PATH}}")
  {
    PathAroundPath("{{P", "TH}}");
    PrefaceSubpageOnePath(t, preface, "{{P", "TH}}", "A");
  }
}
