/**
 * The HTML builder: it resolves attachment paths from the output of a file
 * search, joins author names, merges the sessions of a track that the merge
 * table folds together, and fills the table of contents, the sidebar and the
 * subpages from template snippets by literal marker replacement.
 *
 * The file system is not modelled: template snippets are a `Templates`
 * value, the output of the `find` command is a function `find` from the
 * command line to its standard output, and the `escape-html` package is a
 * function `escape`.
 */
module HtmlBuilder {
  import opened Wrappers
  import opened Strings
  import opened Sequences
  import opened Records

  /** `find {{SEARCHPATH}} -name "*{{ID}}.{{EXTENSION}}"`, written around its markers. */
  const FIND_FILE_COMMAND: string := "find " + "{{SEARCHPATH}}" + " -name \"*" + "{{ID}}" + "." + "{{EXTENSION}}" + "\""
  const NEW_LINE_CHAR: string := "\n"
  const AUTHOR_CONCAT_SYMBOL: string := " & "
  const MAX_SEARCH_ID_LENGTH: nat := 3
  const PATH_TO_PROCEEDINGS: string := "Proceedings/"

  /** An entry of the merge table: the short title of the session to merge into (its title is not used). */
  datatype MergeRule = MergeRule(shortTitle: string, title: string)

  /** Sessions whose short title is a key are folded into the session the entry names. */
  const SESSION_MATCHING: map<string, MergeRule> := map["UP-YP02" := MergeRule("UP-YP01", "Young Professionals")]

  /** A preface of a track: it is listed before or after the track header. */
  datatype Preface = Preface(id: string, title: string, file: string, authors: string, insertBefore: bool)

  const PREFACES: map<string, Preface> := map[
    "MCI-FULL" := Preface("MCI-FULL", "Mensch und Computer, Tagungsband", "MCI_Vorwort",
      "Manuel Burghardt, Raphael Wimmer, Christian Wolff, Christa Womser-Hacker", true),
    "UP-FULL" := Preface("UP-FULL", "Usabiliy Professionals, Tagungsband", "UP_Vorwort",
      "Steffen Hess, Holger Fischer", true),
    "MCI-WORKSHOPS" := Preface("MCI-WORKSHOPS", "Mensch und Computer, Workshopband", "WS_Vorwort",
      "Manuel Burghardt, Raphael Wimmer, Christian Wolff, Christa Womser-Hacker", false)]

  /** The template snippets, as `loadHTMLSnippets` reads them. */
  datatype Templates = Templates(
    sidebar: string,
    sidebarEntry: string,
    paperSubpage: string,
    prefaceSubpage: string,
    tocEntry: string,
    tocSession: string,
    tocTrack: string,
    tocConference: string,
    tocPreface: string)

  // ---------------------------------------------------------------------
  // File lookup

  function Zeros(n: nat): (r: string)
    ensures |r| == n && forall i :: 0 <= i < n ==> r[i] == '0'
  {
    seq(n, _ => '0')
  }

  /** The search id: the id left-padded with `'0'` to at least three characters. */
  function PaddedId(id: string): (r: string)
    ensures |id| >= MAX_SEARCH_ID_LENGTH ==> r == id
    ensures |r| == if |id| < MAX_SEARCH_ID_LENGTH then MAX_SEARCH_ID_LENGTH else |id|
    ensures |id| <= |r| && r[|r| - |id|..] == id
    ensures forall i :: 0 <= i < |r| - |id| ==> r[i] == '0'
  {
    if |id| < MAX_SEARCH_ID_LENGTH then Zeros(MAX_SEARCH_ID_LENGTH - |id|) + id else id
  }

  /** The `find` command line for a search id, filled in marker by marker. */
  function SearchCommand(searchPath: string, searchId: string, extension: string): string {
    var command := ReplaceFirst(FIND_FILE_COMMAND, "{{ID}}", searchId);
    var command := ReplaceFirst(command, "{{SEARCHPATH}}", searchPath);
    ReplaceFirst(command, "{{EXTENSION}}", extension)
  }

  /** `parts[k]`, or the text JavaScript concatenates for a missing element. */
  function PieceOr(parts: seq<string>, k: nat): string {
    if k < |parts| then parts[k] else "undefined"
  }

  /**
   * The path extraction of `getFileByID` as written: the text between the
   * first and the second `Proceedings/` of the whole search output.
   */
  function ExtractPathAsWritten(output: string): Option<string> {
    if output == "" then None
    else Some(Trim(PATH_TO_PROCEEDINGS + PieceOr(Split(output, PATH_TO_PROCEEDINGS), 1)))
  }

  /** The first line of a search output. */
  function FirstLine(output: string): string {
    Split(output, NEW_LINE_CHAR)[0]
  }

  /** The path extraction applied to the first file the search reports only. */
  function ExtractPath(output: string): Option<string> {
    if output == "" then None
    else Some(Trim(PATH_TO_PROCEEDINGS + PieceOr(Split(FirstLine(output), PATH_TO_PROCEEDINGS), 1)))
  }

  /** The path `getFileByID` resolves for an id and an extension. */
  function FileById(searchPath: string, id: string, extension: string, find: string -> string): Option<string> {
    ExtractPath(find(SearchCommand(searchPath, PaddedId(id), extension)))
  }

  /** The path `getFileByID` resolves as written, from the whole search output. */
  function FileByIdAsWritten(searchPath: string, id: string, extension: string, find: string -> string): Option<string> {
    ExtractPathAsWritten(find(SearchCommand(searchPath, PaddedId(id), extension)))
  }

  /** A search output that reports at most one file: one line, perhaps ended by a line break. */
  predicate ReportsOneFile(output: string) {
    '\n' !in output || (output != "" && output[|output| - 1] == '\n' && '\n' !in output[..|output| - 1])
  }

  // ---------------------------------------------------------------------
  // Authors and sessions

  function Names(authors: seq<Author>): (r: seq<string>)
    ensures |r| == |authors| && forall i :: 0 <= i < |r| ==> r[i] == authors[i].name
  {
    seq(|authors|, i requires 0 <= i < |authors| => authors[i].name)
  }

  /** `concatAuthors`: the author's name, or the names of a list joined by `' & '`. */
  function ConcatAuthors(authors: AuthorField): (r: string)
    ensures authors.OneAuthor? ==> r == authors.author.name
    ensures authors.AuthorList? && |authors.list| == 1 ==> r == authors.list[0].name
    ensures authors.AuthorList? && |authors.list| == 0 ==> r == ""
  {
    match authors
    case OneAuthor(a) => a.name
    case AuthorList(list) => Join(Names(list), AUTHOR_CONCAT_SYMBOL)
  }

  /** The index of the first session with the short title. */
  function SessionIndex(sessions: seq<Session>, shortTitle: string): (r: Option<nat>)
    ensures r.Some? ==> r.value < |sessions| && sessions[r.value].shortTitle == shortTitle
    decreases |sessions|
  {
    if sessions == [] then None
    else if sessions[0].shortTitle == shortTitle then Some(0)
    else match SessionIndex(sessions[1..], shortTitle)
      case None => None
      case Some(i) => Some(i + 1)
  }

  /** `SessionIndex` finds the first session with the short title, and `None` means there is none. */
  lemma {:induction false} SessionIndexFirst(sessions: seq<Session>, shortTitle: string)
    ensures SessionIndex(sessions, shortTitle).None? <==> forall i :: 0 <= i < |sessions| ==> sessions[i].shortTitle != shortTitle
    ensures SessionIndex(sessions, shortTitle).Some? ==>
      forall i :: 0 <= i < SessionIndex(sessions, shortTitle).value ==> sessions[i].shortTitle != shortTitle
    decreases |sessions|
  {
    if sessions != [] && sessions[0].shortTitle != shortTitle {
      SessionIndexFirst(sessions[1..], shortTitle);
      assert forall i :: 1 <= i < |sessions| ==> sessions[i] == sessions[1..][i - 1];
    }
  }

  // ---------------------------------------------------------------------
  // Merging the sessions of a track

  /**
   * One iteration of the backward loop of `concatSessionsForTrack` at index
   * `i`: a session whose short title is a merge key has its papers appended
   * to the first session with the target short title, and is removed. A
   * missing target is JavaScript's `TypeError`, `None` here.
   */
  function MergeStep(rules: map<string, MergeRule>, current: seq<Session>, i: nat): (r: Option<seq<Session>>)
    requires i < |current|
    ensures r.Some? ==> |r.value| == if current[i].shortTitle in rules then |current| - 1 else |current|
  {
    var session := current[i];
    if session.shortTitle !in rules then Some(current)
    else
      match SessionIndex(current, rules[session.shortTitle].shortTitle)
      case None => None
      case Some(t) =>
        var merged := current[t := current[t].(papers := current[t].papers + session.papers)];
        Some(merged[..i] + merged[i + 1..])
  }

  /** The iterations for the indices `i - 1` down to `0`. */
  function MergeFrom(rules: map<string, MergeRule>, current: seq<Session>, i: nat): Option<seq<Session>>
    requires i <= |current|
    decreases i
  {
    if i == 0 then Some(current)
    else
      match MergeStep(rules, current, i - 1)
      case None => None
      case Some(next) => MergeFrom(rules, next, i - 1)
  }

  /** The sessions after `concatSessionsForTrack`, or `None` when a merge target is missing. */
  function ConcatSessions(rules: map<string, MergeRule>, sessions: seq<Session>): Option<seq<Session>> {
    MergeFrom(rules, sessions, |sessions|)
  }

  // ---------------------------------------------------------------------
  // Table of contents

  function PaperEntry(t: Templates, escape: string -> string, paper: Paper): string {
    var html := ReplaceFirst(t.tocEntry, "{{ID}}", escape(paper.id));
    var html := ReplaceFirst(html, "{{TITLE}}", escape(paper.title));
    ReplaceFirst(html, "{{AUTHORS}}", escape(ConcatAuthors(paper.authors)))
  }

  function SessionHeader(t: Templates, escape: string -> string, session: Session): string {
    ReplaceFirst(t.tocSession, "{{TITLE}}", escape(session.title))
  }

  /** The lines of a session block: its header, then one entry per paper in order. */
  function SessionLines(t: Templates, escape: string -> string, session: Session): (r: seq<string>)
    ensures |r| == |session.papers| + 1 && r[0] == SessionHeader(t, escape, session)
    ensures forall i :: 0 <= i < |session.papers| ==> r[i + 1] == PaperEntry(t, escape, session.papers[i])
  {
    [SessionHeader(t, escape, session)]
      + seq(|session.papers|, i requires 0 <= i < |session.papers| => PaperEntry(t, escape, session.papers[i]))
  }

  function PrefaceEntry(t: Templates, preface: Preface): string {
    var html := ReplaceFirst(t.tocPreface, "{{TITLE}}", preface.title);
    ReplaceFirst(html, "{{ID}}", preface.id)
  }

  function TrackHeader(t: Templates, escape: string -> string, key: string, title: string): string {
    ReplaceFirst(ReplaceFirst(t.tocTrack, "{{TRACK_KEY}}", key), "{{TRACK_TITLE}}", escape(title))
  }

  /** `PREFACES[track.id]`. */
  function PrefaceFor(prefaces: map<string, Preface>, id: string): Option<Preface> {
    if id in prefaces then Some(prefaces[id]) else None
  }

  /**
   * The lines of a track block before its sessions: the track header, with
   * the preface entry before it when `insertBefore` is set and after it
   * otherwise.
   */
  function TrackHead(t: Templates, escape: string -> string, key: string, title: string, preface: Option<Preface>): seq<string> {
    var header := TrackHeader(t, escape, key, title);
    match preface
    case None => [header]
    case Some(p) => if p.insertBefore then [PrefaceEntry(t, p), header] else [header, PrefaceEntry(t, p)]
  }

  /** One session block per session, in order. */
  function SessionBlocks(t: Templates, escape: string -> string, sessions: seq<Session>): seq<string> {
    seq(|sessions|, i requires 0 <= i < |sessions| => Join(SessionLines(t, escape, sessions[i]), NEW_LINE_CHAR))
  }

  /** `text` followed by `more`, every piece on a line of its own. */
  function AppendLines(text: string, more: seq<string>): string {
    if more == [] then text else text + NEW_LINE_CHAR + Join(more, NEW_LINE_CHAR)
  }

  /**
   * The text of a track block: its head, then one block per session after
   * merging, one per line; `None` when the merge fails.
   */
  function TrackText(t: Templates, escape: string -> string, rules: map<string, MergeRule>, key: string, title: string,
                     sessions: seq<Session>, preface: Option<Preface>): Option<string>
  {
    match ConcatSessions(rules, sessions)
    case None => None
    case Some(merged) =>
      Some(AppendLines(Join(TrackHead(t, escape, key, title, preface), NEW_LINE_CHAR), SessionBlocks(t, escape, merged)))
  }

  function ConferenceHeader(t: Templates, conference: string): string {
    ReplaceFirst(ReplaceFirst(t.tocConference, "{{TITLE}}", conference), "{{CONFERENCE}}", conference)
  }

  /** A conference header opens track `i` when it is the first track or its conference differs from the previous one. */
  predicate OpensConference(tracks: seq<Track>, i: nat)
    requires i < |tracks|
  {
    i == 0 || tracks[i - 1].conference != tracks[i].conference
  }

  /** The track block of a track of the table of contents. */
  function TrackBlock(t: Templates, escape: string -> string, rules: map<string, MergeRule>,
                      prefaces: map<string, Preface>, track: Track): Option<string>
  {
    TrackText(t, escape, rules, track.id, track.title, track.sessions, PrefaceFor(prefaces, track.id))
  }

  /**
   * The lines of the table of contents: per track, an opening conference
   * header where due, then the track block; a failing block fails the whole
   * table.
   */
  function TocLines(t: Templates, escape: string -> string, rules: map<string, MergeRule>, prefaces: map<string, Preface>, tracks: seq<Track>): Option<seq<string>>
    decreases |tracks|
  {
    if tracks == [] then Some([])
    else
      var n := |tracks| - 1;
      match TocLines(t, escape, rules, prefaces, tracks[..n])
      case None => None
      case Some(prev) =>
        match TrackBlock(t, escape, rules, prefaces, tracks[n])
        case None => None
        case Some(b) =>
          if OpensConference(tracks, n) then Some(prev + [ConferenceHeader(t, tracks[n].conference), b])
          else Some(prev + [b])
  }

  /** The blocks of the tracks. */
  function TocBlocks(t: Templates, escape: string -> string, rules: map<string, MergeRule>,
                     prefaces: map<string, Preface>, tracks: seq<Track>): (r: seq<Option<string>>)
    ensures |r| == |tracks| && forall i :: 0 <= i < |tracks| ==> r[i] == TrackBlock(t, escape, rules, prefaces, tracks[i])
  {
    seq(|tracks|, i requires 0 <= i < |tracks| => TrackBlock(t, escape, rules, prefaces, tracks[i]))
  }

  /** The conference headers the tracks would open. */
  function TocHeaders(t: Templates, tracks: seq<Track>): (r: seq<string>)
    ensures |r| == |tracks| && forall i :: 0 <= i < |tracks| ==> r[i] == ConferenceHeader(t, tracks[i].conference)
  {
    seq(|tracks|, i requires 0 <= i < |tracks| => ConferenceHeader(t, tracks[i].conference))
  }

  /**
   * The table of contents assembled from given blocks and headers, in the
   * way `TocLines` assembles it from the track blocks and the conference
   * headers.
   */
  function Assemble(tracks: seq<Track>, blocks: seq<Option<string>>, headers: seq<string>): Option<seq<string>>
    requires |blocks| == |tracks| && |headers| == |tracks|
    decreases |tracks|
  {
    if tracks == [] then Some([])
    else
      var n := |tracks| - 1;
      match Assemble(tracks[..n], blocks[..n], headers[..n])
      case None => None
      case Some(prev) =>
        match blocks[n]
        case None => None
        case Some(b) => if OpensConference(tracks, n) then Some(prev + [headers[n], b]) else Some(prev + [b])
  }

  /**
   * The table of contents built track by track from track `i` on, as the
   * builder's loop does it, from given blocks and headers: `lines` are the
   * lines so far and `last` the conference of the previous track.
   */
  function TocFrom(tracks: seq<Track>, blocks: seq<Option<string>>, headers: seq<string>,
                   i: nat, lines: seq<string>, last: Option<string>): Option<seq<string>>
    requires i <= |tracks| && |blocks| == |tracks| && |headers| == |tracks|
    decreases |tracks| - i
  {
    if i == |tracks| then Some(lines)
    else
      var track := tracks[i];
      var withHeader := if (last != Some(track.conference)) then lines + [headers[i]] else lines;
      match blocks[i]
      case None => None
      case Some(b) => TocFrom(tracks, blocks, headers, i + 1, withHeader + [b], Some(track.conference))
  }

  // ---------------------------------------------------------------------
  // Sidebar

  function LinkEntry(t: Templates, track: Track): string {
    ReplaceFirst(ReplaceFirst(t.sidebarEntry, "{{KEY}}", track.id), "{{TITLE}}", track.title)
  }

  function Links(t: Templates, tracks: seq<Track>): (r: seq<string>)
    ensures |r| == |tracks| && forall i :: 0 <= i < |r| ==> r[i] == LinkEntry(t, tracks[i])
  {
    seq(|tracks|, i requires 0 <= i < |tracks| => LinkEntry(t, tracks[i]))
  }

  /** The sidebar block of a conference: its header with the links of its tracks as content. */
  function ConferenceBlock(t: Templates, key: string, tracks: seq<Track>): string {
    var html := ReplaceFirst(ReplaceFirst(t.sidebar, "{{TITLE}}", key), "{{CONFERENCE}}", key);
    ReplaceFirst(html, "{{CONTENT}}", Join(Links(t, tracks), NEW_LINE_CHAR))
  }

  /** An entry of the `conferences` dictionary of `createSidebarString`. */
  datatype ConferenceGroup = ConferenceGroup(conference: string, tracks: seq<Track>)

  function Conferences(tracks: seq<Track>): (r: seq<string>)
    ensures |r| == |tracks| && forall i :: 0 <= i < |r| ==> r[i] == tracks[i].conference
  {
    seq(|tracks|, i requires 0 <= i < |tracks| => tracks[i].conference)
  }

  /** The tracks of a conference, in order. */
  function TracksOf(tracks: seq<Track>, conference: string): (r: seq<Track>)
    ensures forall x :: x in r ==> x in tracks && x.conference == conference
    decreases |tracks|
  {
    if tracks == [] then []
    else
      var n := |tracks| - 1;
      var rest := TracksOf(tracks[..n], conference);
      assert forall x :: x in rest ==> x in tracks;
      if tracks[n].conference == conference then rest + [tracks[n]] else rest
  }

  /** One group per conference, in order of first appearance, each with that conference's tracks in order. */
  function ConferenceGroups(tracks: seq<Track>): seq<ConferenceGroup> {
    var keys := FirstSeen(Conferences(tracks));
    seq(|keys|, k requires 0 <= k < |keys| => ConferenceGroup(keys[k], TracksOf(tracks, keys[k])))
  }

  function SidebarBlocks(t: Templates, groups: seq<ConferenceGroup>): seq<string> {
    seq(|groups|, k requires 0 <= k < |groups| => ConferenceBlock(t, groups[k].conference, groups[k].tracks))
  }

  function GroupIndex(groups: seq<ConferenceGroup>, conference: string): (r: Option<nat>)
    ensures r.None? ==> forall k :: 0 <= k < |groups| ==> groups[k].conference != conference
    ensures r.Some? ==> r.value < |groups| && groups[r.value].conference == conference
    decreases |groups|
  {
    if groups == [] then None
    else if groups[|groups| - 1].conference == conference then Some(|groups| - 1)
    else GroupIndex(groups[..|groups| - 1], conference)
  }

  /** The groups after one more track: a new group at the end for a new conference, else the track joins its group. */
  function AddToGroups(groups: seq<ConferenceGroup>, x: Track): seq<ConferenceGroup> {
    match GroupIndex(groups, x.conference)
    case None => groups + [ConferenceGroup(x.conference, [x])]
    case Some(k) => groups[k := groups[k].(tracks := groups[k].tracks + [x])]
  }

  // ---------------------------------------------------------------------
  // Subpages

  const HIDDEN_MARKER: string := "class=\"hidden\""

  /** JavaScript truthiness of a looked-up path. */
  predicate Present(path: Option<string>) {
    path.Some? && path.value != ""
  }

  /** The separator `join` uses for a looked-up path: an undefined one is `","`. */
  function JoinArgument(path: Option<string>): string {
    if path.Some? then path.value else ","
  }

  /** The video part of a paper subpage: the hidden marker removed and the video path filled in, when there is a video. */
  function WithVideo(html: string, video: Option<string>): string {
    if Present(video) then ReplaceAll(ReplaceAll(html, HIDDEN_MARKER, ""), "{{VIDEOPATH}}", video.value)
    else html
  }

  /** The text of the subpage of a paper, every marker occurrence replaced. */
  function PaperSubpage(t: Templates, paper: Paper, video: Option<string>, pdf: Option<string>): string {
    var html := WithVideo(t.paperSubpage, video);
    var html := ReplaceAll(html, "{{TITLE}}", paper.title);
    var html := ReplaceAll(html, "{{SESSION}}", paper.session.title);
    var html := ReplaceAll(html, "{{AUTHORS}}", ConcatAuthors(paper.authors));
    var html := ReplaceAll(html, "{{DOI}}", paper.doi);
    ReplaceAll(html, "{{PATH}}", JoinArgument(pdf))
  }

  function PaperSubpageName(paper: Paper): string {
    "p" + paper.id + ".html"
  }

  /** The text of the subpage of a preface. */
  function PrefaceSubpage(t: Templates, preface: Preface, pdf: Option<string>): string {
    var html := ReplaceAll(t.prefaceSubpage, "{{TITLE}}", preface.title);
    var html := ReplaceAll(html, "{{AUTHORS}}", preface.authors);
    ReplaceAll(html, "{{PATH}}", JoinArgument(pdf))
  }

  function PrefaceSubpageName(preface: Preface): string {
    "Vorwort-" + preface.id + ".html"
  }

  // ---------------------------------------------------------------------
  // The builder

  /**
   * The builder with the state its setters and `loadHTMLSnippets` leave:
   * the templates, the directory searched for attachments, and the two
   * outside functions.
   */
  class HTMLBuilder {
    const templates: Templates
    const searchPath: string
    const find: string -> string
    const escape: string -> string
    const matching: map<string, MergeRule>
    const prefaces: map<string, Preface>

    constructor (templates: Templates, searchPath: string, find: string -> string, escape: string -> string)
      ensures this.templates == templates && this.searchPath == searchPath
      ensures this.find == find && this.escape == escape
      ensures matching == SESSION_MATCHING && prefaces == PREFACES
    {
      this.templates := templates;
      this.searchPath := searchPath;
      this.find := find;
      this.escape := escape;
      this.matching := SESSION_MATCHING;
      this.prefaces := PREFACES;
    }

    /** The padding loop of `getFileByID`. */
    method PadSearchId(id: string) returns (searchId: string)
      ensures searchId == PaddedId(id)
    {
      searchId := id;
      var i := |id|;
      while i < MAX_SEARCH_ID_LENGTH
        invariant |id| <= i && (i <= MAX_SEARCH_ID_LENGTH || i == |id|)
        invariant searchId == Zeros(i - |id|) + id
      {
        assert "0" + Zeros(i - |id|) == Zeros(i + 1 - |id|);
        searchId := "0" + searchId;
        i := i + 1;
      }
    }

    /** `getFileByID`: the path of the attachment with the id and extension, if the search finds one. */
    method GetFileById(id: string, extension: string) returns (filePath: Option<string>)
      ensures filePath == FileById(searchPath, id, extension, find)
      ensures ReportsOneFile(find(SearchCommand(searchPath, PaddedId(id), extension)))
        ==> filePath == FileByIdAsWritten(searchPath, id, extension, find)
    {
      var searchId := PadSearchId(id);
      var command := SearchCommand(searchPath, searchId, extension);
      filePath := ExtractPath(find(command));
      if ReportsOneFile(find(command)) {
        ExtractPathOneFile(find(command));
      }
    }

    /** `getSessionByShortTitle`: the first session with the short title, if any. */
    method GetSessionByShortTitle(sessions: seq<Session>, shortTitle: string) returns (session: Option<Session>)
      ensures session.None? <==> forall i :: 0 <= i < |sessions| ==> sessions[i].shortTitle != shortTitle
      ensures session.Some? ==> exists i :: (0 <= i < |sessions| && session.value == sessions[i]
        && sessions[i].shortTitle == shortTitle && forall j :: 0 <= j < i ==> sessions[j].shortTitle != shortTitle)
    {
      var i := 0;
      while i < |sessions|
        invariant i <= |sessions|
        invariant forall j :: 0 <= j < i ==> sessions[j].shortTitle != shortTitle
      {
        if sessions[i].shortTitle == shortTitle {
          return Some(sessions[i]);
        }
        i := i + 1;
      }
      return None;
    }

    /**
     * `concatSessionsForTrack`: the backward loop over the sessions of a track
     * with the merge table; `None` stands for the `TypeError` of a missing target.
     */
    method ConcatSessionsForTrack(sessions: seq<Session>) returns (result: Option<seq<Session>>)
      ensures result == ConcatSessions(matching, sessions)
    {
      var current := sessions;
      var i: nat := |sessions|;
      while i > 0
        invariant i <= |current|
        invariant MergeFrom(matching, current, i) == ConcatSessions(matching, sessions)
      {
        var session := current[i - 1];
        if session.shortTitle in matching {
          var target := GetSessionByShortTitle(current, matching[session.shortTitle].shortTitle);
          SessionIndexFirst(current, matching[session.shortTitle].shortTitle);
          if target.None? {
            return None;
          }
          var t := SessionIndex(current, matching[session.shortTitle].shortTitle).value;
          var merged := current[t := current[t].(papers := current[t].papers + session.papers)];
          current := merged[..i - 1] + merged[i..];
        }
        i := i - 1;
      }
      return Some(current);
    }

    /** `createSessionEntryForTOC`. */
    method CreateSessionEntryForTOC(session: Session) returns (html: string)
      ensures html == Join(SessionLines(templates, escape, session), NEW_LINE_CHAR)
    {
      var lines := [SessionHeader(templates, escape, session)];
      var i := 0;
      while i < |session.papers|
        invariant i <= |session.papers|
        invariant lines == SessionLines(templates, escape, session)[..i + 1]
      {
        lines := lines + [PaperEntry(templates, escape, session.papers[i])];
        i := i + 1;
      }
      assert lines == SessionLines(templates, escape, session);
      html := Join(lines, NEW_LINE_CHAR);
    }

    /** The loop of `createTrackEntryForTOC` over the merged sessions: one session block each, in order. */
    method CreateSessionBlocks(sessions: seq<Session>) returns (blocks: seq<string>)
      ensures blocks == SessionBlocks(templates, escape, sessions)
    {
      ghost var all := SessionBlocks(templates, escape, sessions);
      blocks := [];
      var i := 0;
      while i < |sessions|
        invariant i <= |sessions|
        invariant blocks == all[..i]
      {
        var block := CreateSessionEntryForTOC(sessions[i]);
        assert all[i] == block;
        PrefixSnoc(all, i);
        blocks := blocks + [block];
        i := i + 1;
      }
      assert all[..i] == all;
    }

    /** `createTrackEntryForTOC`. */
    method CreateTrackEntryForTOC(key: string, title: string, sessions: seq<Session>, preface: Option<Preface>)
      returns (html: Option<string>)
      ensures html == TrackText(templates, escape, matching, key, title, sessions, preface)
    {
      var merged := ConcatSessionsForTrack(sessions);
      if merged.None? {
        return None;
      }
      var lines: seq<string> := [];
      if preface.Some? && preface.value.insertBefore {
        lines := lines + [PrefaceEntry(templates, preface.value)];
      }
      lines := lines + [TrackHeader(templates, escape, key, title)];
      if preface.Some? && !preface.value.insertBefore {
        lines := lines + [PrefaceEntry(templates, preface.value)];
      }
      ghost var head := lines;
      assert head == TrackHead(templates, escape, key, title, preface);
      var blocks := CreateSessionBlocks(merged.value);
      JoinAppend(head, blocks, NEW_LINE_CHAR);
      return Some(Join(lines + blocks, NEW_LINE_CHAR));
    }

    /** `createTOCString`. */
    method CreateTOCString(tracks: seq<Track>) returns (html: Option<string>)
      ensures html == match TocLines(templates, escape, matching, prefaces, tracks)
        case None => None
        case Some(lines) => Some(Join(lines, NEW_LINE_CHAR))
    {
      TocLinesAssemble(templates, escape, matching, prefaces, tracks);
      html := BuildTOC(tracks);
    }

    /**
     * The loop of `createTOCString`, stated on the track blocks and the
     * conference headers: `lastConference` is the conference of the previous track.
     */
    method BuildTOC(tracks: seq<Track>) returns (html: Option<string>)
      ensures html == match Assemble(tracks, TocBlocks(templates, escape, matching, prefaces, tracks), TocHeaders(templates, tracks))
        case None => None
        case Some(lines) => Some(Join(lines, NEW_LINE_CHAR))
    {
      ghost var blocks := TocBlocks(templates, escape, matching, prefaces, tracks);
      ghost var headers := TocHeaders(templates, tracks);
      TocFromStart(tracks, blocks, headers);
      var lines: seq<string> := [];
      var lastConference: Option<string> := None;
      var i := 0;
      while i < |tracks|
        invariant i <= |tracks|
        invariant TocFrom(tracks, blocks, headers, i, lines, lastConference) == Assemble(tracks, blocks, headers)
      {
        var track := tracks[i];
        if lastConference != Some(track.conference) {
          lines := lines + [ConferenceHeader(templates, track.conference)];
          lastConference := Some(track.conference);
        }
        var block := CreateTrackEntryForTOC(track.id, track.title, track.sessions, PrefaceFor(prefaces, track.id));
        assert blocks[i] == block;
        if block.None? {
          return None;
        }
        lines := lines + [block.value];
        i := i + 1;
      }
      return Some(Join(lines, NEW_LINE_CHAR));
    }

    /** `createConferenceEntryForSidebar`. */
    method CreateConferenceEntryForSidebar(key: string, tracks: seq<Track>) returns (html: string)
      ensures html == ConferenceBlock(templates, key, tracks)
    {
      var links: seq<string> := [];
      var tmp := ReplaceFirst(ReplaceFirst(templates.sidebar, "{{TITLE}}", key), "{{CONFERENCE}}", key);
      var i := 0;
      while i < |tracks|
        invariant i <= |tracks|
        invariant links == Links(templates, tracks)[..i]
      {
        assert Links(templates, tracks)[..i + 1] == links + [LinkEntry(templates, tracks[i])];
        links := links + [LinkEntry(templates, tracks[i])];
        i := i + 1;
      }
      assert links == Links(templates, tracks);
      html := ReplaceFirst(tmp, "{{CONTENT}}", Join(links, NEW_LINE_CHAR));
    }

    /** The first pass of `createSidebarString`: the tracks grouped by conference. */
    method GroupByConference(tracks: seq<Track>) returns (conferences: seq<ConferenceGroup>)
      ensures conferences == ConferenceGroups(tracks)
    {
      conferences := [];
      var i := 0;
      while i < |tracks|
        invariant i <= |tracks|
        invariant conferences == ConferenceGroups(tracks[..i])
      {
        var track := tracks[i];
        assert tracks[..i + 1] == tracks[..i] + [track];
        ConferenceGroupsSnoc(tracks[..i], track);
        match GroupIndex(conferences, track.conference) {
          case None =>
            conferences := conferences + [ConferenceGroup(track.conference, [track])];
          case Some(k) =>
            conferences := conferences[k := conferences[k].(tracks := conferences[k].tracks + [track])];
        }
        i := i + 1;
      }
      assert tracks[..i] == tracks;
    }

    /** `createSidebarString`: the `conferences` dictionary, then one block per entry. */
    method CreateSidebarString(tracks: seq<Track>) returns (html: string)
      ensures html == Join(SidebarBlocks(templates, ConferenceGroups(tracks)), NEW_LINE_CHAR)
    {
      var conferences := GroupByConference(tracks);
      ghost var all := SidebarBlocks(templates, conferences);
      var blocks: seq<string> := [];
      var k := 0;
      while k < |conferences|
        invariant k <= |conferences|
        invariant blocks == all[..k]
      {
        var block := CreateConferenceEntryForSidebar(conferences[k].conference, conferences[k].tracks);
        assert all[k] == block;
        PrefixSnoc(all, k);
        blocks := blocks + [block];
        k := k + 1;
      }
      assert blocks == all;
      html := Join(blocks, NEW_LINE_CHAR);
    }

    /** The text `createSubpage` writes for a paper. */
    method CreateSubpage(paper: Paper) returns (name: string, html: string)
      ensures name == PaperSubpageName(paper)
      ensures html == PaperSubpage(templates, paper,
        FileById(searchPath, paper.id, "mp4", find), FileById(searchPath, paper.id, "pdf", find))
      ensures ReportsOneFile(find(SearchCommand(searchPath, PaddedId(paper.id), "mp4")))
        && ReportsOneFile(find(SearchCommand(searchPath, PaddedId(paper.id), "pdf")))
        ==> html == PaperSubpage(templates, paper,
          FileByIdAsWritten(searchPath, paper.id, "mp4", find), FileByIdAsWritten(searchPath, paper.id, "pdf", find))
    {
      name := "p" + paper.id + ".html";
      var videoPath := GetFileById(paper.id, "mp4");
      var pdfPath := GetFileById(paper.id, "pdf");
      html := PaperSubpage(templates, paper, videoPath, pdfPath);
    }

    /** The text `createPrefaceSubpage` writes for a preface. */
    method CreatePrefaceSubpage(preface: Preface) returns (name: string, html: string)
      ensures name == PrefaceSubpageName(preface)
      ensures html == PrefaceSubpage(templates, preface, FileById(searchPath, preface.file, "pdf", find))
      ensures ReportsOneFile(find(SearchCommand(searchPath, PaddedId(preface.file), "pdf")))
        ==> html == PrefaceSubpage(templates, preface, FileByIdAsWritten(searchPath, preface.file, "pdf", find))
    {
      name := "Vorwort-" + preface.id + ".html";
      var pdfPath := GetFileById(preface.file, "pdf");
      html := PrefaceSubpage(templates, preface, pdfPath);
    }
  }

  // ---------------------------------------------------------------------
  // Facts the builder's loops rely on

  /** The two readings agree on the output of a search that finds one file. */
  lemma ExtractPathSingleFile(line: string)
    requires '\n' !in line
    ensures ExtractPath(line) == ExtractPathAsWritten(line)
    ensures ExtractPath(line + NEW_LINE_CHAR) == ExtractPathAsWritten(line + NEW_LINE_CHAR)
  {
    SingleLine(line);
    TrailingNewlinePiece(line);
  }

  /** On the output of a search that reports at most one file, both readings agree. */
  lemma ExtractPathOneFile(output: string)
    requires ReportsOneFile(output)
    ensures ExtractPath(output) == ExtractPathAsWritten(output)
  {
    if '\n' in output {
      var line := output[..|output| - 1];
      assert output == line + NEW_LINE_CHAR;
      ExtractPathSingleFile(line);
    } else {
      ExtractPathSingleFile(output);
    }
  }

  /** The corrected lookup resolves what `getFileByID` resolves whenever the search reports one file. */
  lemma FileByIdOneFile(searchPath: string, id: string, extension: string, find: string -> string)
    requires ReportsOneFile(find(SearchCommand(searchPath, PaddedId(id), extension)))
    ensures FileById(searchPath, id, extension, find) == FileByIdAsWritten(searchPath, id, extension, find)
  {
    ExtractPathOneFile(find(SearchCommand(searchPath, PaddedId(id), extension)));
  }

  /** The first line of one line, with or without its line break, is that line. */
  lemma SingleLine(line: string)
    requires '\n' !in line
    ensures FirstLine(line) == line && FirstLine(line + NEW_LINE_CHAR) == line
  {
    NoOccurrenceWithout(line, NEW_LINE_CHAR, 0);
    SplitWhole(line, NEW_LINE_CHAR);
    SplitAfter(line, NEW_LINE_CHAR, "", 0);
    assert line + NEW_LINE_CHAR == line + NEW_LINE_CHAR + "";
  }

  /** A line break at the end of the output does not change the trimmed path as written. */
  lemma TrailingNewlinePiece(line: string)
    ensures Trim(PATH_TO_PROCEEDINGS + PieceOr(Split(line + NEW_LINE_CHAR, PATH_TO_PROCEEDINGS), 1))
      == Trim(PATH_TO_PROCEEDINGS + PieceOr(Split(line, PATH_TO_PROCEEDINGS), 1))
  {
    var P := PATH_TO_PROCEEDINGS;
    SplitSnoc(line, '\n', P);
    assert line + NEW_LINE_CHAR == line + ['\n'];
    LastPieceNewline(Split(line, P), Split(line + NEW_LINE_CHAR, P));
  }

  /** A line break added to the last piece does not change the trimmed second piece. */
  lemma LastPieceNewline(parts: seq<string>, parts': seq<string>)
    requires 1 <= |parts| && parts' == parts[..|parts| - 1] + [parts[|parts| - 1] + ['\n']]
    ensures Trim(PATH_TO_PROCEEDINGS + PieceOr(parts', 1)) == Trim(PATH_TO_PROCEEDINGS + PieceOr(parts, 1))
  {
    var P := PATH_TO_PROCEEDINGS;
    if |parts| == 2 {
      assert parts'[1] == parts[1] + ['\n'];
      AppendAssoc(P, parts[1], ['\n']);
      TrimNewline(P + parts[1]);
    } else if |parts| > 2 {
      assert parts'[1] == parts[1];
    }
  }

  /** Trimming a text that starts with a visible character ignores a line break at its end. */
  lemma TrimNewline(s: string)
    requires s != [] && !IsWhitespace(s[0])
    ensures Trim(s + ['\n']) == Trim(s)
  {
    assert (s + ['\n'])[0] == s[0];
    assert TrimStart(s) == s && TrimStart(s + ['\n']) == s + ['\n'];
    TrimEndAppend(s, ['\n']);
  }

  lemma TocBlocksPrefix(t: Templates, escape: string -> string, rules: map<string, MergeRule>,
                        prefaces: map<string, Preface>, tracks: seq<Track>, n: nat)
    requires n <= |tracks|
    ensures TocBlocks(t, escape, rules, prefaces, tracks)[..n] == TocBlocks(t, escape, rules, prefaces, tracks[..n])
  {
    var blocks, blocks' := TocBlocks(t, escape, rules, prefaces, tracks), TocBlocks(t, escape, rules, prefaces, tracks[..n]);
    forall i | 0 <= i < n ensures blocks[i] == blocks'[i] {
      assert tracks[..n][i] == tracks[i];
    }
  }

  lemma TocHeadersPrefix(t: Templates, tracks: seq<Track>, n: nat)
    requires n <= |tracks|
    ensures TocHeaders(t, tracks)[..n] == TocHeaders(t, tracks[..n])
  {
    var headers, headers' := TocHeaders(t, tracks), TocHeaders(t, tracks[..n]);
    forall i | 0 <= i < n ensures headers[i] == headers'[i] {
      assert tracks[..n][i] == tracks[i];
    }
  }

  /** The table of contents is the assembly of the track blocks and the conference headers. */
  lemma {:induction false} TocLinesAssemble(t: Templates, escape: string -> string, rules: map<string, MergeRule>,
                                            prefaces: map<string, Preface>, tracks: seq<Track>)
    ensures TocLines(t, escape, rules, prefaces, tracks) == Assemble(tracks, TocBlocks(t, escape, rules, prefaces, tracks), TocHeaders(t, tracks))
    decreases |tracks|
  {
    if tracks != [] {
      var n := |tracks| - 1;
      TocLinesAssemble(t, escape, rules, prefaces, tracks[..n]);
      TocBlocksPrefix(t, escape, rules, prefaces, tracks, n);
      TocHeadersPrefix(t, tracks, n);
    }
  }

  /** The track-by-track construction from the start is the assembly. */
  lemma TocFromStart(tracks: seq<Track>, blocks: seq<Option<string>>, headers: seq<string>)
    requires |blocks| == |tracks| && |headers| == |tracks|
    ensures TocFrom(tracks, blocks, headers, 0, [], None) == Assemble(tracks, blocks, headers)
  {
    assert tracks[..0] == [] && blocks[..0] == [] && headers[..0] == [];
    TocFromPrefix(tracks, blocks, headers, 0, []);
  }

  /** Continuing from the assembly of the first `i` tracks gives the whole assembly. */
  lemma {:induction false} TocFromPrefix(tracks: seq<Track>, blocks: seq<Option<string>>, headers: seq<string>, i: nat, lines: seq<string>)
    requires i <= |tracks| && |blocks| == |tracks| && |headers| == |tracks|
    requires Assemble(tracks[..i], blocks[..i], headers[..i]) == Some(lines)
    ensures TocFrom(tracks, blocks, headers, i, lines, if i == 0 then None else Some(tracks[i - 1].conference))
      == Assemble(tracks, blocks, headers)
    decreases |tracks| - i
  {
    if i == |tracks| {
      assert tracks[..i] == tracks && blocks[..i] == blocks && headers[..i] == headers;
    } else {
      var last: Option<string> := if i == 0 then None else Some(tracks[i - 1].conference);
      var withHeader := if (last != Some(tracks[i].conference)) then lines + [headers[i]] else lines;
      match blocks[i]
      case None =>
        AssembleFails(tracks, blocks, headers, i);
      case Some(b) =>
        AssembleStep(tracks, blocks, headers, i, lines, b);
        assert withHeader + [b] == if i == 0 || tracks[i - 1].conference != tracks[i].conference
          then lines + [headers[i], b] else lines + [b];
        TocFromPrefix(tracks, blocks, headers, i + 1, withHeader + [b]);
    }
  }

  /** One more track extends the assembly by its opening header, if due, and its block. */
  lemma AssembleStep(tracks: seq<Track>, blocks: seq<Option<string>>, headers: seq<string>, i: nat, prev: seq<string>, b: string)
    requires i < |tracks| && |blocks| == |tracks| && |headers| == |tracks|
    requires Assemble(tracks[..i], blocks[..i], headers[..i]) == Some(prev) && blocks[i] == Some(b)
    ensures Assemble(tracks[..i + 1], blocks[..i + 1], headers[..i + 1]) ==
      Some(if i == 0 || tracks[i - 1].conference != tracks[i].conference then prev + [headers[i], b] else prev + [b])
  {
    assert tracks[..i + 1][..i] == tracks[..i] && blocks[..i + 1][..i] == blocks[..i] && headers[..i + 1][..i] == headers[..i];
    assert OpensConference(tracks[..i + 1], i) == OpensConference(tracks, i);
  }

  /** A failing block makes the whole assembly fail. */
  lemma AssembleFails(tracks: seq<Track>, blocks: seq<Option<string>>, headers: seq<string>, i: nat)
    requires i < |tracks| && |blocks| == |tracks| && |headers| == |tracks| && blocks[i].None?
    ensures Assemble(tracks, blocks, headers).None?
  {
    assert tracks[..i + 1][..i] == tracks[..i] && blocks[..i + 1][..i] == blocks[..i] && headers[..i + 1][..i] == headers[..i];
    assert Assemble(tracks[..i + 1], blocks[..i + 1], headers[..i + 1]).None?;
    AssemblePrefixFails(tracks, blocks, headers, i + 1);
  }

  /** A failing prefix makes the whole assembly fail. */
  lemma {:induction false} AssemblePrefixFails(tracks: seq<Track>, blocks: seq<Option<string>>, headers: seq<string>, i: nat)
    requires i <= |tracks| && |blocks| == |tracks| && |headers| == |tracks|
    requires Assemble(tracks[..i], blocks[..i], headers[..i]).None?
    ensures Assemble(tracks, blocks, headers).None?
    decreases |tracks| - i
  {
    if i < |tracks| {
      assert tracks[..i + 1][..i] == tracks[..i] && blocks[..i + 1][..i] == blocks[..i] && headers[..i + 1][..i] == headers[..i];
      AssemblePrefixFails(tracks, blocks, headers, i + 1);
    } else {
      assert tracks[..i] == tracks && blocks[..i] == blocks && headers[..i] == headers;
    }
  }

  lemma TracksOfSnoc(tracks: seq<Track>, x: Track, conference: string)
    ensures TracksOf(tracks + [x], conference) ==
      if x.conference == conference then TracksOf(tracks, conference) + [x] else TracksOf(tracks, conference)
  {
    assert (tracks + [x])[..|tracks|] == tracks;
  }

  lemma TracksOfNone(tracks: seq<Track>, conference: string)
    requires conference !in Conferences(tracks)
    ensures TracksOf(tracks, conference) == []
    decreases |tracks|
  {
    if tracks != [] {
      var n := |tracks| - 1;
      assert Conferences(tracks[..n]) == Conferences(tracks)[..n];
      TracksOfNone(tracks[..n], conference);
    }
  }

  lemma ConferencesSnoc(tracks: seq<Track>, x: Track)
    ensures Conferences(tracks + [x]) == Conferences(tracks) + [x.conference]
  {
  }

  /** Grouping one more track is the same as adding it to the groups of the tracks before it. */
  lemma ConferenceGroupsSnoc(tracks: seq<Track>, x: Track)
    ensures ConferenceGroups(tracks + [x]) == AddToGroups(ConferenceGroups(tracks), x)
  {
    match GroupIndex(ConferenceGroups(tracks), x.conference) {
      case None => ConferenceGroupsNew(tracks, x);
      case Some(k) => ConferenceGroupsExisting(tracks, x, k);
    }
  }

  /** A conference without a group has no track yet, and becomes the last conference seen. */
  lemma NewConferenceKey(tracks: seq<Track>, x: Track)
    requires GroupIndex(ConferenceGroups(tracks), x.conference).None?
    ensures x.conference !in Conferences(tracks)
    ensures FirstSeen(Conferences(tracks + [x])) == FirstSeen(Conferences(tracks)) + [x.conference]
  {
    var keys := FirstSeen(Conferences(tracks));
    var groups := ConferenceGroups(tracks);
    FirstSeenMembers(Conferences(tracks));
    forall k | 0 <= k < |keys| ensures keys[k] != x.conference {
      assert groups[k].conference == keys[k];
    }
    ConferencesSnoc(tracks, x);
    FirstSeenSnoc(Conferences(tracks), x.conference);
  }

  /** A track of a new conference opens a new group at the end. */
  lemma ConferenceGroupsNew(tracks: seq<Track>, x: Track)
    requires GroupIndex(ConferenceGroups(tracks), x.conference).None?
    ensures ConferenceGroups(tracks + [x]) == ConferenceGroups(tracks) + [ConferenceGroup(x.conference, [x])]
  {
    var keys := FirstSeen(Conferences(tracks));
    var groups := ConferenceGroups(tracks);
    NewConferenceKey(tracks, x);
    var r := ConferenceGroups(tracks + [x]);
    forall k | 0 <= k < |groups| ensures r[k] == groups[k] {
      TracksOfSnoc(tracks, x, keys[k]);
    }
    NewGroupTracks(tracks, x);
    SnocExtensional(r, groups, ConferenceGroup(x.conference, [x]));
  }

  /** The group a new conference opens holds just the new track. */
  lemma NewGroupTracks(tracks: seq<Track>, x: Track)
    requires x.conference !in Conferences(tracks)
    ensures TracksOf(tracks + [x], x.conference) == [x]
  {
    TracksOfNone(tracks, x.conference);
    TracksOfSnoc(tracks, x, x.conference);
  }

  /** A track of a known conference joins the end of that conference's group. */
  lemma ConferenceGroupsExisting(tracks: seq<Track>, x: Track, k: nat)
    requires GroupIndex(ConferenceGroups(tracks), x.conference) == Some(k)
    ensures ConferenceGroups(tracks + [x]) ==
      ConferenceGroups(tracks)[k := ConferenceGroups(tracks)[k].(tracks := ConferenceGroups(tracks)[k].tracks + [x])]
  {
    var keys := FirstSeen(Conferences(tracks));
    var groups := ConferenceGroups(tracks);
    assert FirstSeen(Conferences(tracks + [x])) == keys by {
      assert keys[k] == x.conference;
      FirstSeenMembers(Conferences(tracks));
      ConferencesSnoc(tracks, x);
      FirstSeenSnoc(Conferences(tracks), x.conference);
    }
    var r := ConferenceGroups(tracks + [x]);
    assert |r| == |groups|;
    forall j | 0 <= j < |groups| ensures r[j] == groups[k := groups[k].(tracks := groups[k].tracks + [x])][j] {
      FirstSeenMembers(Conferences(tracks));
      TracksOfSnoc(tracks, x, keys[j]);
    }
  }
}
