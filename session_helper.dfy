/**
 * The session helper: it buckets the accepted papers by session short
 * title, sorts each bucket by position in session, looks up the track of
 * every session in the table-of-contents file and collects the sessions
 * into tracks sorted by position.
 *
 * The JavaScript dictionaries (`sessions`, `tracks`) are insertion-ordered
 * sequences of entries whose own short title or id is the key.  The spec
 * functions below define each step on values; the class `SessionHelper`
 * performs them step by step as the source does, and every method is proved
 * to compute its spec function.  The properties of the spec functions are
 * proved in `SessionHelperProofs`.
 */
module SessionHelper {
  import opened Wrappers
  import opened Strings
  import opened Sequences
  import opened StableSort
  import opened Records

  /** The bucket key of papers whose session short title is empty. */
  const UNSORTED_PAPER_SESSION: string := "No-Session"

  // ---------------------------------------------------------------------
  // Track lookup

  /** `shortTitle.split(' ')[0]`: the text before the first space. */
  function FirstToken(shortTitle: string): (t: string)
    ensures |t| <= |shortTitle| && t == shortTitle[..|t|]
    ensures ' ' !in t
    ensures |t| < |shortTitle| ==> shortTitle[|t|] == ' '
  {
    var parts := Split(shortTitle, " ");
    JoinHead(parts, " ");
    NotContainsChar(parts[0], ' ');
    parts[0]
  }

  /** The descriptor `getTrackForSession` builds from a TOC entry. */
  function Descriptor(e: TocEntry): TrackInfo {
    TrackInfo(e.conference, e.longTitle, e.id, e.position, e.title)
  }

  /** Entry `i` lists `title` and no later entry does. */
  predicate LastListing(toc: seq<TocEntry>, title: string, i: int) {
    0 <= i < |toc| && title in toc[i].sessions
    && forall j :: i < j < |toc| ==> title !in toc[j].sessions
  }

  /** The descriptor of the last TOC entry whose session list contains `title`. */
  function LastMatch(toc: seq<TocEntry>, title: string): (r: Option<TrackInfo>)
    decreases |toc|
    ensures r.None? <==> forall i :: 0 <= i < |toc| ==> title !in toc[i].sessions
    ensures r.Some? ==> exists i :: LastListing(toc, title, i) && r.value == Descriptor(toc[i])
  {
    if toc == [] then None
    else if title in toc[|toc| - 1].sessions then
      assert LastListing(toc, title, |toc| - 1);
      Some(Descriptor(toc[|toc| - 1]))
    else
      var r := LastMatch(toc[..|toc| - 1], title);
      assert forall i :: 0 <= i < |toc| - 1 ==> toc[..|toc| - 1][i] == toc[i];
      assert r.Some? ==> exists i :: LastListing(toc, title, i) && r.value == Descriptor(toc[i]) by {
        if r.Some? {
          var i :| LastListing(toc[..|toc| - 1], title, i) && r.value == Descriptor(toc[..|toc| - 1][i]);
          assert LastListing(toc, title, i);
        }
      }
      r
  }

  /** The track a session with this short title belongs to, if any. */
  function TrackFor(toc: seq<TocEntry>, shortTitle: string): Option<TrackInfo> {
    LastMatch(toc, FirstToken(shortTitle))
  }

  // ---------------------------------------------------------------------
  // Bucketing

  /** `paper.isAccepted === 'false'`. */
  predicate Rejected(p: Paper) {
    p.isAccepted == "false"
  }

  /** The paper as it is pushed into its bucket: an empty short title is rewritten. */
  function Normalized(p: Paper): Paper {
    if p.session.shortTitle == "" then p.(session := p.session.(shortTitle := UNSORTED_PAPER_SESSION))
    else p
  }

  /** The key of the bucket a paper goes to. */
  function KeyOf(p: Paper): string {
    Normalized(p).session.shortTitle
  }

  /** The short titles of the buckets, in order. */
  function Keys(buckets: seq<Session>): (r: seq<string>)
    decreases |buckets|
    ensures |r| == |buckets|
    ensures forall i :: 0 <= i < |r| ==> r[i] == buckets[i].shortTitle
  {
    if buckets == [] then [] else Keys(buckets[..|buckets| - 1]) + [buckets[|buckets| - 1].shortTitle]
  }

  /** `sessions[key]`: the position of the bucket with this key, if there is one. */
  function BucketIndex(buckets: seq<Session>, key: string): (r: Option<nat>)
    decreases |buckets|
    ensures r.Some? ==> r.value < |buckets| && buckets[r.value].shortTitle == key
    ensures r.None? ==> forall i :: 0 <= i < |buckets| ==> buckets[i].shortTitle != key
  {
    if buckets == [] then None
    else if buckets[|buckets| - 1].shortTitle == key then Some(|buckets| - 1)
    else BucketIndex(buckets[..|buckets| - 1], key)
  }

  /** The buckets after `addPaperToSessions(buckets, paper)`. */
  function AddPaper(buckets: seq<Session>, paper: Paper): seq<Session> {
    if Rejected(paper) then buckets
    else
      var q := Normalized(paper);
      match BucketIndex(buckets, q.session.shortTitle)
      case Some(i) => buckets[i := buckets[i].(papers := buckets[i].papers + [q])]
      case None => buckets + [Session(q.session.shortTitle, q.session.title, [q])]
  }

  /** The buckets after adding `papers` one by one to an empty dictionary. */
  function Grouped(papers: seq<Paper>): seq<Session>
    decreases |papers|
  {
    if papers == [] then []
    else AddPaper(Grouped(papers[..|papers| - 1]), papers[|papers| - 1])
  }

  /** `positionInSession`, the sort key of a bucket. */
  function PositionInSession(p: Paper): int {
    p.positionInSession
  }

  function SortBucket(s: Session): Session {
    s.(papers := SortBy(s.papers, PositionInSession))
  }

  /** `sortPapersInSession`: every bucket sorted by position in session. */
  function SortedSessions(buckets: seq<Session>): (r: seq<Session>)
    decreases |buckets|
    ensures |r| == |buckets|
    ensures forall i :: 0 <= i < |r| ==> r[i] == SortBucket(buckets[i])
  {
    if buckets == [] then [] else SortedSessions(buckets[..|buckets| - 1]) + [SortBucket(buckets[|buckets| - 1])]
  }

  /** `createSessionList(papers)`. */
  function SessionList(papers: seq<Paper>): seq<Session> {
    SortedSessions(Grouped(papers))
  }

  // ---------------------------------------------------------------------
  // Tracks

  /** The position of the track with this id, if there is one. */
  function TrackIndex(tracks: seq<Track>, id: string): (r: Option<nat>)
    decreases |tracks|
    ensures r.Some? ==> r.value < |tracks| && tracks[r.value].id == id
    ensures r.None? ==> forall i :: 0 <= i < |tracks| ==> tracks[i].id != id
  {
    if tracks == [] then None
    else if tracks[|tracks| - 1].id == id then Some(|tracks| - 1)
    else TrackIndex(tracks[..|tracks| - 1], id)
  }

  /** The empty track `extractTracks` creates from a descriptor. */
  function NewTrack(t: TrackInfo): Track {
    Track(t.conference, t.id, t.position, t.title, t.longTitle, [])
  }

  /** One step of the first loop of `extractTracks`. */
  function AddSession(tracks: seq<Track>, s: Session, info: Option<TrackInfo>): seq<Track> {
    match info
    case None => tracks
    case Some(t) =>
      match TrackIndex(tracks, t.id)
      case Some(j) => tracks[j := tracks[j].(sessions := tracks[j].sessions + [s])]
      case None => tracks + [NewTrack(t).(sessions := [s])]
  }

  /** The track lookup of `extractTracks`, as a function of the session key. */
  function TrackLookup(toc: seq<TocEntry>): string -> Option<TrackInfo> {
    shortTitle => TrackFor(toc, shortTitle)
  }

  /** The first loop of `extractTracks` for any lookup function. */
  function CollectWith(lookup: string -> Option<TrackInfo>, sessions: seq<Session>): seq<Track>
    decreases |sessions|
  {
    if sessions == [] then []
    else
      var s := sessions[|sessions| - 1];
      AddSession(CollectWith(lookup, sessions[..|sessions| - 1]), s, lookup(s.shortTitle))
  }

  /** The `tracks` dictionary after the first loop of `extractTracks`. */
  function Collect(toc: seq<TocEntry>, sessions: seq<Session>): seq<Track> {
    CollectWith(TrackLookup(toc), sessions)
  }

  function TrackPosition(t: Track): int {
    t.position
  }

  /** `extractTracks(papers)`. */
  function ExtractTracksSpec(toc: seq<TocEntry>, papers: seq<Paper>): seq<Track> {
    SortBy(Collect(toc, SessionList(papers)), TrackPosition)
  }

  // ---------------------------------------------------------------------
  // The helper object

  /** The `sessions` dictionary that `addPaperToSessions` and `sortPapersInSession` update in place. */
  class SessionTable {
    var buckets: seq<Session>

    constructor ()
      ensures buckets == []
    {
      buckets := [];
    }
  }

  class SessionHelper {
    const toc: seq<TocEntry>

    constructor (toc: seq<TocEntry>)
      ensures this.toc == toc
    {
      this.toc := toc;
    }

    /** `getTrackForSession`: scans the whole TOC, keeping the last match. */
    method GetTrackForSession(shortTitle: string) returns (track: Option<TrackInfo>)
      ensures track == TrackFor(toc, shortTitle)
    {
      var title := FirstToken(shortTitle);
      track := None;
      var i := 0;
      while i < |toc|
        invariant 0 <= i <= |toc|
        invariant track == LastMatch(toc[..i], title)
      {
        if title in toc[i].sessions {
          track := Some(Descriptor(toc[i]));
        }
        assert toc[..i + 1][..i] == toc[..i];
        i := i + 1;
      }
      assert toc[..|toc|] == toc;
    }

    /** `sortPapersInSession`: sorts every bucket in place. */
    method SortPapersInSession(sessions: SessionTable) returns (r: SessionTable)
      modifies sessions
      ensures r == sessions
      ensures sessions.buckets == SortedSessions(old(sessions.buckets))
    {
      ghost var start := sessions.buckets;
      var i := 0;
      while i < |sessions.buckets|
        invariant |sessions.buckets| == |start|
        invariant 0 <= i <= |start|
        invariant forall k :: 0 <= k < i ==> sessions.buckets[k] == SortBucket(start[k])
        invariant forall k :: i <= k < |start| ==> sessions.buckets[k] == start[k]
      {
        var b := sessions.buckets[i];
        sessions.buckets := sessions.buckets[i := b.(papers := SortBy(b.papers, PositionInSession))];
        i := i + 1;
      }
      assert sessions.buckets == SortedSessions(start);
      r := sessions;
    }

    /** `addPaperToSessions`: drops a rejected paper, otherwise pushes it into its bucket. */
    method AddPaperToSessions(sessions: SessionTable, paper: Paper) returns (r: SessionTable)
      modifies sessions
      ensures r == sessions
      ensures sessions.buckets == AddPaper(old(sessions.buckets), paper)
    {
      r := sessions;
      if paper.isAccepted == "false" {
        return;
      }
      var p := paper;
      if p.session.shortTitle == "" {
        p := p.(session := p.session.(shortTitle := UNSORTED_PAPER_SESSION));
      }
      assert p == Normalized(paper);
      var key := p.session.shortTitle;
      match BucketIndex(sessions.buckets, key) {
        case None =>
          ghost var before := sessions.buckets;
          sessions.buckets := sessions.buckets + [Session(key, p.session.title, [])];
          var i := |sessions.buckets| - 1;
          sessions.buckets := sessions.buckets[i := sessions.buckets[i].(papers := sessions.buckets[i].papers + [p])];
          assert [] + [p] == [p];
          assert sessions.buckets == before + [Session(key, p.session.title, [p])];
        case Some(i) =>
          sessions.buckets := sessions.buckets[i := sessions.buckets[i].(papers := sessions.buckets[i].papers + [p])];
      }
    }

    /** `groupSessions`: buckets all papers, then sorts the buckets. */
    method GroupSessions(papers: seq<Paper>) returns (sessions: SessionTable)
      ensures fresh(sessions)
      ensures sessions.buckets == SessionList(papers)
    {
      sessions := new SessionTable();
      for i := 0 to |papers|
        invariant fresh(sessions)
        invariant sessions.buckets == Grouped(papers[..i])
      {
        assert papers[..i + 1][..i] == papers[..i];
        sessions := AddPaperToSessions(sessions, papers[i]);
      }
      assert papers[..|papers|] == papers;
      sessions := SortPapersInSession(sessions);
    }

    /** `createSessionList`. */
    method CreateSessionList(papers: seq<Paper>) returns (sessions: SessionTable)
      ensures fresh(sessions)
      ensures sessions.buckets == SessionList(papers)
    {
      sessions := GroupSessions(papers);
    }

    /** One pass of the first loop of `extractTracks`: files `session` under its track, if it has one. */
    method AddSessionToTracks(tracks: seq<Track>, session: Session) returns (r: seq<Track>)
      ensures r == AddSession(tracks, session, TrackFor(toc, session.shortTitle))
    {
      r := tracks;
      var track := GetTrackForSession(session.shortTitle);
      if track.Some? {
        var t := track.value;
        match TrackIndex(r, t.id) {
          case None =>
            r := r + [NewTrack(t)];
            var j := |r| - 1;
            r := r[j := r[j].(sessions := r[j].sessions + [session])];
            assert [] + [session] == [session];
            assert r == tracks + [NewTrack(t).(sessions := [session])];
          case Some(j) =>
            r := r[j := r[j].(sessions := r[j].sessions + [session])];
        }
      }
    }

    /** The first loop of `extractTracks`: the `tracks` dictionary built from the session list. */
    method CollectTracks(list: seq<Session>) returns (tracks: seq<Track>)
      ensures tracks == Collect(toc, list)
    {
      tracks := [];
      for i := 0 to |list|
        invariant tracks == Collect(toc, list[..i])
      {
        assert list[..i + 1][..i] == list[..i];
        tracks := AddSessionToTracks(tracks, list[i]);
      }
      assert list[..|list|] == list;
    }

    /** `extractTracks`: collects the sessions into tracks, then sorts the tracks by position. */
    method ExtractTracks(papers: seq<Paper>) returns (result: seq<Track>)
      ensures result == ExtractTracksSpec(toc, papers)
    {
      var sessions := CreateSessionList(papers);
      var tracks := CollectTracks(sessions.buckets);
      result := [];
      for k := 0 to |tracks|
        invariant result == tracks[..k]
      {
        result := result + [tracks[k]];
      }
      assert tracks[..|tracks|] == tracks;
      result := SortBy(result, TrackPosition);
    }
  }
}
