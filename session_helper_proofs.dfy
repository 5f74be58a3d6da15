/**
 * What the session helper promises, proved about its spec functions:
 * where every paper lands, what each bucket holds and in which order,
 * which track every session joins, and that no paper is lost or doubled
 * on the way from the paper list to the tracks.
 *
 * The track lemmas hold for any lookup function `lookup`; the final
 * statements apply them to the TOC lookup `TrackLookup(toc)`.
 */
module SessionHelperProofs {
  import opened Wrappers
  import opened Sequences
  import opened StableSort
  import opened Records
  import opened SessionHelper

  // ---------------------------------------------------------------------
  // Reference definitions for the buckets

  /** The papers that belong in bucket `k`, rewritten as they are pushed, in input order. */
  function InBucket(papers: seq<Paper>, k: string): (r: seq<Paper>)
    decreases |papers|
    ensures forall q :: q in r ==> !Rejected(q) && q.session.shortTitle == k
  {
    if papers == [] then []
    else
      var p := papers[|papers| - 1];
      var rest := InBucket(papers[..|papers| - 1], k);
      if !Rejected(p) && KeyOf(p) == k then rest + [Normalized(p)] else rest
  }

  /** The bucket keys of the accepted papers, in input order, with repetitions. */
  function AcceptedKeys(papers: seq<Paper>): seq<string>
    decreases |papers|
  {
    if papers == [] then []
    else
      var p := papers[|papers| - 1];
      var rest := AcceptedKeys(papers[..|papers| - 1]);
      if Rejected(p) then rest else rest + [KeyOf(p)]
  }

  /** The buckets appear in the order in which their keys first occur. */
  predicate KeysShaped(papers: seq<Paper>, g: seq<Session>) {
    Keys(g) == FirstSeen(AcceptedKeys(papers))
  }

  /** Each bucket holds exactly the papers with its key. */
  predicate PapersShaped(papers: seq<Paper>, g: seq<Session>) {
    forall i :: 0 <= i < |g| ==> g[i].papers == InBucket(papers, g[i].shortTitle)
  }

  /** Each bucket is non-empty and carries the session title of its first paper. */
  predicate TitlesShaped(g: seq<Session>) {
    forall i :: 0 <= i < |g| ==> g[i].papers != [] && g[i].title == g[i].papers[0].session.title
  }

  lemma InBucketSnoc(papers: seq<Paper>, p: Paper, k: string)
    ensures InBucket(papers + [p], k) ==
      if !Rejected(p) && KeyOf(p) == k then InBucket(papers, k) + [Normalized(p)] else InBucket(papers, k)
  {
    assert (papers + [p])[..|papers|] == papers;
  }

  lemma AcceptedKeysSnoc(papers: seq<Paper>, p: Paper)
    ensures AcceptedKeys(papers + [p]) ==
      if Rejected(p) then AcceptedKeys(papers) else AcceptedKeys(papers) + [KeyOf(p)]
  {
    assert (papers + [p])[..|papers|] == papers;
  }

  lemma InBucketEmpty(papers: seq<Paper>, k: string)
    requires k !in AcceptedKeys(papers)
    ensures InBucket(papers, k) == []
    decreases |papers|
  {
    if papers != [] {
      InBucketEmpty(papers[..|papers| - 1], k);
    }
  }

  lemma KeysUpdate(g: seq<Session>, i: nat, x: Session)
    requires i < |g| && x.shortTitle == g[i].shortTitle
    ensures Keys(g[i := x]) == Keys(g)
  {
  }

  lemma KeysSnoc(g: seq<Session>, x: Session)
    ensures Keys(g + [x]) == Keys(g) + [x.shortTitle]
  {
  }

  // ---------------------------------------------------------------------
  // One paper added

  lemma AddPaperKeys(papers: seq<Paper>, p: Paper, g: seq<Session>)
    requires KeysShaped(papers, g)
    ensures KeysShaped(papers + [p], AddPaper(g, p))
  {
    AcceptedKeysSnoc(papers, p);
    if !Rejected(p) {
      var k := KeyOf(p);
      FirstSeenSnoc(AcceptedKeys(papers), k);
      match BucketIndex(g, k)
      case Some(i) =>
        assert Keys(g)[i] == k;
        KeysUpdate(g, i, g[i].(papers := g[i].papers + [Normalized(p)]));
      case None =>
        assert k !in Keys(g);
        KeysSnoc(g, Session(k, Normalized(p).session.title, [Normalized(p)]));
    }
  }

  lemma AddPaperPapers(papers: seq<Paper>, p: Paper, g: seq<Session>)
    requires KeysShaped(papers, g) && PapersShaped(papers, g)
    ensures PapersShaped(papers + [p], AddPaper(g, p))
  {
    var g' := AddPaper(g, p);
    if Rejected(p) {
      forall j | 0 <= j < |g'| ensures g'[j].papers == InBucket(papers + [p], g'[j].shortTitle) {
        InBucketSnoc(papers, p, g'[j].shortTitle);
      }
    } else {
      var k := KeyOf(p);
      match BucketIndex(g, k)
      case Some(i) =>
        forall j | 0 <= j < |g'| ensures g'[j].papers == InBucket(papers + [p], g'[j].shortTitle) {
          InBucketSnoc(papers, p, g'[j].shortTitle);
          if j != i {
            FirstSeenMembers(AcceptedKeys(papers));
            assert Keys(g)[j] != Keys(g)[i];
          }
        }
      case None =>
        assert k !in AcceptedKeys(papers) by {
          FirstSeenMembers(AcceptedKeys(papers));
          assert k !in Keys(g);
        }
        InBucketEmpty(papers, k);
        forall j | 0 <= j < |g'| ensures g'[j].papers == InBucket(papers + [p], g'[j].shortTitle) {
          InBucketSnoc(papers, p, g'[j].shortTitle);
        }
    }
  }

  lemma AddPaperTitles(g: seq<Session>, p: Paper)
    requires TitlesShaped(g)
    ensures TitlesShaped(AddPaper(g, p))
  {
    if !Rejected(p) {
      match BucketIndex(g, KeyOf(p))
      case Some(i) =>
        assert (g[i].papers + [Normalized(p)])[0] == g[i].papers[0];
      case None =>
    }
  }

  // ---------------------------------------------------------------------
  // Bucketing

  /**
   * The buckets of `groupSessions` before sorting: one per key of an
   * accepted paper, in the order the keys first appear; each holds exactly
   * the rewritten papers with its key, in input order; its title is that of
   * the first paper inserted; no key twice.
   */
  lemma {:induction false} GroupedShape(papers: seq<Paper>)
    ensures KeysShaped(papers, Grouped(papers))
    ensures PapersShaped(papers, Grouped(papers))
    ensures TitlesShaped(Grouped(papers))
    ensures Distinct(Keys(Grouped(papers)))
    decreases |papers|
  {
    if papers != [] {
      var prefix, p := papers[..|papers| - 1], papers[|papers| - 1];
      assert papers == prefix + [p];
      GroupedShape(prefix);
      AddPaperKeys(prefix, p, Grouped(prefix));
      AddPaperPapers(prefix, p, Grouped(prefix));
      AddPaperTitles(Grouped(prefix), p);
    }
  }

  lemma InBucketHas(papers: seq<Paper>, p: Paper)
    requires p in papers && !Rejected(p)
    ensures Normalized(p) in InBucket(papers, KeyOf(p))
    ensures KeyOf(p) in AcceptedKeys(papers)
    decreases |papers|
  {
    var prefix := papers[..|papers| - 1];
    assert papers == prefix + [papers[|papers| - 1]];
    if p != papers[|papers| - 1] {
      InBucketHas(prefix, p);
    }
  }

  /**
   * Every accepted paper is in exactly one bucket, the one keyed by its
   * (rewritten) short title; a rejected paper is in none.
   */
  lemma PaperPlacement(papers: seq<Paper>, p: Paper)
    requires p in papers
    ensures !Rejected(p) ==> exists i :: (0 <= i < |Grouped(papers)| && Grouped(papers)[i].shortTitle == KeyOf(p)
      && Normalized(p) in Grouped(papers)[i].papers)
    ensures forall i :: 0 <= i < |Grouped(papers)| && Normalized(p) in Grouped(papers)[i].papers ==>
      !Rejected(p) && Grouped(papers)[i].shortTitle == KeyOf(p)
    ensures forall i, j :: 0 <= i < j < |Grouped(papers)| ==> Grouped(papers)[i].shortTitle != Grouped(papers)[j].shortTitle
  {
    GroupedShape(papers);
    PaperFound(papers, p);
    PaperOnlyInItsBucket(papers, p);
    assert forall i :: 0 <= i < |Grouped(papers)| ==> Keys(Grouped(papers))[i] == Grouped(papers)[i].shortTitle;
  }

  lemma PaperFound(papers: seq<Paper>, p: Paper)
    requires p in papers && KeysShaped(papers, Grouped(papers)) && PapersShaped(papers, Grouped(papers))
    ensures !Rejected(p) ==> exists i :: (0 <= i < |Grouped(papers)| && Grouped(papers)[i].shortTitle == KeyOf(p)
      && Normalized(p) in Grouped(papers)[i].papers)
  {
    var g := Grouped(papers);
    FirstSeenMembers(AcceptedKeys(papers));
    assert forall i :: 0 <= i < |g| ==> Keys(g)[i] == g[i].shortTitle;
    if !Rejected(p) {
      InBucketHas(papers, p);
      assert KeyOf(p) in Keys(g);
      var i :| 0 <= i < |g| && Keys(g)[i] == KeyOf(p);
      assert Normalized(p) in g[i].papers;
    }
  }

  lemma PaperOnlyInItsBucket(papers: seq<Paper>, p: Paper)
    requires p in papers && KeysShaped(papers, Grouped(papers)) && PapersShaped(papers, Grouped(papers))
    ensures forall i :: 0 <= i < |Grouped(papers)| && Normalized(p) in Grouped(papers)[i].papers ==>
      !Rejected(p) && Grouped(papers)[i].shortTitle == KeyOf(p)
  {
    var g := Grouped(papers);
    assert forall i :: 0 <= i < |g| ==> Keys(g)[i] == g[i].shortTitle;
  }

  /** A paper without a session short title goes to the `No-Session` bucket, rewritten to that short title. */
  lemma UnsortedPaperPlacement(papers: seq<Paper>, p: Paper)
    requires p in papers && !Rejected(p) && p.session.shortTitle == ""
    ensures Normalized(p).session.shortTitle == UNSORTED_PAPER_SESSION
    ensures exists i :: (0 <= i < |Grouped(papers)| && Grouped(papers)[i].shortTitle == UNSORTED_PAPER_SESSION
      && Normalized(p) in Grouped(papers)[i].papers)
  {
    PaperPlacement(papers, p);
  }

  // ---------------------------------------------------------------------
  // Sorting the buckets

  lemma SortedBucket(b: Session)
    ensures SortedBy(SortBucket(b).papers, PositionInSession)
    ensures multiset(SortBucket(b).papers) == multiset(b.papers)
    ensures forall k :: WithKey(SortBucket(b).papers, PositionInSession, k) == WithKey(b.papers, PositionInSession, k)
  {
    SortSorted(b.papers, PositionInSession);
    SortPermutes(b.papers, PositionInSession);
    forall k ensures WithKey(SortBucket(b).papers, PositionInSession, k) == WithKey(b.papers, PositionInSession, k) {
      SortStable(b.papers, PositionInSession, k);
    }
  }

  /**
   * The session list: the buckets as above, each sorted by position in
   * session, a permutation of its papers, with equal positions in input order.
   */
  lemma SessionListShape(papers: seq<Paper>)
    ensures Keys(SessionList(papers)) == FirstSeen(AcceptedKeys(papers))
    ensures forall i :: 0 <= i < |SessionList(papers)| ==>
      var s := SessionList(papers)[i];
      var ins := InBucket(papers, s.shortTitle);
      && ins != []
      && s.title == ins[0].session.title
      && SortedBy(s.papers, PositionInSession)
      && multiset(s.papers) == multiset(ins)
      && forall k :: WithKey(s.papers, PositionInSession, k) == WithKey(ins, PositionInSession, k)
  {
    var g := Grouped(papers);
    var l := SessionList(papers);
    GroupedShape(papers);
    assert Keys(l) == Keys(g);
    forall i | 0 <= i < |l| ensures l[i] == SortBucket(g[i]) {
    }
    forall i | 0 <= i < |g| {
      SortedBucket(g[i]);
    }
  }

  // ---------------------------------------------------------------------
  // Reference definitions for the tracks

  /** The ids `lookup` returns for the sessions that have a track, in order, with repetitions. */
  function ResolvedIds(lookup: string -> Option<TrackInfo>, sessions: seq<Session>): seq<string>
    decreases |sessions|
  {
    if sessions == [] then []
    else
      var s := sessions[|sessions| - 1];
      var rest := ResolvedIds(lookup, sessions[..|sessions| - 1]);
      if lookup(s.shortTitle).Some? then rest + [lookup(s.shortTitle).value.id] else rest
  }

  /** The sessions for which `lookup` returns track `id`, in order. */
  function SessionsOf(lookup: string -> Option<TrackInfo>, sessions: seq<Session>, id: string): (r: seq<Session>)
    decreases |sessions|
    ensures forall s :: s in r ==> s in sessions && lookup(s.shortTitle).Some? && lookup(s.shortTitle).value.id == id
  {
    if sessions == [] then []
    else
      var s := sessions[|sessions| - 1];
      var rest := SessionsOf(lookup, sessions[..|sessions| - 1], id);
      assert forall x :: x in rest ==> x in sessions;
      if lookup(s.shortTitle).Some? && lookup(s.shortTitle).value.id == id then rest + [s] else rest
  }

  function TrackId(t: Track): string {
    t.id
  }

  /** The ids of the tracks, in order. */
  function Ids(tracks: seq<Track>): (r: seq<string>)
    decreases |tracks|
    ensures |r| == |tracks|
    ensures forall i :: 0 <= i < |r| ==> r[i] == tracks[i].id
  {
    if tracks == [] then [] else Ids(tracks[..|tracks| - 1]) + [tracks[|tracks| - 1].id]
  }

  /** The descriptor a track was created from. */
  function InfoOf(t: Track): TrackInfo {
    TrackInfo(t.conference, t.longTitle, t.id, t.position, t.title)
  }

  /** The tracks appear in the order in which their ids are first returned. */
  predicate IdsShaped(lookup: string -> Option<TrackInfo>, sessions: seq<Session>, c: seq<Track>) {
    Ids(c) == FirstSeen(ResolvedIds(lookup, sessions))
  }

  /** Each track holds exactly the sessions whose lookup returned its id. */
  predicate SessionsShaped(lookup: string -> Option<TrackInfo>, sessions: seq<Session>, c: seq<Track>) {
    forall i :: 0 <= i < |c| ==> c[i].sessions == SessionsOf(lookup, sessions, c[i].id)
  }

  /** Each track is non-empty and carries the descriptor returned for its first session. */
  predicate InfoShaped(lookup: string -> Option<TrackInfo>, c: seq<Track>) {
    forall i :: 0 <= i < |c| ==> c[i].sessions != [] && lookup(c[i].sessions[0].shortTitle) == Some(InfoOf(c[i]))
  }

  lemma SessionsOfSnoc(lookup: string -> Option<TrackInfo>, sessions: seq<Session>, s: Session, id: string)
    ensures SessionsOf(lookup, sessions + [s], id) ==
      if lookup(s.shortTitle).Some? && lookup(s.shortTitle).value.id == id
      then SessionsOf(lookup, sessions, id) + [s] else SessionsOf(lookup, sessions, id)
  {
    assert (sessions + [s])[..|sessions|] == sessions;
  }

  lemma ResolvedIdsSnoc(lookup: string -> Option<TrackInfo>, sessions: seq<Session>, s: Session)
    ensures ResolvedIds(lookup, sessions + [s]) ==
      if lookup(s.shortTitle).Some? then ResolvedIds(lookup, sessions) + [lookup(s.shortTitle).value.id]
      else ResolvedIds(lookup, sessions)
  {
    assert (sessions + [s])[..|sessions|] == sessions;
  }

  lemma SessionsOfEmpty(lookup: string -> Option<TrackInfo>, sessions: seq<Session>, id: string)
    requires id !in ResolvedIds(lookup, sessions)
    ensures SessionsOf(lookup, sessions, id) == []
    decreases |sessions|
  {
    if sessions != [] {
      SessionsOfEmpty(lookup, sessions[..|sessions| - 1], id);
    }
  }

  lemma IdsUpdate(c: seq<Track>, j: nat, x: Track)
    requires j < |c| && x.id == c[j].id
    ensures Ids(c[j := x]) == Ids(c)
  {
  }

  lemma IdsSnoc(c: seq<Track>, x: Track)
    ensures Ids(c + [x]) == Ids(c) + [x.id]
  {
  }

  // ---------------------------------------------------------------------
  // One session added

  lemma AddSessionIds(lookup: string -> Option<TrackInfo>, sessions: seq<Session>, s: Session, c: seq<Track>)
    requires IdsShaped(lookup, sessions, c)
    ensures IdsShaped(lookup, sessions + [s], AddSession(c, s, lookup(s.shortTitle)))
  {
    ResolvedIdsSnoc(lookup, sessions, s);
    match lookup(s.shortTitle)
    case None =>
    case Some(t) =>
      FirstSeenSnoc(ResolvedIds(lookup, sessions), t.id);
      match TrackIndex(c, t.id)
      case Some(j) =>
        assert Ids(c)[j] == t.id;
        IdsUpdate(c, j, c[j].(sessions := c[j].sessions + [s]));
      case None =>
        assert t.id !in Ids(c);
        IdsSnoc(c, NewTrack(t).(sessions := [s]));
  }

  lemma AddSessionSessions(lookup: string -> Option<TrackInfo>, sessions: seq<Session>, s: Session, c: seq<Track>)
    requires IdsShaped(lookup, sessions, c) && SessionsShaped(lookup, sessions, c)
    ensures SessionsShaped(lookup, sessions + [s], AddSession(c, s, lookup(s.shortTitle)))
  {
    var c' := AddSession(c, s, lookup(s.shortTitle));
    match lookup(s.shortTitle)
    case None =>
      forall i | 0 <= i < |c'| ensures c'[i].sessions == SessionsOf(lookup, sessions + [s], c'[i].id) {
        SessionsOfSnoc(lookup, sessions, s, c'[i].id);
      }
    case Some(t) =>
      match TrackIndex(c, t.id)
      case Some(j) =>
        forall i | 0 <= i < |c'| ensures c'[i].sessions == SessionsOf(lookup, sessions + [s], c'[i].id) {
          SessionsOfSnoc(lookup, sessions, s, c'[i].id);
          if i != j {
            FirstSeenMembers(ResolvedIds(lookup, sessions));
            assert Ids(c)[i] != Ids(c)[j];
          }
        }
      case None =>
        assert t.id !in ResolvedIds(lookup, sessions) by {
          FirstSeenMembers(ResolvedIds(lookup, sessions));
          assert t.id !in Ids(c);
        }
        SessionsOfEmpty(lookup, sessions, t.id);
        forall i | 0 <= i < |c'| ensures c'[i].sessions == SessionsOf(lookup, sessions + [s], c'[i].id) {
          SessionsOfSnoc(lookup, sessions, s, c'[i].id);
        }
  }

  lemma AddSessionInfo(lookup: string -> Option<TrackInfo>, s: Session, c: seq<Track>)
    requires InfoShaped(lookup, c)
    ensures InfoShaped(lookup, AddSession(c, s, lookup(s.shortTitle)))
  {
    match lookup(s.shortTitle)
    case None =>
    case Some(t) =>
      match TrackIndex(c, t.id)
      case Some(j) =>
        assert (c[j].sessions + [s])[0] == c[j].sessions[0];
      case None =>
  }

  // ---------------------------------------------------------------------
  // Tracks

  /**
   * The `tracks` dictionary of `extractTracks` before sorting: one track per
   * id the lookup returns, in the order the ids are first returned; each
   * holds exactly the sessions with that id, in order, and carries the
   * descriptor of its first session; no id twice.
   */
  lemma {:induction false} CollectShape(lookup: string -> Option<TrackInfo>, sessions: seq<Session>)
    ensures IdsShaped(lookup, sessions, CollectWith(lookup, sessions))
    ensures SessionsShaped(lookup, sessions, CollectWith(lookup, sessions))
    ensures InfoShaped(lookup, CollectWith(lookup, sessions))
    ensures Distinct(Ids(CollectWith(lookup, sessions)))
    decreases |sessions|
  {
    if sessions != [] {
      var prefix, s := sessions[..|sessions| - 1], sessions[|sessions| - 1];
      assert sessions == prefix + [s];
      CollectShape(lookup, prefix);
      AddSessionIds(lookup, prefix, s, CollectWith(lookup, prefix));
      AddSessionSessions(lookup, prefix, s, CollectWith(lookup, prefix));
      AddSessionInfo(lookup, s, CollectWith(lookup, prefix));
    }
  }

  lemma ResolvedIdsHas(lookup: string -> Option<TrackInfo>, sessions: seq<Session>, s: Session)
    requires s in sessions && lookup(s.shortTitle).Some?
    ensures lookup(s.shortTitle).value.id in ResolvedIds(lookup, sessions)
    ensures s in SessionsOf(lookup, sessions, lookup(s.shortTitle).value.id)
    decreases |sessions|
  {
    var prefix := sessions[..|sessions| - 1];
    assert sessions == prefix + [sessions[|sessions| - 1]];
    if s != sessions[|sessions| - 1] {
      ResolvedIdsHas(lookup, prefix, s);
    }
  }

  /**
   * The tracks of `extractTracks` are sorted by position, tracks with equal
   * positions keep the order in which their first session was met, and no
   * two tracks share an id.
   */
  lemma ExtractTracksOrder(toc: seq<TocEntry>, papers: seq<Paper>)
    ensures SortedBy(ExtractTracksSpec(toc, papers), TrackPosition)
    ensures forall k :: (WithKey(ExtractTracksSpec(toc, papers), TrackPosition, k)
      == WithKey(Collect(toc, SessionList(papers)), TrackPosition, k))
    ensures forall i, j :: 0 <= i < j < |ExtractTracksSpec(toc, papers)| ==>
      ExtractTracksSpec(toc, papers)[i].id != ExtractTracksSpec(toc, papers)[j].id
  {
    var c := Collect(toc, SessionList(papers));
    assert DistinctBy(c, TrackId) by {
      CollectShape(TrackLookup(toc), SessionList(papers));
      forall i, j | 0 <= i < j < |c| ensures TrackId(c[i]) != TrackId(c[j]) {
        assert Ids(c)[i] != Ids(c)[j];
      }
    }
    SortedTracks(c);
  }

  /** Sorting tracks with distinct ids by position: sorted, stable, and the ids stay distinct. */
  lemma SortedTracks(c: seq<Track>)
    requires DistinctBy(c, TrackId)
    ensures SortedBy(SortBy(c, TrackPosition), TrackPosition)
    ensures forall k :: WithKey(SortBy(c, TrackPosition), TrackPosition, k) == WithKey(c, TrackPosition, k)
    ensures DistinctBy(SortBy(c, TrackPosition), TrackId)
  {
    SortSorted(c, TrackPosition);
    forall k ensures WithKey(SortBy(c, TrackPosition), TrackPosition, k) == WithKey(c, TrackPosition, k) {
      SortStable(c, TrackPosition, k);
    }
    SortDistinctBy(c, TrackPosition, TrackId);
  }

  /**
   * A session of the session list whose lookup fails is in no track; any
   * other session is in the track with the looked-up id, and in no other.
   */
  lemma ExtractTracksMembership(toc: seq<TocEntry>, papers: seq<Paper>, s: Session)
    requires s in SessionList(papers)
    ensures TrackFor(toc, s.shortTitle).None? ==>
      forall t :: t in ExtractTracksSpec(toc, papers) ==> s !in t.sessions
    ensures TrackFor(toc, s.shortTitle).Some? ==>
      exists t :: t in ExtractTracksSpec(toc, papers) && t.id == TrackFor(toc, s.shortTitle).value.id && s in t.sessions
    ensures forall t :: t in ExtractTracksSpec(toc, papers) && s in t.sessions ==>
      TrackFor(toc, s.shortTitle).Some? && t.id == TrackFor(toc, s.shortTitle).value.id
  {
    var lookup := TrackLookup(toc);
    var c := CollectWith(lookup, SessionList(papers));
    SortedMembers(c, TrackPosition);
    CollectedSession(lookup, SessionList(papers), s);
    assert lookup(s.shortTitle) == TrackFor(toc, s.shortTitle);
  }

  /** A session is in the track of the id its lookup returns, and in no other track. */
  lemma CollectedSession(lookup: string -> Option<TrackInfo>, sessions: seq<Session>, s: Session)
    requires s in sessions
    ensures forall t :: t in CollectWith(lookup, sessions) && s in t.sessions ==>
      lookup(s.shortTitle).Some? && t.id == lookup(s.shortTitle).value.id
    ensures lookup(s.shortTitle).Some? ==>
      exists t :: t in CollectWith(lookup, sessions) && t.id == lookup(s.shortTitle).value.id && s in t.sessions
  {
    var c := CollectWith(lookup, sessions);
    CollectShape(lookup, sessions);
    forall t | t in c ensures t.sessions == SessionsOf(lookup, sessions, t.id) {
      var i :| 0 <= i < |c| && c[i] == t;
    }
    if lookup(s.shortTitle).Some? {
      var id := lookup(s.shortTitle).value.id;
      ResolvedIdsHas(lookup, sessions, s);
      FirstSeenMembers(ResolvedIds(lookup, sessions));
      assert id in Ids(c);
      var i :| 0 <= i < |Ids(c)| && Ids(c)[i] == id;
      assert c[i] in c;
    }
  }

  /** Sorting keeps exactly the elements. */
  lemma SortedMembers<T>(c: seq<T>, key: T -> int)
    ensures forall t :: t in SortBy(c, key) <==> t in c
  {
    SortPermutes(c, key);
    forall t ensures t in SortBy(c, key) <==> t in c {
      assert t in SortBy(c, key) <==> t in multiset(SortBy(c, key));
      assert t in c <==> t in multiset(c);
    }
  }

  // ---------------------------------------------------------------------
  // No paper lost or doubled

  /** The accepted papers whose key `lookup` maps to a track, rewritten as they are pushed. */
  function ResolvedPapers(lookup: string -> Option<TrackInfo>, papers: seq<Paper>): seq<Paper>
    decreases |papers|
  {
    if papers == [] then []
    else
      var p := papers[|papers| - 1];
      var rest := ResolvedPapers(lookup, papers[..|papers| - 1]);
      if !Rejected(p) && lookup(KeyOf(p)).Some? then rest + [Normalized(p)] else rest
  }

  /** The papers of a session, counted only when the session has a track. */
  function ResolvedBag(lookup: string -> Option<TrackInfo>): Session -> multiset<Paper> {
    (s: Session) => if lookup(s.shortTitle).Some? then multiset(s.papers) else multiset{}
  }

  function SessionBag(s: Session): multiset<Paper> {
    multiset(s.papers)
  }

  /** All papers of a track. */
  function TrackBag(t: Track): multiset<Paper> {
    SumBags(t.sessions, SessionBag)
  }

  lemma ResolvedPapersSnoc(lookup: string -> Option<TrackInfo>, papers: seq<Paper>, p: Paper)
    ensures ResolvedPapers(lookup, papers + [p]) ==
      if !Rejected(p) && lookup(KeyOf(p)).Some? then ResolvedPapers(lookup, papers) + [Normalized(p)]
      else ResolvedPapers(lookup, papers)
  {
    assert (papers + [p])[..|papers|] == papers;
  }

  lemma AddPaperBag(lookup: string -> Option<TrackInfo>, g: seq<Session>, p: Paper)
    ensures SumBags(AddPaper(g, p), ResolvedBag(lookup)) ==
      if !Rejected(p) && lookup(KeyOf(p)).Some? then SumBags(g, ResolvedBag(lookup)) + multiset{Normalized(p)}
      else SumBags(g, ResolvedBag(lookup))
  {
    if !Rejected(p) {
      var q := Normalized(p);
      var k := q.session.shortTitle;
      var f := ResolvedBag(lookup);
      var added: multiset<Paper> := if lookup(k).Some? then multiset{q} else multiset{};
      match BucketIndex(g, k)
      case Some(i) =>
        var b := g[i].(papers := g[i].papers + [q]);
        assert multiset(b.papers) == multiset(g[i].papers) + multiset{q};
        assert f(b) == f(g[i]) + added;
        SumBagsGrow(g, i, b, f, added);
      case None =>
        var b := Session(k, q.session.title, [q]);
        assert f(b) == added;
        SumBagsSnoc(g, b, f);
    }
  }

  lemma {:induction false} GroupedBag(lookup: string -> Option<TrackInfo>, papers: seq<Paper>)
    ensures SumBags(Grouped(papers), ResolvedBag(lookup)) == multiset(ResolvedPapers(lookup, papers))
    decreases |papers|
  {
    if papers != [] {
      var prefix, p := papers[..|papers| - 1], papers[|papers| - 1];
      assert papers == prefix + [p];
      GroupedBag(lookup, prefix);
      AddPaperBag(lookup, Grouped(prefix), p);
      ResolvedPapersSnoc(lookup, prefix, p);
    }
  }

  lemma {:induction false} SortedSessionsBag(lookup: string -> Option<TrackInfo>, buckets: seq<Session>)
    ensures SumBags(SortedSessions(buckets), ResolvedBag(lookup)) == SumBags(buckets, ResolvedBag(lookup))
    decreases |buckets|
  {
    if buckets != [] {
      var prefix, b := buckets[..|buckets| - 1], buckets[|buckets| - 1];
      assert buckets == prefix + [b];
      SortedSessionsBag(lookup, prefix);
      SumBagsSnoc(SortedSessions(prefix), SortBucket(b), ResolvedBag(lookup));
      SumBagsSnoc(prefix, b, ResolvedBag(lookup));
      SortPermutes(b.papers, PositionInSession);
    }
  }

  lemma AddSessionBag(lookup: string -> Option<TrackInfo>, c: seq<Track>, s: Session)
    ensures SumBags(AddSession(c, s, lookup(s.shortTitle)), TrackBag) == SumBags(c, TrackBag) + ResolvedBag(lookup)(s)
  {
    match lookup(s.shortTitle)
    case None =>
    case Some(t) =>
      assert ResolvedBag(lookup)(s) == SessionBag(s);
      match TrackIndex(c, t.id)
      case Some(j) =>
        var u := c[j].(sessions := c[j].sessions + [s]);
        SumBagsSnoc(c[j].sessions, s, SessionBag);
        assert TrackBag(u) == TrackBag(c[j]) + SessionBag(s);
        SumBagsGrow(c, j, u, TrackBag, SessionBag(s));
      case None =>
        var u := NewTrack(t).(sessions := [s]);
        SumBagsSnoc([], s, SessionBag);
        assert [] + [s] == [s];
        assert TrackBag(u) == SessionBag(s);
        SumBagsSnoc(c, u, TrackBag);
  }

  lemma {:induction false} CollectBag(lookup: string -> Option<TrackInfo>, sessions: seq<Session>)
    ensures SumBags(CollectWith(lookup, sessions), TrackBag) == SumBags(sessions, ResolvedBag(lookup))
    decreases |sessions|
  {
    if sessions != [] {
      var prefix, s := sessions[..|sessions| - 1], sessions[|sessions| - 1];
      assert sessions == prefix + [s];
      CollectBag(lookup, prefix);
      SumBagsSnoc(prefix, s, ResolvedBag(lookup));
      AddSessionBag(lookup, CollectWith(lookup, prefix), s);
    }
  }

  /**
   * The papers across all tracks are exactly the accepted papers whose
   * session resolves to a track, each as often as in the input.
   */
  lemma ExtractTracksPapers(toc: seq<TocEntry>, papers: seq<Paper>)
    ensures SumBags(ExtractTracksSpec(toc, papers), TrackBag) == multiset(ResolvedPapers(TrackLookup(toc), papers))
  {
    var c := Collect(toc, SessionList(papers));
    SortSumBags(c, TrackPosition, TrackBag);
    CollectBag(TrackLookup(toc), SessionList(papers));
    SortedSessionsBag(TrackLookup(toc), Grouped(papers));
    GroupedBag(TrackLookup(toc), papers);
  }
}
