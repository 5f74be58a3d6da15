/**
 * The paper filter of the command-line entry point: before the tracks are
 * extracted, only papers with a DOI, accepted, and with a list of files are
 * kept, and the number of papers left out is reported.
 */
module Build {
  import opened Records
  import opened Sequences
  import opened SessionHelper

  /** `paper.doi !== ''`, `paper.isAccepted === 'true'` and `Array.isArray(paper.files.file)`. */
  predicate Publishable(p: Paper) {
    p.doi != "" && p.isAccepted == "true" && p.files.FileList?
  }

  /** `papers.filter(...)` with the predicate above. */
  function FilterPapers(papers: seq<Paper>): (r: seq<Paper>)
    ensures |r| <= |papers|
    decreases |papers|
  {
    if papers == [] then []
    else
      var n := |papers| - 1;
      FilterPapers(papers[..n]) + (if Publishable(papers[n]) then [papers[n]] else [])
  }

  /** The papers the filter leaves out, in their order. */
  function Excluded(papers: seq<Paper>): (r: seq<Paper>)
    decreases |papers|
  {
    if papers == [] then []
    else
      var n := |papers| - 1;
      Excluded(papers[..n]) + (if Publishable(papers[n]) then [] else [papers[n]])
  }

  /** The count in the filter's log line: `papers.length - filteredPapers.length`. */
  function Discarded(papers: seq<Paper>): (r: nat) {
    |papers| - |FilterPapers(papers)|
  }

  /** A paper survives the filter exactly when it is among the input and is publishable. */
  lemma {:induction false} FilterMembers(papers: seq<Paper>)
    ensures forall p :: p in FilterPapers(papers) <==> p in papers && Publishable(p)
    decreases |papers|
  {
    if papers != [] {
      var n := |papers| - 1;
      FilterMembers(papers[..n]);
      assert papers == papers[..n] + [papers[n]];
    }
  }

  /** The survivors keep their order in the input: they are a subsequence of it. */
  lemma {:induction false} FilterOrder(papers: seq<Paper>)
    ensures Subsequence(FilterPapers(papers), papers)
    decreases |papers|
  {
    if papers == [] {
      SubsequenceEmpty(papers);
    } else {
      var n := |papers| - 1;
      var before, x := FilterPapers(papers[..n]), papers[n];
      FilterOrder(papers[..n]);
      assert papers == papers[..n] + [x];
      SubsequenceSnoc(before, papers[..n], x);
      if Publishable(x) {
        assert FilterPapers(papers) == before + [x];
      } else {
        assert FilterPapers(papers) == before;
      }
    }
  }

  /** The filter splits the papers into survivors and left-out papers, losing none. */
  lemma {:induction false} FilterPartition(papers: seq<Paper>)
    ensures multiset(FilterPapers(papers)) + multiset(Excluded(papers)) == multiset(papers)
    ensures forall p :: p in Excluded(papers) ==> !Publishable(p)
    decreases |papers|
  {
    if papers != [] {
      var n := |papers| - 1;
      var x := papers[n];
      FilterPartition(papers[..n]);
      assert papers == papers[..n] + [x];
      assert multiset(papers) == multiset(papers[..n]) + multiset{x};
      if Publishable(x) {
        assert FilterPapers(papers) == FilterPapers(papers[..n]) + [x];
        assert Excluded(papers) == Excluded(papers[..n]);
      } else {
        assert FilterPapers(papers) == FilterPapers(papers[..n]);
        assert Excluded(papers) == Excluded(papers[..n]) + [x];
      }
    }
  }

  /** The reported count is the number of papers left out, so it is never negative. */
  lemma DiscardedCount(papers: seq<Paper>)
    ensures Discarded(papers) == |Excluded(papers)|
    ensures Discarded(papers) + |FilterPapers(papers)| == |papers|
  {
    FilterPartition(papers);
    assert |multiset(FilterPapers(papers))| + |multiset(Excluded(papers))| == |multiset(papers)|;
  }

  /** A list of publishable papers passes the filter unchanged. */
  lemma {:induction false} FilterKeepsPublishable(papers: seq<Paper>)
    requires forall p :: p in papers ==> Publishable(p)
    ensures FilterPapers(papers) == papers
    decreases |papers|
  {
    if papers != [] {
      var n := |papers| - 1;
      assert papers == papers[..n] + [papers[n]];
      assert Publishable(papers[n]);
      FilterKeepsPublishable(papers[..n]);
    }
  }

  /** Filtering twice is filtering once. */
  lemma FilterIdempotent(papers: seq<Paper>)
    ensures FilterPapers(FilterPapers(papers)) == FilterPapers(papers)
  {
    FilterMembers(papers);
    FilterKeepsPublishable(FilterPapers(papers));
  }

  /** No survivor is dropped by the session bucketing: `'true'` is not `'false'`. */
  lemma FilterAccepted(papers: seq<Paper>)
    ensures forall p :: p in FilterPapers(papers) ==> !Rejected(p)
  {
    FilterMembers(papers);
  }
}
