/** The PubMed pipeline of Biomed-Assistant/biomed_research.py: fetch paper
    records one id at a time, store the ones whose PMID the Chroma index does
    not hold yet, and annotate search results with their distance. The Entrez
    and Chroma services are replaced by their answers, given as inputs. */
module BiomedResearch {
  import opened Py

  // ---------------------------------------------------------------------
  // Fetching

  /** The part of one PubmedArticle that the try block reads.
      title: None when MedlineCitation, Article or ArticleTitle is missing.
      abstractSegments: None when Abstract or its AbstractText is missing,
      otherwise the AbstractText segments. */
  datatype ArticleXml = ArticleXml(title: Option<string>, abstractSegments: Option<seq<string>>)

  /** What Entrez.read gives for one efetch: the PubmedArticle list, or None
      when the record has no PubmedArticle key. */
  datatype EntrezRecord = EntrezRecord(pubmedArticles: Option<seq<ArticleXml>>)

  datatype Paper = Paper(pmid: string, title: string, abstractText: string)

  /** The body of the try block: Some(paper) when every lookup succeeds,
      None when one raises (the paper is then skipped). */
  function ExtractPaper(pmid: string, rec: EntrezRecord): (r: Option<Paper>)
    ensures r.Some? <==>
      && rec.pubmedArticles.Some? && |rec.pubmedArticles.value| > 0
      && rec.pubmedArticles.value[0].title.Some?
      && (rec.pubmedArticles.value[0].abstractSegments.None? || |rec.pubmedArticles.value[0].abstractSegments.value| > 0)
    ensures r.Some? ==> r.value.pmid == pmid && r.value.title == rec.pubmedArticles.value[0].title.value
    ensures r.Some? && rec.pubmedArticles.value[0].abstractSegments.None? ==> r.value.abstractText == ""
    ensures r.Some? && rec.pubmedArticles.value[0].abstractSegments.Some? ==>
      r.value.abstractText == rec.pubmedArticles.value[0].abstractSegments.value[0]
  {
    match rec.pubmedArticles
    case None => None                                   // KeyError
    case Some(articles) =>
      if |articles| == 0 then None                      // IndexError
      else
        var article := articles[0];
        match article.title
        case None => None                               // KeyError
        case Some(title) =>
          match article.abstractSegments
          case None => Some(Paper(pmid, title, ""))      // .get(...) defaults to [""]
          case Some(segments) =>
            if |segments| == 0 then None                // IndexError
            else Some(Paper(pmid, title, segments[0]))
  }

  /** The paper one record contributes: none when its extraction raised. */
  function Found(pmid: string, rec: EntrezRecord): seq<Paper> {
    match ExtractPaper(pmid, rec)
    case Some(p) => [p]
    case None => []
  }

  /** What fetch_pubmed_papers returns for the search ids, given the reply to
      each efetch (None: efetch or Entrez.read raised, which ends the whole
      fetch with that exception). */
  function FetchSpec(ids: seq<string>, replies: seq<Option<EntrezRecord>>): Result<seq<Paper>>
    requires |replies| == |ids|
  {
    if |ids| == 0 then Ok([])
    else
      var n := |ids| - 1;
      match FetchSpec(ids[..n], replies[..n])
      case Err(e) => Err(e)
      case Ok(papers) =>
        match replies[n]
        case None => Err(RequestFailed)
        case Some(rec) => Ok(papers + Found(ids[n], rec))
  }

  /** Once a prefix of the fetch has failed, the whole fetch fails. */
  lemma FetchErrSticky(ids: seq<string>, replies: seq<Option<EntrezRecord>>, i: nat)
    requires |replies| == |ids| && i <= |ids|
    requires FetchSpec(ids[..i], replies[..i]) == Err(RequestFailed)
    ensures FetchSpec(ids, replies) == Err(RequestFailed)
    decreases |ids| - i
  {
    if i < |ids| {
      assert ids[..i + 1][..i] == ids[..i] && replies[..i + 1][..i] == replies[..i];
      FetchErrSticky(ids, replies, i + 1);
    } else {
      assert ids[..i] == ids && replies[..i] == replies;
    }
  }

  /** The fetch loop. `pauses` counts the time.sleep(0.34) calls. */
  method FetchPubmedPapers(ids: seq<string>, replies: seq<Option<EntrezRecord>>)
    returns (r: Result<seq<Paper>>, pauses: nat)
    requires |replies| == |ids|
    ensures r == FetchSpec(ids, replies)
    ensures r.Ok? ==> pauses == |r.value|
  {
    var papers: seq<Paper> := [];
    pauses := 0;
    var i := 0;
    while i < |ids|
      invariant 0 <= i <= |ids|
      invariant FetchSpec(ids[..i], replies[..i]) == Ok(papers)
      invariant pauses == |papers|
    {
      assert ids[..i + 1][..i] == ids[..i] && replies[..i + 1][..i] == replies[..i];
      assert ids[..i + 1][i] == ids[i] && replies[..i + 1][i] == replies[i];
      match replies[i] {
        case None =>
          FetchErrSticky(ids, replies, i + 1);
          r := Err(RequestFailed);
          return;
        case Some(rec) =>
          assert FetchSpec(ids[..i + 1], replies[..i + 1]) == Ok(papers + Found(ids[i], rec));
          match ExtractPaper(ids[i], rec) {
            case None =>
              assert papers + Found(ids[i], rec) == papers;
            case Some(p) =>
              papers := papers + [p];
              pauses := pauses + 1;
          }
      }
      i := i + 1;
    }
    assert ids[..i] == ids && replies[..i] == replies;
    r := Ok(papers);
  }

  /** The positions of the ids whose record yields a paper, in increasing
      order. */
  function Kept(ids: seq<string>, replies: seq<Option<EntrezRecord>>): (pos: seq<nat>)
    requires |replies| == |ids|
    ensures forall k :: 0 <= k < |pos| ==> pos[k] < |ids|
    ensures forall k, l :: 0 <= k < l < |pos| ==> pos[k] < pos[l]
  {
    if |ids| == 0 then []
    else
      var n := |ids| - 1;
      Kept(ids[..n], replies[..n])
        + if replies[n].Some? && ExtractPaper(ids[n], replies[n].value).Some? then [n] else []
  }

  /** The fetch fails exactly when some efetch fails. */
  lemma {:induction false} FetchFailsIff(ids: seq<string>, replies: seq<Option<EntrezRecord>>)
    requires |replies| == |ids|
    ensures FetchSpec(ids, replies).Ok? <==> forall i :: 0 <= i < |ids| ==> replies[i].Some?
  {
    if |ids| > 0 {
      var n := |ids| - 1;
      FetchFailsIff(ids[..n], replies[..n]);
      assert forall i :: 0 <= i < n ==> replies[..n][i] == replies[i];
    }
  }

  /** When the fetch succeeds, the papers are those of the kept positions, in
      increasing position order, each carrying the pmid it was fetched with;
      so there are at most as many papers as ids. */
  lemma {:induction false} FetchKeepsOrder(ids: seq<string>, replies: seq<Option<EntrezRecord>>)
    requires |replies| == |ids|
    requires FetchSpec(ids, replies).Ok?
    ensures var ps, pos := FetchSpec(ids, replies).value, Kept(ids, replies);
      && |ps| == |pos| <= |ids|
      && forall k :: 0 <= k < |ps| ==>
           replies[pos[k]].Some? && ExtractPaper(ids[pos[k]], replies[pos[k]].value) == Some(ps[k])
           && ps[k].pmid == ids[pos[k]]
  {
    if |ids| > 0 {
      var n := |ids| - 1;
      FetchKeepsOrder(ids[..n], replies[..n]);
      var pos' := Kept(ids[..n], replies[..n]);
      assert forall k :: 0 <= k < |pos'| ==> ids[..n][pos'[k]] == ids[pos'[k]] && replies[..n][pos'[k]] == replies[pos'[k]];
      KeptBound(ids, replies);
    }
  }

  lemma KeptBound(ids: seq<string>, replies: seq<Option<EntrezRecord>>)
    requires |replies| == |ids|
    ensures |Kept(ids, replies)| <= |ids|
  {
    if |ids| > 0 {
      var n := |ids| - 1;
      KeptBound(ids[..n], replies[..n]);
    }
  }

  /** Every position left out of the papers is one whose extraction raised:
      a missing PubmedArticle or title, or an empty AbstractText list. */
  lemma {:induction false} FetchSkipsOnlyFailures(ids: seq<string>, replies: seq<Option<EntrezRecord>>, i: nat)
    requires |replies| == |ids| && i < |ids|
    requires replies[i].Some? && i !in Kept(ids, replies)
    ensures ExtractPaper(ids[i], replies[i].value).None?
  {
    var n := |ids| - 1;
    if i < n {
      assert ids[..n][i] == ids[i] && replies[..n][i] == replies[i];
      FetchSkipsOnlyFailures(ids[..n], replies[..n], i);
    }
  }

  // ---------------------------------------------------------------------
  // Storing

  /** A Chroma metadata value. */
  datatype MetaValue = MStr(s: string) | MNum(x: real)

  type Metadata = map<string, MetaValue>

  /** One stored text with its metadata. */
  datatype Entry = Entry(text: string, metadata: Metadata)

  /** Every existing metadata has a "pmid" key (else the set comprehension
      raises KeyError). */
  predicate AllHavePmid(entries: seq<Entry>) {
    forall k :: 0 <= k < |entries| ==> "pmid" in entries[k].metadata
  }

  /** {m["pmid"] for m in existing["metadatas"]}. */
  function PmidSet(entries: seq<Entry>): (r: set<MetaValue>)
    requires AllHavePmid(entries)
    ensures forall k :: 0 <= k < |entries| ==> entries[k].metadata["pmid"] in r
    ensures forall v :: v in r ==> exists k :: 0 <= k < |entries| && entries[k].metadata["pmid"] == v
  {
    set k | 0 <= k < |entries| :: entries[k].metadata["pmid"]
  }

  /** The papers whose pmid is not already indexed, in their order. Papers of
      the same batch are not compared with each other. */
  function NewPapers(known: set<MetaValue>, papers: seq<Paper>): seq<Paper> {
    if |papers| == 0 then []
    else if MStr(papers[0].pmid) in known then NewPapers(known, papers[1..])
    else [papers[0]] + NewPapers(known, papers[1..])
  }

  /** The text and metadata built for one new paper. */
  function EntryFor(p: Paper): Entry {
    Entry("Title: " + p.title + "\nAbstract: " + p.abstractText,
          map["pmid" := MStr(p.pmid), "title" := MStr(p.title), "abstract" := MStr(p.abstractText)])
  }

  function EntriesFor(papers: seq<Paper>): (r: seq<Entry>)
    ensures |r| == |papers|
    ensures forall k :: 0 <= k < |r| ==> r[k] == EntryFor(papers[k])
  {
    seq(|papers|, k requires 0 <= k < |papers| => EntryFor(papers[k]))
  }

  /** The persistent Chroma collection: its entries in insertion order, and
      how often it has been persisted. */
  class ChromaIndex {
    var entries: seq<Entry>
    var persists: nat

    constructor (existing: seq<Entry>)
      ensures entries == existing && persists == 0
    {
      entries := existing;
      persists := 0;
    }

    /** store_new_papers: on success returns how many papers were new. */
    method StoreNewPapers(papers: seq<Paper>) returns (r: Result<nat>)
      modifies this
      ensures !AllHavePmid(old(entries)) ==>
        r == Err(KeyError("pmid")) && entries == old(entries) && persists == old(persists)
      ensures AllHavePmid(old(entries)) ==>
        var added := NewPapers(PmidSet(old(entries)), papers);
        && r == Ok(|added|)
        && entries == old(entries) + EntriesFor(added)
        && persists == old(persists) + (if added == [] then 0 else 1)
    {
      if !AllHavePmid(entries) {
        return Err(KeyError("pmid"));
      }
      var known := PmidSet(entries);
      var added := NewPapers(known, papers);
      if added == [] {
        return Ok(0);
      }
      entries := entries + EntriesFor(added);   // add_texts
      persists := persists + 1;                 // persist
      r := Ok(|added|);
    }
  }

  /** NewPapers keeps exactly the papers whose pmid is unknown. */
  lemma {:induction false} NewPapersMembers(known: set<MetaValue>, papers: seq<Paper>)
    ensures forall p :: p in NewPapers(known, papers) <==> p in papers && MStr(p.pmid) !in known
  {
    if |papers| > 0 {
      NewPapersMembers(known, papers[1..]);
      assert forall p :: p in papers <==> p == papers[0] || p in papers[1..];
    }
  }

  /** NewPapers is a filter: it distributes over concatenation, so the kept
      papers stay in their relative order. */
  lemma {:induction false} NewPapersAppend(known: set<MetaValue>, a: seq<Paper>, b: seq<Paper>)
    ensures NewPapers(known, a + b) == NewPapers(known, a) + NewPapers(known, b)
  {
    if |a| > 0 {
      assert (a + b)[0] == a[0] && (a + b)[1..] == a[1..] + b;
      NewPapersAppend(known, a[1..], b);
    } else {
      assert a + b == b;
    }
  }

  /** Two new papers sharing a pmid are both added. */
  lemma BatchDuplicatesKept(known: set<MetaValue>, p: Paper, q: Paper)
    requires p.pmid == q.pmid && MStr(p.pmid) !in known
    ensures NewPapers(known, [p, q]) == [p, q]
  {
    assert [p, q][1..] == [q];
    assert [q][1..] == [];
    assert NewPapers(known, [q]) == [q];
  }

  /** After a store, every pmid of the stored entries is known. */
  lemma {:induction false} EntriesPmids(papers: seq<Paper>)
    ensures AllHavePmid(EntriesFor(papers))
    ensures PmidSet(EntriesFor(papers)) == set p | p in papers :: MStr(p.pmid)
  {
    var es := EntriesFor(papers);
    forall v | v in PmidSet(es) ensures v in set p | p in papers :: MStr(p.pmid) {
      var k :| 0 <= k < |es| && es[k].metadata["pmid"] == v;
    }
    forall v | v in set p | p in papers :: MStr(p.pmid) ensures v in PmidSet(es) {
      var p :| p in papers && MStr(p.pmid) == v;
      var k :| 0 <= k < |papers| && papers[k] == p;
      assert es[k].metadata["pmid"] == v;
    }
  }

  lemma PmidSetAppend(a: seq<Entry>, b: seq<Entry>)
    requires AllHavePmid(a) && AllHavePmid(b)
    ensures AllHavePmid(a + b)
    ensures PmidSet(a + b) == PmidSet(a) + PmidSet(b)
  {
    var ab := a + b;
    assert forall k :: 0 <= k < |b| ==> ab[|a| + k] == b[k];
    assert forall k :: 0 <= k < |a| ==> ab[k] == a[k];
    forall v | v in PmidSet(a) + PmidSet(b) ensures v in PmidSet(ab) {
      if v in PmidSet(a) {
        var k :| 0 <= k < |a| && a[k].metadata["pmid"] == v;
        assert ab[k].metadata["pmid"] == v;
      } else {
        var k :| 0 <= k < |b| && b[k].metadata["pmid"] == v;
        assert ab[|a| + k].metadata["pmid"] == v;
      }
    }
    forall v | v in PmidSet(ab) ensures v in PmidSet(a) + PmidSet(b) {
      var k :| 0 <= k < |ab| && ab[k].metadata["pmid"] == v;
      if k >= |a| {
        assert b[k - |a|] == ab[k];
      }
    }
  }

  /** With every pmid already known there is nothing new. */
  lemma {:induction false} AllKnownNothingNew(known: set<MetaValue>, papers: seq<Paper>)
    requires forall k :: 0 <= k < |papers| ==> MStr(papers[k].pmid) in known
    ensures NewPapers(known, papers) == []
  {
    if |papers| > 0 {
      AllKnownNothingNew(known, papers[1..]);
    }
  }

  /** Storing the same batch a second time adds nothing. */
  lemma StoreTwiceAddsNothing(entries: seq<Entry>, papers: seq<Paper>)
    requires AllHavePmid(entries)
    ensures var after := entries + EntriesFor(NewPapers(PmidSet(entries), papers));
      AllHavePmid(after) && NewPapers(PmidSet(after), papers) == []
  {
    var added := NewPapers(PmidSet(entries), papers);
    EntriesPmids(added);
    PmidSetAppend(entries, EntriesFor(added));
    var after := entries + EntriesFor(added);
    NewPapersMembers(PmidSet(entries), papers);
    forall k | 0 <= k < |papers| ensures MStr(papers[k].pmid) in PmidSet(after) {
      var p := papers[k];
      if MStr(p.pmid) !in PmidSet(entries) {
        assert p in added;
        assert MStr(p.pmid) in set q | q in added :: MStr(q.pmid);
      }
    }
    AllKnownNothingNew(PmidSet(after), papers);
  }

  // ---------------------------------------------------------------------
  // Retrieving

  /** A LangChain Document returned by the similarity search. */
  class Document {
    var pageContent: string
    var metadata: Metadata

    constructor (content: string, meta: Metadata)
      ensures pageContent == content && metadata == meta
    {
      pageContent := content;
      metadata := meta;
    }
  }

  /** The distance written last into `d` by a pass over `rs`, if any. */
  function LastScore(rs: seq<(Document, real)>, d: Document): (r: Option<real>)
    ensures r.None? <==> forall k :: 0 <= k < |rs| ==> rs[k].0 != d
  {
    if |rs| == 0 then None
    else if rs[|rs| - 1].0 == d then Some(rs[|rs| - 1].1)
    else LastScore(rs[..|rs| - 1], d)
  }

  /** The metadata of `d` after a pass over `rs`, from what it was before. */
  function Annotated(before: Metadata, rs: seq<(Document, real)>, d: Document): Metadata {
    match LastScore(rs, d)
    case None => before
    case Some(x) => before["distance_score" := MNum(x)]
  }

  /** retrieve_relevant_papers: returns the search results' documents in
      their order, each with "distance_score" set in its metadata. */
  method RetrieveRelevantPapers(results: seq<(Document, real)>) returns (docs: seq<Document>)
    modifies set k | 0 <= k < |results| :: results[k].0
    ensures |docs| == |results|
    ensures forall k :: 0 <= k < |results| ==> docs[k] == results[k].0
    ensures forall k :: 0 <= k < |results| ==>
      results[k].0.pageContent == old(results[k].0.pageContent)
      && results[k].0.metadata == Annotated(old(results[k].0.metadata), results, results[k].0)
  {
    docs := [];
    var i := 0;
    while i < |results|
      invariant 0 <= i <= |results|
      invariant |docs| == i && forall k :: 0 <= k < i ==> docs[k] == results[k].0
      invariant forall k :: 0 <= k < |results| ==>
        results[k].0.pageContent == old(results[k].0.pageContent)
        && results[k].0.metadata == Annotated(old(results[k].0.metadata), results[..i], results[k].0)
    {
      var doc := results[i].0;
      doc.metadata := doc.metadata["distance_score" := MNum(results[i].1)];
      docs := docs + [doc];
      assert results[..i + 1][..i] == results[..i];
      forall k | 0 <= k < |results|
        ensures results[k].0.metadata == Annotated(old(results[k].0.metadata), results[..i + 1], results[k].0)
      {
        if results[k].0 == doc {
          var m := old(results[k].0.metadata);
          assert Annotated(m, results[..i + 1], doc) == m["distance_score" := MNum(results[i].1)];
        }
      }
      i := i + 1;
    }
    assert results[..i] == results;
  }

  /** When the search returns distinct documents, each one's score is its own
      distance and only "distance_score" changes in its metadata. */
  lemma DistinctScores(results: seq<(Document, real)>, k: nat)
    requires k < |results|
    requires forall a, b :: 0 <= a < b < |results| ==> results[a].0 != results[b].0
    ensures LastScore(results, results[k].0) == Some(results[k].1)
  {
    if k < |results| - 1 {
      DistinctScores(results[..|results| - 1], k);
      assert results[..|results| - 1][k] == results[k];
    }
  }
}
