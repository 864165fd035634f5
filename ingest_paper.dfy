/** The paper ingestion script (ingest_paper_repo.py): which PDF pages are
    kept, how their text is cut into chunks and which chunks become
    documents, with what metadata. Reading the PDFs, the text splitter, the
    embeddings and the vector store are outside the model: each file comes
    with the text of its pages, and the splitter is a function parameter. */
module IngestPaper {
  import opened Wrappers
  import opened Text
  import opened Sorting

  /** Chunks shorter than this, after stripping, are dropped. */
  const MinChunkLength: nat := 50

  /** A PDF under the papers directory: its path relative to that
      directory and what `extract_text()` gave for each page (`None` when
      it gave nothing). */
  datatype PdfFile = PdfFile(relPath: string, pageTexts: seq<Option<string>>)

  /** A stored chunk and its metadata (`source_type` is always "papers"). */
  datatype PaperDoc = PaperDoc(content: string, sourceFile: string, page: nat, chunkId: nat)

  /** A kept page: its number, counted from 1, and its stripped text. */
  datatype Page = Page(number: nat, text: string)

  /** Each page's text, stripped (`extract_text() or ""`, then `strip()`). */
  function StrippedTexts(texts: seq<Option<string>>): (r: seq<string>)
    ensures |r| == |texts| && forall n :: 0 <= n < |texts| ==> r[n] == Strip(Python, texts[n].GetOr(""))
  {
    seq(|texts|, n requires 0 <= n < |texts| => Strip(Python, texts[n].GetOr("")))
  }

  /** The pages kept from stripped page texts: the non-empty ones, numbered
      from 1. */
  function KeptPages(stripped: seq<string>): seq<Page> {
    if stripped == [] then []
    else
      var init := KeptPages(stripped[..|stripped| - 1]);
      var t := stripped[|stripped| - 1];
      if t != "" then init + [Page(|stripped|, t)] else init
  }

  /** Each kept page is numbered from 1 and holds the non-empty text of
      that page. */
  lemma {:induction false} KeptPagesAreNonEmpty(stripped: seq<string>)
    ensures forall k :: 0 <= k < |KeptPages(stripped)| ==>
              var p := KeptPages(stripped)[k];
              1 <= p.number <= |stripped| && p.text != "" && p.text == stripped[p.number - 1]
  {
    if stripped != [] {
      var m := |stripped| - 1;
      KeptPagesAreNonEmpty(stripped[..m]);
      assert forall n :: 0 <= n < m ==> stripped[..m][n] == stripped[n];
    }
  }

  /** The kept pages are in page order. */
  lemma {:induction false} KeptPagesInOrder(stripped: seq<string>)
    ensures forall k, l :: 0 <= k < l < |KeptPages(stripped)| ==> KeptPages(stripped)[k].number < KeptPages(stripped)[l].number
  {
    if stripped != [] {
      var m := |stripped| - 1;
      KeptPagesInOrder(stripped[..m]);
      KeptPagesAreNonEmpty(stripped[..m]);
    }
  }

  /** Every page with text left is kept, under its number. */
  lemma {:induction false} KeptPagesComplete(stripped: seq<string>)
    ensures forall n :: 0 <= n < |stripped| && stripped[n] != "" ==> Page(n + 1, stripped[n]) in KeptPages(stripped)
  {
    if stripped != [] {
      var m := |stripped| - 1;
      KeptPagesComplete(stripped[..m]);
      assert forall n :: 0 <= n < m ==> stripped[..m][n] == stripped[n];
    }
  }

  /** No page is kept exactly when every page is blank. */
  lemma KeptPagesNoneIff(stripped: seq<string>)
    ensures KeptPages(stripped) == [] <==> forall n :: 0 <= n < |stripped| ==> stripped[n] == ""
  {
    KeptPagesAreNonEmpty(stripped);
    KeptPagesComplete(stripped);
  }

  /** A kept page's text is its page's stripped text, and a file whose
      pages are all blank keeps none. */
  lemma KeptPagesOfFile(texts: seq<Option<string>>)
    ensures forall k :: 0 <= k < |KeptPages(StrippedTexts(texts))| ==>
              var p := KeptPages(StrippedTexts(texts))[k];
              1 <= p.number <= |texts| && p.text == Strip(Python, texts[p.number - 1].GetOr("")) && p.text != ""
    ensures KeptPages(StrippedTexts(texts)) == [] <==>
              forall n :: 0 <= n < |texts| ==> Strip(Python, texts[n].GetOr("")) == ""
  {
    var stripped := StrippedTexts(texts);
    KeptPagesAreNonEmpty(stripped);
    KeptPagesNoneIff(stripped);
  }

  /** `extract_pdf_pages`: every page with its number (from 1) and stripped
      text, dropping pages with no text left. */
  method ExtractPdfPages(texts: seq<Option<string>>) returns (pages: seq<Page>)
    ensures pages == KeptPages(StrippedTexts(texts))
  {
    ghost var stripped := StrippedTexts(texts);
    pages := [];
    for idx := 0 to |texts|
      invariant pages == KeptPages(stripped[..idx])
    {
      var t := if texts[idx].Some? then texts[idx].value else "";
      t := Strip(Python, t);
      assert stripped[..idx + 1][..idx] == stripped[..idx];
      assert t == stripped[idx];
      if t != "" {
        pages := pages + [Page(idx + 1, t)];
      }
    }
    assert stripped[..|texts|] == stripped;
  }

  /** The documents the stripped chunks of one page give, when the file's
      chunk counter stands at `next`: every chunk of at least 50
      characters, numbered on from `next`. */
  function PageDocs(relPath: string, pageNo: nat, cleaned: seq<string>, next: nat): seq<PaperDoc> {
    if cleaned == [] then []
    else
      var init := PageDocs(relPath, pageNo, cleaned[..|cleaned| - 1], next);
      var c := cleaned[|cleaned| - 1];
      if |c| < MinChunkLength then init else init + [PaperDoc(c, relPath, pageNo, next + |init|)]
  }

  /** What one page contributes: chunks of at least 50 characters, each one
      of the page's chunks, tagged with the page and the file, numbered
      consecutively from `next`. */
  lemma {:induction false} PageDocsShape(relPath: string, pageNo: nat, cleaned: seq<string>, next: nat)
    ensures |PageDocs(relPath, pageNo, cleaned, next)| <= |cleaned|
    ensures forall k :: 0 <= k < |PageDocs(relPath, pageNo, cleaned, next)| ==>
              var d := PageDocs(relPath, pageNo, cleaned, next)[k];
              d.chunkId == next + k && d.page == pageNo && d.sourceFile == relPath
              && |d.content| >= MinChunkLength && d.content in cleaned
  {
    if cleaned != [] {
      var m := |cleaned| - 1;
      PageDocsShape(relPath, pageNo, cleaned[..m], next);
      assert forall c :: c in cleaned[..m] ==> c in cleaned;
    }
  }

  /** The documents of one file from its kept pages: the page
      contributions in page order, the counter running on across pages. */
  function FileDocs(relPath: string, pages: seq<Page>, split: string -> seq<string>): seq<PaperDoc> {
    if pages == [] then []
    else
      var init := FileDocs(relPath, pages[..|pages| - 1], split);
      var p := pages[|pages| - 1];
      init + PageDocs(relPath, p.number, StripAll(split(p.text)), |init|)
  }

  /** The page numbers of `pages`, in order. */
  function Numbers(pages: seq<Page>): (r: seq<nat>)
    ensures |r| == |pages| && forall j :: 0 <= j < |pages| ==> r[j] == pages[j].number
  {
    seq(|pages|, j requires 0 <= j < |pages| => pages[j].number)
  }

  /** Within one file the chunk ids are exactly 0, 1, ..., n-1, and every
      document carries the file and the number of one of the pages. */
  lemma {:induction false} FileDocsNumbering(relPath: string, pages: seq<Page>, split: string -> seq<string>)
    ensures forall k :: 0 <= k < |FileDocs(relPath, pages, split)| ==>
              var d := FileDocs(relPath, pages, split)[k];
              d.chunkId == k && d.sourceFile == relPath && d.page in Numbers(pages)
  {
    if pages != [] {
      var m := |pages| - 1;
      FileDocsNumbering(relPath, pages[..m], split);
      var init := FileDocs(relPath, pages[..m], split);
      PageDocsShape(relPath, pages[m].number, StripAll(split(pages[m].text)), |init|);
      assert forall q :: q in Numbers(pages[..m]) ==> q in Numbers(pages) by {
        assert Numbers(pages[..m]) == Numbers(pages)[..m];
      }
      assert pages[m].number == Numbers(pages)[m];
    }
  }

  /** `d` is one of the stripped chunks of page `p`, tagged with its
      number. */
  ghost predicate ChunkOfPage(d: PaperDoc, p: Page, split: string -> seq<string>) {
    d.page == p.number && d.content in StripAll(split(p.text))
  }

  /** Every document of a file is a stripped chunk of at least 50
      characters, cut from the text of the page whose number it carries. */
  lemma {:induction false} FileDocsContent(relPath: string, pages: seq<Page>, split: string -> seq<string>)
    ensures forall d :: d in FileDocs(relPath, pages, split) ==>
              |d.content| >= MinChunkLength && Stripped(Python, d.content)
    ensures forall d :: d in FileDocs(relPath, pages, split) ==>
              exists j :: 0 <= j < |pages| && ChunkOfPage(d, pages[j], split)
  {
    if pages != [] {
      var m := |pages| - 1;
      FileDocsContent(relPath, pages[..m], split);
      var init := FileDocs(relPath, pages[..m], split);
      var cleaned := StripAll(split(pages[m].text));
      var own := PageDocs(relPath, pages[m].number, cleaned, |init|);
      PageDocsShape(relPath, pages[m].number, cleaned, |init|);
      StripAllStripped(split(pages[m].text));
      forall d | d in FileDocs(relPath, pages, split)
        ensures exists j :: 0 <= j < |pages| && ChunkOfPage(d, pages[j], split)
      {
        if d in init {
          var j :| 0 <= j < m && ChunkOfPage(d, pages[..m][j], split);
          assert pages[..m][j] == pages[j];
        } else {
          assert d in own;
          var k :| 0 <= k < |own| && own[k] == d;
          assert ChunkOfPage(d, pages[m], split);
        }
      }
    }
  }

  /** One page on from `FileDocs` over `pages[..j]`. */
  lemma FileDocsSnoc(relPath: string, pages: seq<Page>, split: string -> seq<string>, j: nat)
    requires j < |pages|
    ensures var init := FileDocs(relPath, pages[..j], split);
            FileDocs(relPath, pages[..j + 1], split)
            == init + PageDocs(relPath, pages[j].number, StripAll(split(pages[j].text)), |init|)
  {
    PrefixOfPrefix(pages, j + 1, j);
  }

  /** The documents of all files, in file order. */
  function AllDocs(files: seq<PdfFile>, split: string -> seq<string>): seq<PaperDoc> {
    if files == [] then []
    else
      var f := files[|files| - 1];
      AllDocs(files[..|files| - 1], split) + FileDocs(f.relPath, KeptPages(StrippedTexts(f.pageTexts)), split)
  }

  /** The relative paths of `files`, in order. */
  function RelPaths(files: seq<PdfFile>): (r: seq<string>)
    ensures |r| == |files| && forall i :: 0 <= i < |files| ==> r[i] == files[i].relPath
  {
    seq(|files|, i requires 0 <= i < |files| => files[i].relPath)
  }

  /** Every stored document is a stripped chunk of at least 50 characters
      that names one of the files. */
  lemma {:induction false} AllDocsChunks(files: seq<PdfFile>, split: string -> seq<string>)
    ensures forall d :: d in AllDocs(files, split) ==>
              |d.content| >= MinChunkLength && Stripped(Python, d.content) && d.sourceFile in RelPaths(files)
  {
    if files != [] {
      var m := |files| - 1;
      AllDocsChunks(files[..m], split);
      var pages := KeptPages(StrippedTexts(files[m].pageTexts));
      FileDocsContent(files[m].relPath, pages, split);
      FileDocsNumbering(files[m].relPath, pages, split);
      assert forall q :: q in RelPaths(files[..m]) ==> q in RelPaths(files) by {
        assert RelPaths(files[..m]) == RelPaths(files)[..m];
      }
      assert files[m].relPath == RelPaths(files)[m];
      forall d | d in FileDocs(files[m].relPath, pages, split)
        ensures d.sourceFile == files[m].relPath
      {
        var k :| 0 <= k < |FileDocs(files[m].relPath, pages, split)| && FileDocs(files[m].relPath, pages, split)[k] == d;
      }
    }
  }

  const NoChunksError: string := "no chunks were produced from the PDFs"

  /** One chunk on from `PageDocs` over `cleaned[..k]`. */
  lemma PageDocsSnoc(relPath: string, pageNo: nat, cleaned: seq<string>, next: nat, k: nat)
    requires k < |cleaned|
    ensures var init := PageDocs(relPath, pageNo, cleaned[..k], next);
            PageDocs(relPath, pageNo, cleaned[..k + 1], next)
            == if |cleaned[k]| < MinChunkLength then init else init + [PaperDoc(cleaned[k], relPath, pageNo, next + |init|)]
  {
    assert cleaned[..k + 1][..k] == cleaned[..k];
  }

  /** The inner loop of `main` over one page: strips each chunk, appends
      the long ones and moves the chunk counter past them. */
  method IngestPage(docs: seq<PaperDoc>, relPath: string, pageNo: nat, chunks: seq<string>, chunkId: nat)
    returns (docs': seq<PaperDoc>, chunkId': nat)
    ensures docs' == docs + PageDocs(relPath, pageNo, StripAll(chunks), chunkId)
    ensures chunkId' == chunkId + |PageDocs(relPath, pageNo, StripAll(chunks), chunkId)|
  {
    ghost var cleaned := StripAll(chunks);
    docs', chunkId' := docs, chunkId;
    for k := 0 to |chunks|
      invariant docs' == docs + PageDocs(relPath, pageNo, cleaned[..k], chunkId)
      invariant chunkId' == chunkId + |PageDocs(relPath, pageNo, cleaned[..k], chunkId)|
    {
      PageDocsSnoc(relPath, pageNo, cleaned, chunkId, k);
      var chunk := Strip(Python, chunks[k]);
      assert chunk == cleaned[k];
      if |chunk| >= MinChunkLength {
        var doc := PaperDoc(chunk, relPath, pageNo, chunkId');
        ConcatSnoc(docs', docs, PageDocs(relPath, pageNo, cleaned[..k], chunkId), [doc],
                   docs' + [doc], PageDocs(relPath, pageNo, cleaned[..k + 1], chunkId));
        docs' := docs' + [doc];
        chunkId' := chunkId' + 1;
      }
    }
    assert cleaned[..|chunks|] == cleaned;
  }

  /** One file of `main`: its kept pages, then each page's chunks in turn. */
  method IngestFile(docs: seq<PaperDoc>, file: PdfFile, split: string -> seq<string>) returns (docs': seq<PaperDoc>)
    ensures docs' == docs + FileDocs(file.relPath, KeptPages(StrippedTexts(file.pageTexts)), split)
  {
    var pages := ExtractPdfPages(file.pageTexts);
    if pages == [] {
      return docs;
    }
    docs' := IngestPages(docs, file.relPath, pages, split);
  }

  /** The loop of `main` over the kept pages of one file, the chunk counter
      starting at 0. */
  method IngestPages(docs: seq<PaperDoc>, relPath: string, pages: seq<Page>, split: string -> seq<string>)
    returns (docs': seq<PaperDoc>)
    ensures docs' == docs + FileDocs(relPath, pages, split)
  {
    docs' := docs;
    var chunkId: nat := 0;
    for j := 0 to |pages|
      invariant docs' == docs + FileDocs(relPath, pages[..j], split)
      invariant chunkId == |FileDocs(relPath, pages[..j], split)|
    {
      FileDocsSnoc(relPath, pages, split, j);
      ghost var before := FileDocs(relPath, pages[..j], split);
      var added;
      added, chunkId := IngestPage(docs', relPath, pages[j].number, split(pages[j].text), chunkId);
      ConcatSnoc(docs', docs, before, PageDocs(relPath, pages[j].number, StripAll(split(pages[j].text)), |before|),
                 added, FileDocs(relPath, pages[..j + 1], split));
      docs' := added;
    }
    TakeAll(pages);
  }

  /** `main` up to the vector store: the documents of all files, or an
      error when there are none. */
  method Ingest(files: seq<PdfFile>, split: string -> seq<string>) returns (r: Result<seq<PaperDoc>, string>)
    ensures AllDocs(files, split) == [] <==> r == Failure(NoChunksError)
    ensures r.Success? ==> r.value == AllDocs(files, split)
  {
    var docs: seq<PaperDoc> := [];
    for i := 0 to |files|
      invariant docs == AllDocs(files[..i], split)
    {
      PrefixOfPrefix(files, i + 1, i);
      docs := IngestFile(docs, files[i], split);
    }
    TakeAll(files);
    if docs == [] {
      return Failure(NoChunksError);
    }
    r := Success(docs);
  }
}
