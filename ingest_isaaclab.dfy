/** The Isaac Lab documentation ingestion script (ingest_isaaclab_repo.py):
    which files under the docs directory are read, which chunks of their
    text become documents, with what metadata, and when the script stops
    with an error. Walking the directory, reading the files, the text
    splitter, the embeddings and the vector store are outside the model:
    the walk is a sequence of entries that carry their text, the splitter
    is a function parameter and the API key is an optional string. */
module IngestIsaacLab {
  import opened Wrappers
  import opened Text
  import opened Sorting

  /** Texts and chunks shorter than this, after stripping, are dropped. */
  const MinLength: nat := 50

  /** What `rglob("*")` yields: a path relative to the docs directory, with
      `/` between components, whether it is a regular file, and the text
      `read_text` gives for it. */
  datatype Entry = Entry(relPath: string, isFile: bool, text: string)

  /** A stored chunk and its metadata (`source_type` is always "isaaclab"). */
  datatype IsaacDoc = IsaacDoc(content: string, sourceFile: string, chunkId: nat)

  /** Why `main` stops before building the index. */
  datatype IngestError =
    | NoChunks       // no document came out of the docs
    | MissingApiKey  // `OPENAI_API_KEY` is unset or empty

  /** `Path.name`: the last component of a path. */
  function Name(path: string): (r: string)
    ensures '/' !in r && |r| <= |path| && r == path[|path| - |r|..]
    ensures |r| < |path| ==> path[|path| - |r| - 1] == '/'
  {
    match LastIndexOf(path, '/')
    case None => path
    case Some(i) => path[i + 1..]
  }

  /** `Path.suffix` of a path whose name is `name`: from the last dot of
      the name on, provided that dot is neither the first nor the last
      character of the name; otherwise "". */
  function NameSuffix(name: string): (r: string)
    ensures r != [] ==> && 2 <= |r| < |name| && r[0] == '.' && '.' !in r[1..]
                        && r == name[|name| - |r|..]
  {
    match LastIndexOf(name, '.')
    case None => ""
    case Some(i) => if 0 < i < |name| - 1 then name[i..] else ""
  }

  /** `Path.suffix`. */
  function Suffix(path: string): string {
    NameSuffix(Name(path))
  }

  /** A name made of a non-empty stem, a dot and a non-empty extension
      without dots has that extension as its suffix. */
  lemma SuffixOfStemAndExtension(stem: string, ext: string)
    requires stem != [] && ext != [] && '.' !in ext
    ensures NameSuffix(stem + "." + ext) == "." + ext
  {
    var name := stem + "." + ext;
    LastIndexOfBefore(stem, '.', ext);
    assert name[|stem|..] == "." + ext;
  }

  /** A name whose only dot is its first character (a hidden file such as
      ".md") has no suffix. */
  lemma HiddenNameHasNoSuffix(name: string)
    requires name != [] && name[0] == '.' && '.' !in name[1..]
    ensures NameSuffix(name) == ""
  {
    assert LastIndexOf(name, '.') == Some(0);
  }

  /** The filter of `collect_docs_files`: a regular file whose suffix,
      lower-cased, is ".rst" or ".md". */
  predicate IsDocFile(e: Entry) {
    e.isFile && Lower(Suffix(e.relPath)) in {".rst", ".md"}
  }

  /** `collect_docs_files`: the documentation files among the entries, in
      walk order. */
  function CollectDocsFiles(entries: seq<Entry>): (r: seq<Entry>)
    ensures forall e :: e in r <==> e in entries && IsDocFile(e)
    ensures |r| <= |entries|
  {
    if entries == [] then []
    else
      var init := CollectDocsFiles(entries[..|entries| - 1]);
      var e := entries[|entries| - 1];
      assert entries == entries[..|entries| - 1] + [e];
      if IsDocFile(e) then init + [e] else init
  }

  /** One more entry adds its own collection at the end. */
  lemma CollectDocsFilesSnoc(s: seq<Entry>, e: Entry)
    ensures CollectDocsFiles(s + [e]) == CollectDocsFiles(s) + CollectDocsFiles([e])
  {
    assert (s + [e])[..|s + [e]| - 1] == s;
    assert [e][..0] == [];
  }

  /** Collecting keeps the walk order: the files of a walk split in two
      are the files of the first part followed by those of the second. */
  lemma {:induction false} CollectDocsFilesAppend(a: seq<Entry>, b: seq<Entry>)
    ensures CollectDocsFiles(a + b) == CollectDocsFiles(a) + CollectDocsFiles(b)
    decreases |b|
  {
    if b == [] {
      assert a + b == a;
    } else {
      var m := |b| - 1;
      var x := b[m];
      InitOfConcat(a, b);
      assert a + b == (a + b[..m]) + [x];
      assert b == b[..m] + [x];
      CollectDocsFilesAppend(a, b[..m]);
      CollectDocsFilesSnoc(a + b[..m], x);
      CollectDocsFilesSnoc(b[..m], x);
      ConcatSnoc(CollectDocsFiles(a + b[..m]), CollectDocsFiles(a), CollectDocsFiles(b[..m]),
                 CollectDocsFiles([x]), CollectDocsFiles(a + b), CollectDocsFiles(b));
    }
  }

  /** The documents the stripped chunks of one file give: every chunk of at
      least 50 characters, with its position among all chunks as id. */
  function ChunkDocs(relPath: string, cleaned: seq<string>): seq<IsaacDoc> {
    if cleaned == [] then []
    else
      var init := ChunkDocs(relPath, cleaned[..|cleaned| - 1]);
      var c := cleaned[|cleaned| - 1];
      if |c| < MinLength then init else init + [IsaacDoc(c, relPath, |cleaned| - 1)]
  }

  /** Each document is the chunk its id names, at least 50 characters long,
      and tagged with the file. */
  lemma {:induction false} ChunkDocsAreChunks(relPath: string, cleaned: seq<string>)
    ensures forall d :: d in ChunkDocs(relPath, cleaned) ==>
              d.chunkId < |cleaned| && d.content == cleaned[d.chunkId]
              && |d.content| >= MinLength && d.sourceFile == relPath
  {
    if cleaned != [] {
      var m := |cleaned| - 1;
      ChunkDocsAreChunks(relPath, cleaned[..m]);
      assert forall n :: 0 <= n < m ==> cleaned[..m][n] == cleaned[n];
    }
  }

  /** Ids strictly increase along the documents of a file. */
  lemma {:induction false} ChunkDocsIdsIncrease(relPath: string, cleaned: seq<string>)
    ensures forall k, l :: 0 <= k < l < |ChunkDocs(relPath, cleaned)| ==>
              ChunkDocs(relPath, cleaned)[k].chunkId < ChunkDocs(relPath, cleaned)[l].chunkId
  {
    if cleaned != [] {
      var m := |cleaned| - 1;
      ChunkDocsIdsIncrease(relPath, cleaned[..m]);
      ChunkDocsAreChunks(relPath, cleaned[..m]);
      var init := ChunkDocs(relPath, cleaned[..m]);
      assert forall k :: 0 <= k < |init| ==> init[k] in init;
    }
  }

  /** Every chunk of at least 50 characters is kept, under its position. */
  lemma {:induction false} ChunkDocsComplete(relPath: string, cleaned: seq<string>)
    ensures forall i :: 0 <= i < |cleaned| && |cleaned[i]| >= MinLength ==>
              IsaacDoc(cleaned[i], relPath, i) in ChunkDocs(relPath, cleaned)
  {
    if cleaned != [] {
      var m := |cleaned| - 1;
      ChunkDocsComplete(relPath, cleaned[..m]);
      assert forall i :: 0 <= i < m ==> cleaned[..m][i] == cleaned[i];
    }
  }

  /** What one file contributes: nothing when its stripped text is shorter
      than 50 characters, otherwise the kept chunks of the splitter's
      output for that text. */
  function FileDocs(e: Entry, split: string -> seq<string>): seq<IsaacDoc> {
    var text := Strip(Python, e.text);
    if |text| < MinLength then [] else ChunkDocs(e.relPath, StripAll(split(text)))
  }

  /** Every document of a file is a stripped chunk of the splitter's output
      for the file's stripped text, at least 50 characters long, whose id
      is its position in that output. */
  lemma FileDocsAreChunks(e: Entry, split: string -> seq<string>)
    ensures |Strip(Python, e.text)| < MinLength ==> FileDocs(e, split) == []
    ensures forall d :: d in FileDocs(e, split) ==>
              var chunks := split(Strip(Python, e.text));
              && d.chunkId < |chunks| && d.content == Strip(Python, chunks[d.chunkId])
              && Stripped(Python, d.content) && |d.content| >= MinLength && d.sourceFile == e.relPath
  {
    var chunks := split(Strip(Python, e.text));
    ChunkDocsAreChunks(e.relPath, StripAll(chunks));
    StripAllStripped(chunks);
  }

  /** The documents of all files, in file order. */
  function AllDocs(files: seq<Entry>, split: string -> seq<string>): seq<IsaacDoc> {
    if files == [] then []
    else AllDocs(files[..|files| - 1], split) + FileDocs(files[|files| - 1], split)
  }

  /** Every stored document is a stripped chunk of at least 50 characters
      from one of the files. */
  lemma {:induction false} AllDocsFromFiles(files: seq<Entry>, split: string -> seq<string>)
    ensures forall d :: d in AllDocs(files, split) ==>
              && Stripped(Python, d.content) && |d.content| >= MinLength
              && exists e :: e in files && d.sourceFile == e.relPath && d in FileDocs(e, split)
  {
    if files != [] {
      var m := |files| - 1;
      AllDocsFromFiles(files[..m], split);
      FileDocsAreChunks(files[m], split);
      assert forall e :: e in files[..m] ==> e in files;
    }
  }

  /** The chunk loop of `main` over one file's stripped chunks: appends the
      long ones with their position as id. */
  method IngestChunks(docs: seq<IsaacDoc>, relPath: string, chunks: seq<string>) returns (docs': seq<IsaacDoc>)
    ensures docs' == docs + ChunkDocs(relPath, StripAll(chunks))
  {
    ghost var cleaned := StripAll(chunks);
    docs' := docs;
    for i := 0 to |chunks|
      invariant docs' == docs + ChunkDocs(relPath, cleaned[..i])
    {
      assert cleaned[..i + 1][..i] == cleaned[..i];
      var chunk := Strip(Python, chunks[i]);
      if |chunk| < MinLength {
        continue;
      }
      docs' := docs' + [IsaacDoc(chunk, relPath, i)];
    }
    assert cleaned[..|chunks|] == cleaned;
  }

  /** `main` up to the vector store: the documents of the collected files,
      or the error it raises first: no documents, then a missing API key. */
  method Ingest(entries: seq<Entry>, split: string -> seq<string>, apiKey: Option<string>)
    returns (r: Result<seq<IsaacDoc>, IngestError>)
    ensures var docs := AllDocs(CollectDocsFiles(entries), split);
            && (r == Failure(NoChunks) <==> docs == [])
            && (r == Failure(MissingApiKey) <==> docs != [] && (apiKey.None? || apiKey.value == ""))
            && (r.Success? ==> r.value == docs)
  {
    var files := CollectDocsFiles(entries);
    var docs: seq<IsaacDoc> := [];
    for j := 0 to |files|
      invariant docs == AllDocs(files[..j], split)
    {
      PrefixOfPrefix(files, j + 1, j);
      var p := files[j];
      var text := Strip(Python, p.text);
      if |text| < MinLength {
        continue;
      }
      docs := IngestChunks(docs, p.relPath, split(text));
    }
    TakeAll(files);
    if docs == [] {
      return Failure(NoChunks);
    }
    if apiKey.None? || apiKey.value == "" {
      return Failure(MissingApiKey);
    }
    r := Success(docs);
  }
}
