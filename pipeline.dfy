/**
 * The batch run (`process_all_pdfs`): load the descriptor, then for every PDF
 * in the input directory extract its paragraphs, rank them, stamp each result
 * with the file name and append it to one combined list; finally build the
 * report.
 *
 * The environment is passed in: the parsed descriptor, the directory listing
 * in the order `os.listdir` gave it, the pages of every PDF the PDF library
 * can open, the relevance score of a paragraph for a query (standing for
 * the embedding model and cosine similarity) and the current time as text.
 * Writing the report file is not modelled.
 */
module Pipeline {
  import opened Wrappers
  import opened Persona
  import opened Extract
  import opened Rank

  datatype Metadata = Metadata(
    inputDocuments: seq<string>,
    persona: string,
    jobToBeDone: string,
    processingTimestamp: string)

  datatype Report = Report(metadata: Metadata, extractedSections: seq<RankedResult>)

  /** Every failure aborts the whole run. */
  datatype RunError =
    | BadDescriptor(cause: LoadError)  // `load_persona` raised
    | CannotOpen(file: string)         // the PDF library could not open this file

  /** The pages of each PDF the library can open, by file name. */
  type Library = map<string, seq<seq<string>>>

  /** `f.endswith(".pdf")`, case-sensitive. */
  predicate IsPdf(name: string) {
    |name| >= 4 && name[|name| - 4..] == ".pdf"
  }

  /** `[f for f in os.listdir(input_dir) if f.endswith(".pdf")]`. */
  function PdfFiles(listing: seq<string>): (r: seq<string>)
    ensures forall f :: f in r <==> f in listing && IsPdf(f)
  {
    if listing == [] then []
    else (if IsPdf(listing[0]) then [listing[0]] else []) + PdfFiles(listing[1..])
  }

  /** The similarity of each paragraph to the query. */
  function Scores(query: string, paragraphs: seq<Paragraph>, relevance: (string, string) -> int): (r: seq<int>)
    ensures |r| == |paragraphs|
  {
    seq(|paragraphs|, i requires 0 <= i < |paragraphs| => relevance(query, paragraphs[i].text))
  }

  /** `r["document"] = pdf_file` for each result of one document. */
  function Stamp(results: seq<RankedResult>, name: string): seq<RankedResult> {
    seq(|results|, i requires 0 <= i < |results| => results[i].(document := name))
  }

  /** The entries one document contributes to `extracted_sections`. */
  function DocumentSections(query: string, name: string, pages: seq<seq<string>>, relevance: (string, string) -> int): seq<RankedResult> {
    var paragraphs := Paragraphs(pages);
    Stamp(Results(TopCandidates(paragraphs, Scores(query, paragraphs, relevance), DEFAULT_TOP_K)), name)
  }

  /** What each file the PDF library can open contributes to `extracted_sections`. */
  function Blocks(query: string, library: Library, relevance: (string, string) -> int): (r: map<string, seq<RankedResult>>)
    ensures r.Keys == library.Keys
  {
    map name | name in library :: DocumentSections(query, name, library[name], relevance)
  }

  /** The combined list over `files`, in file order, or the first file that cannot be opened. */
  function Sections(files: seq<string>, blocks: map<string, seq<RankedResult>>): Result<seq<RankedResult>, RunError> {
    if files == [] then Ok([])
    else
      var done :- Sections(files[..|files| - 1], blocks);
      var name := files[|files| - 1];
      if name in blocks then Ok(done + blocks[name])
      else Err(CannotOpen(name))
  }

  /** The outcome of a whole run. */
  function Run(descriptor: Json, listing: seq<string>, library: Library, relevance: (string, string) -> int, now: string): Result<Report, RunError> {
    match Load(descriptor)
    case Err(e) => Err(BadDescriptor(e))
    case Ok((query, meta)) =>
      var files := PdfFiles(listing);
      var sections :- Sections(files, Blocks(query, library, relevance));
      Ok(Report(Metadata(files, meta.persona, meta.job, now), sections))
  }

  /** `process_all_pdfs`, up to building the report it writes. */
  method ProcessAllPdfs(descriptor: Json, listing: seq<string>, library: Library, relevance: (string, string) -> int, now: string)
    returns (r: Result<Report, RunError>)
    ensures r == Run(descriptor, listing, library, relevance, now)
  {
    var loaded := Load(descriptor);
    if loaded.Err? {
      return Err(BadDescriptor(loaded.error));
    }
    var (query, meta) := loaded.value;
    ghost var blocks := Blocks(query, library, relevance);
    var results := [];
    var pdfFiles := PdfFiles(listing);
    for i := 0 to |pdfFiles|
      invariant Sections(pdfFiles[..i], blocks) == Ok(results)
    {
      var name := pdfFiles[i];
      SectionsStep(pdfFiles, i, blocks);
      if name !in library {
        SectionsErrorPersists(pdfFiles, i + 1, blocks);
        return Err(CannotOpen(name));
      }
      var paragraphs := ExtractParagraphs(library[name]);
      var ranked := RankParagraphs(paragraphs, Scores(query, paragraphs, relevance), DEFAULT_TOP_K);
      BlockOf(query, library, relevance, name);
      results := AppendStamped(results, ranked, name);
    }
    assert pdfFiles[..|pdfFiles|] == pdfFiles;
    return Ok(Report(Metadata(pdfFiles, meta.persona, meta.job, now), results));
  }

  /** The inner loop: stamp each ranked entry with the file name and append it. */
  method AppendStamped(results: seq<RankedResult>, ranked: seq<RankedResult>, name: string) returns (out: seq<RankedResult>)
    ensures out == results + Stamp(ranked, name)
  {
    out := results;
    for j := 0 to |ranked|
      invariant out == results + Stamp(ranked[..j], name)
    {
      StampStep(ranked, j, name);
      out := out + [ranked[j].(document := name)];
    }
    assert ranked[..|ranked|] == ranked;
  }

  lemma BlockOf(query: string, library: Library, relevance: (string, string) -> int, name: string)
    requires name in library
    ensures Blocks(query, library, relevance)[name] == DocumentSections(query, name, library[name], relevance)
  {
  }

  lemma StampStep(results: seq<RankedResult>, j: int, name: string)
    requires 0 <= j < |results|
    ensures Stamp(results[..j + 1], name) == Stamp(results[..j], name) + [results[j].(document := name)]
  {
    var a, b := Stamp(results[..j + 1], name), Stamp(results[..j], name) + [results[j].(document := name)];
    assert |a| == |b|;
    forall k | 0 <= k < |a|
      ensures a[k] == b[k]
    {
      if k < j {
        assert a[k] == results[k].(document := name);
      }
    }
  }

  lemma SectionsStep(files: seq<string>, i: int, blocks: map<string, seq<RankedResult>>)
    requires 0 <= i < |files|
    ensures Sections(files[..i + 1], blocks)
      == match Sections(files[..i], blocks)
         case Err(e) => Err(e)
         case Ok(done) => if files[i] in blocks then Ok(done + blocks[files[i]]) else Err(CannotOpen(files[i]))
  {
    assert files[..i + 1][..i] == files[..i];
  }

  /** Once a file cannot be opened, the run over any longer file list fails with that file. */
  lemma {:induction false} SectionsErrorPersists(files: seq<string>, k: int, blocks: map<string, seq<RankedResult>>)
    requires 0 <= k <= |files|
    requires Sections(files[..k], blocks).Err?
    ensures Sections(files, blocks) == Sections(files[..k], blocks)
    decreases |files| - k
  {
    if k < |files| {
      assert files[..k + 1][..k] == files[..k];
      SectionsErrorPersists(files, k + 1, blocks);
    } else {
      assert files[..k] == files;
    }
  }

  /** The file that stops a failed run is the first one in the list that cannot be opened. */
  lemma {:induction false} SectionsFirstMissing(files: seq<string>, blocks: map<string, seq<RankedResult>>)
    ensures Sections(files, blocks).Err? <==> exists i :: 0 <= i < |files| && files[i] !in blocks
    ensures Sections(files, blocks).Err? ==>
      exists i :: 0 <= i < |files| && files[i] !in blocks && Sections(files, blocks).error == CannotOpen(files[i])
        && forall j :: 0 <= j < i ==> files[j] in blocks
  {
    if files != [] {
      var init, last := files[..|files| - 1], files[|files| - 1];
      SectionsFirstMissing(init, blocks);
      assert forall i :: 0 <= i < |init| ==> init[i] == files[i];
    }
  }

  /**
   * The descriptor is checked first: when it cannot be loaded the run fails
   * with that error whatever the input directory holds, so no PDF is listed
   * or opened.
   */
  lemma DescriptorErrorStopsRun(descriptor: Json, listing: seq<string>, library: Library, relevance: (string, string) -> int, now: string)
    requires Load(descriptor).Err?
    ensures Run(descriptor, listing, library, relevance, now) == Err(BadDescriptor(Load(descriptor).error))
  {
  }

  /** The combined list exists exactly when every file in the list can be opened. */
  lemma SectionsOkIff(files: seq<string>, blocks: map<string, seq<RankedResult>>)
    ensures Sections(files, blocks).Ok? <==> forall f :: f in files ==> f in blocks
  {
    SectionsFirstMissing(files, blocks);
    if exists f :: f in files && f !in blocks {
      var f :| f in files && f !in blocks;
      var i :| 0 <= i < |files| && files[i] == f;
    }
  }

  /** A run succeeds exactly when the descriptor loads and every listed PDF can be opened. */
  lemma RunOkIff(descriptor: Json, listing: seq<string>, library: Library, relevance: (string, string) -> int, now: string)
    ensures Run(descriptor, listing, library, relevance, now).Ok? <==>
      Load(descriptor).Ok? && forall f :: f in listing && IsPdf(f) ==> f in library
  {
    if Load(descriptor).Ok? {
      var query := Load(descriptor).value.0;
      var blocks := Blocks(query, library, relevance);
      SectionsOkIff(PdfFiles(listing), blocks);
      assert Run(descriptor, listing, library, relevance, now).Ok? <==> Sections(PdfFiles(listing), blocks).Ok?;
    }
  }

  /** The report's metadata: every listed PDF in listing order, the persona, the job task and the timestamp. */
  lemma RunMetadata(descriptor: Json, listing: seq<string>, library: Library, relevance: (string, string) -> int, now: string)
    requires Run(descriptor, listing, library, relevance, now).Ok?
    ensures var m := Run(descriptor, listing, library, relevance, now).value.metadata;
      && HasText(descriptor, "persona", "role") && HasText(descriptor, "job_to_be_done", "task")
      && m.inputDocuments == PdfFiles(listing)
      && m.persona == TextAt(descriptor, "persona", "role")
      && m.jobToBeDone == TextAt(descriptor, "job_to_be_done", "task")
      && m.processingTimestamp == now
  {
  }

  /**
   * One document's block: at most five entries (fewer when the document has
   * fewer paragraphs), all stamped with the file name, ranked 1, 2, ... from
   * the start of the block, each carrying one of the document's paragraphs
   * as its full text and page, under a title of at most 63 characters.
   */
  lemma DocumentSectionsShape(query: string, name: string, pages: seq<seq<string>>, relevance: (string, string) -> int)
    ensures var d, n := DocumentSections(query, name, pages, relevance), |Paragraphs(pages)|;
      && |d| == (if n < DEFAULT_TOP_K then n else DEFAULT_TOP_K)
      && forall i :: 0 <= i < |d| ==>
        && d[i].document == name
        && d[i].importanceRank == i + 1
        && Paragraph(d[i].refinedText, d[i].pageNumber) in Paragraphs(pages)
        && |d[i].sectionTitle| <= TITLE_LENGTH + |ELLIPSIS|
  {
    var paragraphs := Paragraphs(pages);
    var scores := Scores(query, paragraphs, relevance);
    var top := TopCandidates(paragraphs, scores, DEFAULT_TOP_K);
    TopCandidatesLength(paragraphs, scores, DEFAULT_TOP_K);
    TopCandidatesFromParagraphs(paragraphs, scores, DEFAULT_TOP_K);
    ResultsNumbered(top);
    var d := DocumentSections(query, name, pages, relevance);
    forall i | 0 <= i < |d|
      ensures Paragraph(d[i].refinedText, d[i].pageNumber) in paragraphs
    {
      assert top[i] in top;
    }
  }

  /** The files' blocks one after the other, in file order. */
  function Concat(files: seq<string>, blocks: map<string, seq<RankedResult>>): seq<RankedResult>
    requires forall f :: f in files ==> f in blocks
  {
    if files == [] then [] else blocks[files[0]] + Concat(files[1..], blocks)
  }

  lemma {:induction false} ConcatAppendLast(files: seq<string>, blocks: map<string, seq<RankedResult>>)
    requires files != [] && forall f :: f in files ==> f in blocks
    ensures Concat(files, blocks) == Concat(files[..|files| - 1], blocks) + blocks[files[|files| - 1]]
  {
    var init, last := files[..|files| - 1], files[|files| - 1];
    if |files| == 1 {
      assert files[1..] == [] && init == [];
    } else {
      var tail := files[1..];
      assert tail[..|tail| - 1] == init[1..] && tail[|tail| - 1] == last;
      ConcatAppendLast(tail, blocks);
      var head, middle := blocks[files[0]], Concat(init[1..], blocks);
      assert Concat(tail, blocks) == middle + blocks[last];
      assert Concat(init, blocks) == head + middle;
      assert Concat(files, blocks) == head + (middle + blocks[last]);
      assert head + (middle + blocks[last]) == (head + middle) + blocks[last];
    }
  }

  /**
   * When every file can be opened, the combined `extracted_sections` is the
   * concatenation of the files' blocks in the order of the file list.
   */
  lemma {:induction false} SectionsAreConcat(files: seq<string>, blocks: map<string, seq<RankedResult>>)
    requires forall f :: f in files ==> f in blocks
    ensures Sections(files, blocks) == Ok(Concat(files, blocks))
  {
    if files != [] {
      SectionsAreConcat(files[..|files| - 1], blocks);
      ConcatAppendLast(files, blocks);
    }
  }

  /** The report of a successful run lists each PDF's block, in listing order. */
  lemma RunSections(descriptor: Json, listing: seq<string>, library: Library, relevance: (string, string) -> int, now: string)
    requires Run(descriptor, listing, library, relevance, now).Ok?
    ensures var query, files := Load(descriptor).value.0, PdfFiles(listing);
      && (forall f :: f in files ==> f in library)
      && Run(descriptor, listing, library, relevance, now).value.extractedSections == Concat(files, Blocks(query, library, relevance))
  {
    var query := Load(descriptor).value.0;
    RunOkIff(descriptor, listing, library, relevance, now);
    SectionsAreConcat(PdfFiles(listing), Blocks(query, library, relevance));
  }
}
