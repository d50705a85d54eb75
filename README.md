# Persona-driven section ranking, modelled in Dafny

`process_documents.py` reads a persona and a job-to-be-done from a JSON
descriptor. It joins them into one query string and extracts the text
blocks of every PDF in an input directory. For each PDF it keeps the five
blocks most similar to the query, and it writes all of them as one JSON report.
This project models that pipeline and proves what it guarantees:

- `persona.dfy` (`load_persona`): the descriptor is a parsed JSON value.
  `Load` performs the four lookups in the order Python performs them, and the
  first missing key or non-object value is the error. The query is
  `role + ": " + task`, and the optional `challenge_info` and `documents`
  entries default to `{}` and `[]`.
- `extract.dfy` (`extract_paragraphs_from_pdf`): a document is the sequence of
  its pages, each the sequence of its text blocks. A block is stripped of
  surrounding whitespace with Python's `str.isspace` set. It is kept when it is
  longer than 50 characters and does not start with `"page "` in any letter
  case. Kept blocks are tagged with their 1-based page number. The nested page
  and block loops are a method proved equal to the recursive definition
  `Paragraphs`. Its soundness, completeness, page order and per-page content
  are lemmas.
- `rank.dfy` (`rank_paragraphs`): the similarity scores are a sequence of
  integers zipped with the paragraphs. `sorted(..., reverse=True)` is a stable
  sort by descending score. The lemmas prove that this ordering is unique, so
  the model's insertion sort determines the same list Python's sort returns.
  The list is cut to `top_k` with Python's slice semantics. Results are ranked
  1, 2, ... with a title of at most 63 characters.
- `pipeline.dfy` (`process_all_pdfs`): the environment is given as parameters:
  - the descriptor;
  - the directory listing;
  - the pages of each PDF the PDF library can open;
  - a relevance function standing for the embedding model and cosine similarity;
  - the timestamp.

  The loop over the PDF files is a method proved equal to `Run`. The lemmas
  show that the run fails on a bad descriptor before any PDF is used, and that
  it fails exactly when some listed PDF cannot be opened, with the first such
  file. On success, the report lists each PDF's block of at most five entries
  in listing order.

A section title equals its text for every text of at most 60 characters. The
converse does not hold for the code: a 63-character text ending in `"..."` is
its own title. `LongTextCanBeItsOwnTitle` exhibits this, and the model follows
the code.

## Model

| member | source | states |
|---|---|---|
| Persona.Load | process_documents.py:15-22 | the descriptor loads exactly when `persona.role` and `job_to_be_done.task` are both present as strings; the query is role + ": " + task; the metadata keeps role and task, and `challenge_info` and `documents` default to `{}` and `[]`; a non-object descriptor, a missing `persona` and a missing `job_to_be_done` give the errors Python raises first |
| Persona.QueryRecoversFields | process_documents.py:17 | when the role contains no ": ", the query's first ": " sits right after the role, and the role and the job task are recovered from either side of it |
| Extract.TrimStartSpec | process_documents.py:32 | stripping the front removes exactly the leading whitespace: the result is a suffix, everything removed is whitespace, and the result does not start with whitespace |
| Extract.TrimEndSpec | process_documents.py:32 | stripping the back removes exactly the trailing whitespace: the result is a prefix, everything removed is whitespace, and the result does not end with whitespace |
| Extract.TrimSpec | process_documents.py:32 | `strip()` returns the contiguous slice of the block left after removing its whitespace on both sides, and that slice neither starts nor ends with whitespace |
| Extract.TrimIdempotent | process_documents.py:32 | stripping a stripped block changes nothing |
| Extract.LowerStartsWithIsPrefix | process_documents.py:33 | the character-wise footer comparison is the same as `prefix <= lower(text)` |
| Extract.IsFooterByLetters | process_documents.py:33 | a block is a footer exactly when it starts with p, a, g, e in either case followed by a space |
| Extract.ExtractParagraphs | process_documents.py:25-38 | the nested page and block loops produce exactly `Paragraphs(pages)` |
| Extract.PageParagraphsSound | process_documents.py:31-37 | every paragraph of a page carries that page's number, qualifies by length and footer test, and is a stripped block of the page |
| Extract.PageParagraphsComplete | process_documents.py:31-37 | every block of a page whose stripped text qualifies appears as a paragraph of that page |
| Extract.ParagraphsSound | process_documents.py:29-37 | every extracted paragraph has a page number from 1 to the page count, qualifies, and is a stripped block of the page it names |
| Extract.ParagraphsComplete | process_documents.py:29-37 | every qualifying stripped block of page p + 1 is extracted with page number p + 1 |
| Extract.ParagraphsInPageOrder | process_documents.py:29-37 | page numbers never decrease along the extracted paragraphs |
| Extract.ParagraphsOfPage | process_documents.py:29-37 | the extracted paragraphs tagged with page p are exactly that page's qualifying blocks, in block order |
| Rank.SortByScore | process_documents.py:48-49 | the ranked list is in descending score order, is a permutation of the zipped candidates, and keeps equal-score candidates in input order (stability) |
| Rank.DescendingDeterminedByScores | process_documents.py:48-49 | two descending lists that agree on the order of each score's candidates are equal |
| Rank.SortByScoreUnique | process_documents.py:48-49 | any descending ordering that keeps equal-score candidates in input order is the one the sort returns, so the model's sort and Python's stable sort agree |
| Rank.SortByScoreIdempotent | process_documents.py:48-49 | an already descending list is left unchanged, and sorting twice is sorting once |
| Rank.Prefix | process_documents.py:52 | `s[:k]` is a prefix of `s` whose length follows Python's slice rule for every integer k, negative ones included |
| Rank.TopCandidatesLength | process_documents.py:48-52 | the ranked list holds min(K, number of paragraphs) entries for K >= 0 |
| Rank.TopCandidatesRanked | process_documents.py:48-52 | the kept candidates are in descending order; for each score they are the first input candidates with that score, in input order; they form a sub-multiset of the input |
| Rank.TopCandidatesCutoff | process_documents.py:48-52 | no candidate left out of the cut has a higher score than one that made it |
| Rank.TopCandidatesFromParagraphs | process_documents.py:43-52 | every kept candidate carries the text and page of one of the input paragraphs |
| Rank.SectionTitle | process_documents.py:56 | the title is at most 63 characters; a text of at most 60 characters is its own title; a longer one gives its first 60 characters followed by "..." |
| Rank.LongTextCanBeItsOwnTitle | process_documents.py:56 | a 63-character text ending in "..." equals its own title, so "title equals text" does not imply "text is at most 60 characters" |
| Rank.ResultsNumbered | process_documents.py:52-59 | result i has rank i + 1, its candidate's page and full text, the title of that text, and an empty document name |
| Rank.NoParagraphsNoResults | process_documents.py:43-60 | a document without paragraphs yields no results |
| Rank.RankParagraphs | process_documents.py:41-60 | the result loop builds exactly the results of the top-K candidates of the stable descending sort |
| Pipeline.PdfFiles | process_documents.py:67 | a name is among the PDF files exactly when it is in the listing and ends with ".pdf" |
| Pipeline.AppendStamped | process_documents.py:74-76 | the inner loop appends each ranked entry, stamped with the file name, after the results so far |
| Pipeline.ProcessAllPdfs | process_documents.py:63-86 | the load and the loop over the PDF files produce exactly `Run`: the report, or the first error |
| Pipeline.DescriptorErrorStopsRun | process_documents.py:64-72 | when the descriptor does not load, the run fails with that error whatever the directory and the PDFs hold |
| Pipeline.SectionsErrorPersists | process_documents.py:69-72 | once a file cannot be opened, processing further files keeps that failure |
| Pipeline.SectionsFirstMissing | process_documents.py:69-72 | processing fails exactly when some file cannot be opened, and the error names the first such file in list order |
| Pipeline.SectionsOkIff | process_documents.py:69-76 | the combined list exists exactly when every file in the list can be opened |
| Pipeline.RunOkIff | process_documents.py:63-84 | a run succeeds exactly when the descriptor loads and every listed ".pdf" file can be opened |
| Pipeline.RunMetadata | process_documents.py:78-84 | the report's metadata lists the PDF files in listing order, the role, the job task and the given timestamp |
| Pipeline.DocumentSectionsShape | process_documents.py:70-76 | one document contributes min(5, number of its paragraphs) entries. Each is stamped with the file name and ranked 1, 2, ... in order. Each carries one of the document's paragraphs and a title of at most 63 characters |
| Pipeline.SectionsAreConcat | process_documents.py:69-76 | when every file can be opened, the combined list is the files' blocks concatenated in file order |
| Pipeline.RunSections | process_documents.py:66-86 | a successful report's `extracted_sections` is the listed PDFs' blocks concatenated in listing order |

## Left out

- Opening PDFs and splitting pages into blocks (PyMuPDF): a document is given as its pages of block texts. A file absent from the library map stands for one the library cannot open. The other fields of a block tuple (coordinates, block type) are not modelled.
- The sentence-embedding model and cosine similarity: replaced by a relevance function from (query, paragraph text) to an integer. Floating-point scores, NaN and rounding ties are not modelled. Whether the embedding library accepts an empty paragraph list is not modelled either: the model ranks an empty list to no results.
- Reading the descriptor file and parsing JSON: `Load` receives the parsed value. JSON numbers are integers in the model.
- Persona.Load: a role or task that is not a JSON string is rejected with `NotText`, whereas Python would format any value into the query with `str()`. Modelling `str()` of arbitrary JSON values is out of scope.
- The hard-coded descriptor path, `os.path.join`, and the order of `os.listdir`: the listing is a parameter and is taken in the order given.
- `datetime.now().isoformat()`: the timestamp is a parameter.
- `os.makedirs`, writing `result.json` and its pretty-printing: the model stops at the report value. Errors raised while writing are not modelled.
- `str.lower()` beyond ASCII letters: only the `"page "` prefix is compared after lower-casing. No non-ASCII character lower-cases to one of its characters, so the footer test is unaffected.
- Python exceptions: every error is an `Err` value that ends the run, as an uncaught exception ends the script.
- The in-place update `r["document"] = pdf_file`: modelled on values, because each result dictionary is fresh and unshared.
- Python's Timsort: the model sorts by insertion. `SortByScoreUnique` shows that any stable descending sort gives the same list.
