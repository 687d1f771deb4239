# rag-starter: upload validation, corpus assembly and prompt construction in Dafny

rag-starter is a small retrieval-augmented question answering service. Text files
are uploaded through an HTTP endpoint into `data/docs`. `build_index` splits every
file into elements, embeds their texts and stores the vectors in a faiss index.
A question is embedded and the nearest chunks are retrieved. The chunks and the
question are then put into a prompt for a chat model.

This project models the three sequential, self-contained parts of that pipeline:

- `api.dfy` (module `Api`, pure): the file-type check `allowed_file` and the
  decision chain of the `/upload` handler. The request is abstracted to an optional
  file part, holding the client's filename and the outcome the file system gives
  when the file is saved. `secure_filename` is a function parameter. The handler
  returns the response (JSON body and status) and the path `file.save` was called
  with, if it was called at all.
- `embedder.dfy` (module `Embedder`, imperative): the nested loops of
  `build_index`. They walk the files in listing order and each file's elements in
  order, and append every non-empty text to `documents` and the file's name to
  `sources`. The directory listing and the partitioner are replaced by their
  result, a sequence of files with their elements. `AssembleCorpus` is the loop,
  proved against the specification function `Corpus`. `Positions` names the
  element behind each chunk, and the lemmas prove provenance, order, completeness
  and size. `BuildIndex` wraps the loop with the embedding call, which is a
  parameter, and returns the two lists unchanged.
- `generator.dfy` (module `Generator`, pure): the context join (`"\n\n".join`)
  and the prompt template of `generate_response`. The template is copied
  character for character, including its second line of four spaces. The reader
  `QueryOf` recovers the question from a prompt built around a known context, and
  is proved to be the inverse of prompt construction for that context.
- `wrappers.dfy`: the `Option` and `Result` datatypes used by the three modules.

## Model

| member | source | states |
|---|---|---|
| `Api.Lower` | api.py:15 | `str.lower` on ASCII letters: same length, each character lower-cased |
| `Api.RSplitOnce` | api.py:15 | `rsplit('.', 1)`: no split exactly when the separator is absent; otherwise head, separator and tail rebuild the name and the tail holds no separator (the split is at the last one) |
| `Api.RSplitOnceOf` | api.py:15 | any decomposition `head + sep + tail` with a separator-free tail is exactly the one the split returns |
| `Api.NoDotRejected` | api.py:15 | a filename without `.` is rejected |
| `Api.ExtensionAfterLastDot` | api.py:15 | only the last extension counts: `stem.ext` with dot-free `ext` is accepted iff `ext` lower-cases to `txt`, whatever dots the stem holds |
| `Api.TrailingDotRejected` | api.py:15 | a filename ending in `.` (empty extension) is rejected |
| `Api.AllowedFileIffEndsInDotTxt` | api.py:14-15 | independent characterisation, both directions: accepted iff the name ends in `.` followed by three characters spelling `txt` in any case |
| `Api.AllowedFileOfLower` | api.py:15 | a name is accepted exactly when its lower-cased form is |
| `Api.AllowedFileCaseInsensitive` | api.py:15 | two names equal up to case are accepted alike |
| `Api.CaseExample` | api.py:15 | `notes.TXT` and `notes.txt` are both accepted |
| `Api.LastExtensionExample` | api.py:15 | `a.pdf.txt` is accepted, `a.txt.pdf` is rejected |
| `Api.RejectedExample` | api.py:15 | `notes`, `notes.` and `test.pdf` are rejected |
| `Api.UploadFile` | api.py:18-42 | no file part gives 400 "No file part in the request"; an empty filename gives 400 "No file selected" before the type check; a disallowed name gives 400 "File type not allowed. Only .txt files are accepted"; in none of these is a save attempted; otherwise the file is saved at `os.path.join('data/docs', name)` for the secured name, and the response is 201 with that name or 500 "Error saving file: " plus the error |
| `Api.UploadStatusClassification` | api.py:18-42 | each request gets exactly one status: 400 iff a check rejects it, 201 iff it passes and the save succeeds, 500 iff it passes and the save raises; a save is attempted iff the checks pass |
| `Api.UploadSavesIntoFolder` | api.py:34-36 | a request that passes the checks is saved at `data/docs/` followed by its secured name, whenever that name is relative |
| `Api.UploadValidTxtCase` | tests/test_api.py:17-31 | uploading `test.txt` answers 201 with filename `test.txt` and saves to `data/docs/test.txt` |
| `Api.UploadRejectedCases` | tests/test_api.py:36-59 | `test.pdf`, a missing file part and an empty filename each answer 400 with their message and save nothing |
| `Embedder.AssembleCorpus` | embedder.py:19-26 | the loops yield `documents` and `sources` of equal length, and pair `i` is chunk `i` of the specified corpus |
| `Embedder.Provenance` | embedder.py:20-26 | chunk `i` comes from the element at `Positions[i]`, which has text; its document is that text and its source is that file's name |
| `Embedder.DocumentsNonEmpty` | embedder.py:24-25 | every document is a non-empty text |
| `Embedder.PositionsIncreasing` | embedder.py:20-26 | order is preserved: chunks follow the listing order of files and, within a file, element order |
| `Embedder.PositionsComplete` | embedder.py:22-26 | every element with text yields a chunk; only empty or missing texts are skipped |
| `Embedder.CorpusSize` | embedder.py:22-26 | the number of documents equals the number of elements with text across all files |
| `Embedder.BuildIndex` | embedder.py:18-34 | the result is exactly the assembled `(documents, sources)`; embedding does not alter them; a raising embedding call or an empty embedding list (the `embeddings[0]` IndexError) is an error |
| `Generator.JoinLength` | generator.py:9 | the joined context is as long as all chunks plus one separator between neighbours |
| `Generator.JoinPartAt` | generator.py:9 | chunk `k` appears verbatim at its offset, so the chunks appear in the given order |
| `Generator.JoinSeparatorAfter` | generator.py:9 | a blank line separates each chunk from the next |
| `Generator.JoinLastPartEnds` | generator.py:9 | the last chunk ends the context |
| `Generator.Context` | generator.py:9 | no chunks give an empty context; one chunk gives itself |
| `Generator.PromptLayout` | generator.py:10-18 | the prompt opens with the instruction line and the template head ending in `Context:`, then holds the context, then `Question:` and the query verbatim, and ends with `Answer:` |
| `Generator.QueryRoundTrip` | generator.py:15-18 | the question read back from a built prompt is the query |
| `Generator.QueryOfSound` | generator.py:10-18 | any string the reader accepts is the prompt built from the question it reads |
| `Generator.PromptDeterminedByContext` | generator.py:9-18 | for a fixed question, two chunk lists give the same prompt iff they give the same context |

## Left out

- Embedding calls (`get_embeddings`, embedder.py:11-16) and the chat completion (generator.py:20-26): foreign network calls. The embedding call is a function parameter of `BuildIndex`; the chat call is not modelled.
- faiss index construction, the index file write (embedder.py:29-33) and `retriever.py`: floating-point numerics in a library whose code is not available. The vectors are opaque to `BuildIndex`, so faiss errors such as inconsistent dimensions are not modelled.
- `os.listdir`, `partition`, `os.makedirs`, `file.save` and the internals of `secure_filename`: file-system and library plumbing. They appear only as inputs (the listing, the save outcome) or a function parameter.
- Embedder.BuildIndex: an exception raised by `os.listdir`, `partition` or `faiss.write_index` (for instance a missing `index/` directory, embedder.py:33) stops `build_index`; the model takes the listing and the partitions as given and does not model the index write, so in those cases it still returns `Success`.
- Flask routing and JSON serialisation: only the status code and the body's fields are modelled.
- `app.py` (script glue with interactive input), `run_dev.py` (file watching and process restarts) and `tests/conftest.py` (warning filters): not part of the modelled logic.
- Api.Lower: lower-cases ASCII letters only, not all of Unicode. The only comparison made is against `txt`, and no other character lower-cases to `t` or `x`, so acceptance is unaffected.
