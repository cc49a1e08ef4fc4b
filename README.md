# QR code recognition and naming tool: a Dafny model

The tool renames every PDF in a folder after the QR code on its first page. This
project models the three parts of that program that hold logic of their own:

- **Region detector** (`region.dfy`, module `RegionDetector`). The four corner
  points the QR detector reports become an axis-aligned bounding box. The
  minimum and maximum of X and of Y are each taken separately. When the
  detector finds nothing, raises, or reports no corners, the whole page is
  used.
- **Decoder chain** (`decoding.dfy`, module `DecoderChain`). The QR-only symbol
  reader runs on the cropped page, and the first symbol it finds wins. Only
  when it finds no symbol is the detect-and-decode reader consulted, and its
  result is kept only when it is a non-empty string.
- **Rename orchestrator** (`renaming.dfy`, module `RenameOrchestrator`). One
  pass over a snapshot of the listing. Each entry whose lower-cased name ends in
  ".pdf" is decided as one of: not found (no payload), already correct,
  conflict (the target name exists), or renamed. A rename changes the namespace
  that later entries of the same pass see. The directory is a class
  `Directory` with a mutable `files: map<string, Content>`. Its method
  `RenamePdfs` runs the loop and is proved equal to the functional pass `Run`.
  The lemmas state what the pass promises:
  - the ".pdf" filter;
  - no decoding of non-PDF entries;
  - the frame: every name that is neither listed nor a rename target keeps
    its presence and content;
  - no file lost or overwritten;
  - each entry is decided against the namespace its predecessors left;
  - idempotence, under the premise that the first pass met no conflict.

`wrappers.dfy` holds the `Option` type, which stands for Python's `None`.

The library calls become inputs:

- A PDF is a `Page`. It is either `Unreadable` (it cannot be opened, has no
  first page, or cannot be rendered) or `Rendered`.
- A `Rendered` page carries three things: the corners the detector reports on
  the binarised page, the primary reader's result for a given crop, and the
  secondary reader's result for a given crop.
- The orchestrator receives `pages: Content -> Page`. Decoding depends on a
  file's content, and the content travels with a rename.

Where one might expect otherwise, the model follows the code:

- A PDF whose extraction fails gives `NotFound`. The code has no separate
  "failed" outcome: after the correction below, the extractor returns `None`.
- When the first primary symbol is not valid UTF-8, decoding it raises. The
  exception lands in the extractor's outer handler, so the result is no payload
  and the secondary reader is not tried.
- Running the tool twice does not always leave the second pass with nothing to
  do. A conflict whose target is renamed away later in the same pass goes
  through on the second pass (`ConflictCanResolveOnSecondRun`). Idempotence is
  proved for a first pass without conflicts (`SecondRunChangesNothing`).

## Model

| member | source | states |
|---|---|---|
| `RegionDetector.Min` | QrCodeRecognitionAndNamingTool/QrCodeRecognitionAndNamingTool.py:26-27 | the minimum of a non-empty column is at most every element and equals one of them |
| `RegionDetector.Max` | QrCodeRecognitionAndNamingTool/QrCodeRecognitionAndNamingTool.py:28-29 | the maximum of a non-empty column is at least every element and equals one of them |
| `RegionDetector.BoundingBox` | QrCodeRecognitionAndNamingTool/QrCodeRecognitionAndNamingTool.py:25-29 | there is no box exactly when there are no corners; otherwise the box encloses every corner and each of its four edges is attained by some corner |
| `RegionDetector.DetectAndCrop` | QrCodeRecognitionAndNamingTool/QrCodeRecognitionAndNamingTool.py:22-36 | the whole image is kept exactly when the detector found nothing, raised, or gave no corners; otherwise the crop's box is the bounding box of the corners |
| `RegionDetector.BoundingBoxUnique` | QrCodeRecognitionAndNamingTool/QrCodeRecognitionAndNamingTool.py:25-29 | two boxes that both enclose all corners with every edge attained are equal |
| `RegionDetector.BoundingBoxIsSmallest` | QrCodeRecognitionAndNamingTool/QrCodeRecognitionAndNamingTool.py:25-29 | every box enclosing all corners encloses the computed box |
| `RegionDetector.BoundingBoxOrderIndependent` | QrCodeRecognitionAndNamingTool/QrCodeRecognitionAndNamingTool.py:25-29 | corner lists that are permutations of each other give the same box |
| `RegionDetector.BoundingBoxCharacterized` | QrCodeRecognitionAndNamingTool/QrCodeRecognitionAndNamingTool.py:25-29 | any box that encloses all corners with every edge attained is the computed box |
| `RegionDetector.SquareCornersExample` | QrCodeRecognitionAndNamingTool/QrCodeRecognitionAndNamingTool.py:25-31 | corners (10,10), (50,10), (50,60), (10,60) give the box (10,10)-(50,60) |
| `DecoderChain.ExtractPayload` | QrCodeRecognitionAndNamingTool/QrCodeRecognitionAndNamingTool.py:54-87 | an unreadable PDF gives no payload (the corrected extractor; see Findings) |
| `DecoderChain.PrimaryWins` | QrCodeRecognitionAndNamingTool/QrCodeRecognitionAndNamingTool.py:72-74 | a non-empty primary list yields its first symbol, and the result is the same whatever the secondary reader would return |
| `DecoderChain.SecondaryOnlyAfterEmptyPrimary` | QrCodeRecognitionAndNamingTool/QrCodeRecognitionAndNamingTool.py:72-87 | unless the primary list is empty, the secondary result has no influence; after an empty list, a non-empty secondary string is returned; a falsy one gives no payload |
| `DecoderChain.Fallback` | QrCodeRecognitionAndNamingTool/QrCodeRecognitionAndNamingTool.py:72-87 | every payload is either the first primary symbol or, after an empty primary list, the truthy secondary string; after an empty list a payload exists exactly when the secondary result is truthy; a raising primary stage gives no payload |
| `DecoderChain.NoDetectionDecodesFullPage` | QrCodeRecognitionAndNamingTool/QrCodeRecognitionAndNamingTool.py:64-80 | with no detection, both readers are given the whole page |
| `DecoderChain.DetectionDecodesBox` | QrCodeRecognitionAndNamingTool/QrCodeRecognitionAndNamingTool.py:64-80 | with corners detected, both readers are given the crop to their bounding box |
| `DecoderChain.ExtractAsWritten` | QrCodeRecognitionAndNamingTool/QrCodeRecognitionAndNamingTool.py:54-87 | as written, the extractor raises exactly on an unreadable PDF (see Findings) |
| `DecoderChain.UnreadableRaisesAsWritten` | QrCodeRecognitionAndNamingTool/QrCodeRecognitionAndNamingTool.py:54-86 | as written, an unreadable PDF makes the extractor raise from its cleanup |
| `DecoderChain.ExtractAgreesWhereWrittenReturns` | QrCodeRecognitionAndNamingTool/QrCodeRecognitionAndNamingTool.py:54-87 | the code as written returns exactly on rendered pages, and there it returns the corrected extractor's payload |
| `RenameOrchestrator.Decide` | QrCodeRecognitionAndNamingTool/QrCodeRecognitionAndNamingTool.py:111-130 | an entry is skipped as non-PDF exactly when it fails the filter, and is not found exactly when it is a PDF with a falsy payload; for a PDF with a truthy payload and target t = payload + ".pdf": already correct exactly when t is its own name, a conflict on t exactly when t is another existing name, renamed to t exactly when t is another free name |
| `RenameOrchestrator.Move` | QrCodeRecognitionAndNamingTool/QrCodeRecognitionAndNamingTool.py:123 | after a rename the source name is gone and the target holds its content; every other entry is unchanged; the number of entries and the set of contents are kept |
| `RenameOrchestrator.Apply` | QrCodeRecognitionAndNamingTool/QrCodeRecognitionAndNamingTool.py:122-126 | only a rename changes the namespace: the source name is gone and the target holds its content; every other entry keeps its content; the number of entries and the set of contents are kept |
| `RenameOrchestrator.Run` | QrCodeRecognitionAndNamingTool/QrCodeRecognitionAndNamingTool.py:110-130 | the pass reports one outcome per listed entry |
| `RenameOrchestrator.IsPdfIff` | QrCodeRecognitionAndNamingTool/QrCodeRecognitionAndNamingTool.py:111 | a name passes the filter if and only if it ends in '.', 'p' or 'P', 'd' or 'D', 'f' or 'F' |
| `RenameOrchestrator.TargetIsPdf` | QrCodeRecognitionAndNamingTool/QrCodeRecognitionAndNamingTool.py:116 | every rename target passes the filter |
| `RenameOrchestrator.PdfFilter` | QrCodeRecognitionAndNamingTool/QrCodeRecognitionAndNamingTool.py:110-111 | an entry is reported as non-PDF if and only if its name fails the filter |
| `RenameOrchestrator.NonPdfListingNeverDecoded` | QrCodeRecognitionAndNamingTool/QrCodeRecognitionAndNamingTool.py:110-114 | a listing without PDFs leaves the directory unchanged, and its result is the same whatever the files would decode to |
| `RenameOrchestrator.NonPdfEntriesUntouched` | QrCodeRecognitionAndNamingTool/QrCodeRecognitionAndNamingTool.py:110-116 | a name that fails the filter keeps its presence and content through the pass |
| `RenameOrchestrator.RunSplit` | QrCodeRecognitionAndNamingTool/QrCodeRecognitionAndNamingTool.py:110 | a pass over two listings in sequence is the second pass run on what the first left |
| `RenameOrchestrator.EachEntrySeesEarlierRenames` | QrCodeRecognitionAndNamingTool/QrCodeRecognitionAndNamingTool.py:110-126 | the outcome of the i-th entry is its decision against the namespace left by entries 0 to i-1 |
| `RenameOrchestrator.RunFrame` | QrCodeRecognitionAndNamingTool/QrCodeRecognitionAndNamingTool.py:110-126 | a name that is not listed and that no rename targets keeps its presence and content |
| `RenameOrchestrator.RunConservesFiles` | QrCodeRecognitionAndNamingTool/QrCodeRecognitionAndNamingTool.py:122-126 | the pass keeps the number of entries and the set of contents: nothing is lost or overwritten |
| `RenameOrchestrator.UnreadablePdfNotFound` | QrCodeRecognitionAndNamingTool/QrCodeRecognitionAndNamingTool.py:114-130 | an unreadable PDF is reported as not found and the namespace is unchanged |
| `RenameOrchestrator.SettledRunIsNoop` | QrCodeRecognitionAndNamingTool/QrCodeRecognitionAndNamingTool.py:115-121 | over a directory where every PDF has a falsy payload or is named after its payload, a pass changes nothing and reports only non-PDF, not found or already correct |
| `RenameOrchestrator.ConflictFreeRunSettles` | QrCodeRecognitionAndNamingTool/QrCodeRecognitionAndNamingTool.py:110-126 | if every entry not listed is already in place and the pass meets no conflict, every entry afterwards is in place |
| `RenameOrchestrator.SecondRunChangesNothing` | QrCodeRecognitionAndNamingTool/QrCodeRecognitionAndNamingTool.py:110-126 | after a conflict-free pass over the whole listing, a second pass renames nothing and leaves the directory unchanged |
| `RenameOrchestrator.LaterEntrySeesEarlierRename` | QrCodeRecognitionAndNamingTool/QrCodeRecognitionAndNamingTool.py:110-126 | two PDFs carrying "INV-2024-001": the first becomes "INV-2024-001.pdf", and the second then meets that name and is skipped |
| `RenameOrchestrator.CollisionExample` | QrCodeRecognitionAndNamingTool/QrCodeRecognitionAndNamingTool.py:122-126 | "A.pdf" carrying "X" next to an existing "X.pdf" gives a conflict, and both files are unchanged |
| `RenameOrchestrator.ConflictCanResolveOnSecondRun` | QrCodeRecognitionAndNamingTool/QrCodeRecognitionAndNamingTool.py:110-126 | a conflict whose target is renamed away later in the same pass becomes a rename on a second pass |
| `RenameOrchestrator.RenameReplacing` | QrCodeRecognitionAndNamingTool/QrCodeRecognitionAndNamingTool.py:123 | a rename that replaces an existing target: the source is gone and the target holds its content, and when the target existed the directory has one entry fewer (see Findings) |
| `RenameOrchestrator.ReplacingRenameLosesTarget` | QrCodeRecognitionAndNamingTool/QrCodeRecognitionAndNamingTool.py:122-126 | with a rename that replaces an existing target, "A.pdf" carrying "X" destroys the existing "X.pdf" (see Findings) |
| `RenameOrchestrator.Directory.Rename` | QrCodeRecognitionAndNamingTool/QrCodeRecognitionAndNamingTool.py:122-128 | the rename succeeds exactly when the source exists and the target does not; then the namespace is the move; otherwise it is unchanged |
| `RenameOrchestrator.Directory.ProcessFile` | QrCodeRecognitionAndNamingTool/QrCodeRecognitionAndNamingTool.py:111-130 | one entry's outcome is its decision against the current namespace, and the new namespace is that outcome applied |
| `RenameOrchestrator.Directory.RenamePdfs` | QrCodeRecognitionAndNamingTool/QrCodeRecognitionAndNamingTool.py:106-130 | the loop leaves the namespace and reports the outcomes of the functional pass over the listing |

## Left out

- Rendering the page, binarising it with Otsu's method and the internals of both QR readers and of the corner detector are library code. Their results are inputs of the model (`Page`).
- The corners are integers. The truncation of the detector's floating-point corners by `int(...)` is not modelled.
- Cropping is a tagged value (`Full` or `Cropped(box)`). What a crop does to pixels is not modelled.
- Closing images, and the context manager that closes the PDF, are resource release. They are not modelled, except that unbound images crash the cleanup (see Findings).
- The listing is a parameter. `os.listdir`, its order and the choice of folder from the program's own location are not modelled.
- Logging with `print` is reduced to the reported `Outcome` of each entry.
- `os.path.abspath` is not modelled. The "already correct" test compares the name with payload + ".pdf". This equals the path comparison when payloads hold no path separator, which `ProcessFile` and `RenamePdfs` require (`PlainPayloads`).
- Names are compared exactly, case included. Windows looks names up without regard to case: there "A.pdf" carrying "x" next to "X.pdf" meets `FileExistsError` and is skipped, while the model renames it to "x.pdf" beside "X.pdf".
- `PlainPayloads` excludes only '/' and '\\'. A payload holding a drive prefix such as "C:" makes `os.path.join` leave the directory on Windows; the model treats it as a plain name.
- A rename that fails for a reason other than an existing target is not modelled (the handler that prints it and continues). The only failing rename in the model is a missing source or an existing target. Either leaves the directory unchanged.
- Lower-casing folds ASCII letters only. Python's `str.lower` also folds other letters, but none of them folds to '.', 'p', 'd' or 'f', so the ".pdf" test is the same.
- The primary reader raising is `Primary.Raised`. The code treats it like a first symbol that is not valid UTF-8: the outer handler returns `None`.
- The packaging script (setup.py) only builds an executable. It is not part of this model.

## Findings

| source | as written | input that shows it | evidently intended | confidence | as-written member | corrected member |
|---|---|---|---|---|---|---|
| QrCodeRecognitionAndNamingTool/QrCodeRecognitionAndNamingTool.py:56-86 | when opening or rendering fails before `image` is bound, the `finally` block calls `image.close()` on an unbound local. The resulting `UnboundLocalError` escapes the extractor and `rename_pdfs_in_folder`, so the whole batch stops | a PDF that cannot be opened, or that has no pages, in the folder | the failure is contained to that file: no payload, and the pass continues | high, not executed | `DecoderChain.ExtractAsWritten`, `DecoderChain.UnreadableRaisesAsWritten` | `DecoderChain.ExtractPayload`, `RenameOrchestrator.UnreadablePdfNotFound` |
| QrCodeRecognitionAndNamingTool/QrCodeRecognitionAndNamingTool.py:122-126 | on POSIX systems `os.rename` replaces an existing target without raising `FileExistsError`, so the "already exists, skipping rename" branch never runs | "A.pdf" carrying "X" next to an existing "X.pdf": the old "X.pdf" is destroyed | an existing target is never overwritten, as the `FileExistsError` handler intends | high on POSIX, not executed | `RenameOrchestrator.RenameReplacing`, `RenameOrchestrator.ReplacingRenameLosesTarget` | `RenameOrchestrator.Directory.Rename`, `RenameOrchestrator.RunConservesFiles` |
