# ocrmypdf-web in Dafny

This project models the core of a small Flask service that puts OCRmyPDF behind a web form.

A client uploads a PDF together with OCRmyPDF's command-line options and some optional image-enhancement settings. The service then:

- checks the file name;
- looks the content up in a hash-keyed cache of earlier results;
- when any form field's name ends in `_enabled` (whether or not it names a stage), rasterises every page, cleans the page image with OpenCV and reassembles the pages into a PDF (`PDFImageEnhancer`);
- runs `ocrmypdf` on the result;
- records the output in the cache and returns it, or maps the failure to an error reply.

The model covers `src/webservice.py` (`allowed_file`, `create_enhancer_config`, `enhance_pdf`, `do_ocrmypdf`, `process_upload_request`, `download_file`) and `src/enhancer.py` (`PDFImageEnhancer.__init__`, `preprocess_image`, `get_pdf_page_count`, `process_pdf`).

The filesystem is one value, `Files.FileSystem`: a map from path to file content plus a set of directories. Every operation takes a filesystem and returns the one it leaves behind. `PDFImageEnhancer` never reassigns its fields after construction, so it is a datatype.

The libraries the code calls are record fields holding functions, and are left uninterpreted:

- OpenCV kernels, in `Imaging.Kernels`;
- pdf2image and PIL, in `Enhancer.Documents`;
- `secure_filename`, `shlex.split`, SHA-256, `int()`/`float()`, `str(e)` and the `ocrmypdf` subprocess, in `Webservice.Service`.

Python exceptions are values of `Common.Fault`. Those the code raises itself are named after their Python class (`ValueError`, `AssertionError`, `IndexError`, `KeyError`). Library and OS errors are named after the failing call (`PageCountError`, `OpenError`, `SaveError`, `RemoveError`, `RmdirError`, `SplitError`); their Python class is not modelled. Code that may raise returns a `Result` or an `(Option<Fault>, FileSystem)` pair.

Three members are imperative, because the source loops and updates variables step by step:

- `Enhancer.PdfImageEnhancer.ProcessPdf` (the page loop and the removal loop);
- `Webservice.EnhancePdfCall` (`enhance_pdf`, calling the imperative `process_pdf`);
- `Webservice.DoOcrMyPdf` (`cache_input`, `cmd_args`, `cache_index` reassigned in place).

Each of them is proved equal to a specification function (`Run`, `EnhancePdf`, `DoOcr`). The lemmas are stated about those functions.

Modules:

- `Common`: Option, Result, Fault.
- `Text`: `rfind`, ASCII lower-casing, `in`/`startswith`/`endswith`, `{i:03d}`.
- `Paths`: `os.path.join`, `os.path.splitext`.
- `Files`: the filesystem value, `os.remove`, `os.rmdir`, `os.makedirs`, `Image.open`.
- `Imaging`: raster values and the binarisation step's 0/255 semantics.
- `Enhancer`: the configuration, `PDFImageEnhancer` and `process_pdf`.
- `Webservice`: the request handling.
- The proofs live in `PipelineProofs` (image preprocessing), `OrchestrationProofs` (`process_pdf`) and `WebserviceProofs` (`do_ocrmypdf` and the upload handler).

One behaviour of the code as written is stated as a lemma, not corrected: `WebserviceProofs.CacheHitOnOwnInput`. A cache entry whose name is this request's own `input_<name>` counts as a hit, and that file is removed before the reply. In the service, `send_from_directory` then raises NotFound, so the client gets a 404 and `process_upload_request` never returns its 200. The model's `Sent` reply in this case exists only because that 404 is abstracted away (see the first line under "## Left out").

## Model

| member | source | states |
|---|---|---|
| Text.LastIndexOf | src/webservice.py:66 | the index of the last occurrence of the character, or -1; nothing after it matches (the split point of `rsplit(".", 1)`) |
| Text.Lower | src/webservice.py:66 | same length; each character is its lower-case counterpart |
| Text.Pad3Properties | src/enhancer.py:114 | `{i:03d}` is all digits, at least three long, and reads back as `i` |
| Text.Pad3Injective | src/enhancer.py:114 | different page numbers give different padded numbers |
| Paths.Join | src/enhancer.py:16-17 | models `os.path.join(a, b)`; its properties are stated by `JoinRelative`, `JoinUnder`, `JoinShape` and `JoinInjective` |
| Paths.JoinRelative | src/enhancer.py:16-17 | joining a relative name is the directory, then a `/` unless the directory is empty or already ends in `/`, then the name |
| Paths.JoinUnder | src/enhancer.py:114 | a relative name joined to a directory lies inside that directory and ends with the name |
| Paths.JoinShape | src/enhancer.py:16-17 | joining a non-empty relative name that has no trailing `/` gives a non-empty path without one |
| Paths.JoinInjective | src/enhancer.py:114 | joining to the same directory is injective on relative names |
| Paths.Splitext | src/webservice.py:156 | models `os.path.splitext`; its properties are stated by `SplitextConcat` and `SplitextExtension` |
| Paths.SplitextConcat | src/webservice.py:156 | root and extension concatenate back to the name |
| Paths.SplitextExtension | src/webservice.py:156 | the extension is empty, or is a `.` followed by text with no `.` and no `/` |
| Files.Remove | src/enhancer.py:131-132 | `os.remove` succeeds exactly on a file and then deletes only that file; otherwise it raises |
| Files.Rmdir | src/enhancer.py:135-136 | `os.rmdir` succeeds exactly on an empty directory and removes only it; otherwise it raises |
| Files.OpenImage | src/enhancer.py:123 | opening succeeds exactly on an image file and yields its pixels |
| Imaging.AdaptiveThresholdBinary | src/enhancer.py:74-82 | OpenCV accepts exactly odd block sizes above 1; the output has the input's shape and each pixel is 255 when above the local mean minus C, else 0 |
| Enhancer.NewEnhancer | src/enhancer.py:10-17 | the enhancer keeps the configuration and its directories; the temp and enhanced directories are `temp_images` and `enhanced_images` under the upload directory |
| Enhancer.PdfImageEnhancer.PreprocessImage | src/enhancer.py:23-84 | models `preprocess_image`; `PipelineProofs.PreprocessRunsEnabledStages` and `EnabledStagesInOrder` state what it does |
| Enhancer.PdfImageEnhancer.WorkDirsCreated | src/enhancer.py:19-21 | models the three `os.makedirs` calls; `Enhancer.NewEnhancer` and `OrchestrationProofs.WorkDirLayout` state where the directories lie |
| Enhancer.PdfImageEnhancer.AttemptPage | src/enhancer.py:110-118 | models one page's `try` block (rasterise, preprocess, `imwrite`); `OrchestrationProofs.LoopWithFixedDocument` turns it into the page outcomes the loop lemmas use |
| Enhancer.PdfImageEnhancer.PageStep | src/enhancer.py:110-119 | models one pass of the page loop; `OrchestrationProofs.LoopWithFixedDocument` ties it to the abstract loop the proofs use |
| Enhancer.PdfImageEnhancer.PagesThrough | src/enhancer.py:108-119 | models the page loop over pages 1..m; `OrchestrationProofs.LoopShape`, `LoopOfLists` and `LoopOfFiles` state its result |
| Enhancer.PdfImageEnhancer.Cleanup | src/enhancer.py:130-136 | models the removal loop and the two `rmdir` calls; `OrchestrationProofs.CleanupDeletesOnlyItsOwn` and `CleanupAfterRemoval` state its effect |
| Enhancer.PdfImageEnhancer.Finish | src/enhancer.py:121-136 | models everything after the page loop; `OrchestrationProofs.FinishSucceeds` and `NoPageSucceeds` state its outcomes |
| Enhancer.PdfImageEnhancer.Run | src/enhancer.py:86-136 | models `process_pdf` as a function, with `get_pdf_page_count`'s file assertion and page count; `OrchestrationProofs.SuccessfulRun` and `NoPageSucceeds` state its end states |
| Enhancer.PdfImageEnhancer.ProcessPdf | src/enhancer.py:96-136 | the imperative page loop and cleanup leave the same exception and filesystem as the specification `Run` |
| PipelineProofs.SelectedOrdered | src/enhancer.py:32-84 | keeping the enabled stages of a rank-ordered list keeps the order, and keeps exactly the enabled stages |
| PipelineProofs.EnabledStagesInOrder | src/enhancer.py:32-84 | the stages run in the fixed order denoise, CLAHE, contrast, sharpen, binarise; each runs exactly when its flag is set |
| PipelineProofs.SelectedIsGuarded | src/enhancer.py:32-84 | running only the selected stages equals running every stage under its own flag |
| PipelineProofs.PreprocessRunsEnabledStages | src/enhancer.py:23-84 | `preprocess_image` is grayscale normalisation followed by the enabled stages in order, each fed the previous output; a raising stage stops it |
| PipelineProofs.GuardedChain | src/enhancer.py:32-84 | the five `if enabled` blocks in sequence are the guarded run of the stage order |
| PipelineProofs.AllDisabledIsGrayscale | src/enhancer.py:26-30 | with every stage disabled the result is the grayscale-normalised image |
| PipelineProofs.PlaneIsCopied | src/enhancer.py:29-30 | a two-dimensional image passes grayscale normalisation unchanged |
| PipelineProofs.BinarizedIsTwoValued | src/enhancer.py:73-82 | with binarisation enabled every produced image is two-valued (0/255) |
| PipelineProofs.LastStageDecides | src/enhancer.py:73-84 | a stage list ending with binarisation produces only two-valued images |
| PipelineProofs.BadBlockSizeFails | src/enhancer.py:74-82 | with binarisation enabled and an even or too small block size, preprocessing fails on every page |
| OrchestrationProofs.WorkDirLayout | src/enhancer.py:16-21 | the temp and enhanced directories are distinct, neither contains the other, nothing lies in both, and both lie in the upload directory |
| OrchestrationProofs.PageArtifactShape | src/enhancer.py:114 | page `i`'s image is `<enhanced_dir>/page_<digits>.png`, inside the enhanced directory, with its digits reading back as `i` |
| OrchestrationProofs.PageArtifactInjective | src/enhancer.py:114 | different pages get different image paths |
| OrchestrationProofs.ListedExactly | src/enhancer.py:109-119 | the listed pages ascend strictly, are exactly the pages whose attempt did not raise, and carry those pages' images in order |
| OrchestrationProofs.ListedImages | src/enhancer.py:109-123 | one image per listed page, each that page's enhanced image, in page order |
| OrchestrationProofs.ListedAscending | src/enhancer.py:109-117 | the listed page numbers lie in 1..count and ascend strictly |
| OrchestrationProofs.ListedMembers | src/enhancer.py:110-119 | a page is listed exactly when its `try` block completed |
| OrchestrationProofs.ImagesNonEmpty | src/enhancer.py:123-124 | once some page was written, the list handed to the PDF save is non-empty |
| OrchestrationProofs.LoopShape | src/enhancer.py:108-119 | after the loop: one path per listed page, each that page's image path, pages ascending within 1..count, directories untouched |
| OrchestrationProofs.ArtifactsNaming | src/enhancer.py:114 | the page naming is injective and stays inside the enhanced directory |
| OrchestrationProofs.LoopOfLists | src/enhancer.py:108-119 | the loop lists exactly the non-raising pages and each listed page's image path |
| OrchestrationProofs.LoopOfFiles | src/enhancer.py:113-117 | the loop's only effect on the filesystem is writing the images `imwrite` saved |
| OrchestrationProofs.WrittenImagesExactly | src/enhancer.py:114-115 | the files written are exactly the saved pages' images, at their page paths, inside the enhanced directory |
| OrchestrationProofs.LoopWithFixedDocument | src/enhancer.py:109-119 | when the input is outside the enhanced directory, every page reads the same document, so the loop is a fold over the pages' outcomes |
| OrchestrationProofs.LoopImagesOpen | src/enhancer.py:123 | when every listed image was saved, reopening the listed paths yields the listed images in order |
| OrchestrationProofs.ListedPathHolds | src/enhancer.py:123 | each listed path holds its page's image after the loop |
| OrchestrationProofs.LoopPathsDistinct | src/enhancer.py:117 | the listed paths are pairwise distinct and inside the enhanced directory |
| Enhancer.OpenAll | src/enhancer.py:123 | models `[Image.open(path) for path in enhanced_paths]`; `OrchestrationProofs.OpenAllImages` and `LoopImagesOpen` state its result |
| OrchestrationProofs.OpenAllImages | src/enhancer.py:123 | opening a list of image files succeeds with one image per path, in order |
| Enhancer.RemoveEach | src/enhancer.py:131-132 | models the removal loop; `OrchestrationProofs.RemoveEachEffect` states its effect |
| OrchestrationProofs.RemoveEachEffect | src/enhancer.py:131-132 | the removal loop leaves directories alone and deletes nothing outside its list; when the list holds distinct existing files it succeeds and deletes exactly them |
| OrchestrationProofs.CleanupDeletesOnlyItsOwn | src/enhancer.py:130-136 | cleanup never deletes a file outside its list and removes no directory besides the temp and enhanced ones |
| OrchestrationProofs.NoPageSucceeds | src/enhancer.py:123-128 | when every page raises, `process_pdf` raises IndexError and leaves the filesystem as it was: no output, no cleanup |
| OrchestrationProofs.NoPageSucceedsLoop | src/enhancer.py:109-119 | when every page raises, the loop lists nothing and changes nothing |
| OrchestrationProofs.SuccessfulRun | src/enhancer.py:96-136 | a run where some pages are saved and the save succeeds writes the output document from those pages, and removes the page images and both work directories, nothing else |
| OrchestrationProofs.FinishSucceeds | src/enhancer.py:121-136 | after such a loop, opening, saving and cleanup succeed and leave only the output added and the two directories removed |
| OrchestrationProofs.CleanupAfterRemoval | src/enhancer.py:134-136 | with the page images gone, both `rmdir` calls succeed on the empty directories |
| OrchestrationProofs.RemovalRestores | src/enhancer.py:131-132 | removing the page images after the save restores the files to the original files plus the output |
| OrchestrationProofs.WrittenIsListed | src/enhancer.py:114-117 | every image written lies at a listed path |
| Webservice.AllowedFile | src/webservice.py:65-66 | models `allowed_file`; `AllowedFileMeaning` states what it accepts |
| Webservice.AllowedFileMeaning | src/webservice.py:65-66 | a name is allowed exactly when some `.` in it is followed by a dot-free extension that lower-cases to `pdf` |
| Webservice.AllowedFileExamples | src/webservice.py:65-66 | `a.PDF`, `scan.tar.Pdf` and `.pdf` are allowed; `pdf` and `report.pdf.txt` are not |
| Webservice.ParseField | src/webservice.py:97 | a field's value has the field's kind; it raises only for a present key, with that key and its text |
| Webservice.ParseFields | src/webservice.py:92-128 | on success there is one value per field, of the field's kind |
| Webservice.ParseFieldsValues | src/webservice.py:92-128 | the conversion succeeds exactly when every present field parses; each value is then the parse of the field's text, or its default |
| Webservice.ParseFieldsFirstError | src/webservice.py:92-128 | a failed conversion raises ValueError for the first field that does not parse; every earlier field parses |
| Webservice.CreateEnhancerConfig | src/webservice.py:92-128 | models `create_enhancer_config`, with the 14 numeric fields and their defaults in the table `ConfigFields`; `ConfigSettings` and `ConfigErrors` state its values and its errors |
| Webservice.ConfigSettings | src/webservice.py:92-128 | each stage flag is the presence of its `_enabled` key; each numeric setting is the form's parse, or its default (10, 9, 21, 3.0, 24, 24, 1.5, 0, 0.8, 1.0, -0.1, 11, 2, 400); the directories come from the app settings |
| Webservice.ConfigErrors | src/webservice.py:92-128 | the configuration is built exactly when all present numeric fields parse; otherwise the first bad field's ValueError escapes |
| Webservice.AnyEnabledKey | src/webservice.py:133 | models `any(key.endswith('_enabled') for key in form_data)`; `EnhancePdfOutcome` and `WebserviceProofs.TryEnhanceOutcome` state what it decides |
| Webservice.EnhancePdf | src/webservice.py:131-145 | models `enhance_pdf`; `EnhancePdfOutcome` states its outcomes and `EnhancePdfCall` runs it through the imperative `process_pdf` |
| Webservice.EnhancePdfOutcome | src/webservice.py:131-145 | the result is False, with nothing touched, exactly when no key ends in `_enabled`; True only when the input is a file and `process_pdf` returned normally |
| Webservice.EnhancePdfCall | src/webservice.py:131-145 | `enhance_pdf` run through the imperative `process_pdf` agrees with its specification |
| Webservice.OutputName | src/webservice.py:156-157 | models the output file name; `OutputNameParts` and `OutputNameExamples` state its shape |
| Webservice.OutputNameParts | src/webservice.py:156-157 | the output name is root + `.ocr` + extension; with an extension, the output's own split is (root + `.ocr`, the same extension) |
| Webservice.OutputNameExamples | src/webservice.py:156-157 | `scan.pdf` becomes `scan.ocr.pdf`, `a.b.pdf` becomes `a.b.ocr.pdf`, `.pdf` becomes `.pdf.ocr`, `noext` becomes `noext.ocr` |
| Webservice.OcrErrorMessage | src/webservice.py:212-217 | models the stderr-to-message mapping; `MarkerAnywhereGivesAdvice` and `NoMarkerIsVerbatim` state both halves |
| Webservice.MarkerAnywhereGivesAdvice | src/webservice.py:212-217 | stderr carrying either marker anywhere in it is replaced by the fixed advice |
| Webservice.NoMarkerIsVerbatim | src/webservice.py:212-217 | stderr that holds neither marker anywhere is passed on unchanged |
| Webservice.CacheHit | src/webservice.py:165-168 | models the cache lookup; `WebserviceProofs.DoOcrCacheHit` and `CacheRoundTrip` state its use |
| Webservice.TryEnhance | src/webservice.py:173-176 | models the `try` block around `enhance_pdf`; `WebserviceProofs.TryEnhanceOutcome` states its outcomes |
| Webservice.RemoveIfExists | src/webservice.py:180-181 | models `if os.path.exists(p): os.remove(p)`, used at each clean-up; `WebserviceProofs.RunOcrFiles` and `DoOcrRemovesInputs` state its effect |
| Webservice.EnhancementFailed | src/webservice.py:177-185 | models the `except` block; `WebserviceProofs.DoOcrReplies` states its 400 reply |
| Webservice.WithLanguage | src/webservice.py:195-197 | models the `-l <language>` option, defaulting to `eng` and left out when empty; `WebserviceProofs.RunOcrReply` states the command it yields |
| Webservice.OcrCommand | src/webservice.py:199 | models the `ocrmypdf` argument list; `WebserviceProofs.RunOcrReply` states it is the command run |
| Webservice.RunOcr | src/webservice.py:187-222 | models the OCR run and its reply; `WebserviceProofs.RunOcrFiles` and `RunOcrReply` state its effect and reply |
| Webservice.DoOcr | src/webservice.py:148-222 | models `do_ocrmypdf` as a function; the `WebserviceProofs.DoOcr…` lemmas and `CacheRoundTrip` state its behaviour |
| Webservice.DoOcrMyPdf | src/webservice.py:148-222 | the step-by-step handler gives the same reply, filesystem, index write and command line as the specification `DoOcr` |
| Webservice.ProcessUploadRequest | src/webservice.py:226-253 | models `process_upload_request`; `WebserviceProofs.UploadChecksInOrder` and `UploadReportsOcr` state its answers |
| Webservice.DownloadFile | src/webservice.py:266-272 | 404 "File not found" exactly when nothing of that name exists in the upload folder; otherwise that path is sent |
| WebserviceProofs.UploadPathsDistinct | src/webservice.py:152-158 | the saved upload, the enhanced copy and the OCR output are three different paths |
| WebserviceProofs.TryEnhanceOutcome | src/webservice.py:174-178 | OCR gets the untouched upload exactly when no form key ends in `_enabled`; otherwise it gets the enhanced copy with the upload removed; the step raises only when some form key ends in `_enabled` |
| WebserviceProofs.RunOcrFiles | src/webservice.py:188-222 | the OCR step touches only its input and the output file; a non-exception reply leaves the input removed; the exceptions are a missing or unsplittable `params`, or a directory in the input's place |
| WebserviceProofs.RunOcrReply | src/webservice.py:188-222 | `ocrmypdf` runs exactly when `params` splits without `--sidecar`; the index is written exactly on exit 0, with the hash mapped to the output name; the sent file holds the produced output; a sidecar request gets 501; a failed run gets 400 with the mapped stderr |
| WebserviceProofs.DoOcrCacheHit | src/webservice.py:165-171 | on a hit the reply names the cached file; only the saved upload is removed; nothing is run or stored |
| WebserviceProofs.DoOcrStoresOnSuccessOnly | src/webservice.py:204-206 | the index is written exactly when there was no hit, enhancement did not raise and `ocrmypdf` exited 0; then it is the old index plus hash → output name, other entries unchanged |
| WebserviceProofs.DoOcrReplies | src/webservice.py:165-222 | a sent file is the cached one on a hit, or else the fresh output, which exists; an error is the enhancement failure (400), the refused sidecar (501) or the failed run (400 with the mapped stderr); no error writes the index |
| WebserviceProofs.DoOcrRemovesInputs | src/webservice.py:170-221 | unless an exception escapes, `input_<name>` is gone at the end, and so is `enhanced_<name>` whenever enhancement was asked for and the cache missed |
| WebserviceProofs.UploadChecksInOrder | src/webservice.py:226-250 | a missing file part, an empty name and a disallowed name are rejected in that order with 400 and nothing touched; a 200 reports the secured upload name after a sent file; every other answer is a 400 error |
| WebserviceProofs.UploadReportsOcr | src/webservice.py:241-250 | for an allowed name, every error response (501 included) becomes a 400 carrying its text; a sent file becomes 200 with the secured name; an exception escapes |
| WebserviceProofs.CacheRoundTrip | src/webservice.py:165-210 | after a fresh OCR output is sent and stored, a later upload with the same digest, on the filesystem and index left behind, is sent that output from the cache, with nothing run or stored and only its saved copy removed, unless it is saved over that output |
| WebserviceProofs.CacheHitOnOwnInput | src/webservice.py:152-171 | an index entry naming this request's `input_<name>` counts as a hit, yet the reply names a file already removed |

## Left out

- Flask plumbing leaves only values: routing, `render_template`, `Response` objects, `send_from_directory` and `jsonify`. A reply is kept as its status and text. The 404 that `send_from_directory` raises for a missing or directory target is not modelled. So the `Sent` reply of `WebserviceProofs.CacheHitOnOwnInput` stands for that 404.
- The final `"Some other problem"` branch of `process_upload_request` is unreachable. Once the name is non-empty and allowed, `file` is truthy. So it has no counterpart.
- `secure_filename`, `shlex.split`, `int()`, `float()` and `str(e)` are uninterpreted functions. The model states nothing about their output.
- `compute_file_hash` is an uninterpreted digest of the uploaded content. SHA-256 and the chunked read are not modelled.
- The cache index is passed in as a map. Its JSON load and dump (`get_cache_index`, `update_cache_index`) are not modelled. A write appears as the `stored` result.
- The `ocrmypdf` subprocess is a function from its argument list and its input's content to an exit code, stderr and the produced document. Any partial output of a failed run is not modelled.
- `file.save` is a plain write. Writing over a directory, which would raise in Python, is not modelled.
- OpenCV's denoising, CLAHE, scaling, blurring and weighting are uninterpreted kernels. So is the Gaussian local mean of `adaptiveThreshold`. Floating point is not modelled.
- Grayscale conversion is an uninterpreted kernel applied to three-channel pages. `COLOR_BGR2GRAY` applied to PIL's RGB order, and channel counts other than three, are not modelled.
- pdf2image's page counting and rasterising, and PIL's PDF save, are uninterpreted functions on file contents.
- `Text.Lower` lower-cases ASCII letters only. Unicode case mapping is not modelled.
- `Files.MakeDirs` adds the directory alone. Parent directories and an existing file of that name are not modelled.
- Only image files (`Png` blobs) open as images. Raw uploaded bytes never do.
- `Paths.Under` assumes a directory path without a trailing `/`. The layout lemmas require this of the upload folder.
- `Files.Exists` and `Files.Remove` compare paths as plain strings. `os.path.exists` resolves `uploads/` and `uploads` to the same directory; path normalisation is not modelled. Only an index entry the service never writes, such as `""`, tells the two apart.
- Logging, environment variables, the `__main__` entry point and concurrent requests are not modelled.
