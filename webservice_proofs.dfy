/** Properties of `do_ocrmypdf` and `process_upload_request`: what a cache hit
    returns, when the cache index is written and with what, which reply each
    path gives, and that the request's own input copies do not outlive it. */
module WebserviceProofs {
  import opened Common
  import opened Text
  import opened Paths
  import opened Imaging
  import opened Files
  import opened Enhancer
  import opened Webservice

  /** The saved upload, the enhanced copy and the OCR output of one request
      are three different paths. */
  lemma UploadPathsDistinct(app: AppConfig, filename: string)
    ensures InputPath(app, filename) != DownPath(app, filename)
    ensures EnhancedPath(app, filename) != DownPath(app, filename)
    ensures InputPath(app, filename) != EnhancedPath(app, filename)
  {
    SplitextConcat(filename);
    var uf := app.uploadFolder;
    var out := OutputName(filename);
    assert |out| == |filename| + 4;
    assert ("input_" + filename)[0] == 'i';
    assert ("enhanced_" + filename)[0] == 'e';
    JoinRelative(uf, "input_" + filename);
    JoinRelative(uf, "enhanced_" + filename);
    if !StartsWith(out, "/") {
      JoinRelative(uf, out);
    }
  }

  /** The `try` block either hands OCR the saved upload untouched (exactly
      when no form key ends in `_enabled`) or the enhanced copy with the
      upload removed; it raises only when some form key ends in `_enabled`. */
  lemma TryEnhanceOutcome(svc: Service, docs: Documents, k: Kernels, app: AppConfig, fs: FileSystem,
                          filename: string, form: Form)
    ensures var (t, after) := TryEnhance(svc, docs, k, app, fs, filename, form);
      (t == Ok(InputPath(app, filename)) <==> !AnyEnabledKey(form))
      && (t == Ok(InputPath(app, filename)) ==> after == fs)
      && (t.Ok? && t.value != InputPath(app, filename) ==>
            t.value == EnhancedPath(app, filename) && InputPath(app, filename) !in after.files)
      && (t.Raised? ==> AnyEnabledKey(form))
  {
    UploadPathsDistinct(app, filename);
    EnhancePdfOutcome(svc, docs, k, app, fs, InputPath(app, filename), EnhancedPath(app, filename), form);
  }

  /** After the enhancement step, OCR touches only its input and the output
      file; a reply that is not an exception leaves the input removed; an
      exception is the missing `params`, an unsplittable `params`, or a
      directory in the input's place. */
  lemma RunOcrFiles(svc: Service, fs: FileSystem, app: AppConfig, index: map<string, string>, form: Form,
                    h: string, filename: string, input: Path)
    requires input != DownPath(app, filename)
    ensures var r := RunOcr(svc, fs, app, index, form, h, filename, input);
      r.fs.dirs == fs.dirs
      && (forall q | q != input && q != DownPath(app, filename) ::
            (q in r.fs.files <==> q in fs.files) && (q in fs.files ==> r.fs.files[q] == fs.files[q]))
      && (!r.reply.Crashed? ==> input !in r.fs.files)
      && (r.reply.Crashed? ==>
            ("params" !in form && r.reply.fault == KeyError("params"))
            || ("params" in form && svc.split(form["params"]).None? && r.reply.fault == SplitError(form["params"]))
            || (r.reply.fault == RemoveError(input) && input in fs.dirs && input !in fs.files))
  {
  }

  /** The index is written exactly when `ocrmypdf` is run and exits 0, and it
      is then the old index with the hash mapped to the output name; the
      file sent is that output, holding what `ocrmypdf` produced; `--sidecar`
      is refused with 501 before anything runs; a failed run is a 400 with
      the mapped stderr. */
  lemma RunOcrReply(svc: Service, fs: FileSystem, app: AppConfig, index: map<string, string>, form: Form,
                    h: string, filename: string, input: Path)
    requires input != DownPath(app, filename)
    ensures var r := RunOcr(svc, fs, app, index, form, h, filename, input);
      (r.command.Some? <==> OcrRequested(svc, form))
      && (r.command.Some? ==> r.command.value == OcrCommand(app, form, filename, input, svc.split(form["params"]).value))
      && (r.stored.Some? <==> OcrRequested(svc, form) && OcrRunFor(svc, app, form, fs, filename, input).exitCode == 0)
      && (r.stored.Some? ==> r.stored.value == index[h := OutputName(filename)])
      && (r.reply.Sent? ==>
            r.stored.Some? && r.reply.name == OutputName(filename)
            && DownPath(app, filename) in r.fs.files
            && r.fs.files[DownPath(app, filename)] == OcrRunFor(svc, app, form, fs, filename, input).output)
      && (r.reply.Rejected? ==>
            (SidecarRequested(svc, form) && r.reply == Rejected("--sidecar not supported", 501))
            || (OcrRequested(svc, form) && OcrRunFor(svc, app, form, fs, filename, input).exitCode != 0
                && r.reply == Rejected(OcrErrorMessage(OcrRunFor(svc, app, form, fs, filename, input).stderr), 400)))
  {
  }

  /** On a cache hit the reply names the cached file, the saved upload is
      removed, nothing else changes and nothing is run or stored. */
  lemma DoOcrCacheHit(svc: Service, docs: Documents, k: Kernels, app: AppConfig, fs: FileSystem,
                      index: map<string, string>, upload: Upload, form: Form)
    requires var filename := svc.secureFilename(upload.filename);
      CacheHit(Write(fs, InputPath(app, filename), upload.content), app, index, svc.digest(upload.content))
    ensures var filename := svc.secureFilename(upload.filename);
      var h := svc.digest(upload.content);
      DoOcr(svc, docs, k, app, fs, index, upload, form)
      == OcrResult(Sent(index[h]), FileSystem(fs.files - {InputPath(app, filename)}, fs.dirs), None, None)
  {
    var filename := svc.secureFilename(upload.filename);
    var input := InputPath(app, filename);
    var saved := Write(fs, input, upload.content);
    assert saved.files - {input} == fs.files - {input};
  }

  /** The cache index is written exactly when there was no cache hit, the
      enhancement step did not raise, and `ocrmypdf` ran on its result and
      exited 0; what is written is the old index plus the new hash mapped to
      the output name, every other entry as it was. */
  lemma DoOcrStoresOnSuccessOnly(svc: Service, docs: Documents, k: Kernels, app: AppConfig, fs: FileSystem,
                                 index: map<string, string>, upload: Upload, form: Form)
    ensures var filename := svc.secureFilename(upload.filename);
      var h := svc.digest(upload.content);
      var saved := Write(fs, InputPath(app, filename), upload.content);
      var (t, after) := TryEnhance(svc, docs, k, app, saved, filename, form);
      var r := DoOcr(svc, docs, k, app, fs, index, upload, form);
      (r.stored.Some? <==>
         !CacheHit(saved, app, index, h) && t.Ok? && OcrRequested(svc, form)
         && OcrRunFor(svc, app, form, after, filename, t.value).exitCode == 0)
      && (r.stored.Some? ==>
            r.stored.value.Keys == index.Keys + {h}
            && r.stored.value[h] == OutputName(filename)
            && forall key | key in index && key != h :: r.stored.value[key] == index[key])
  {
    var filename := svc.secureFilename(upload.filename);
    var h := svc.digest(upload.content);
    var saved := Write(fs, InputPath(app, filename), upload.content);
    var (t, after) := TryEnhance(svc, docs, k, app, saved, filename, form);
    if !CacheHit(saved, app, index, h) && t.Ok? {
      TryEnhanceOutcome(svc, docs, k, app, saved, filename, form);
      UploadPathsDistinct(app, filename);
      RunOcrReply(svc, after, app, index, form, h, filename, t.value);
    }
  }

  /** Every reply `do_ocrmypdf` gives, and when: a sent file is the cached one
      on a hit, or else the fresh output, which then exists; an error is the
      enhancement failure (400), the refused sidecar (501) or the failed run
      (400 with the mapped stderr), and none of them writes the index. */
  lemma DoOcrReplies(svc: Service, docs: Documents, k: Kernels, app: AppConfig, fs: FileSystem,
                     index: map<string, string>, upload: Upload, form: Form)
    ensures var filename := svc.secureFilename(upload.filename);
      var h := svc.digest(upload.content);
      var saved := Write(fs, InputPath(app, filename), upload.content);
      var (t, after) := TryEnhance(svc, docs, k, app, saved, filename, form);
      var r := DoOcr(svc, docs, k, app, fs, index, upload, form);
      (r.reply.Sent? ==>
         (CacheHit(saved, app, index, h) && r.reply.name == index[h] && r.stored.None?)
         || (!CacheHit(saved, app, index, h) && r.stored.Some? && r.reply.name == OutputName(filename)
             && DownPath(app, filename) in r.fs.files))
      && (r.reply.Rejected? ==>
            !CacheHit(saved, app, index, h) && r.stored.None?
            && ((t.Raised? && r.reply == Rejected("Image enhancement failed: " + svc.describe(t.fault), 400))
                || (t.Ok? && SidecarRequested(svc, form) && r.reply == Rejected("--sidecar not supported", 501))
                || (t.Ok? && OcrRequested(svc, form)
                    && OcrRunFor(svc, app, form, after, filename, t.value).exitCode != 0
                    && r.reply == Rejected(OcrErrorMessage(OcrRunFor(svc, app, form, after, filename, t.value).stderr), 400))))
  {
    var filename := svc.secureFilename(upload.filename);
    var h := svc.digest(upload.content);
    var saved := Write(fs, InputPath(app, filename), upload.content);
    var (t, after) := TryEnhance(svc, docs, k, app, saved, filename, form);
    if !CacheHit(saved, app, index, h) && t.Ok? {
      TryEnhanceOutcome(svc, docs, k, app, saved, filename, form);
      UploadPathsDistinct(app, filename);
      RunOcrReply(svc, after, app, index, form, h, filename, t.value);
    }
  }

  /** Unless an exception escapes, the saved upload `input_<name>` is gone
      when `do_ocrmypdf` returns, and so is `enhanced_<name>` whenever
      enhancement was asked for and the cache missed. */
  lemma DoOcrRemovesInputs(svc: Service, docs: Documents, k: Kernels, app: AppConfig, fs: FileSystem,
                           index: map<string, string>, upload: Upload, form: Form)
    ensures var filename := svc.secureFilename(upload.filename);
      var h := svc.digest(upload.content);
      var saved := Write(fs, InputPath(app, filename), upload.content);
      var r := DoOcr(svc, docs, k, app, fs, index, upload, form);
      !r.reply.Crashed? ==>
        InputPath(app, filename) !in r.fs.files
        && (!CacheHit(saved, app, index, h) && AnyEnabledKey(form) ==> EnhancedPath(app, filename) !in r.fs.files)
  {
    var filename := svc.secureFilename(upload.filename);
    var h := svc.digest(upload.content);
    var saved := Write(fs, InputPath(app, filename), upload.content);
    var (t, after) := TryEnhance(svc, docs, k, app, saved, filename, form);
    if !CacheHit(saved, app, index, h) && t.Ok? {
      TryEnhanceOutcome(svc, docs, k, app, saved, filename, form);
      UploadPathsDistinct(app, filename);
      RunOcrFiles(svc, after, app, index, form, h, filename, t.value);
    }
  }

  /** The upload handler rejects a missing file part, then an empty name,
      then a disallowed name, each with a 400 and nothing touched; a 200
      always reports the secured upload name after a sent file; every other
      answer is a 400 error. */
  lemma UploadChecksInOrder(svc: Service, docs: Documents, k: Kernels, app: AppConfig, fs: FileSystem,
                            index: map<string, string>, request: Request)
    ensures var r := ProcessUploadRequest(svc, docs, k, app, fs, index, request);
      (request.file.None? ==> r == UploadResult(Answer("error", "No file in POST", 400), fs, None))
      && (request.file.Some? && request.file.value.filename == "" ==>
            r == UploadResult(Answer("error", "Empty filename", 400), fs, None))
      && (request.file.Some? && request.file.value.filename != "" && !AllowedFile(request.file.value.filename) ==>
            r == UploadResult(Answer("error", "Invalid filename", 400), fs, None))
      && (r.answer.Answer? && r.answer.status == 200 ==>
            request.file.Some? && AllowedFile(request.file.value.filename)
            && r.answer == Answer("filename", svc.secureFilename(request.file.value.filename), 200)
            && DoOcr(svc, docs, k, app, fs, index, request.file.value, request.form).reply.Sent?)
      && (r.answer.Answer? && r.answer.status != 200 ==> r.answer.status == 400 && r.answer.key == "error")
  {
  }

  /** For an allowed name, every error response of `do_ocrmypdf`, 501
      included, reaches the client as a 400 error carrying its text; a sent
      file is reported by the secured upload name; an exception escapes. */
  lemma UploadReportsOcr(svc: Service, docs: Documents, k: Kernels, app: AppConfig, fs: FileSystem,
                         index: map<string, string>, upload: Upload, form: Form)
    requires upload.filename != "" && AllowedFile(upload.filename)
    ensures var o := DoOcr(svc, docs, k, app, fs, index, upload, form);
      var r := ProcessUploadRequest(svc, docs, k, app, fs, index, Request(Some(upload), form));
      r.fs == o.fs && r.stored == o.stored
      && (o.reply.Rejected? ==> r.answer == Answer("error", o.reply.message, 400))
      && (o.reply.Sent? ==> r.answer == Answer("filename", svc.secureFilename(upload.filename), 200))
      && (o.reply.Crashed? ==> r.answer == Uncaught(o.reply.fault))
  {
  }

  /** The cache round trip: once a request has been answered with a fresh
      OCR output and the index written, a later upload with the same digest,
      made on the filesystem and index that request left, is answered from
      the cache with that output; nothing is run or stored, and only the
      later upload's saved copy is removed. The side condition excludes the
      later upload being saved over the earlier output (the case of
      `CacheHitOnOwnInput`). */
  lemma CacheRoundTrip(svc: Service, docs: Documents, k: Kernels, app: AppConfig, fs: FileSystem,
                       index: map<string, string>, first: Upload, firstForm: Form,
                       second: Upload, secondForm: Form)
    requires var r := DoOcr(svc, docs, k, app, fs, index, first, firstForm);
      r.reply.Sent? && r.stored.Some?
    requires svc.digest(second.content) == svc.digest(first.content)
    requires InputPath(app, svc.secureFilename(second.filename)) != DownPath(app, svc.secureFilename(first.filename))
    ensures var r := DoOcr(svc, docs, k, app, fs, index, first, firstForm);
      DoOcr(svc, docs, k, app, r.fs, r.stored.value, second, secondForm)
      == OcrResult(Sent(OutputName(svc.secureFilename(first.filename))),
                   FileSystem(r.fs.files - {InputPath(app, svc.secureFilename(second.filename))}, r.fs.dirs),
                   None, None)
  {
    var r := DoOcr(svc, docs, k, app, fs, index, first, firstForm);
    var name1 := svc.secureFilename(first.filename);
    var name2 := svc.secureFilename(second.filename);
    var h := svc.digest(first.content);
    DoOcrReplies(svc, docs, k, app, fs, index, first, firstForm);
    DoOcrStoresOnSuccessOnly(svc, docs, k, app, fs, index, first, firstForm);
    var later := Write(r.fs, InputPath(app, name2), second.content);
    assert r.stored.value[h] == OutputName(name1);
    assert DownPath(app, name1) in later.files;
    assert CacheHit(later, app, r.stored.value, svc.digest(second.content));
    DoOcrCacheHit(svc, docs, k, app, r.fs, r.stored.value, second, secondForm);
  }

  /** A cache entry that names this request's own `input_<name>` path is
      answered as a hit, yet the file it names is the one removed before
      replying, so the reply names a file that no longer exists. */
  lemma CacheHitOnOwnInput(svc: Service, docs: Documents, k: Kernels, app: AppConfig, fs: FileSystem,
                           index: map<string, string>, upload: Upload, form: Form)
    requires var filename := svc.secureFilename(upload.filename);
      var h := svc.digest(upload.content);
      h in index && index[h] == "input_" + filename
    ensures var filename := svc.secureFilename(upload.filename);
      var r := DoOcr(svc, docs, k, app, fs, index, upload, form);
      r.reply == Sent("input_" + filename)
      && Join(app.uploadFolder, "input_" + filename) !in r.fs.files
  {
    var filename := svc.secureFilename(upload.filename);
    var saved := Write(fs, InputPath(app, filename), upload.content);
    assert Exists(saved, Join(app.uploadFolder, "input_" + filename));
    DoOcrCacheHit(svc, docs, k, app, fs, index, upload, form);
  }
}
