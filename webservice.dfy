/** The HTTP wrapper around OCRmyPDF: upload validation, the form-to-config
    translation for the enhancer, the content cache, the OCR command line and
    the mapping of every outcome to a reply. The filesystem is a value; the
    libraries the service calls are parameters bundled in `Service`. */
module Webservice {
  import opened Common
  import opened Text
  import opened Paths
  import opened Imaging
  import opened Files
  import opened Enhancer

  /** The submitted form fields (`request.form`, first value per key). */
  type Form = map<string, string>

  /** The application settings the service reads (`BASE_DIR`, `UPLOAD_FOLDER`). */
  datatype AppConfig = AppConfig(baseDir: Path, uploadFolder: Path)

  /** What one `ocrmypdf` subprocess reports, and the document it writes on success. */
  datatype OcrRun = OcrRun(exitCode: int, stderr: string, output: Blob)

  /** The library calls the service makes. */
  datatype Service = Service(
    parseInt: string -> Option<int>,              // int(text)
    parseFloat: string -> Option<real>,           // float(text)
    secureFilename: string -> string,             // werkzeug's secure_filename
    digest: Blob -> string,                       // compute_file_hash: SHA-256 hex digest of the content
    split: string -> Option<seq<string>>,         // shlex.split
    describe: Fault -> string,                    // str(e)
    ocr: (seq<string>, Option<Blob>) -> OcrRun)   // the ocrmypdf run, given its argv and its input's content

  /** The uploaded file part: the client's file name and the bytes saved. */
  datatype Upload = Upload(filename: string, content: Blob)

  // ----- allowed_file -----

  /** `allowed_file`: the name has a `.` and the text after the last `.`
      lower-cases to `pdf`. */
  function AllowedFile(name: string): bool {
    Occurs('.', name) && Lower(name[LastIndexOf(name, '.') + 1..]) == "pdf"
  }

  /** A name is allowed exactly when some `.` in it is followed by a dot-free
      extension that lower-cases to `pdf`. */
  lemma AllowedFileMeaning(name: string)
    ensures AllowedFile(name) <==>
      exists i | 0 <= i < |name| :: name[i] == '.' && !Occurs('.', name[i + 1..]) && Lower(name[i + 1..]) == "pdf"
  {
    LastIndexOfOccurs(name, '.');
    var l := LastIndexOf(name, '.');
    if AllowedFile(name) {
      var ext := name[l + 1..];
      assert !Occurs('.', ext) by {
        forall k | 0 <= k < |ext| ensures ext[k] != '.' {
          assert ext[k] == name[l + 1 + k];
        }
      }
    }
    forall i | 0 <= i < |name| && name[i] == '.' && !Occurs('.', name[i + 1..]) && Lower(name[i + 1..]) == "pdf"
      ensures AllowedFile(name)
    {
      forall k | i < k < |name| ensures name[k] != '.' {
        assert name[k] == name[i + 1..][k - i - 1];
      }
      LastIndexOfIs(name, '.', i);
    }
  }

  lemma AllowedFileExamples()
    ensures AllowedFile("a.PDF") && AllowedFile("scan.tar.Pdf") && AllowedFile(".pdf")
    ensures !AllowedFile("pdf") && !AllowedFile("report.pdf.txt")
  {
    LastIndexOfIs("a.PDF", '.', 1);
    assert "a.PDF"[2..] == "PDF";
    LastIndexOfIs("scan.tar.Pdf", '.', 8);
    assert "scan.tar.Pdf"[9..] == "Pdf";
    LastIndexOfIs(".pdf", '.', 0);
    assert ".pdf"[1..] == "pdf";
    assert !Occurs('.', "pdf");
    LastIndexOfOccurs("pdf", '.');
    LastIndexOfIs("report.pdf.txt", '.', 10);
    assert "report.pdf.txt"[11..] == "txt";
    assert Lower("txt")[0] == 't';
  }

  // ----- create_enhancer_config -----

  /** A numeric form field of the enhancer configuration, with the value it
      takes when the form does not carry it. */
  datatype Field = IntField(key: string, intDefault: int) | RealField(key: string, realDefault: real)

  datatype Value = IntValue(i: int) | RealValue(r: real)

  /** The numeric fields in the order the configuration literal converts them. */
  const ConfigFields: seq<Field> := [
    IntField("denoising_h", 10),
    IntField("denoising_template_window_size", 9),
    IntField("denoising_search_window_size", 21),
    RealField("clahe_clip_limit", 3.0),
    IntField("clahe_grid_size_x", 24),
    IntField("clahe_grid_size_y", 24),
    RealField("contrast_alpha", 1.5),
    RealField("contrast_beta", 0.0),
    RealField("sharpening_sigma", 0.8),
    RealField("sharpening_amount", 1.0),
    RealField("sharpening_gaussian_weight", -0.1),
    IntField("binarization_block_size", 11),
    IntField("binarization_c", 2),
    IntField("resolution", 400)]

  /** `int(form_data.get(key, default))` or `float(...)`: the default when the
      key is absent, else the parsed text; `ValueError` when it does not parse. */
  function ParseField(svc: Service, form: Form, f: Field): (r: Result<Value>)
    ensures r.Ok? ==> (r.value.IntValue? <==> f.IntField?)
    ensures r.Raised? ==> f.key in form && r.fault == ValueError(f.key, form[f.key])
  {
    if f.key !in form then
      Ok(if f.IntField? then IntValue(f.intDefault) else RealValue(f.realDefault))
    else
      match f
      case IntField(key, _) =>
        (match svc.parseInt(form[key])
         case Some(v) => Ok(IntValue(v))
         case None => Raised(ValueError(key, form[key])))
      case RealField(key, _) =>
        (match svc.parseFloat(form[key])
         case Some(v) => Ok(RealValue(v))
         case None => Raised(ValueError(key, form[key])))
  }

  /** A field converts without raising: absent, or its text parses. */
  predicate FieldParses(svc: Service, form: Form, f: Field) {
    f.key !in form || (if f.IntField? then svc.parseInt(form[f.key]).Some? else svc.parseFloat(form[f.key]).Some?)
  }

  /** The value a field takes: its default when absent, else its text's parse. */
  predicate FieldValue(svc: Service, form: Form, f: Field, v: Value) {
    if f.key !in form then v == (if f.IntField? then IntValue(f.intDefault) else RealValue(f.realDefault))
    else if f.IntField? then v.IntValue? && svc.parseInt(form[f.key]) == Some(v.i)
    else v.RealValue? && svc.parseFloat(form[f.key]) == Some(v.r)
  }

  /** Converting the fields left to right, stopping at the first that raises;
      on success there is one value per field, of the field's kind. */
  function ParseFields(svc: Service, form: Form, fields: seq<Field>): (r: Result<seq<Value>>)
    ensures r.Ok? ==> |r.value| == |fields|
    ensures r.Ok? ==> forall x :: 0 <= x < |fields| ==> (r.value[x].IntValue? <==> fields[x].IntField?)
  {
    if fields == [] then Ok([])
    else
      var v :- ParseField(svc, form, fields[0]);
      var rest :- ParseFields(svc, form, fields[1..]);
      assert forall x :: 1 <= x < |fields| ==> ([v] + rest)[x] == rest[x - 1];
      Ok([v] + rest)
  }

  /** The conversion succeeds exactly when every present field parses, and
      then each value is its field's: the parse of its text, or its default. */
  lemma {:induction false} ParseFieldsValues(svc: Service, form: Form, fields: seq<Field>)
    ensures var r := ParseFields(svc, form, fields);
      (r.Ok? <==> forall x :: 0 <= x < |fields| ==> FieldParses(svc, form, fields[x]))
      && (r.Ok? ==> forall x :: 0 <= x < |fields| ==> FieldValue(svc, form, fields[x], r.value[x]))
  {
    if fields != [] {
      ParseFieldsValues(svc, form, fields[1..]);
      var r := ParseFields(svc, form, fields);
      if r.Ok? {
        var rest := ParseFields(svc, form, fields[1..]).value;
        forall x | 0 <= x < |fields| ensures FieldValue(svc, form, fields[x], r.value[x]) {
          if x > 0 {
            assert r.value[x] == rest[x - 1] && fields[x] == fields[1..][x - 1];
          }
        }
      } else if forall x :: 0 <= x < |fields| ==> FieldParses(svc, form, fields[x]) {
        assert forall x :: 0 <= x < |fields| - 1 ==> fields[1..][x] == fields[x + 1];
      }
    }
  }

  /** When the conversion raises, it is with the key and text of the first
      field that does not parse; every field before it parses. */
  lemma {:induction false} ParseFieldsFirstError(svc: Service, form: Form, fields: seq<Field>)
    requires ParseFields(svc, form, fields).Raised?
    ensures exists x :: (0 <= x < |fields| && !FieldParses(svc, form, fields[x])
      && (forall y :: 0 <= y < x ==> FieldParses(svc, form, fields[y]))
      && ParseFields(svc, form, fields).fault == ValueError(fields[x].key, form[fields[x].key]))
  {
    var r := ParseFields(svc, form, fields);
    if ParseField(svc, form, fields[0]).Raised? {
      assert !FieldParses(svc, form, fields[0]);
    } else {
      ParseFieldsFirstError(svc, form, fields[1..]);
      var x :| 0 <= x < |fields[1..]| && !FieldParses(svc, form, fields[1..][x])
        && (forall y :: 0 <= y < x ==> FieldParses(svc, form, fields[1..][y]))
        && ParseFields(svc, form, fields[1..]).fault == ValueError(fields[1..][x].key, form[fields[1..][x].key]);
      assert fields[x + 1] == fields[1..][x];
      forall y | 0 <= y < x + 1 ensures FieldParses(svc, form, fields[y]) {
        if y > 0 {
          assert fields[y] == fields[1..][y - 1];
        }
      }
    }
  }

  function IntAt(vals: seq<Value>, x: nat): int
    requires x < |vals| && vals[x].IntValue?
  {
    vals[x].i
  }

  function RealAt(vals: seq<Value>, x: nat): real
    requires x < |vals| && vals[x].RealValue?
  {
    vals[x].r
  }

  /** `create_enhancer_config`: each stage is enabled when its `<stage>_enabled`
      key is present; the numeric fields are converted in order; the
      directories come from the application settings. */
  function CreateEnhancerConfig(svc: Service, form: Form, app: AppConfig): Result<EnhancerConfig> {
    var vals :- ParseFields(svc, form, ConfigFields);
    ConfigKinds(vals);
    Ok(EnhancerConfig(
      Denoising("denoising_enabled" in form, IntAt(vals, 0), IntAt(vals, 1), IntAt(vals, 2)),
      Clahe("clahe_enabled" in form, RealAt(vals, 3), IntAt(vals, 4), IntAt(vals, 5)),
      Contrast("contrast_enabled" in form, RealAt(vals, 6), RealAt(vals, 7)),
      Sharpening("sharpening_enabled" in form, RealAt(vals, 8), RealAt(vals, 9), RealAt(vals, 10)),
      Binarization("binarization_enabled" in form, IntAt(vals, 11), IntAt(vals, 12)),
      app.baseDir,
      app.uploadFolder,
      IntAt(vals, 13)))
  }

  /** Values of the configuration fields' kinds: integers at the integer
      positions and reals elsewhere. */
  lemma ConfigKinds(vals: seq<Value>)
    requires |vals| == |ConfigFields|
    requires forall x :: 0 <= x < |ConfigFields| ==> (vals[x].IntValue? <==> ConfigFields[x].IntField?)
    ensures vals[0].IntValue? && vals[1].IntValue? && vals[2].IntValue? && vals[3].RealValue?
    ensures vals[4].IntValue? && vals[5].IntValue? && vals[6].RealValue? && vals[7].RealValue?
    ensures vals[8].RealValue? && vals[9].RealValue? && vals[10].RealValue?
    ensures vals[11].IntValue? && vals[12].IntValue? && vals[13].IntValue?
  {
    var kinds := [true, true, true, false, true, true, false, false, false, false, false, true, true, true];
    assert forall x :: 0 <= x < |ConfigFields| ==> (ConfigFields[x].IntField? <==> kinds[x]);
  }

  /** An integer setting: the parse of the form's text when present, else the default. */
  predicate IntSetting(svc: Service, form: Form, key: string, default: int, v: int) {
    if key in form then svc.parseInt(form[key]) == Some(v) else v == default
  }

  predicate RealSetting(svc: Service, form: Form, key: string, default: real, v: real) {
    if key in form then svc.parseFloat(form[key]) == Some(v) else v == default
  }

  /** Every numeric setting is its field's parse or, when absent, its default;
      each stage's flag is the presence of its `_enabled` key. */
  lemma ConfigSettings(svc: Service, form: Form, app: AppConfig)
    requires CreateEnhancerConfig(svc, form, app).Ok?
    ensures var c := CreateEnhancerConfig(svc, form, app).value;
      (c.denoising.enabled <==> "denoising_enabled" in form)
      && (c.clahe.enabled <==> "clahe_enabled" in form)
      && (c.contrast.enabled <==> "contrast_enabled" in form)
      && (c.sharpening.enabled <==> "sharpening_enabled" in form)
      && (c.binarization.enabled <==> "binarization_enabled" in form)
      && IntSetting(svc, form, "denoising_h", 10, c.denoising.h)
      && IntSetting(svc, form, "denoising_template_window_size", 9, c.denoising.templateWindowSize)
      && IntSetting(svc, form, "denoising_search_window_size", 21, c.denoising.searchWindowSize)
      && RealSetting(svc, form, "clahe_clip_limit", 3.0, c.clahe.clipLimit)
      && IntSetting(svc, form, "clahe_grid_size_x", 24, c.clahe.tileGridX)
      && IntSetting(svc, form, "clahe_grid_size_y", 24, c.clahe.tileGridY)
      && RealSetting(svc, form, "contrast_alpha", 1.5, c.contrast.alpha)
      && RealSetting(svc, form, "contrast_beta", 0.0, c.contrast.beta)
      && RealSetting(svc, form, "sharpening_sigma", 0.8, c.sharpening.sigma)
      && RealSetting(svc, form, "sharpening_amount", 1.0, c.sharpening.amount)
      && RealSetting(svc, form, "sharpening_gaussian_weight", -0.1, c.sharpening.gaussianWeight)
      && IntSetting(svc, form, "binarization_block_size", 11, c.binarization.blockSize)
      && IntSetting(svc, form, "binarization_c", 2, c.binarization.c)
      && IntSetting(svc, form, "resolution", 400, c.resolution)
      && c.baseDir == app.baseDir && c.uploadDir == app.uploadFolder
  {
    ParseFieldsValues(svc, form, ConfigFields);
  }

  /** The configuration is built exactly when every present numeric field
      parses; otherwise the first field in conversion order that does not
      parse raises `ValueError` with its key and text. */
  lemma ConfigErrors(svc: Service, form: Form, app: AppConfig)
    ensures var r := CreateEnhancerConfig(svc, form, app);
      (r.Ok? <==> forall x :: 0 <= x < |ConfigFields| ==> FieldParses(svc, form, ConfigFields[x]))
      && (r.Raised? ==> exists x :: (0 <= x < |ConfigFields| && !FieldParses(svc, form, ConfigFields[x])
            && (forall y :: 0 <= y < x ==> FieldParses(svc, form, ConfigFields[y]))
            && r.fault == ValueError(ConfigFields[x].key, form[ConfigFields[x].key])))
  {
    ParseFieldsValues(svc, form, ConfigFields);
    if ParseFields(svc, form, ConfigFields).Raised? {
      ParseFieldsFirstError(svc, form, ConfigFields);
    }
  }

  // ----- enhance_pdf -----

  /** Some form key ends with `_enabled`. */
  predicate AnyEnabledKey(form: Form) {
    exists key | key in form :: EndsWith(key, "_enabled")
  }

  /** `enhance_pdf`: `Ok(false)` with nothing touched when no form key ends
      in `_enabled`; otherwise build the configuration and the enhancer (which creates
      its directories), check that the input is a file and run `process_pdf`;
      `Ok(true)` once it returns, and any exception is re-raised. */
  function EnhancePdf(svc: Service, docs: Documents, k: Kernels, app: AppConfig, fs: FileSystem,
                      input: Path, output: Path, form: Form): (Result<bool>, FileSystem)
  {
    if !AnyEnabledKey(form) then (Ok(false), fs)
    else
      match CreateEnhancerConfig(svc, form, app)
      case Raised(f) => (Raised(f), fs)
      case Ok(config) =>
        var e := NewEnhancer(config);
        var ready := e.WorkDirsCreated(fs);
        if input !in ready.files then (Raised(AssertionError(input)), ready)
        else
          match e.Run(docs, k, ready, input, output, config.resolution)
          case (Some(f), after) => (Raised(f), after)
          case (None, after) => (Ok(true), after)
  }

  /** `enhance_pdf` runs the enhancer exactly when a form key ends in
      `_enabled`; it reports `True` only after `process_pdf` returned without
      raising on the filesystem with the work directories created. */
  lemma EnhancePdfOutcome(svc: Service, docs: Documents, k: Kernels, app: AppConfig, fs: FileSystem,
                          input: Path, output: Path, form: Form)
    ensures var (r, after) := EnhancePdf(svc, docs, k, app, fs, input, output, form);
      (r == Ok(false) <==> !AnyEnabledKey(form))
      && (r == Ok(false) ==> after == fs)
      && (r == Ok(true) ==>
            CreateEnhancerConfig(svc, form, app).Ok?
            && var c := CreateEnhancerConfig(svc, form, app).value;
               var e := NewEnhancer(c);
               input in e.WorkDirsCreated(fs).files
               && e.Run(docs, k, e.WorkDirsCreated(fs), input, output, c.resolution) == (None, after))
  {
  }

  /** `enhance_pdf` as the service calls it: through the imperative `process_pdf`. */
  method EnhancePdfCall(svc: Service, docs: Documents, k: Kernels, app: AppConfig, fs: FileSystem,
                        input: Path, output: Path, form: Form)
    returns (r: Result<bool>, after: FileSystem)
    ensures (r, after) == EnhancePdf(svc, docs, k, app, fs, input, output, form)
  {
    if !AnyEnabledKey(form) {
      return Ok(false), fs;
    }
    var config := CreateEnhancerConfig(svc, form, app);
    if config.Raised? {
      return Raised(config.fault), fs;
    }
    var e := NewEnhancer(config.value);
    var ready := e.WorkDirsCreated(fs);
    if input !in ready.files {
      return Raised(AssertionError(input)), ready;
    }
    var fault, processed := e.ProcessPdf(docs, k, ready, input, output, config.value.resolution);
    if fault.Some? {
      return Raised(fault.value), processed;
    }
    return Ok(true), processed;
  }

  // ----- Output naming -----

  /** `f"{base_name}.ocr{ext}"` with `base_name, ext = os.path.splitext(name)`. */
  function OutputName(name: string): string {
    var (root, ext) := Splitext(name);
    root + ".ocr" + ext
  }

  /** The output name is the original's root, `.ocr`, then the original's
      extension; root and extension together give the original name back, and
      when there is an extension the output name keeps it as its own, with
      `root.ocr` as the new root. */
  lemma OutputNameParts(name: string)
    ensures var (root, ext) := Splitext(name);
      root + ext == name && OutputName(name) == root + ".ocr" + ext
      && (ext != [] ==> Splitext(OutputName(name)) == (root + ".ocr", ext))
  {
    SplitextConcat(name);
    SplitextExtension(name);
    var (root, ext) := Splitext(name);
    if ext != [] {
      var out := OutputName(name);
      var mid := root + ".ocr";
      assert out == mid + ext;
      var d := |mid|;
      assert !Occurs('/', ext);
      assert !Occurs('/', ".ocr") by {
        assert forall k :: 0 <= k < 4 ==> ".ocr"[k] != '/';
      }
      LastIndexOfAppend(root, ".ocr", '/');
      LastIndexOfAppend(mid, ext, '/');
      var sepIndex := LastIndexOf(out, '/');
      assert sepIndex == LastIndexOf(root, '/') < |root|;
      forall k | d < k < |out| ensures out[k] != '.' {
        assert out[k] == ext[1..][k - d - 1];
      }
      assert out[d] == ext[0] == '.';
      LastIndexOfIs(out, '.', d);
      assert out[|root| + 1] == 'o';
      assert out[..d] == mid && out[d..] == ext;
    }
  }

  lemma OutputNameExamples()
    ensures OutputName("scan.pdf") == "scan.ocr.pdf"
    ensures OutputName("a.b.pdf") == "a.b.ocr.pdf"
    ensures OutputName(".pdf") == ".pdf.ocr"
    ensures OutputName("noext") == "noext.ocr"
  {
    assert "scan.pdf"[4] == '.' && "scan.pdf"[0] != '.';
    assert "a.b.pdf"[3] == '.' && "a.b.pdf"[2] != '.';
  }

  // ----- The stderr-to-message mapping -----

  /** The advice given when the document already has a text layer. */
  const PriorOcrAdvice: string :=
    "Document already contains text. Use --force-ocr to force OCR, "
    + "or --skip-text to skip pages with existing text, "
    + "or --redo-ocr to reprocess all pages."

  /** The message for a failed OCR run: the fixed advice when the error says
      the document already has text, else stderr verbatim. */
  function OcrErrorMessage(stderr: string): string {
    if Contains(stderr, "PriorOcrFoundError") || Contains(stderr, "page already has text!") then PriorOcrAdvice
    else stderr
  }

  /** Either marker anywhere in stderr, with any text around it, gives the advice. */
  lemma MarkerAnywhereGivesAdvice(before: string, after: string)
    ensures OcrErrorMessage(before + "PriorOcrFoundError" + after) == PriorOcrAdvice
    ensures OcrErrorMessage(before + "page already has text!" + after) == PriorOcrAdvice
  {
    var s1 := before + "PriorOcrFoundError" + after;
    assert StartsWith(s1[|before|..], "PriorOcrFoundError") by {
      assert s1[|before|..][..18] == "PriorOcrFoundError";
    }
    var s2 := before + "page already has text!" + after;
    assert StartsWith(s2[|before|..], "page already has text!") by {
      assert s2[|before|..][..22] == "page already has text!";
    }
  }

  /** Stderr holding neither marker, with any text around it, is passed on unchanged. */
  lemma NoMarkerIsVerbatim(s: string)
    requires forall before: string, after: string ::
      s != before + "PriorOcrFoundError" + after && s != before + "page already has text!" + after
    ensures OcrErrorMessage(s) == s
  {
    if i :| 0 <= i <= |s| - 18 && StartsWith(s[i..], "PriorOcrFoundError") {
      StartsWithSplits(s, "PriorOcrFoundError", i);
      assert false;
    }
    if i :| 0 <= i <= |s| - 22 && StartsWith(s[i..], "page already has text!") {
      StartsWithSplits(s, "page already has text!", i);
      assert false;
    }
  }

  // ----- do_ocrmypdf -----

  /** Where `do_ocrmypdf` puts things, for a (secured) file name. */
  function InputPath(app: AppConfig, filename: string): Path { Join(app.uploadFolder, "input_" + filename) }
  function EnhancedPath(app: AppConfig, filename: string): Path { Join(app.uploadFolder, "enhanced_" + filename) }
  function DownPath(app: AppConfig, filename: string): Path { Join(app.uploadFolder, OutputName(filename)) }

  /** The cache answers for hash `h` when the index has an entry for it and
      the file the entry names exists. */
  predicate CacheHit(fs: FileSystem, app: AppConfig, index: map<string, string>, h: string) {
    h in index && Exists(fs, Join(app.uploadFolder, index[h]))
  }

  /** `if os.path.exists(p): os.remove(p)` */
  function RemoveIfExists(fs: FileSystem, p: Path): Result<FileSystem> {
    if Exists(fs, p) then Remove(fs, p) else Ok(fs)
  }

  /** What `do_ocrmypdf` returns: the named file is sent, an error response,
      or an exception it lets escape. */
  datatype Reply = Sent(name: string) | Rejected(message: string, status: int) | Crashed(fault: Fault)

  /** The reply, the filesystem left behind, the cache index written (if it
      was), and the `ocrmypdf` command line run (if one was). */
  datatype OcrResult = OcrResult(reply: Reply, fs: FileSystem, stored: Option<map<string, string>>, command: Option<seq<string>>)

  /** The `try` block around `enhance_pdf`: the path OCR then reads (the
      enhanced document, once the original input is removed, or the original
      input), or the exception raised. */
  function TryEnhance(svc: Service, docs: Documents, k: Kernels, app: AppConfig, fs: FileSystem,
                      filename: string, form: Form): (Result<Path>, FileSystem)
  {
    var input := InputPath(app, filename);
    var enhanced := EnhancedPath(app, filename);
    match EnhancePdf(svc, docs, k, app, fs, input, enhanced, form)
    case (Raised(f), after) => (Raised(f), after)
    case (Ok(false), after) => (Ok(input), after)
    case (Ok(true), after) =>
      match Remove(after, input)
      case Raised(f) => (Raised(f), after)
      case Ok(removed) => (Ok(enhanced), removed)
  }

  /** The `except` block: remove whichever of the two inputs exists, then
      reply 400 with the exception's text. */
  function EnhancementFailed(svc: Service, fs: FileSystem, app: AppConfig, filename: string, f: Fault): OcrResult {
    match RemoveIfExists(fs, InputPath(app, filename))
    case Raised(g) => OcrResult(Crashed(g), fs, None, None)
    case Ok(fs1) =>
      match RemoveIfExists(fs1, EnhancedPath(app, filename))
      case Raised(g) => OcrResult(Crashed(g), fs1, None, None)
      case Ok(fs2) => OcrResult(Rejected("Image enhancement failed: " + svc.describe(f), 400), fs2, None, None)
  }

  /** The language option: `request_form.get("language", "eng")`, appended as
      `-l <language>` unless empty. */
  function WithLanguage(args: seq<string>, form: Form): seq<string> {
    var language := if "language" in form then form["language"] else "eng";
    if language != "" then args + ["-l", language] else args
  }

  /** The `ocrmypdf` command line for the given arguments and input. */
  function OcrCommand(app: AppConfig, form: Form, filename: string, input: Path, args: seq<string>): seq<string> {
    ["ocrmypdf"] + WithLanguage(args, form) + [input, DownPath(app, filename)]
  }

  /** `params` splits into arguments that include `--sidecar`. */
  predicate SidecarRequested(svc: Service, form: Form) {
    "params" in form && svc.split(form["params"]).Some? && "--sidecar" in svc.split(form["params"]).value
  }

  /** `params` splits into arguments that `ocrmypdf` is run with. */
  predicate OcrRequested(svc: Service, form: Form) {
    "params" in form && svc.split(form["params"]).Some? && "--sidecar" !in svc.split(form["params"]).value
  }

  /** The `ocrmypdf` run the service makes on `input`. */
  function OcrRunFor(svc: Service, app: AppConfig, form: Form, fs: FileSystem, filename: string, input: Path): OcrRun
    requires OcrRequested(svc, form)
  {
    svc.ocr(OcrCommand(app, form, filename, input, svc.split(form["params"]).value), Lookup(fs, input))
  }

  /** From the `params` split to the reply: reject `--sidecar`, run `ocrmypdf`,
      and on exit code 0 store the output name for the hash and send it;
      otherwise reply 400 with the mapped stderr. Each exit removes the input. */
  function RunOcr(svc: Service, fs: FileSystem, app: AppConfig, index: map<string, string>, form: Form,
                  h: string, filename: string, input: Path): OcrResult
  {
    if "params" !in form then OcrResult(Crashed(KeyError("params")), fs, None, None)
    else
      match svc.split(form["params"])
      case None => OcrResult(Crashed(SplitError(form["params"])), fs, None, None)
      case Some(args) =>
        if "--sidecar" in args then
          match RemoveIfExists(fs, input)
          case Raised(g) => OcrResult(Crashed(g), fs, None, None)
          case Ok(fs1) => OcrResult(Rejected("--sidecar not supported", 501), fs1, None, None)
        else
          var command := OcrCommand(app, form, filename, input, args);
          var proc := svc.ocr(command, Lookup(fs, input));
          if proc.exitCode == 0 then
            var fs1 := Write(fs, DownPath(app, filename), proc.output);
            var stored := index[h := OutputName(filename)];
            match RemoveIfExists(fs1, input)
            case Raised(g) => OcrResult(Crashed(g), fs1, Some(stored), Some(command))
            case Ok(fs2) => OcrResult(Sent(OutputName(filename)), fs2, Some(stored), Some(command))
          else
            match RemoveIfExists(fs, input)
            case Raised(g) => OcrResult(Crashed(g), fs, None, Some(command))
            case Ok(fs1) => OcrResult(Rejected(OcrErrorMessage(proc.stderr), 400), fs1, None, Some(command))
  }

  /** `do_ocrmypdf(file, request_form)` with the cache index it reads. */
  function DoOcr(svc: Service, docs: Documents, k: Kernels, app: AppConfig, fs: FileSystem,
                 index: map<string, string>, upload: Upload, form: Form): OcrResult
  {
    var filename := svc.secureFilename(upload.filename);
    var input := InputPath(app, filename);
    var saved := Write(fs, input, upload.content);
    var h := svc.digest(upload.content);
    if CacheHit(saved, app, index, h) then
      match Remove(saved, input)
      case Raised(f) => OcrResult(Crashed(f), saved, None, None)
      case Ok(removed) => OcrResult(Sent(index[h]), removed, None, None)
    else
      match TryEnhance(svc, docs, k, app, saved, filename, form)
      case (Raised(f), after) => EnhancementFailed(svc, after, app, filename, f)
      case (Ok(ocrInput), after) => RunOcr(svc, after, app, index, form, h, filename, ocrInput)
  }

  /** `do_ocrmypdf`, step by step: `cache_input`, `cmd_args` and `cache_index`
      are updated in place as in the service. */
  method DoOcrMyPdf(svc: Service, docs: Documents, k: Kernels, app: AppConfig, fs: FileSystem,
                    index: map<string, string>, upload: Upload, form: Form)
    returns (reply: Reply, after: FileSystem, stored: Option<map<string, string>>, command: Option<seq<string>>)
    ensures OcrResult(reply, after, stored, command) == DoOcr(svc, docs, k, app, fs, index, upload, form)
  {
    var filename := svc.secureFilename(upload.filename);
    var cacheInput := InputPath(app, filename);
    var current := Write(fs, cacheInput, upload.content);
    var outputFilename := OutputName(filename);
    var downFile := DownPath(app, filename);
    var fileHash := svc.digest(upload.content);
    var cacheIndex := index;
    stored, command := None, None;

    if fileHash in cacheIndex {
      var cachedFilename := cacheIndex[fileHash];
      if Exists(current, Join(app.uploadFolder, cachedFilename)) {
        // the upload was just saved there, so its removal cannot raise
        var removed := Remove(current, cacheInput);
        return Sent(cachedFilename), removed.value, stored, command;
      }
    }

    var enhancedInput := EnhancedPath(app, filename);
    var enhanced, enhancedFs := EnhancePdfCall(svc, docs, k, app, current, cacheInput, enhancedInput, form);
    current := enhancedFs;
    var failure: Option<Fault> := None;
    if enhanced.Raised? {
      failure := Some(enhanced.fault);
    } else if enhanced.value {
      var removed := Remove(current, cacheInput);
      if removed.Raised? {
        failure := Some(removed.fault);
      } else {
        current := removed.value;
        cacheInput := enhancedInput;
      }
    }
    if failure.Some? {
      var first := RemoveIfExists(current, cacheInput);
      if first.Raised? {
        return Crashed(first.fault), current, stored, command;
      }
      current := first.value;
      var second := RemoveIfExists(current, enhancedInput);
      if second.Raised? {
        return Crashed(second.fault), current, stored, command;
      }
      return Rejected("Image enhancement failed: " + svc.describe(failure.value), 400), second.value, stored, command;
    }

    if "params" !in form {
      return Crashed(KeyError("params")), current, stored, command;
    }
    var split := svc.split(form["params"]);
    if split.None? {
      return Crashed(SplitError(form["params"])), current, stored, command;
    }
    var cmdArgs := split.value;
    if "--sidecar" in cmdArgs {
      var removed := RemoveIfExists(current, cacheInput);
      if removed.Raised? {
        return Crashed(removed.fault), current, stored, command;
      }
      return Rejected("--sidecar not supported", 501), removed.value, stored, command;
    }
    var selectedLanguage := if "language" in form then form["language"] else "eng";
    if selectedLanguage != "" {
      cmdArgs := cmdArgs + ["-l", selectedLanguage];
    }
    var ocrmypdfArgs := ["ocrmypdf"] + cmdArgs + [cacheInput, downFile];
    command := Some(ocrmypdfArgs);
    var proc := svc.ocr(ocrmypdfArgs, Lookup(current, cacheInput));

    if proc.exitCode == 0 {
      current := Write(current, downFile, proc.output);
      cacheIndex := cacheIndex[fileHash := outputFilename];
      stored := Some(cacheIndex);
      var removed := RemoveIfExists(current, cacheInput);
      if removed.Raised? {
        return Crashed(removed.fault), current, stored, command;
      }
      return Sent(outputFilename), removed.value, stored, command;
    }

    var errorMsg := OcrErrorMessage(proc.stderr);
    var removed := RemoveIfExists(current, cacheInput);
    if removed.Raised? {
      return Crashed(removed.fault), current, stored, command;
    }
    return Rejected(errorMsg, 400), removed.value, stored, command;
  }

  // ----- process_upload_request and download_file -----

  /** The POST request: the `file` part, if any, and the form fields. */
  datatype Request = Request(file: Option<Upload>, form: Form)

  /** A JSON reply `{key: value}` with its status, or an exception that escaped. */
  datatype Answer = Answer(key: string, value: string, status: int) | Uncaught(fault: Fault)

  datatype UploadResult = UploadResult(answer: Answer, fs: FileSystem, stored: Option<map<string, string>>)

  /** `process_upload_request`: reject a missing file part, an empty name and a
      disallowed name, in that order; otherwise run `do_ocrmypdf` and report
      any error response (whatever its status) as a 400 error. */
  function ProcessUploadRequest(svc: Service, docs: Documents, k: Kernels, app: AppConfig, fs: FileSystem,
                                index: map<string, string>, request: Request): UploadResult
  {
    match request.file
    case None => UploadResult(Answer("error", "No file in POST", 400), fs, None)
    case Some(upload) =>
      if upload.filename == "" then UploadResult(Answer("error", "Empty filename", 400), fs, None)
      else if !AllowedFile(upload.filename) then UploadResult(Answer("error", "Invalid filename", 400), fs, None)
      else
        var result := DoOcr(svc, docs, k, app, fs, index, upload, request.form);
        match result.reply
        case Rejected(message, _) => UploadResult(Answer("error", message, 400), result.fs, result.stored)
        case Sent(_) => UploadResult(Answer("filename", svc.secureFilename(upload.filename), 200), result.fs, result.stored)
        case Crashed(f) => UploadResult(Uncaught(f), result.fs, result.stored)
  }

  datatype Download = NotFound(message: string, status: int) | SendFile(path: Path)

  /** `download_file`: 404 unless a file or directory of that name exists in
      the upload folder. */
  function DownloadFile(fs: FileSystem, app: AppConfig, name: string): (r: Download)
    ensures r.NotFound? <==> !Exists(fs, Join(app.uploadFolder, name))
    ensures r.NotFound? ==> r == NotFound("File not found", 404)
    ensures r.SendFile? ==> r.path == Join(app.uploadFolder, name)
  {
    var path := Join(app.uploadFolder, name);
    if !Exists(fs, path) then NotFound("File not found", 404) else SendFile(path)
  }
}
