/**
 * `convertPage` (lib/index.ts:206-264): stat the page's image; convert when
 * it is missing or older than the PDF, reuse it otherwise, and reject when a
 * stat or the conversion fails. The file system and the `convert` run are
 * inputs; what the page would do to them is returned as a trace of effects.
 */
module Page {
  import opened PdfImage
  import opened Commands
  import opened Info

  /** What `fs.stat` reports: an error with its `code`, or the modification time in milliseconds. */
  datatype Stat = StatError(code: string) | StatOk(mtimeMs: int)

  /** `err && err.code === "ENOENT"`: the file does not exist. */
  predicate IsMissing(s: Stat) {
    s.StatError? && s.code == "ENOENT"
  }

  /** The rejections of `convertPage`. */
  datatype PageError =
    | StatImageFailed(code: string)
    | StatPdfFailed(code: string)
    | ConvertFailed(stdout: string, stderr: string)

  /** The `message` each rejection carries. */
  function Message(e: PageError): string {
    match e
    case StatImageFailed(_) => "Failed to stat image file"
    case StatPdfFailed(_) => "Failed to stat PDF file"
    case ConvertFailed(_, _) => "Failed to convert page to image"
  }

  datatype Decision = Convert | Reuse | Fail(error: PageError)

  /**
   * The staleness decision on the image's stat and, when that succeeded,
   * the PDF's: convert a missing or strictly older image, reuse one that is
   * as new as the PDF or newer, and fail on any other stat error.
   */
  function Decide(image: Stat, pdf: Stat): (d: Decision)
    ensures d == Convert <==> IsMissing(image) || (image.StatOk? && pdf.StatOk? && image.mtimeMs < pdf.mtimeMs)
    ensures d == Reuse <==> image.StatOk? && pdf.StatOk? && pdf.mtimeMs <= image.mtimeMs
    ensures d.Fail? ==> d.error == if image.StatError? then StatImageFailed(image.code) else StatPdfFailed(pdf.code)
  {
    if image.StatError? then
      if image.code == "ENOENT" then Convert else Fail(StatImageFailed(image.code))
    else if pdf.StatError? then Fail(StatPdfFailed(pdf.code))
    else if image.mtimeMs < pdf.mtimeMs then Convert
    else Reuse
  }

  /** A missing image is converted without looking at the PDF. */
  lemma MissingImageIgnoresPdf(image: Stat, pdf1: Stat, pdf2: Stat)
    requires IsMissing(image)
    ensures Decide(image, pdf1) == Decide(image, pdf2) == Convert
  {
  }

  /** What a page's conversion touches: a stat of a path, or a command run. */
  datatype Effect = StatFile(path: string) | Run(command: string)

  datatype PageOutcome = PageResolved(path: string) | PageRejected(error: PageError)

  /** The world one page's conversion meets: the two stats and the `convert` run. */
  datatype PageEnv = PageEnv(imageStat: Stat, pdfStat: Stat, convertRun: ExecResult)

  /** How the page's promise settles. */
  function PageOutcomeOf(h: Handle, page: nat, env: PageEnv): PageOutcome {
    match Decide(env.imageStat, env.pdfStat)
    case Reuse => PageResolved(PagePath(h, page))
    case Fail(e) => PageRejected(e)
    case Convert =>
      match env.convertRun
      case ExecOk(_) => PageResolved(PagePath(h, page))
      case ExecFailed(out, err) => PageRejected(ConvertFailed(out, err))
  }

  /** The page's effects, in order: stat the image, stat the PDF when the image is there, convert when decided. */
  function PageEffectsOf(h: Handle, page: nat, env: PageEnv): seq<Effect> {
    [StatFile(PagePath(h, page))]
      + (if env.imageStat.StatOk? then [StatFile(h.pdfFilePath)] else [])
      + (if Decide(env.imageStat, env.pdfStat) == Convert then [Run(ConvertCommandForPage(h, page))] else [])
  }

  /** `convertPage`: the stat callbacks and the conversion, run one after another. */
  method ConvertPage(h: Handle, page: nat, env: PageEnv) returns (outcome: PageOutcome, effects: seq<Effect>)
    ensures outcome == PageOutcomeOf(h, page, env)
    ensures effects == PageEffectsOf(h, page, env)
  {
    var outputImagePath := PagePath(h, page);
    var convertCommand := ConvertCommandForPage(h, page);
    effects := [StatFile(outputImagePath)];
    var image := env.imageStat;
    var imageNotExists := image.StatError? && image.code == "ENOENT";
    if !imageNotExists && image.StatError? {
      return PageRejected(StatImageFailed(image.code)), effects;
    }
    var convert := imageNotExists;
    if !imageNotExists {
      effects := effects + [StatFile(h.pdfFilePath)];
      var pdf := env.pdfStat;
      if pdf.StatError? {
        return PageRejected(StatPdfFailed(pdf.code)), effects;
      }
      convert := image.mtimeMs < pdf.mtimeMs;
    }
    if !convert {
      return PageResolved(outputImagePath), effects;
    }
    effects := effects + [Run(convertCommand)];
    match env.convertRun
    case ExecFailed(out, err) =>
      outcome := PageRejected(ConvertFailed(out, err));
    case ExecOk(_) =>
      outcome := PageResolved(outputImagePath);
  }

  /**
   * A rejected page says why: the image's stat failed other than by its
   * absence, the PDF's stat failed, or the conversion failed.
   */
  lemma RejectionMessage(h: Handle, page: nat, env: PageEnv)
    requires PageOutcomeOf(h, page, env).PageRejected?
    ensures var m := Message(PageOutcomeOf(h, page, env).error);
      (m == "Failed to stat image file" <==> env.imageStat.StatError? && !IsMissing(env.imageStat)) &&
      (m == "Failed to stat PDF file" <==> env.imageStat.StatOk? && env.pdfStat.StatError?) &&
      (m == "Failed to convert page to image" <==> Decide(env.imageStat, env.pdfStat) == Convert)
  {
  }

  /** A page that resolves resolves to its own output path. */
  lemma ResolvesToPagePath(h: Handle, page: nat, env: PageEnv)
    ensures PageOutcomeOf(h, page, env).PageResolved? ==> PageOutcomeOf(h, page, env).path == PagePath(h, page)
  {
  }

  /** The page resolves exactly when its image is reused or converted successfully. */
  lemma PageResolvesWhen(h: Handle, page: nat, env: PageEnv)
    ensures PageOutcomeOf(h, page, env).PageResolved? <==>
      Decide(env.imageStat, env.pdfStat) == Reuse ||
      (Decide(env.imageStat, env.pdfStat) == Convert && env.convertRun.ExecOk?)
  {
  }

  /** The `convert` command runs only on a convert decision, and then it is the last effect. */
  lemma ConvertRunsOnlyWhenDecided(h: Handle, page: nat, env: PageEnv)
    ensures var effects := PageEffectsOf(h, page, env);
      (Decide(env.imageStat, env.pdfStat) == Convert <==> effects[|effects| - 1] == Run(ConvertCommandForPage(h, page))) &&
      (forall i :: 0 <= i < |effects| - 1 ==> effects[i].StatFile?)
  {
  }

  /** A missing image is converted straight away: the PDF is never statted. */
  lemma MissingImageEffects(h: Handle, page: nat, env: PageEnv)
    requires IsMissing(env.imageStat)
    ensures PageEffectsOf(h, page, env) == [StatFile(PagePath(h, page)), Run(ConvertCommandForPage(h, page))]
  {
  }

  /** A reused image runs no command: the page only reads the two stats. */
  lemma ReuseRunsNothing(h: Handle, page: nat, env: PageEnv)
    requires Decide(env.imageStat, env.pdfStat) == Reuse
    ensures PageEffectsOf(h, page, env) == [StatFile(PagePath(h, page)), StatFile(h.pdfFilePath)]
    ensures PageOutcomeOf(h, page, env) == PageResolved(PagePath(h, page))
  {
  }
}
