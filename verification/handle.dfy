/**
 * The `PDFImage` handle: a PDF path and the settings fixed when the object
 * is constructed (lib/index.ts:26-57), and the output paths derived from it
 * (lib/index.ts:101-113). The source assigns the fields once, in the
 * constructor, and never again, so the handle is an immutable record.
 */
module PdfImage {
  import opened Wrappers
  import opened Text

  /** The value of one `convert` option; only `null` is rendered as a bare flag. */
  datatype OptionValue = Null | Undefined | Value(text: string)

  /** The option object's entries, in the order `Object.keys` lists them. */
  type ConvertOptions = seq<(string, OptionValue)>

  /** An object's keys are distinct. */
  predicate DistinctNames(opts: ConvertOptions) {
    forall i, j :: 0 <= i < j < |opts| ==> opts[i].0 != opts[j].0
  }

  /** `PDFImageOptions`: every field may be left out. */
  datatype Options = Options(
    pdfFileBaseName: Option<string>,
    convertOptions: Option<ConvertOptions>,
    convertExtension: Option<string>,
    graphicsMagick: Option<bool>,
    combinedImage: Option<bool>,
    outputDirectory: Option<string>)

  const NoOptions := Options(None, None, None, None, None, None)

  datatype Handle = Handle(
    pdfFilePath: string,
    useGM: bool,
    outputDirectory: string,
    pdfFileBaseName: string,
    convertOptions: ConvertOptions,
    convertExtension: string,
    combinedImage: bool)

  /** A string option that is present and truthy (not `undefined`, not `""`). */
  predicate Given(o: Option<string>) {
    o.Some? && o.value != ""
  }

  /** JavaScript's `o || fallback` on an optional string. */
  function OrElse(o: Option<string>, fallback: string): string {
    if Given(o) then o.value else fallback
  }

  /**
   * `path.dirname` on a path with no trailing separator: everything before
   * the last separator, `"."` without one, and the root kept as `/`, or as
   * `//` for a file directly under a leading `//`.
   */
  function Dirname(path: string): (dir: string)
    ensures dir != ""
    ensures '/' !in path ==> dir == "."
  {
    if '/' !in path then "."
    else
      var k := LastIndexOf(path, '/');
      if k == 0 then "/"
      else if k == 1 && path[0] == '/' then "//"
      else path[..k]
  }

  /**
   * `path.basename(path, ext)` on a path with no trailing separator: the
   * last component, without `ext` when it ends with `ext` and is longer than
   * it; `""` when the whole path is `ext`.
   */
  function Basename(path: string, ext: string): (base: string)
    ensures '/' !in base
  {
    if path == ext && ext != "" then ""
    else
    var name := if '/' in path then path[LastIndexOf(path, '/') + 1..] else path;
    if |name| > |ext| && name[|name| - |ext|..] == ext then
      assert forall i :: 0 <= i < |name| - |ext| ==> name[..|name| - |ext|][i] == name[i];
      name[..|name| - |ext|]
    else name
  }

  /** `path.dirname` keeps a leading `//` whole, as Node does on POSIX. */
  lemma DirnameOfDoubleRoot(name: string)
    requires '/' !in name
    ensures Dirname("//" + name) == "//"
    ensures Dirname("/" + name) == "/"
  {
    LastIndexOfIs("//" + name, '/', 1);
    LastIndexOfIs("/" + name, '/', 0);
  }

  /** The constructor: every falsy option falls back to its default. */
  function NewHandle(pdfFilePath: string, options: Options): (h: Handle)
    ensures h.pdfFilePath == pdfFilePath
    ensures h.useGM == options.graphicsMagick.GetOr(false)
    ensures h.combinedImage == options.combinedImage.GetOr(false)
    ensures h.convertOptions == options.convertOptions.GetOr([])
    ensures Given(options.outputDirectory) ==> h.outputDirectory == options.outputDirectory.value
    ensures !Given(options.outputDirectory) ==> h.outputDirectory == Dirname(pdfFilePath)
    ensures Given(options.pdfFileBaseName) ==> h.pdfFileBaseName == options.pdfFileBaseName.value
    ensures !Given(options.pdfFileBaseName) ==> h.pdfFileBaseName == Basename(pdfFilePath, ".pdf")
    ensures Given(options.convertExtension) ==> h.convertExtension == options.convertExtension.value
    ensures !Given(options.convertExtension) ==> h.convertExtension == "png"
    ensures h.outputDirectory != "" && h.convertExtension != ""
  {
    Handle(
      pdfFilePath,
      options.graphicsMagick.GetOr(false),
      OrElse(options.outputDirectory, Dirname(pdfFilePath)),
      OrElse(options.pdfFileBaseName, Basename(pdfFilePath, ".pdf")),
      options.convertOptions.GetOr([]),
      OrElse(options.convertExtension, "png"),
      options.combinedImage.GetOr(false))
  }

  /** `path.join(dir, name)`, without normalisation. */
  function PathJoin(dir: string, name: string): string {
    dir + "/" + name
  }

  /** `getOutputImagePathForPage`: `dir/base-N.ext`. */
  function PagePath(h: Handle, page: nat): string {
    PathJoin(h.outputDirectory, h.pdfFileBaseName + "-" + NatToString(page) + "." + h.convertExtension)
  }

  /** `getOutputImagePathForFile`: `dir/base.ext`. */
  function FilePath(h: Handle): string {
    PathJoin(h.outputDirectory, h.pdfFileBaseName + "." + h.convertExtension)
  }

  /** What every page path of a handle starts with. */
  function PagePrefix(h: Handle): string {
    h.outputDirectory + "/" + h.pdfFileBaseName + "-"
  }

  lemma PagePathParts(h: Handle, page: nat)
    ensures PagePath(h, page) == PagePrefix(h) + NatToString(page) + ("." + h.convertExtension)
  {
  }

  /** Distinct pages never share an output path. */
  lemma PagePathInjective(h: Handle, p: nat, q: nat)
    ensures PagePath(h, p) == PagePath(h, q) ==> p == q
  {
    var pre, suf := PagePrefix(h), "." + h.convertExtension;
    var dp, dq := NatToString(p), NatToString(q);
    PagePathParts(h, p);
    PagePathParts(h, q);
    if PagePath(h, p) == PagePath(h, q) {
      assert |dp| == |dq|;
      assert dp == (pre + dp + suf)[|pre|..|pre| + |dp|];
      assert dq == (pre + dq + suf)[|pre|..|pre| + |dq|];
      NatToStringInjective(p, q);
    }
  }

  /** A page path and the combined path agree up to the base name, then differ: `-` against `.`. */
  lemma PagePathIsNotFilePath(h: Handle, page: nat)
    ensures var i := |h.outputDirectory| + 1 + |h.pdfFileBaseName|;
      i < |PagePath(h, page)| && i < |FilePath(h)| &&
      PagePath(h, page)[..i] == FilePath(h)[..i] &&
      PagePath(h, page)[i] == '-' && FilePath(h)[i] == '.'
    ensures PagePath(h, page) != FilePath(h)
  {
    var i := |h.outputDirectory| + 1 + |h.pdfFileBaseName|;
    var common := h.outputDirectory + "/" + h.pdfFileBaseName;
    assert PagePath(h, page) == common + ("-" + NatToString(page) + "." + h.convertExtension);
    assert FilePath(h) == common + ("." + h.convertExtension);
    assert PagePath(h, page)[i] == '-';
  }

  /** The last separator of `dir/file` is the one put there by the join. */
  lemma LastSeparatorOfJoin(dir: string, file: string)
    requires '/' !in file
    ensures var path := PathJoin(dir, file);
      '/' in path && LastIndexOf(path, '/') == |dir| && path[..|dir|] == dir && path[|dir| + 1..] == file
  {
    var path := PathJoin(dir, file);
    assert path[|dir|] == '/';
    assert path[|dir| + 1..] == file;
    LastIndexOfIs(path, '/', |dir|);
  }

  lemma DirnameOfJoin(dir: string, file: string)
    requires dir != "" && dir != "/" && '/' !in file
    ensures Dirname(PathJoin(dir, file)) == dir
  {
    LastSeparatorOfJoin(dir, file);
  }

  lemma BasenameOfJoin(dir: string, name: string)
    requires name != "" && '/' !in name
    ensures Basename(PathJoin(dir, name + ".pdf"), ".pdf") == name
  {
    var file := name + ".pdf";
    assert '/' !in file by {
      assert forall i :: 0 <= i < |name| ==> file[i] == name[i];
    }
    LastSeparatorOfJoin(dir, file);
    assert file[|file| - 4..] == ".pdf";
    assert file[..|file| - 4] == name;
  }

  /** With no options, the handle takes its directory and base name apart from the PDF's path. */
  lemma DefaultsFollowPdfPath(dir: string, name: string, page: nat)
    requires dir != "" && dir != "/" && name != "" && '/' !in name
    ensures var h := NewHandle(PathJoin(dir, name + ".pdf"), NoOptions);
      h.outputDirectory == dir && h.pdfFileBaseName == name && h.convertExtension == "png" &&
      !h.useGM && !h.combinedImage && h.convertOptions == [] &&
      FilePath(h) == PathJoin(dir, name + ".png") &&
      PagePath(h, page) == PathJoin(dir, name + "-" + NatToString(page) + ".png")
  {
    var file := name + ".pdf";
    assert '/' !in file by {
      assert forall i :: 0 <= i < |name| ==> file[i] == name[i];
    }
    DirnameOfJoin(dir, file);
    BasenameOfJoin(dir, name);
    DotPng(name);
    DotPng(name + "-" + NatToString(page));
  }

  lemma DotPng(x: string)
    ensures x + "." + "png" == x + ".png"
  {
    assert "." + "png" == ".png";
  }
}
