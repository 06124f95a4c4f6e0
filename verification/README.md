# node-pdf-image in Dafny

A model of the `PDFImage` class of node-pdf-image (`lib/index.ts`). The class turns the pages of a PDF into
image files with ImageMagick's or GraphicsMagick's `convert`, and can optionally stack them into one
combined image. The model covers:

- the handle the constructor builds, with its option fallbacks;
- the command lines given to `pdfinfo`, `convert` and `rm`;
- the parser of `pdfinfo`'s output and the `Pages` entry read from it;
- the output-path scheme `dir/base-N.ext` and `dir/base.ext`;
- the per-page cache decision of `convertPage`: stat the image, stat the PDF, convert or reuse;
- the collection of page results in `convertFile`, and the combine step of `combineImages`.

Every external effect is an input or part of a returned trace:

- a `pdfinfo`, `convert` or `rm` run is an `ExecResult` (success with its output, or failure);
- a `stat` is a `Stat` (an error code, or a modification time in milliseconds);
- the order in which the asynchronous pages finish is a rearrangement of the page numbers (`order`);
- what a page or a file conversion does is returned as a list of `Effect`s (`StatFile(path)`, `Run(command)`).

Modules:

| file | module | what it holds |
|---|---|---|
| `wrappers.dfy` | `Wrappers` | `Option` |
| `text.dfy` | `Text` | `split`, `join` and the decimal rendering of numbers |
| `ordering.dfy` | `Ordering` | the default order of `Array.prototype.sort` on strings; a reference sort |
| `handle.dfy` | `PdfImage` | the handle, its defaults, the output paths |
| `commands.dfy` | `Commands` | the command builders and the space-separated fields of each command line |
| `info.dfy` | `Info` | `parseGetInfoCommandOutput`, `getInfo`, `numberOfPages` |
| `page.dfy` | `Page` | `convertPage` |
| `file.dfy` | `Conversion` | `convertFile` and `combineImages` |

Behaviour the model states as it is:

- `null` is the only option value rendered as a bare flag. An option set to `undefined` is rendered as
  `name undefined`.
- The promise `convertFile` returns never settles in these cases:
  - `numberOfPages` fails: no handler is attached, so its rejection is an unhandled promise rejection,
    which by default ends the process in Node 15 and later;
  - the page loop runs no time: `Number(totalPages)` is 0, negative or `NaN`;
  - the combine fails: again no handler is attached, with the same unhandled rejection.
  The model states only that the returned promise stays pending; the unhandled rejection and what
  the runtime does about it are not modelled.
- With a positive count that is not a whole number, the length test never holds, so `convertFile` never
  resolves; it still rejects when a page fails, and stays pending otherwise.
- A line of `pdfinfo` output that holds a carriage return never matches, so CRLF output yields an empty
  dictionary. A `__proto__` key adds no entry.
- The paths given to the combine command are not quoted, so a path with a space is two space-separated
  fields of the command line.

## Model

| member | source | states |
|---|---|---|
| PdfImage.NewHandle | lib/index.ts:35-57 | each field is the option when it is present and truthy, else its default: `dirname(pdf)`, `basename(pdf, ".pdf")`, `"png"`, no options, `false` for the two flags |
| PdfImage.Dirname | lib/index.ts:40 | the default output directory is never empty, and it is `.` for a path without a separator |
| PdfImage.Basename | lib/index.ts:48 | the default base name holds no separator; it is empty when the whole path is `.pdf` |
| PdfImage.DirnameOfJoin | lib/index.ts:40 | `dirname` of `dir/file` gives back `dir` |
| PdfImage.DirnameOfDoubleRoot | lib/index.ts:40 | a file under `//` has directory `//`, a file under `/` has directory `/` |
| PdfImage.BasenameOfJoin | lib/index.ts:48 | `basename(dir/name.pdf, ".pdf")` gives back `name` |
| PdfImage.DefaultsFollowPdfPath | lib/index.ts:35-57 | with no options, `dir/name.pdf` gives directory `dir`, base name `name`, extension `png`, page paths `dir/name-N.png` and combined path `dir/name.png` |
| PdfImage.PagePathInjective | lib/index.ts:101-106 | distinct pages never share an output path |
| PdfImage.PagePathIsNotFilePath | lib/index.ts:101-113 | a page path and the combined path agree up to the base name and then differ (`-` against `.`), so no page path is the combined path |
| Text.Split | lib/index.ts:68 | `split` gives at least one piece and no piece holds the separator |
| Text.JoinSplit | lib/index.ts:68 | joining the pieces of a split with the separator gives the text back |
| Text.SplitJoin | lib/index.ts:132 | splitting a join of separator-free pieces gives the pieces back |
| Text.NatToString | lib/index.ts:104 | a page number renders as one digit exactly below 10, with no leading zero |
| Text.NatToStringOfDecimalValue | lib/index.ts:104 | every canonical digit string is the rendering of its value |
| Text.NatToStringInjective | lib/index.ts:104 | distinct page numbers render differently |
| Ordering.LexLeTotal | lib/index.ts:182 | any two strings are comparable in the sort order |
| Ordering.LexLeAntisymmetric | lib/index.ts:182 | strings that sort before each other are equal |
| Ordering.LexLeTransitive | lib/index.ts:182 | the sort order is transitive |
| Ordering.LexLeCommonPrefix | lib/index.ts:182 | a common prefix does not change how two strings compare |
| Ordering.Sort | lib/index.ts:182 | the sorted array is ordered and is a rearrangement of the input |
| Ordering.SortedUnique | lib/index.ts:182 | two ordered rearrangements of the same elements are equal, so the sort's result does not depend on the algorithm |
| Ordering.SortIgnoresOrder | lib/index.ts:182 | rearranging the input does not change the sorted result |
| Ordering.SortedStrictlyBefore | lib/index.ts:182 | in a sorted array a strictly smaller string stands at a smaller index |
| Commands.GetInfoCommandFields | lib/index.ts:59-64 | for a path without spaces the command's space-separated fields are `pdfinfo` and the quoted path |
| Commands.ConvertOptionsString | lib/index.ts:137-147 | an empty option object gives the empty string |
| Commands.ValueOfRearranged | lib/index.ts:138-146 | the value read for a key does not depend on the order the keys were added |
| Commands.ConvertOptionsOrderIndependent | lib/index.ts:137-147 | the options string depends on the option object only, not on key insertion order |
| Commands.RenderOptionFields | lib/index.ts:140-145 | a `null` option is the bare name, any other is the name then the value |
| Commands.ConvertOptionsFields | lib/index.ts:137-147 | the options string's space-separated fields are each option's name and value, options in sorted name order |
| Commands.ConvertCommandFields | lib/index.ts:115-126 | the page command's fields are the tool's fields, the option fields only when there are options, the quoted `pdf[N]`, and the quoted page path |
| Commands.CombineCommandFields | lib/index.ts:128-135 | the combine command's fields are the tool's fields, `-append`, the fields of the joined paths, and the quoted combined path |
| Commands.CombineCommandKeepsPaths | lib/index.ts:128-135 | page paths without spaces are one field each, in the given order |
| Commands.CombineCommandBreaksSpacedPath | lib/index.ts:128-135 | an unquoted page path with a space becomes two fields |
| Commands.RemoveCommandFields | lib/index.ts:164 | the clean-up's fields are `rm` followed by exactly the given paths, in order |
| Info.LeadingBlanks | lib/index.ts:69 | the count of leading spaces and tabs: all of them are blanks and the next character is not |
| Info.MatchLineMatches | lib/index.ts:69 | the regular expression (as `IsMatch`) matches a line exactly when it holds a colon and no line terminator |
| Info.MatchLineSound | lib/index.ts:69-70 | the two captures returned are those of a match of the regular expression |
| Info.CapturesAtColon | lib/index.ts:69-70 | the key before the first colon and the rest without leading blanks are a match |
| Info.MatchLineFinds | lib/index.ts:69-70 | every match has these captures, so the captures of a match are unique |
| Info.MatchRenderedLine | lib/index.ts:69-70 | `key: value` gives back `key` and `value`, whatever colons the value holds |
| Info.MatchPaddedLine | lib/index.ts:69-70 | `key:` followed by any run of spaces and tabs and a value gives back `key` and the value without the padding |
| Info.CarriageReturnLineIgnored | lib/index.ts:68-69 | a line holding a carriage return never matches |
| Info.ParseGetInfoCommandOutput | lib/index.ts:66-74 | the loop fills the dictionary line by line, as `InfoOf` of the lines split at line feeds |
| Info.InfoKeys | lib/index.ts:68-72 | a key is in the dictionary exactly when some line matches with it as key (other than `__proto__`) |
| Info.LastLineWins | lib/index.ts:68-72 | when a key repeats, the value of its last line is kept |
| Info.OtherLinesKeep | lib/index.ts:68-72 | lines that do not match a key leave its entry as it was |
| Info.TwoLineOutput | lib/index.ts:66-74 | `k1: v1\nk2: v2\n` parses to exactly `{k1: v1, k2: v2}`; the empty last line adds nothing |
| Info.GetInfo | lib/index.ts:76-93 | given what the `pdfinfo` run gave: a failure rejects with "Failed to get PDF'S information" and its output, and exactly a failure does; otherwise the result is the parsed output |
| Info.PagesEntry | lib/index.ts:95-99 | `numberOfPages` gives the `Pages` entry, `undefined` exactly when there is none |
| Page.Decide | lib/index.ts:226-260 | convert exactly when the image is missing or strictly older than the PDF; reuse exactly when both stats succeed and the image is as new or newer; otherwise fail with the stat error that occurred |
| Page.MissingImageIgnoresPdf | lib/index.ts:239-243 | a missing image is converted whatever the PDF's stat |
| Page.ConvertPage | lib/index.ts:206-264 | the page settles as `PageOutcomeOf` and touches the world as `PageEffectsOf` |
| Page.ResolvesToPagePath | lib/index.ts:222 | a page that resolves resolves to its own output path |
| Page.PageResolvesWhen | lib/index.ts:211-261 | a page resolves exactly when its image is reused, or converted without error |
| Page.ConvertRunsOnlyWhenDecided | lib/index.ts:226-261 | `convert` runs exactly on a convert decision, as the last effect; everything before it is a stat |
| Page.MissingImageEffects | lib/index.ts:239-243 | a missing image is converted without the PDF being statted |
| Page.RejectionMessage | lib/index.ts:214-251 | a rejected page carries "Failed to stat image file" exactly when the image's stat failed other than by ENOENT, "Failed to stat PDF file" exactly when the image was statted and the PDF's stat failed, and "Failed to convert page to image" exactly when the page was to be converted |
| Page.ReuseRunsNothing | lib/index.ts:254-260 | a reused image runs no command and resolves with the page path |
| Conversion.NumberOf | lib/index.ts:178 | `Number` of `undefined` is `NaN`; a canonical digit string gives the whole number it renders |
| Conversion.PageCountOf | lib/index.ts:174-178 | the count is missing exactly when `getInfo` failed, and `NaN` exactly when there is no `Pages` entry |
| Conversion.PagesLineCounts | lib/index.ts:95-99 | when the last `Pages:` line of a successful `pdfinfo` run is padded with any spaces and tabs and then `N`, `N` is the count `convertFile` goes on with |
| Conversion.ConvertFileInfoFails | lib/index.ts:174 | a failed `pdfinfo` run leaves `convertFile` pending for ever, with no page touched |
| Conversion.PageCollector.constructor | lib/index.ts:175-176 | an empty `imagePaths` array and a pending promise |
| Conversion.PageCollector.OnResolved | lib/index.ts:179-184 | the path is added to the array; once its length reaches the count the array is sorted and a pending promise resolves with it |
| Conversion.PageCollector.OnRejected | lib/index.ts:185-187 | the array is unchanged and a pending promise rejects with the error |
| Conversion.FirstRejectionIs | lib/index.ts:185-187 | there is a first rejection exactly when some page fails, and it is the earliest failure to arrive |
| Conversion.ResolvedPathsLength | lib/index.ts:179-181 | one path per resolved page, so the count is reached only when no page failed |
| Conversion.CollectedIsSettled | lib/index.ts:175-188 | after any prefix of the settlements, the array holds the resolved paths, and the promise is rejected by the first failure, resolved with the sorted paths once at least one path was pushed and the count is reached, and pending otherwise |
| Conversion.ArrivalsRearrange | lib/index.ts:178-188 | any completion order delivers exactly the pages' outcomes, rearranged |
| Conversion.SettleOrder | lib/index.ts:178-188 | the settlements are one per dispatched page, a rearrangement of the page outcomes |
| Conversion.CombineImages | lib/index.ts:149-168 | run the combine; on success run `rm` on the paths and resolve with the combined path; on failure reject with "Failed to combine images" and run nothing more |
| Conversion.DispatchPages | lib/index.ts:178-179 | the `for` loop dispatches pages 0 .. N-1 in turn: their outcomes are the pages' outcomes and their effects follow page order |
| Conversion.CollectInOrder | lib/index.ts:179-187 | feeding the settlements to the collector in completion order leaves the promise as `Collected` of the arrivals |
| Conversion.StepResolved | lib/index.ts:179-184 | a resolution pushes its path, resolves a pending promise with the sorted paths exactly when the count is reached, and leaves a rejection as it was |
| Conversion.ConvertFile | lib/index.ts:170-204 | run `pdfinfo` first (recorded as the first effect) and take the count from its output; then dispatch every page in turn, feed their results to the collector in completion order, and combine; result and effects are `FileResult` and `FileEffects` of that count |
| Conversion.InnerSettlementAllResolved | lib/index.ts:175-188 | when every page resolves, the inner promise resolves with the sorted page paths for a whole count of at least one, and stays pending otherwise |
| Conversion.InnerSettlementRejected | lib/index.ts:185-187 | when some page fails, the inner promise rejects with the first failure to arrive |
| Conversion.ConvertFileOrderIndependent | lib/index.ts:175-198 | when every page converts, the result and the effects are the same for every completion order |
| Conversion.ConvertFileResolves | lib/index.ts:191-198 | with N ≥ 1 pages that all convert: the sorted page paths, or with a combined image the combined path after the combine and `rm` on the sorted paths, or pending when the combine fails |
| Conversion.ConvertFileRejects | lib/index.ts:185-200 | a failed page rejects `convertFile` with the first failure to arrive, and nothing is combined |
| Conversion.ConvertFileNeedsWholeCount | lib/index.ts:174-183 | without a count that is a whole number of at least one, `convertFile` never resolves |
| Conversion.ConvertFileWithoutPages | lib/index.ts:178 | a count for which the loop runs no time (0, negative, `NaN`) leaves `convertFile` pending, with no page touched |
| Conversion.FewPagesStayInOrder | lib/index.ts:182 | with at most ten pages the sorted paths are the paths in page order |
| Conversion.LexicographicSortMisordersPages | lib/index.ts:182 | with eleven pages or more, the path of page 10 sorts before the path of page 2, so the result is not in page order |
| Conversion.CollectByPage | lib/index.ts:179-183 | when every page resolves, placing the path each page resolved with at its page index, in completion order, gives the paths in page order, for every page count and completion order |

## Left out

- Running `pdfinfo`, `convert` and `rm` (`child_process.exec`) is not modelled: each run is an `ExecResult` input, and the command is recorded as an effect. The output of `rm` is ignored, as in the source.
- `fs.stat` is not modelled: its result is a `Stat` input. `Date` comparison is taken as a comparison of whole milliseconds.
- The concurrency of the page fan-out is abstracted. Every page's stat and convert effects are listed in page order, and the completions reach the collector in the order given by `order`. The real interleaving of effects between pages is not modelled.
- `path.join`, `path.dirname` and `path.basename` are modelled without normalisation. A join is `dir + "/" + name`, and paths are assumed to have no trailing separator.
- PdfImage.DirnameOfJoin and PdfImage.DefaultsFollowPdfPath exclude the directory `/`: the unnormalised join of `/` and `name` is `//name`, whose directory is `//`, where Node's `path.join` would give `/name`.
- Shell parsing of the command lines is reduced to splitting at single spaces. Quote removal, `$`, backtick and backslash expansion, and splitting at tabs and newlines are not modelled, so the `...Fields` lemmas describe the text of each command, not the arguments a shell passes on.
- `util.format` is modelled as concatenation. Its handling of `%d` for non-integers is not modelled: page numbers are natural numbers.
- Conversion.NumberOf: `Number()` is modelled only on `undefined` and on strings of decimal digits, the form `pdfinfo` prints; its full grammar (blanks, signs, exponents, hexadecimal, `Infinity`) is not. This forces a precondition on `Conversion.PageCountOf` (`DigitPages`) and on `Conversion.ConvertFile` (`DigitOutput`): a `Pages` entry that is not a non-empty digit string is excluded. For example, `Pages:` with an empty value, which the source accepts (`Number("")` is 0, so no page is converted), is outside the model.
- Conversion.JsNumber: a non-whole number is represented by its floor, which is all the loop and the length test need; `Infinity` is not represented.
- String order is by Unicode code point. JavaScript compares UTF-16 code units, which differs only for characters outside the Basic Multilingual Plane.
- The `imagePaths` array is resolved by reference. The model copies the sorted sequence; nothing writes to the array after it is resolved, so the two agree.
- The `error` object carried by a rejection (the `Error` from `exec` or `stat`) is represented by its code or the tool's output only.
- `dist/index.js` and `dist/index.d.ts` are the compiled output and type declarations of `lib/index.ts`; they are not part of this model.

## Findings

| source | as written | input that shows it | evidently intended | confidence | as-written member | corrected member |
|---|---|---|---|---|---|---|
| lib/index.ts:182 | `imagePaths.sort()` orders the page paths as strings | a PDF with 11 pages: `base-10.png` sorts before `base-2.png` | the paths in page order, which the comment on the sort asks for | high (proved; not executed) | Conversion.LexicographicSortMisordersPages | Conversion.CollectByPage |
