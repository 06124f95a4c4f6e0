/**
 * The command lines the handle builds for the external tools
 * (lib/index.ts:59-64, 115-147, 164): `pdfinfo`, ImageMagick's or
 * GraphicsMagick's `convert`, and the `rm` clean-up. The `...Fields` lemmas
 * state each line's space-separated fields, the parts between single
 * spaces. The shell's own parsing of the line (quote removal, expansions,
 * other blanks) is not modelled.
 */
module Commands {
  import opened Text
  import opened Ordering
  import opened PdfImage

  function Quote(s: string): string {
    "\"" + s + "\""
  }

  /** The conversion tool: GraphicsMagick's form when the handle asks for it. */
  function Binary(h: Handle): string {
    if h.useGM then "gm convert" else "convert"
  }

  /** `constructGetInfoCommand`. */
  function GetInfoCommand(h: Handle): string {
    "pdfinfo " + Quote(h.pdfFilePath)
  }

  lemma GetInfoCommandFields(h: Handle)
    requires ' ' !in h.pdfFilePath
    ensures Split(GetInfoCommand(h), ' ') == ["pdfinfo", Quote(h.pdfFilePath)]
  {
    var tool, q := "pdfinfo", Quote(h.pdfFilePath);
    assert ' ' !in tool;
    QuoteWord(h.pdfFilePath);
    assert GetInfoCommand(h) == tool + [' '] + q;
    SplitWord(q, ' ');
    SplitWordThen(tool, ' ', q);
    assert [tool] + [q] == [tool, q];
  }

  /** The option names in the order `Object.keys` gives them. */
  function Names(opts: ConvertOptions): seq<string> {
    MapSeq((e: (string, OptionValue)) => e.0, opts)
  }

  /** `opts[name]`: the value stored under `name`, `undefined` when there is none. */
  function ValueOf(opts: ConvertOptions, name: string): OptionValue {
    if opts == [] then Undefined
    else if opts[0].0 == name then opts[0].1
    else ValueOf(opts[1..], name)
  }

  /** One option as the command line shows it: a bare flag for `null`, else `name value`. */
  function RenderOption(name: string, v: OptionValue): string {
    match v
    case Null => name
    case Undefined => name + " undefined"
    case Value(text) => name + " " + text
  }

  /** `constructConvertOptions`: the options sorted by name, rendered, joined by spaces. */
  function ConvertOptionsString(opts: ConvertOptions): (r: string)
    ensures opts == [] ==> r == ""
  {
    var names := Sort(Names(opts));
    Join(' ', MapSeq((name: string) => RenderOption(name, ValueOf(opts, name)), names))
  }

  /** `constructConvertCommandForPage`. */
  function ConvertCommandForPage(h: Handle, page: nat): string {
    var options := ConvertOptionsString(h.convertOptions);
    Binary(h) + " " + (if options != "" then options + " " else "")
      + Quote(h.pdfFilePath + "[" + NatToString(page) + "]") + " " + Quote(PagePath(h, page))
  }

  /** `constructCombineCommandForFile`: the paths are not quoted. */
  function CombineCommandForFile(h: Handle, imagePaths: seq<string>): string {
    Binary(h) + " -append " + Join(' ', imagePaths) + " " + Quote(FilePath(h))
  }

  /** The clean-up after a combine. */
  function RemoveCommand(imagePaths: seq<string>): string {
    "rm " + Join(' ', imagePaths)
  }

  /** The value stored with a name is the one `ValueOf` finds. */
  lemma {:induction false} ValueOfAt(opts: ConvertOptions, i: nat)
    requires DistinctNames(opts) && i < |opts|
    ensures ValueOf(opts, opts[i].0) == opts[i].1
    decreases i
  {
    if i > 0 {
      assert opts[0].0 != opts[i].0;
      assert opts[1..][i - 1] == opts[i];
      ValueOfAt(opts[1..], i - 1);
    }
  }

  lemma {:induction false} ValueOfAbsent(opts: ConvertOptions, name: string)
    requires forall i :: 0 <= i < |opts| ==> opts[i].0 != name
    ensures ValueOf(opts, name) == Undefined
    decreases |opts|
  {
    if opts != [] {
      ValueOfAbsent(opts[1..], name);
    }
  }

  /** Rearranging the entries of an object does not change what a key maps to. */
  lemma ValueOfRearranged(a: ConvertOptions, b: ConvertOptions, name: string)
    requires DistinctNames(a) && DistinctNames(b) && multiset(a) == multiset(b)
    ensures ValueOf(a, name) == ValueOf(b, name)
  {
    if i :| 0 <= i < |a| && a[i].0 == name {
      assert a[i] in multiset(b);
      var j :| 0 <= j < |b| && b[j] == a[i];
      ValueOfAt(a, i);
      ValueOfAt(b, j);
    } else {
      forall j | 0 <= j < |b|
        ensures b[j].0 != name
      {
        assert b[j] in multiset(a);
      }
      ValueOfAbsent(a, name);
      ValueOfAbsent(b, name);
    }
  }

  /** The options string depends on the option object only, not on the order its keys were added. */
  lemma ConvertOptionsOrderIndependent(a: ConvertOptions, b: ConvertOptions)
    requires DistinctNames(a) && DistinctNames(b) && multiset(a) == multiset(b)
    ensures ConvertOptionsString(a) == ConvertOptionsString(b)
  {
    MapPermutation((e: (string, OptionValue)) => e.0, a, b);
    SortIgnoresOrder(Names(a), Names(b));
    var names := Sort(Names(a));
    var ra := MapSeq((name: string) => RenderOption(name, ValueOf(a, name)), names);
    var rb := MapSeq((name: string) => RenderOption(name, ValueOf(b, name)), names);
    forall i | 0 <= i < |names|
      ensures ra[i] == rb[i]
    {
      ValueOfRearranged(a, b, names[i]);
    }
    assert ra == rb;
  }

  /** The fields one option contributes to the command line. */
  function OptionFields(name: string, v: OptionValue): seq<string> {
    match v
    case Null => [name]
    case Undefined => [name, "undefined"]
    case Value(text) => [name, text]
  }

  /** Option names and values without a space, so each stays one field. */
  predicate SpaceFreeOptions(opts: ConvertOptions) {
    forall i :: 0 <= i < |opts| ==> ' ' !in opts[i].0 && (opts[i].1.Value? ==> ' ' !in opts[i].1.text)
  }

  lemma RenderOptionFields(name: string, v: OptionValue)
    requires ' ' !in name && (v.Value? ==> ' ' !in v.text)
    ensures Split(RenderOption(name, v), ' ') == OptionFields(name, v)
  {
    SplitWord(name, ' ');
    match v
    case Null =>
    case Undefined =>
      var u := "undefined";
      assert ' ' !in u;
      SplitWord(u, ' ');
      SplitConcat(name, ' ', u);
      assert RenderOption(name, v) == name + [' '] + u;
    case Value(text) =>
      SplitWord(text, ' ');
      SplitConcat(name, ' ', text);
      assert RenderOption(name, v) == name + [' '] + text;
  }

  lemma {:induction false} ValueOfFrom(opts: ConvertOptions, name: string)
    ensures ValueOf(opts, name) == Undefined || exists i :: 0 <= i < |opts| && opts[i].1 == ValueOf(opts, name)
    decreases |opts|
  {
    if opts != [] && opts[0].0 != name {
      ValueOfFrom(opts[1..], name);
      if ValueOf(opts, name) != Undefined {
        var i :| 0 <= i < |opts[1..]| && opts[1..][i].1 == ValueOf(opts, name);
        assert opts[i + 1].1 == ValueOf(opts, name);
      }
    }
  }

  /** The fields of the sorted options, one option after another. */
  function SortedOptionFields(names: seq<string>, opts: ConvertOptions): seq<string> {
    if names == [] then []
    else OptionFields(names[0], ValueOf(opts, names[0])) + SortedOptionFields(names[1..], opts)
  }

  /** The options string splits into each option's fields, in sorted name order. */
  lemma ConvertOptionsFields(opts: ConvertOptions)
    requires opts != [] && SpaceFreeOptions(opts)
    ensures Split(ConvertOptionsString(opts), ' ') == SortedOptionFields(Sort(Names(opts)), opts)
  {
    var names := Sort(Names(opts));
    var items := MapSeq((name: string) => RenderOption(name, ValueOf(opts, name)), names);
    forall k | 0 <= k < |names|
      ensures ' ' !in names[k]
      ensures ValueOf(opts, names[k]).Value? ==> ' ' !in ValueOf(opts, names[k]).text
    {
      assert names[k] in multiset(Names(opts));
      ValueOfFrom(opts, names[k]);
    }
    SplitOfJoin(items, ' ');
    RenderedFields(names, opts);
  }

  lemma {:induction false} RenderedFields(names: seq<string>, opts: ConvertOptions)
    requires forall k :: 0 <= k < |names| ==>
      ' ' !in names[k] && (ValueOf(opts, names[k]).Value? ==> ' ' !in ValueOf(opts, names[k]).text)
    ensures SplitEach(MapSeq((name: string) => RenderOption(name, ValueOf(opts, name)), names), ' ')
      == SortedOptionFields(names, opts)
    decreases |names|
  {
    var items := MapSeq((name: string) => RenderOption(name, ValueOf(opts, name)), names);
    if names != [] {
      RenderOptionFields(names[0], ValueOf(opts, names[0]));
      RenderedFields(names[1..], opts);
      assert items[1..] == MapSeq((name: string) => RenderOption(name, ValueOf(opts, name)), names[1..]);
    }
  }

  lemma QuoteWord(s: string)
    requires ' ' !in s
    ensures ' ' !in Quote(s)
  {
    var q := Quote(s);
    assert forall i :: 0 < i < |q| - 1 ==> q[i] == s[i - 1];
  }

  /** The fields of a page conversion: the tool, the options only when there are any, the page, the output. */
  lemma ConvertCommandFields(h: Handle, page: nat)
    requires ' ' !in h.pdfFilePath && ' ' !in PagePath(h, page)
    ensures var options := ConvertOptionsString(h.convertOptions);
      Split(ConvertCommandForPage(h, page), ' ') ==
        Split(Binary(h), ' ') + (if options == "" then [] else Split(options, ' '))
        + [Quote(h.pdfFilePath + "[" + NatToString(page) + "]"), Quote(PagePath(h, page))]
  {
    var source := h.pdfFilePath + "[" + NatToString(page) + "]";
    assert ' ' !in NatToString(page) by {
      assert forall i :: 0 <= i < |NatToString(page)| ==> IsDigit(NatToString(page)[i]);
    }
    assert ' ' !in source;
    QuoteWord(source);
    QuoteWord(PagePath(h, page));
    SplitConvertLine(Binary(h), ConvertOptionsString(h.convertOptions), Quote(source), Quote(PagePath(h, page)));
  }

  /** The field structure of a conversion line, whatever the tool and options. */
  lemma SplitConvertLine(b: string, o: string, s: string, p: string)
    requires ' ' !in s && ' ' !in p
    ensures Split(b + " " + (if o != "" then o + " " else "") + s + " " + p, ' ') ==
      Split(b, ' ') + (if o == "" then [] else Split(o, ' ')) + [s, p]
  {
    ConvertShape(b, o, s, p);
    if o == "" {
      SplitBareLine(b, s, p);
      assert Split(b, ' ') + [] == Split(b, ' ');
    } else {
      SplitOptionsLine(b, o, s, p);
    }
  }

  /** A conversion line without options. */
  lemma SplitBareLine(b: string, s: string, p: string)
    requires ' ' !in s && ' ' !in p
    ensures Split(b + [' '] + (s + [' '] + p), ' ') == Split(b, ' ') + [s, p]
  {
    SplitTwoFields(s, p);
    SplitConcat(b, ' ', s + [' '] + p);
  }

  /** A conversion line with options. */
  lemma SplitOptionsLine(b: string, o: string, s: string, p: string)
    requires ' ' !in s && ' ' !in p
    ensures Split(b + [' '] + (o + [' '] + (s + [' '] + p)), ' ') == Split(b, ' ') + Split(o, ' ') + [s, p]
  {
    var tail := s + [' '] + p;
    SplitTwoFields(s, p);
    SplitConcat(o, ' ', tail);
    SplitConcat(b, ' ', o + [' '] + tail);
    ConcatAssoc(Split(b, ' '), Split(o, ' '), [s], [p]);
    assert [s] + [p] == [s, p];
  }

  lemma SplitTwoFields(s: string, p: string)
    requires ' ' !in s && ' ' !in p
    ensures Split(s + [' '] + p, ' ') == [s, p]
  {
    SplitWord(s, ' ');
    SplitThenWord(s, ' ', p);
  }

  lemma ConvertShape(b: string, o: string, s: string, p: string)
    ensures b + " " + (o + " ") + s + " " + p == b + [' '] + (o + [' '] + (s + [' '] + p))
    ensures b + " " + "" + s + " " + p == b + [' '] + (s + [' '] + p)
  {
    assert " " == [' '];
  }

  /** The fields of a combine: the tool, `-append`, each page path as it is, the quoted output. */
  lemma CombineCommandFields(h: Handle, imagePaths: seq<string>)
    requires ' ' !in FilePath(h)
    ensures Split(CombineCommandForFile(h, imagePaths), ' ') ==
      Split(Binary(h), ' ') + ["-append"] + Split(Join(' ', imagePaths), ' ') + [Quote(FilePath(h))]
  {
    var flag := "-append";
    QuoteWord(FilePath(h));
    CombineShape(Binary(h), Join(' ', imagePaths), Quote(FilePath(h)));
    SplitFourParts(Binary(h), flag, Join(' ', imagePaths), Quote(FilePath(h)));
  }

  /** The fields of `b flag paths q` when the flag and the last part are single fields. */
  lemma SplitFourParts(b: string, flag: string, paths: string, q: string)
    requires ' ' !in flag && ' ' !in q
    ensures Split(b + [' '] + (flag + [' '] + (paths + [' '] + q)), ' ') == Split(b, ' ') + [flag] + Split(paths, ' ') + [q]
  {
    var t1 := paths + [' '] + q;
    SplitThenWord(paths, ' ', q);
    SplitWordThen(flag, ' ', t1);
    SplitConcat(b, ' ', flag + [' '] + t1);
    ConcatAssoc(Split(b, ' '), [flag], Split(paths, ' '), [q]);
  }

  lemma CombineShape(b: string, p: string, q: string)
    ensures b + " -append " + p + " " + q == b + [' '] + ("-append" + [' '] + (p + [' '] + q))
  {
    assert " -append " == [' '] + "-append" + [' '];
    assert " " == [' '];
  }

  /** Page paths without spaces are one field each, in the order given. */
  lemma CombineCommandKeepsPaths(h: Handle, imagePaths: seq<string>)
    requires ' ' !in FilePath(h) && |imagePaths| >= 1
    requires forall i :: 0 <= i < |imagePaths| ==> ' ' !in imagePaths[i]
    ensures Split(CombineCommandForFile(h, imagePaths), ' ') ==
      Split(Binary(h), ' ') + ["-append"] + imagePaths + [Quote(FilePath(h))]
  {
    CombineCommandFields(h, imagePaths);
    SplitJoin(imagePaths, ' ');
  }

  /** A page path with a space splits into two fields: the paths are not quoted. */
  lemma CombineCommandBreaksSpacedPath(h: Handle, left: string, right: string)
    requires ' ' !in FilePath(h) && ' ' !in left && ' ' !in right
    ensures Split(CombineCommandForFile(h, [left + " " + right]), ' ') ==
      Split(Binary(h), ' ') + ["-append", left, right, Quote(FilePath(h))]
  {
    var spaced := left + [' '] + right;
    assert left + " " + right == spaced;
    assert Join(' ', [spaced]) == spaced;
    CombineCommandFields(h, [spaced]);
    SplitWord(left, ' ');
    SplitThenWord(left, ' ', right);
    assert [left] + [right] == [left, right];
    var head, q := Split(Binary(h), ' '), Quote(FilePath(h));
    ConcatAssoc(head, ["-append"], [left, right], [q]);
    assert ["-append"] + ([left, right] + [q]) == ["-append", left, right, q];
  }

  /** The clean-up names exactly the given paths, in order. */
  lemma RemoveCommandFields(imagePaths: seq<string>)
    requires |imagePaths| >= 1
    requires forall i :: 0 <= i < |imagePaths| ==> ' ' !in imagePaths[i]
    ensures Split(RemoveCommand(imagePaths), ' ') == ["rm"] + imagePaths
  {
    var tool := "rm";
    assert ' ' !in tool;
    assert RemoveCommand(imagePaths) == tool + [' '] + Join(' ', imagePaths);
    SplitWordThen(tool, ' ', Join(' ', imagePaths));
    SplitJoin(imagePaths, ' ');
  }
}
