/**
 * `convertFile` and `combineImages` (lib/index.ts:149-204). The pages
 * 0 .. N-1 are dispatched one after another; their promises settle in an
 * order the model takes as an input (`order`, a rearrangement of the page
 * numbers). Each resolved path is pushed onto `imagePaths`; when the array's
 * length reaches `Number(totalPages)` it is sorted and resolves the inner
 * promise, and the first rejection rejects it. The combined-image branch
 * then runs `convert -append` and, when that succeeds, `rm`.
 */
module Conversion {
  import opened Wrappers
  import opened Text
  import opened Ordering
  import opened PdfImage
  import opened Commands
  import opened Info
  import opened Page

  /** `Number(totalPages)`: an integer, another finite number (by its floor), or `NaN`. */
  datatype JsNumber = Whole(n: int) | Fraction(floor: int) | NotANumber

  /** How many times `for (let i = 0; i < total; i++)` runs. */
  function LoopCount(total: JsNumber): nat {
    match total
    case Whole(n) => if n > 0 then n else 0
    case Fraction(f) => if f >= 0 then f + 1 else 0
    case NotANumber => 0
  }

  /** `imagePaths.length === Number(totalPages)`. */
  predicate ReachesTotal(total: JsNumber, length: nat) {
    total.Whole? && length == total.n
  }

  /** A promise's state. */
  datatype Settlement = Pending | Fulfilled(paths: seq<string>) | Rejected(error: PageError)

  /** The collector's state: the `imagePaths` array and the inner promise. */
  datatype Collection = Collection(paths: seq<string>, state: Settlement)

  /** One page's promise settling: push and maybe sort and resolve, or reject. */
  function Step(total: JsNumber, c: Collection, o: PageOutcome): Collection {
    match o
    case PageResolved(p) =>
      var pushed := c.paths + [p];
      if ReachesTotal(total, |pushed|) then
        Collection(Sort(pushed), if c.state.Pending? then Fulfilled(Sort(pushed)) else c.state)
      else Collection(pushed, c.state)
    case PageRejected(e) =>
      Collection(c.paths, if c.state.Pending? then Rejected(e) else c.state)
  }

  /** The collector after the given settlements, in the order they happened. */
  function Collected(total: JsNumber, arrivals: seq<PageOutcome>): Collection {
    if arrivals == [] then Collection([], Pending)
    else Step(total, Collected(total, arrivals[..|arrivals| - 1]), arrivals[|arrivals| - 1])
  }

  /**
   * The `imagePaths` array and the inner promise of `convertFile`, updated
   * by the `then` and `catch` callbacks of the page promises.
   */
  class PageCollector {
    const total: JsNumber
    var imagePaths: seq<string>
    var state: Settlement

    constructor (total: JsNumber)
      ensures this.total == total && imagePaths == [] && state == Pending
    {
      this.total := total;
      imagePaths := [];
      state := Pending;
    }

    /** A page resolved with `imagePath`. */
    method OnResolved(imagePath: string)
      modifies this
      ensures multiset(imagePaths) == multiset(old(imagePaths)) + multiset{imagePath}
      ensures ReachesTotal(total, |imagePaths|) ==> Sorted(imagePaths)
      ensures Collection(imagePaths, state) == Step(total, Collection(old(imagePaths), old(state)), PageResolved(imagePath))
    {
      imagePaths := imagePaths + [imagePath];
      if !ReachesTotal(total, |imagePaths|) {
        return;
      }
      imagePaths := Sort(imagePaths);
      if state.Pending? {
        state := Fulfilled(imagePaths);
      }
    }

    /** A page rejected with `error`. */
    method OnRejected(error: PageError)
      modifies this
      ensures imagePaths == old(imagePaths)
      ensures state == if old(state).Pending? then Rejected(error) else old(state)
    {
      if state.Pending? {
        state := Rejected(error);
      }
    }
  }

  /** The resolved paths, in the order they arrived. */
  function ResolvedPaths(arrivals: seq<PageOutcome>): seq<string> {
    if arrivals == [] then []
    else
      var init := ResolvedPaths(arrivals[..|arrivals| - 1]);
      match arrivals[|arrivals| - 1]
      case PageResolved(p) => init + [p]
      case PageRejected(_) => init
  }

  /** The error of the first rejection to arrive. */
  function FirstRejection(arrivals: seq<PageOutcome>): Option<PageError> {
    if arrivals == [] then None
    else
      var init := FirstRejection(arrivals[..|arrivals| - 1]);
      if init.Some? then init
      else match arrivals[|arrivals| - 1]
        case PageRejected(e) => Some(e)
        case PageResolved(_) => None
  }

  predicate AllResolved(arrivals: seq<PageOutcome>) {
    forall i :: 0 <= i < |arrivals| ==> arrivals[i].PageResolved?
  }

  /** `FirstRejection` is the error of the earliest rejection, and there is none exactly when every page resolved. */
  lemma {:induction false} FirstRejectionIs(arrivals: seq<PageOutcome>)
    ensures FirstRejection(arrivals).None? <==> AllResolved(arrivals)
    ensures FirstRejection(arrivals).Some? ==>
      exists i :: 0 <= i < |arrivals| && arrivals[i] == PageRejected(FirstRejection(arrivals).value) && AllResolved(arrivals[..i])
    decreases |arrivals|
  {
    if arrivals != [] {
      var init := arrivals[..|arrivals| - 1];
      FirstRejectionIs(init);
      if FirstRejection(init).Some? {
        var i :| 0 <= i < |init| && init[i] == PageRejected(FirstRejection(init).value) && AllResolved(init[..i]);
        assert arrivals[i] == init[i] && arrivals[..i] == init[..i];
      } else {
        assert arrivals[..|arrivals| - 1] == init;
      }
    }
  }

  /** When every page resolved, the resolved paths are the arrivals' paths. */
  lemma {:induction false} ResolvedPathsOfAllResolved(arrivals: seq<PageOutcome>)
    requires AllResolved(arrivals)
    ensures |ResolvedPaths(arrivals)| == |arrivals|
    ensures forall i :: 0 <= i < |arrivals| ==> ResolvedPaths(arrivals)[i] == arrivals[i].path
    decreases |arrivals|
  {
    if arrivals != [] {
      var init := arrivals[..|arrivals| - 1];
      ResolvedPathsOfAllResolved(init);
    }
  }

  /** One path per resolution, and never more paths than settlements. */
  lemma {:induction false} ResolvedPathsLength(arrivals: seq<PageOutcome>)
    ensures |ResolvedPaths(arrivals)| <= |arrivals|
    ensures FirstRejection(arrivals).None? ==> |ResolvedPaths(arrivals)| == |arrivals|
    ensures FirstRejection(arrivals).Some? ==> |ResolvedPaths(arrivals)| < |arrivals|
    decreases |arrivals|
  {
    if arrivals != [] {
      ResolvedPathsLength(arrivals[..|arrivals| - 1]);
    }
  }

  /** How the inner promise stands after some of the pages have settled. */
  function Settled(total: JsNumber, arrivals: seq<PageOutcome>): Settlement {
    if FirstRejection(arrivals).Some? then Rejected(FirstRejection(arrivals).value)
    else if |ResolvedPaths(arrivals)| >= 1 && ReachesTotal(total, |ResolvedPaths(arrivals)|) then Fulfilled(Sort(ResolvedPaths(arrivals)))
    else Pending
  }

  /**
   * While no more pages have settled than the loop dispatched, the array
   * holds the resolved paths (in some order) and the inner promise is
   * rejected by the first rejection, fulfilled with the sorted paths once
   * their count reaches the total, and pending otherwise.
   */
  lemma {:induction false} CollectedIsSettled(total: JsNumber, arrivals: seq<PageOutcome>)
    requires |arrivals| <= LoopCount(total)
    ensures multiset(Collected(total, arrivals).paths) == multiset(ResolvedPaths(arrivals))
    ensures Collected(total, arrivals).state == Settled(total, arrivals)
    decreases |arrivals|
  {
    if arrivals != [] {
      var init := arrivals[..|arrivals| - 1];
      var c := Collected(total, init);
      CollectedIsSettled(total, init);
      ResolvedPathsLength(init);
      var first := FirstRejection(init);
      assert first.None? ==> !ReachesTotal(total, |ResolvedPaths(init)|);
      assert c.state == if first.Some? then Rejected(first.value) else Pending;
      match arrivals[|arrivals| - 1]
      case PageResolved(p) =>
        assert ResolvedPaths(arrivals) == ResolvedPaths(init) + [p];
        assert FirstRejection(arrivals) == first;
        StepResolved(total, c, ResolvedPaths(init), first, p);
      case PageRejected(e) =>
        assert ResolvedPaths(arrivals) == ResolvedPaths(init);
        assert FirstRejection(arrivals) == if first.Some? then first else Some(e);
    }
  }

  /** A resolution after no rejection pushes, and resolves once the count is reached; after a rejection it only pushes. */
  lemma StepResolved(total: JsNumber, c: Collection, resolved: seq<string>, first: Option<PageError>, p: string)
    requires multiset(c.paths) == multiset(resolved)
    requires c.state == if first.Some? then Rejected(first.value) else Pending
    ensures multiset(Step(total, c, PageResolved(p)).paths) == multiset(resolved + [p])
    ensures Step(total, c, PageResolved(p)).state ==
      if first.Some? then Rejected(first.value)
      else if ReachesTotal(total, |resolved + [p]|) then Fulfilled(Sort(resolved + [p]))
      else Pending
  {
    var pushed := c.paths + [p];
    assert |c.paths| == |multiset(c.paths)| == |multiset(resolved)| == |resolved|;
    assert multiset(pushed) == multiset(resolved + [p]);
    SortIgnoresOrder(pushed, resolved + [p]);
  }

  /** The pages 0 .. n-1 in order. */
  function Range(n: nat): (r: seq<nat>)
    ensures |r| == n && forall i :: 0 <= i < n ==> r[i] == i
  {
    seq(n, i requires 0 <= i < n => i)
  }

  /** `order` is a completion order of n pages: every page settles exactly once. */
  predicate IsCompletionOrder(order: seq<nat>, n: nat) {
    multiset(order) == multiset(Range(n))
  }

  lemma CompletionOrderInRange(order: seq<nat>, n: nat)
    requires IsCompletionOrder(order, n)
    ensures |order| == n && forall j :: 0 <= j < |order| ==> order[j] < n
  {
    assert |order| == |multiset(order)| == |multiset(Range(n))| == n;
    forall j | 0 <= j < |order| ensures order[j] < n {
      assert order[j] in multiset(order);
      assert order[j] in multiset(Range(n));
    }
  }

  /** The page outcomes in the order they settle. */
  function Arrivals(outcomes: seq<PageOutcome>, order: seq<nat>): (r: seq<PageOutcome>)
    requires forall j :: 0 <= j < |order| ==> order[j] < |outcomes|
    ensures |r| == |order| && forall j :: 0 <= j < |order| ==> r[j] == outcomes[order[j]]
  {
    seq(|order|, j requires 0 <= j < |order| => outcomes[order[j]])
  }

  /** Settling in another order rearranges the outcomes and changes nothing else. */
  lemma ArrivalsRearrange(outcomes: seq<PageOutcome>, order: seq<nat>)
    requires IsCompletionOrder(order, |outcomes|)
    ensures forall j :: 0 <= j < |order| ==> order[j] < |outcomes|
    ensures multiset(Arrivals(outcomes, order)) == multiset(outcomes)
  {
    CompletionOrderInRange(order, |outcomes|);
    var n := |outcomes|;
    var f := (j: nat) => if j < n then outcomes[j] else PageRejected(StatImageFailed(""));
    MapPermutation(f, order, Range(n));
    assert MapSeq(f, order) == Arrivals(outcomes, order);
    assert MapSeq(f, Range(n)) == outcomes;
  }

  /** What each page's promise settles to. */
  function PageOutcomes(h: Handle, envs: seq<PageEnv>): (r: seq<PageOutcome>)
    ensures |r| == |envs| && forall i :: 0 <= i < |envs| ==> r[i] == PageOutcomeOf(h, i, envs[i])
  {
    seq(|envs|, i requires 0 <= i < |envs| => PageOutcomeOf(h, i, envs[i]))
  }

  /** The effects of dispatching the first k pages, one page after another. */
  function PagesEffects(h: Handle, envs: seq<PageEnv>, k: nat): seq<Effect>
    requires k <= |envs|
  {
    if k == 0 then [] else PagesEffects(h, envs, k - 1) + PageEffectsOf(h, k - 1, envs[k - 1])
  }

  /** What `numberOfPages` gave `convertFile`: a rejection, or the number of pages. */
  datatype PageCount = CountFailed | Counted(total: JsNumber)

  /** `Number(totalPages)` on `undefined`, which is `NaN`, and on a string of decimal digits, its value. */
  function NumberOf(entry: Option<string>): (r: JsNumber)
    requires entry.Some? ==> |entry.value| >= 1 && AllDigits(entry.value)
    ensures entry.None? <==> r.NotANumber?
    ensures entry.Some? && Canonical(entry.value) ==> r.Whole? && r.n >= 0 && NatToString(r.n) == entry.value
  {
    match entry
    case None => NotANumber
    case Some(s) =>
      if Canonical(s) then NatToStringOfDecimalValue(s); Whole(DecimalValue(s))
      else Whole(DecimalValue(s))
  }

  /** The `Pages` entry, when there is one, is a string of digits. */
  predicate DigitPages(info: map<string, string>) {
    "Pages" in info ==> |info["Pages"]| >= 1 && AllDigits(info["Pages"])
  }

  /** `numberOfPages()` followed by `Number(totalPages)`. */
  function PageCountOf(outcome: InfoOutcome): (c: PageCount)
    requires outcome.InfoResolved? ==> DigitPages(outcome.info)
    ensures c.CountFailed? <==> outcome.InfoRejected?
    ensures c.Counted? ==> (c.total.NotANumber? <==> "Pages" !in outcome.info)
  {
    match outcome
    case InfoRejected(_) => CountFailed
    case InfoResolved(info) => Counted(NumberOf(PagesEntry(info)))
  }

  /** When `pdfinfo` ran, the `Pages` entry of what it printed, if any, is a string of digits. */
  predicate DigitOutput(infoRun: ExecResult) {
    infoRun.ExecOk? ==> DigitPages(InfoOf(Split(infoRun.stdout, '\n')))
  }

  /** The page count `convertFile` goes on with, from the `pdfinfo` run that `numberOfPages` makes. */
  function CountOf(infoRun: ExecResult): PageCount
    requires DigitOutput(infoRun)
  {
    PageCountOf(GetInfo(infoRun))
  }

  /**
   * The last `Pages:` line of what `pdfinfo` printed, padded with any
   * blanks, is the count the pages are converted for.
   */
  lemma PagesLineCounts(output: string, i: nat, blanks: string, n: nat)
    requires var lines := Split(output, '\n');
      i < |lines| && lines[i] == "Pages" + ":" + blanks + NatToString(n) && Blanks(blanks) &&
      forall j :: i < j < |lines| ==> !Contributes(lines[j], "Pages")
    ensures DigitOutput(ExecOk(output))
    ensures CountOf(ExecOk(output)) == Counted(Whole(n))
  {
    var lines := Split(output, '\n');
    var key, digits := "Pages", NatToString(n);
    assert NoTerminator(digits) by {
      forall k | 0 <= k < |digits| ensures !IsTerminator(digits[k]) {
        assert IsDigit(digits[k]);
      }
    }
    assert IsDigit(digits[0]);
    MatchPaddedLine(key, blanks, digits);
    LastLineWins(lines, i, key, digits);
    DecimalValueOfNatToString(n);
  }

  /** When `pdfinfo` fails, `convertFile` never settles and nothing but `pdfinfo` runs. */
  lemma ConvertFileInfoFails(h: Handle, infoRun: ExecResult, envs: seq<PageEnv>, order: seq<nat>, combineRun: ExecResult)
    requires infoRun.ExecFailed?
    ensures DigitOutput(infoRun) && CountOf(infoRun) == CountFailed
    ensures FileResult(h, CountOf(infoRun), envs, order, combineRun) == Pending
    ensures FileEffects(h, CountOf(infoRun), envs, order, combineRun) == []
  {
  }

  /** The inputs `convertFile` is run on: one environment per dispatched page, and a completion order. */
  predicate Runnable(count: PageCount, envs: seq<PageEnv>, order: seq<nat>) {
    count.Counted? ==> |envs| == LoopCount(count.total) && IsCompletionOrder(order, |envs|)
  }

  /** The pages' outcomes in the order they settle. */
  function SettleOrder(h: Handle, envs: seq<PageEnv>, order: seq<nat>): (r: seq<PageOutcome>)
    requires IsCompletionOrder(order, |envs|)
    ensures |r| == |envs| && multiset(r) == multiset(PageOutcomes(h, envs))
  {
    ArrivalsRearrange(PageOutcomes(h, envs), order);
    CompletionOrderInRange(order, |envs|);
    Arrivals(PageOutcomes(h, envs), order)
  }

  /** How the inner promise of `convertFile` settles. */
  function InnerSettlement(h: Handle, total: JsNumber, envs: seq<PageEnv>, order: seq<nat>): Settlement
    requires IsCompletionOrder(order, |envs|)
  {
    Collected(total, SettleOrder(h, envs, order)).state
  }

  /**
   * How the promise `convertFile` returns settles. A failed `numberOfPages`
   * and a failed combine are never caught, so both leave it pending.
   */
  function FileResult(h: Handle, count: PageCount, envs: seq<PageEnv>, order: seq<nat>, combineRun: ExecResult): Settlement
    requires Runnable(count, envs, order)
  {
    match count
    case CountFailed => Pending
    case Counted(total) =>
      match InnerSettlement(h, total, envs, order)
      case Pending => Pending
      case Rejected(e) => Rejected(e)
      case Fulfilled(paths) =>
        if !h.combinedImage then Fulfilled(paths)
        else if combineRun.ExecOk? then Fulfilled([FilePath(h)])
        else Pending
  }

  /** The commands `combineImages` runs: the combine, then the clean-up when the combine succeeded. */
  function CombineEffects(h: Handle, paths: seq<string>, combineRun: ExecResult): seq<Effect> {
    [Run(CombineCommandForFile(h, paths))] + (if combineRun.ExecOk? then [Run(RemoveCommand(paths))] else [])
  }

  function FileEffects(h: Handle, count: PageCount, envs: seq<PageEnv>, order: seq<nat>, combineRun: ExecResult): seq<Effect>
    requires Runnable(count, envs, order)
  {
    match count
    case CountFailed => []
    case Counted(total) =>
      var inner := InnerSettlement(h, total, envs, order);
      PagesEffects(h, envs, |envs|)
        + (if inner.Fulfilled? && h.combinedImage then CombineEffects(h, inner.paths, combineRun) else [])
  }

  /** How the promise `combineImages` returns settles. */
  datatype CombineOutcome =
    | Combined(path: string)
    | CombineFailed(message: string, stdout: string, stderr: string)

  /** `combineImages`: run the combine command and, when it succeeds, the clean-up. */
  method CombineImages(h: Handle, imagePaths: seq<string>, combineRun: ExecResult) returns (outcome: CombineOutcome, effects: seq<Effect>)
    ensures effects == CombineEffects(h, imagePaths, combineRun)
    ensures combineRun.ExecOk? <==> outcome == Combined(FilePath(h))
    ensures combineRun.ExecFailed? ==>
      outcome == CombineFailed("Failed to combine images", combineRun.stdout, combineRun.stderr)
  {
    effects := [Run(CombineCommandForFile(h, imagePaths))];
    if combineRun.ExecFailed? {
      return CombineFailed("Failed to combine images", combineRun.stdout, combineRun.stderr), effects;
    }
    effects := effects + [Run(RemoveCommand(imagePaths))];
    outcome := Combined(FilePath(h));
  }

  /** The `for` loop of `convertFile`: each page is dispatched in turn and its own steps run. */
  method DispatchPages(h: Handle, envs: seq<PageEnv>) returns (outcomes: seq<PageOutcome>, effects: seq<Effect>)
    ensures outcomes == PageOutcomes(h, envs)
    ensures effects == PagesEffects(h, envs, |envs|)
  {
    outcomes := [];
    effects := [];
    for i := 0 to |envs|
      invariant outcomes == PageOutcomes(h, envs)[..i]
      invariant effects == PagesEffects(h, envs, i)
    {
      var outcome, pageEffects := ConvertPage(h, i, envs[i]);
      outcomes := outcomes + [outcome];
      effects := effects + pageEffects;
    }
  }

  /** The page promises settling in completion order, each running its callback on the collector. */
  method CollectInOrder(total: JsNumber, outcomes: seq<PageOutcome>, order: seq<nat>) returns (state: Settlement)
    requires forall j :: 0 <= j < |order| ==> order[j] < |outcomes|
    ensures state == Collected(total, Arrivals(outcomes, order)).state
  {
    ghost var arrivals := Arrivals(outcomes, order);
    var collector := new PageCollector(total);
    for j := 0 to |order|
      invariant collector.total == total
      invariant Collection(collector.imagePaths, collector.state) == Collected(total, arrivals[..j])
    {
      assert arrivals[..j + 1][..j] == arrivals[..j];
      match outcomes[order[j]]
      case PageResolved(path) => collector.OnResolved(path);
      case PageRejected(error) => collector.OnRejected(error);
    }
    assert arrivals[..|order|] == arrivals;
    state := collector.state;
  }

  /**
   * `convertFile`: run `pdfinfo` for the page count, dispatch every page,
   * collect the settlements in completion order, then combine.
   */
  method ConvertFile(h: Handle, infoRun: ExecResult, envs: seq<PageEnv>, order: seq<nat>, combineRun: ExecResult)
    returns (result: Settlement, effects: seq<Effect>)
    requires DigitOutput(infoRun) && Runnable(CountOf(infoRun), envs, order)
    ensures result == FileResult(h, CountOf(infoRun), envs, order, combineRun)
    ensures effects == [Run(GetInfoCommand(h))] + FileEffects(h, CountOf(infoRun), envs, order, combineRun)
  {
    effects := [Run(GetInfoCommand(h))];
    var count := PageCountOf(GetInfo(infoRun));
    if count.CountFailed? {
      // `numberOfPages` rejected: `convertFile` attaches no handler to it.
      return Pending, effects;
    }
    var outcomes, pageEffects := DispatchPages(h, envs);
    effects := effects + pageEffects;
    CompletionOrderInRange(order, |envs|);
    var inner := CollectInOrder(count.total, outcomes, order);
    assert inner == InnerSettlement(h, count.total, envs, order);
    match inner
    case Pending =>
      result := Pending;
    case Rejected(e) =>
      result := Rejected(e);
    case Fulfilled(paths) =>
      if h.combinedImage {
        var combined, combineEffects := CombineImages(h, paths, combineRun);
        effects := effects + combineEffects;
        assert effects == [Run(GetInfoCommand(h))] + (pageEffects + combineEffects);
        match combined
        case Combined(path) =>
          result := Fulfilled([path]);
        case CombineFailed(_, _, _) =>
          // `convertFile` attaches no handler to this rejection.
          result := Pending;
      } else {
        result := Fulfilled(paths);
      }
  }

  /** Every page path of a handle, by page number. */
  function AllPagePaths(h: Handle, n: nat): (r: seq<string>)
    ensures |r| == n && forall i :: 0 <= i < n ==> r[i] == PagePath(h, i)
  {
    seq(n, i requires 0 <= i < n => PagePath(h, i))
  }

  /**
   * When every page resolves, the inner promise resolves with the sorted
   * page paths, whatever order the pages finished in; it needs a whole,
   * positive page count, and stays pending otherwise.
   */
  lemma InnerSettlementAllResolved(h: Handle, total: JsNumber, envs: seq<PageEnv>, order: seq<nat>)
    requires |envs| == LoopCount(total) && IsCompletionOrder(order, |envs|)
    requires AllResolved(PageOutcomes(h, envs))
    ensures InnerSettlement(h, total, envs, order) ==
      if total.Whole? && total.n >= 1 then Fulfilled(Sort(AllPagePaths(h, |envs|))) else Pending
  {
    var outcomes := PageOutcomes(h, envs);
    ArrivalsRearrange(outcomes, order);
    var arrivals := SettleOrder(h, envs, order);
    RearrangedPaths(arrivals, outcomes);
    CollectedIsSettled(total, arrivals);
    FirstRejectionIs(arrivals);
    ResolvedPathsLength(arrivals);
    PageOutcomePaths(h, envs);
    SortIgnoresOrder(ResolvedPaths(arrivals), AllPagePaths(h, |envs|));
  }

  /** Rearranged outcomes that all resolved have rearranged paths. */
  lemma RearrangedPaths(arrivals: seq<PageOutcome>, outcomes: seq<PageOutcome>)
    requires multiset(arrivals) == multiset(outcomes) && AllResolved(outcomes)
    ensures AllResolved(arrivals)
    ensures multiset(ResolvedPaths(arrivals)) == multiset(ResolvedPaths(outcomes))
  {
    forall j | 0 <= j < |arrivals| ensures arrivals[j].PageResolved? {
      assert arrivals[j] in multiset(outcomes);
    }
    ResolvedPathsOfAllResolved(arrivals);
    ResolvedPathsOfAllResolved(outcomes);
    var path := (o: PageOutcome) => if o.PageResolved? then o.path else "";
    MapPermutation(path, arrivals, outcomes);
    assert MapSeq(path, arrivals) == ResolvedPaths(arrivals);
    assert MapSeq(path, outcomes) == ResolvedPaths(outcomes);
  }

  /** Pages that all resolve resolve with their own page paths, in page order. */
  lemma PageOutcomePaths(h: Handle, envs: seq<PageEnv>)
    requires AllResolved(PageOutcomes(h, envs))
    ensures ResolvedPaths(PageOutcomes(h, envs)) == AllPagePaths(h, |envs|)
  {
    var outcomes := PageOutcomes(h, envs);
    ResolvedPathsOfAllResolved(outcomes);
    forall i | 0 <= i < |envs| ensures outcomes[i].path == PagePath(h, i) {
      ResolvesToPagePath(h, i, envs[i]);
    }
  }

  /** When a page fails, the inner promise rejects with the first failure to arrive. */
  lemma InnerSettlementRejected(h: Handle, total: JsNumber, envs: seq<PageEnv>, order: seq<nat>)
    requires |envs| == LoopCount(total) && IsCompletionOrder(order, |envs|)
    requires !AllResolved(PageOutcomes(h, envs))
    ensures var arrivals := SettleOrder(h, envs, order);
      FirstRejection(arrivals).Some? && InnerSettlement(h, total, envs, order) == Rejected(FirstRejection(arrivals).value)
  {
    var outcomes := PageOutcomes(h, envs);
    ArrivalsRearrange(outcomes, order);
    var arrivals := Arrivals(outcomes, order);
    var i :| 0 <= i < |outcomes| && outcomes[i].PageRejected?;
    assert outcomes[i] in multiset(arrivals);
    FirstRejectionIs(arrivals);
    CollectedIsSettled(total, arrivals);
  }

  /** When every page converts, the result does not depend on the order the pages finished in. */
  lemma ConvertFileOrderIndependent(h: Handle, count: PageCount, envs: seq<PageEnv>, order1: seq<nat>, order2: seq<nat>, combineRun: ExecResult)
    requires Runnable(count, envs, order1) && Runnable(count, envs, order2)
    requires AllResolved(PageOutcomes(h, envs))
    ensures FileResult(h, count, envs, order1, combineRun) == FileResult(h, count, envs, order2, combineRun)
    ensures FileEffects(h, count, envs, order1, combineRun) == FileEffects(h, count, envs, order2, combineRun)
  {
    if count.Counted? {
      InnerSettlementAllResolved(h, count.total, envs, order1);
      InnerSettlementAllResolved(h, count.total, envs, order2);
    }
  }

  /**
   * With N pages that all convert and no combined image, `convertFile`
   * resolves with the N page paths sorted as strings; with a combined image
   * it resolves with the combined path when the combine succeeds, after
   * running the combine on the sorted paths and then `rm` on them.
   */
  lemma ConvertFileResolves(h: Handle, n: nat, envs: seq<PageEnv>, order: seq<nat>, combineRun: ExecResult)
    requires n >= 1 && |envs| == n && IsCompletionOrder(order, n)
    requires AllResolved(PageOutcomes(h, envs))
    ensures var paths := Sort(AllPagePaths(h, n));
      FileResult(h, Counted(Whole(n)), envs, order, combineRun) ==
        (if !h.combinedImage then Fulfilled(paths)
         else if combineRun.ExecOk? then Fulfilled([FilePath(h)]) else Pending) &&
      FileEffects(h, Counted(Whole(n)), envs, order, combineRun) ==
        PagesEffects(h, envs, n) + (if h.combinedImage then CombineEffects(h, paths, combineRun) else [])
  {
    InnerSettlementAllResolved(h, Whole(n), envs, order);
  }

  /** A failed page rejects `convertFile` with the first failure to arrive, and nothing is combined. */
  lemma ConvertFileRejects(h: Handle, total: JsNumber, envs: seq<PageEnv>, order: seq<nat>, combineRun: ExecResult)
    requires |envs| == LoopCount(total) && IsCompletionOrder(order, |envs|)
    requires !AllResolved(PageOutcomes(h, envs))
    ensures var arrivals := SettleOrder(h, envs, order);
      FirstRejection(arrivals).Some? &&
      FileResult(h, Counted(total), envs, order, combineRun) == Rejected(FirstRejection(arrivals).value) &&
      FileEffects(h, Counted(total), envs, order, combineRun) == PagesEffects(h, envs, |envs|)
  {
    InnerSettlementRejected(h, total, envs, order);
  }

  /**
   * A count for which the loop runs no time (0, a negative number, `NaN`)
   * leaves `convertFile` pending for ever, with no page touched.
   */
  lemma ConvertFileWithoutPages(h: Handle, total: JsNumber, order: seq<nat>, combineRun: ExecResult)
    requires LoopCount(total) == 0 && order == []
    ensures Runnable(Counted(total), [], order)
    ensures FileResult(h, Counted(total), [], order, combineRun) == Pending
    ensures FileEffects(h, Counted(total), [], order, combineRun) == []
  {
    assert multiset(order) == multiset(Range(0));
    assert SettleOrder(h, [], order) == [];
  }

  /** Without a whole, positive page count, `convertFile` never resolves. */
  lemma ConvertFileNeedsWholeCount(h: Handle, count: PageCount, envs: seq<PageEnv>, order: seq<nat>, combineRun: ExecResult)
    requires Runnable(count, envs, order)
    requires count.CountFailed? || !(count.total.Whole? && count.total.n >= 1)
    ensures !FileResult(h, count, envs, order, combineRun).Fulfilled?
  {
    if count.Counted? {
      var outcomes := PageOutcomes(h, envs);
      CompletionOrderInRange(order, |envs|);
      var arrivals := Arrivals(outcomes, order);
      CollectedIsSettled(count.total, arrivals);
      ResolvedPathsLength(arrivals);
    }
  }

  /** The single-digit page paths are already in string order. */
  lemma {:induction false} FewPagesStayInOrder(h: Handle, n: nat)
    requires n <= 10
    ensures Sort(AllPagePaths(h, n)) == AllPagePaths(h, n)
  {
    var paths := AllPagePaths(h, n);
    forall i, j | 0 <= i < j < n ensures LexLe(paths[i], paths[j]) {
      SingleDigitPagesInOrder(h, i, j);
    }
    SortOfSorted(paths);
  }

  lemma SingleDigitPagesInOrder(h: Handle, i: nat, j: nat)
    requires i < j < 10
    ensures LexLe(PagePath(h, i), PagePath(h, j))
  {
    var suffix := "." + h.convertExtension;
    PagePathParts(h, i);
    PagePathParts(h, j);
    assert PagePrefix(h) + NatToString(i) + suffix == PagePrefix(h) + (NatToString(i) + suffix);
    assert PagePrefix(h) + NatToString(j) + suffix == PagePrefix(h) + (NatToString(j) + suffix);
    LexLeCommonPrefix(PagePrefix(h), NatToString(i) + suffix, NatToString(j) + suffix);
    assert (NatToString(i) + suffix)[0] == DigitChar(i);
    assert (NatToString(j) + suffix)[0] == DigitChar(j);
  }

  /** The path of page 10 sorts before the path of page 2: `'1'` is below `'2'`. */
  lemma PageTenBeforePageTwo(h: Handle)
    ensures LexLe(PagePath(h, 10), PagePath(h, 2)) && PagePath(h, 10) != PagePath(h, 2)
  {
    var suffix := "." + h.convertExtension;
    PagePathParts(h, 10);
    PagePathParts(h, 2);
    var ten := NatToString(10);
    assert ten == NatToString(1) + [DigitChar(0)];
    assert ten[0] == '1';
    assert NatToString(2)[0] == '2';
    assert PagePrefix(h) + ten + suffix == PagePrefix(h) + (ten + suffix);
    assert PagePrefix(h) + NatToString(2) + suffix == PagePrefix(h) + (NatToString(2) + suffix);
    LexLeCommonPrefix(PagePrefix(h), ten + suffix, NatToString(2) + suffix);
    PagePathInjective(h, 10, 2);
  }

  /**
   * With eleven pages or more, the sorted paths `convertFile` resolves with
   * put page 10 before page 2, so they are not in page order.
   */
  lemma LexicographicSortMisordersPages(h: Handle, n: nat)
    requires n >= 11
    ensures var sorted := Sort(AllPagePaths(h, n));
      exists i, j :: 0 <= i < j < |sorted| && sorted[i] == PagePath(h, 10) && sorted[j] == PagePath(h, 2)
    ensures Sort(AllPagePaths(h, n)) != AllPagePaths(h, n)
  {
    var i, j := PageTenPlacedBeforePageTwo(h, n);
    var paths := AllPagePaths(h, n);
    if i != 10 {
      PagePathInjective(h, i, 10);
      assert Sort(paths)[i] != paths[i];
    } else {
      PagePathInjective(h, j, 2);
      assert Sort(paths)[j] != paths[j];
    }
  }

  /** Where the paths of pages 10 and 2 end up in the sorted paths. */
  lemma PageTenPlacedBeforePageTwo(h: Handle, n: nat) returns (i: nat, j: nat)
    requires n >= 11
    ensures |Sort(AllPagePaths(h, n))| == n
    ensures i < j < n && Sort(AllPagePaths(h, n))[i] == PagePath(h, 10) && Sort(AllPagePaths(h, n))[j] == PagePath(h, 2)
  {
    var paths := AllPagePaths(h, n);
    var sorted := Sort(paths);
    assert |sorted| == n by {
      assert |sorted| == |multiset(sorted)| == |multiset(paths)| == |paths|;
    }
    assert paths[10] in multiset(sorted) && paths[2] in multiset(sorted);
    PageTenBeforePageTwo(h);
    i, j := SortedPlaces(sorted, PagePath(h, 10), PagePath(h, 2));
  }

  /** In a sorted sequence a strictly smaller element comes first. */
  lemma SortedPlaces(s: seq<string>, x: string, y: string) returns (i: nat, j: nat)
    requires Sorted(s) && x in s && y in s && LexLe(x, y) && x != y
    ensures i < j < |s| && s[i] == x && s[j] == y
  {
    i :| 0 <= i < |s| && s[i] == x;
    j :| 0 <= j < |s| && s[j] == y;
    SortedStrictlyBefore(s, i, j);
  }

  /**
   * Collecting by page number instead: as each page resolves, in completion
   * order, the path it resolved with goes into that page's own slot of an
   * array of N slots, so the result is in page order for every N and every
   * completion order.
   */
  method CollectByPage(h: Handle, envs: seq<PageEnv>, order: seq<nat>) returns (collected: seq<string>)
    requires AllResolved(PageOutcomes(h, envs)) && IsCompletionOrder(order, |envs|)
    ensures collected == AllPagePaths(h, |envs|)
  {
    var n, outcomes := |envs|, PageOutcomes(h, envs);
    CompletionOrderInRange(order, n);
    var slots := new string[n](_ => "");
    for j := 0 to n
      invariant forall m :: 0 <= m < j ==> slots[order[m]] == outcomes[order[m]].path
    {
      slots[order[j]] := outcomes[order[j]].path;
    }
    forall k | 0 <= k < n ensures slots[k] == PagePath(h, k) {
      CompletionOrderCovers(order, n, k);
      ResolvesToPagePath(h, k, envs[k]);
    }
    collected := slots[..];
  }

  /** Every page settles at some point of a completion order. */
  lemma CompletionOrderCovers(order: seq<nat>, n: nat, k: nat)
    requires IsCompletionOrder(order, n) && k < n
    ensures exists j :: 0 <= j < |order| && order[j] == k
  {
    assert Range(n)[k] == k;
    assert k in multiset(Range(n));
    assert k in multiset(order);
  }
}
