/**
 * `parseGetInfoCommandOutput` (lib/index.ts:66-74): the output of `pdfinfo`
 * is split at line feeds and every line that the regular expression
 * `^(.*?):[ \t]*(.*)$` matches stores its second capture under its first.
 * The regular expression is modelled exactly: `.` matches any character but
 * a line terminator, the lazy first group stops at the first colon and the
 * greedy blank run leaves the value with no leading space or tab.
 * `getInfo` and `numberOfPages` (lib/index.ts:76-99) run `pdfinfo` and read
 * the `Pages` entry; the run itself is an input.
 */
module Info {
  import opened Wrappers
  import opened Text

  /** The characters JavaScript's `.` does not match. */
  predicate IsTerminator(c: char) {
    c == '\n' || c == '\r' || c == '\U{2028}' || c == '\U{2029}'
  }

  predicate NoTerminator(s: string) {
    forall i :: 0 <= i < |s| ==> !IsTerminator(s[i])
  }

  /** The characters `[ \t]` matches. */
  predicate IsBlank(c: char) {
    c == ' ' || c == '\t'
  }

  predicate Blanks(s: string) {
    forall i :: 0 <= i < |s| ==> IsBlank(s[i])
  }

  /** How many spaces and tabs `s` starts with. */
  function LeadingBlanks(s: string): (n: nat)
    ensures n <= |s| && Blanks(s[..n]) && (n == |s| || !IsBlank(s[n]))
  {
    if s != [] && IsBlank(s[0]) then
      var n := LeadingBlanks(s[1..]);
      assert s[..n + 1] == [s[0]] + s[1..][..n];
      n + 1
    else 0
  }

  /** `s` with its leading spaces and tabs removed: what `[ \t]*(.*)` leaves for the group. */
  function TrimBlanks(s: string): string {
    s[LeadingBlanks(s)..]
  }

  /**
   * What a match of `^(.*?):[ \t]*(.*)$` on `line` with captures `key` and
   * `value` means: the line is the key, a colon, blanks and the value; the
   * key holds no colon (the lazy group ends at the first one), the value
   * does not start with a blank (the blank run is greedy), and neither
   * capture holds a line terminator.
   */
  predicate IsMatch(line: string, key: string, value: string) {
    |key| + 1 + |value| <= |line| &&
    line[..|key|] == key && line[|key|] == ':' &&
    Blanks(line[|key| + 1..|line| - |value|]) &&
    line[|line| - |value|..] == value &&
    ':' !in key && (value == [] || !IsBlank(value[0])) &&
    NoTerminator(key) && NoTerminator(value)
  }

  /** `line.match(...)` with the captures `RegExp.$1` and `RegExp.$2` returned explicitly. */
  function MatchLine(line: string): Option<(string, string)> {
    if ':' in line && NoTerminator(line) then
      var k := IndexOf(line, ':');
      Some((line[..k], TrimBlanks(line[k + 1..])))
    else None
  }

  /** The regular expression matches exactly the lines that hold a colon and no line terminator. */
  lemma MatchLineMatches(line: string)
    ensures (exists key, value :: IsMatch(line, key, value)) <==> ':' in line && NoTerminator(line)
  {
    if ':' in line && NoTerminator(line) {
      MatchLineSound(line);
    }
    if exists key, value :: IsMatch(line, key, value) {
      var key, value :| IsMatch(line, key, value);
      MatchLineFinds(line, key, value);
    }
  }

  /** What `MatchLine` returns are the captures of a match. */
  lemma MatchLineSound(line: string)
    requires MatchLine(line).Some?
    ensures IsMatch(line, MatchLine(line).value.0, MatchLine(line).value.1)
  {
    CapturesAtColon(line, IndexOf(line, ':'));
  }

  /** Splitting a terminator-free line at its first colon gives the captures of a match. */
  lemma CapturesAtColon(line: string, k: nat)
    requires k < |line| && line[k] == ':' && ':' !in line[..k] && NoTerminator(line)
    ensures IsMatch(line, line[..k], TrimBlanks(line[k + 1..]))
  {
    var key, rest := line[..k], line[k + 1..];
    var n := LeadingBlanks(rest);
    var blanks, value := rest[..n], rest[n..];
    assert rest == blanks + value;
    assert line == key + [':'] + blanks + value;
    Decompose(line, key, blanks, value);
    NoTerminatorSlice(line, 0, k);
    NoTerminatorSlice(line, |line| - |value|, |line|);
  }

  /** Where the parts of `key:blanks value` stand in it. */
  lemma Decompose(line: string, key: string, blanks: string, value: string)
    requires line == key + [':'] + blanks + value
    ensures line[..|key|] == key && line[|key|] == ':'
    ensures line[|key| + 1..|line| - |value|] == blanks
    ensures line[|line| - |value|..] == value && line[|line| - |value|..|line|] == value
  {
  }

  lemma NoTerminatorSlice(s: string, i: nat, j: nat)
    requires i <= j <= |s| && NoTerminator(s)
    ensures NoTerminator(s[i..j])
  {
    assert forall m :: 0 <= m < j - i ==> s[i..j][m] == s[i + m];
  }

  lemma {:induction false} LeadingBlanksOf(blanks: string, value: string)
    requires Blanks(blanks) && (value == [] || !IsBlank(value[0]))
    ensures LeadingBlanks(blanks + value) == |blanks|
    decreases |blanks|
  {
    var s := blanks + value;
    if blanks == [] {
      assert s == value;
    } else {
      assert s[0] == blanks[0];
      assert s[1..] == blanks[1..] + value;
      LeadingBlanksOf(blanks[1..], value);
    }
  }

  /** A match has exactly one pair of captures, and `MatchLine` finds it. */
  lemma MatchLineFinds(line: string, key: string, value: string)
    requires IsMatch(line, key, value)
    ensures MatchLine(line) == Some((key, value))
  {
    var k := |key|;
    var blanks := line[k + 1..|line| - |value|];
    assert line == key + [':'] + blanks + value;
    assert NoTerminator(line) by {
      forall i | 0 <= i < |line| ensures !IsTerminator(line[i]) {
        if i < k {
          assert line[i] == key[i];
        } else if k < i < |line| - |value| {
          assert line[i] == blanks[i - k - 1];
        } else if i >= |line| - |value| {
          assert line[i] == value[i - (|line| - |value|)];
        }
      }
    }
    IndexOfIs(line, ':', k);
    assert line[k + 1..] == blanks + value;
    LeadingBlanksOf(blanks, value);
    assert (blanks + value)[|blanks|..] == value;
  }

  /** A line `key:` padded with blanks before its value gives back the key and the value. */
  lemma MatchPaddedLine(key: string, blanks: string, value: string)
    requires ':' !in key && NoTerminator(key) && NoTerminator(value) && Blanks(blanks)
    requires value == [] || !IsBlank(value[0])
    ensures MatchLine(key + ":" + blanks + value) == Some((key, value))
  {
    var line := key + ":" + blanks + value;
    assert line[..|key|] == key;
    assert line[|key| + 1..|line| - |value|] == blanks;
    assert line[|line| - |value|..] == value;
    MatchLineFinds(line, key, value);
  }

  /** A line `key: value` gives back its key and value, whatever colons the value holds. */
  lemma MatchRenderedLine(key: string, value: string)
    requires ':' !in key && NoTerminator(key) && NoTerminator(value)
    requires value == [] || !IsBlank(value[0])
    ensures MatchLine(key + ": " + value) == Some((key, value))
  {
    var line := key + ": " + value;
    assert line[..|key|] == key;
    assert line[|key| + 1..|line| - |value|] == " ";
    assert line[|line| - |value|..] == value;
    MatchLineFinds(line, key, value);
  }

  /** A line with a carriage return, as in CRLF output, is never matched. */
  lemma CarriageReturnLineIgnored(line: string)
    requires '\r' in line
    ensures MatchLine(line) == None
  {
  }

  /** One line's effect on the dictionary: `info[$1] = $2` when it matches. */
  function Apply(info: map<string, string>, line: string): map<string, string> {
    match MatchLine(line)
    case None => info
    case Some((key, value)) =>
      // Assigning a string to `__proto__` on a plain object is ignored.
      if key == "__proto__" then info else info[key := value]
  }

  /** The dictionary after the given lines, applied first to last. */
  function InfoOf(lines: seq<string>): map<string, string> {
    if lines == [] then map[] else Apply(InfoOf(lines[..|lines| - 1]), lines[|lines| - 1])
  }

  /** The key a line contributes, if any. */
  predicate Contributes(line: string, key: string) {
    MatchLine(line).Some? && MatchLine(line).value.0 == key && key != "__proto__"
  }

  /** `parseGetInfoCommandOutput`: the `forEach` over the lines, filling `info` in place. */
  method ParseGetInfoCommandOutput(output: string) returns (info: map<string, string>)
    ensures info == InfoOf(Split(output, '\n'))
  {
    var lines := Split(output, '\n');
    info := map[];
    var i := 0;
    while i < |lines|
      invariant 0 <= i <= |lines|
      invariant info == InfoOf(lines[..i])
    {
      assert lines[..i + 1][..i] == lines[..i];
      var m := MatchLine(lines[i]);
      if m.Some? {
        var key, value := m.value.0, m.value.1;
        if key != "__proto__" {
          info := info[key := value];
        }
      }
      i := i + 1;
    }
    assert lines[..i] == lines;
  }

  /** The keys of the dictionary are exactly the keys of the lines that match. */
  lemma {:induction false} InfoKeys(lines: seq<string>, key: string)
    ensures key in InfoOf(lines) <==> exists i :: 0 <= i < |lines| && Contributes(lines[i], key)
    decreases |lines|
  {
    if lines != [] {
      var init := lines[..|lines| - 1];
      InfoKeys(init, key);
      if key in InfoOf(init) {
        var i :| 0 <= i < |init| && Contributes(init[i], key);
        assert lines[i] == init[i];
      }
      if i :| 0 <= i < |lines| && Contributes(lines[i], key) {
        if i < |init| {
          assert init[i] == lines[i];
        }
      }
    }
  }

  /** When a key repeats, the value of its last line is the one kept. */
  lemma {:induction false} LastLineWins(lines: seq<string>, i: nat, key: string, value: string)
    requires i < |lines| && MatchLine(lines[i]) == Some((key, value)) && key != "__proto__"
    requires forall j :: i < j < |lines| ==> !Contributes(lines[j], key)
    ensures key in InfoOf(lines) && InfoOf(lines)[key] == value
    decreases |lines|
  {
    var init := lines[..|lines| - 1];
    if i < |lines| - 1 {
      assert init[i] == lines[i];
      assert forall j :: i < j < |init| ==> init[j] == lines[j];
      LastLineWins(init, i, key, value);
    }
  }

  /** A line that does not contribute `key` leaves its entry as it was. */
  lemma {:induction false} OtherLinesKeep(lines: seq<string>, key: string, k: nat)
    requires k <= |lines|
    requires forall j :: k <= j < |lines| ==> !Contributes(lines[j], key)
    ensures (key in InfoOf(lines)) == (key in InfoOf(lines[..k]))
    ensures key in InfoOf(lines) ==> InfoOf(lines)[key] == InfoOf(lines[..k])[key]
    decreases |lines|
  {
    if k < |lines| {
      var init := lines[..|lines| - 1];
      assert init[..k] == lines[..k];
      assert forall j :: k <= j < |init| ==> init[j] == lines[j];
      OtherLinesKeep(init, key, k);
    } else {
      assert lines[..k] == lines;
    }
  }

  /**
   * Two `key: value` lines and a final line feed, such as `Pages: 3`, then
   * `Title: x`: both keys are stored with their values, and the empty last
   * line adds nothing.
   */
  lemma TwoLineOutput(k1: string, v1: string, k2: string, v2: string)
    requires ':' !in k1 && ':' !in k2 && k1 != k2 && k1 != "__proto__" && k2 != "__proto__"
    requires NoTerminator(k1) && NoTerminator(v1) && NoTerminator(k2) && NoTerminator(v2)
    requires (v1 == [] || !IsBlank(v1[0])) && (v2 == [] || !IsBlank(v2[0]))
    ensures InfoOf(Split(k1 + ": " + v1 + "\n" + k2 + ": " + v2 + "\n", '\n')) == map[k1 := v1, k2 := v2]
  {
    var l1, l2 := k1 + ": " + v1, k2 + ": " + v2;
    TwoLineSplit(k1, v1, k2, v2);
    MatchRenderedLine(k1, v1);
    MatchRenderedLine(k2, v2);
    InfoOfThree(l1, l2, []);
  }

  lemma TwoLineSplit(k1: string, v1: string, k2: string, v2: string)
    requires NoTerminator(k1) && NoTerminator(v1) && NoTerminator(k2) && NoTerminator(v2)
    ensures Split(k1 + ": " + v1 + "\n" + k2 + ": " + v2 + "\n", '\n') == [k1 + ": " + v1, k2 + ": " + v2, []]
  {
    var l1, l2 := k1 + ": " + v1, k2 + ": " + v2;
    var empty: string := [];
    assert k1 + ": " + v1 + "\n" + k2 + ": " + v2 + "\n" == l1 + ['\n'] + (l2 + ['\n'] + empty);
    RenderedLineHasNoFeed(k1, v1);
    RenderedLineHasNoFeed(k2, v2);
    SplitWordThen(l2, '\n', empty);
    SplitWordThen(l1, '\n', l2 + ['\n'] + empty);
  }

  lemma InfoOfThree(a: string, b: string, c: string)
    ensures InfoOf([a, b, c]) == Apply(Apply(Apply(map[], a), b), c)
  {
    assert [a, b, c][..2] == [a, b];
    assert [a, b][..1] == [a];
    assert [a][..0] == [];
    assert InfoOf([a]) == Apply(map[], a);
    assert InfoOf([a, b]) == Apply(InfoOf([a]), b);
  }

  lemma RenderedLineHasNoFeed(key: string, value: string)
    requires NoTerminator(key) && NoTerminator(value)
    ensures '\n' !in key + ": " + value
  {
    var line := key + ": " + value;
    forall i | 0 <= i < |line| ensures line[i] != '\n' {
      if i < |key| {
        assert line[i] == key[i];
      } else if i >= |key| + 2 {
        assert line[i] == value[i - |key| - 2];
      }
    }
  }

  /** `numberOfPages` resolves to `info["Pages"]`, `undefined` when there is no such entry. */
  function PagesEntry(info: map<string, string>): (r: Option<string>)
    ensures r.Some? <==> "Pages" in info
    ensures r.Some? ==> r.value == info["Pages"]
  {
    if "Pages" in info then Some(info["Pages"]) else None
  }

  /** What running a command gives: its standard output, or a failure. */
  datatype ExecResult = ExecOk(stdout: string) | ExecFailed(stdout: string, stderr: string)

  /** The rejection of `getInfo` carries this message and the tool's output. */
  datatype InfoError = InfoError(message: string, stdout: string, stderr: string)

  datatype InfoOutcome = InfoResolved(info: map<string, string>) | InfoRejected(error: InfoError)

  /**
   * `getInfo`: `run` is what running `pdfinfo` on the handle's PDF gave;
   * the caller records the command (`GetInfoCommand`) as an effect.
   */
  function GetInfo(run: ExecResult): (r: InfoOutcome)
    ensures run.ExecFailed? <==> r.InfoRejected?
    ensures run.ExecFailed? ==> r.error == InfoError("Failed to get PDF'S information", run.stdout, run.stderr)
    ensures run.ExecOk? ==> r.info == InfoOf(Split(run.stdout, '\n'))
  {
    match run
    case ExecFailed(out, err) => InfoRejected(InfoError("Failed to get PDF'S information", out, err))
    case ExecOk(out) => InfoResolved(InfoOf(Split(out, '\n')))
  }
}
