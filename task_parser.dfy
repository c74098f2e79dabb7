/**
 * The parser for task lists in scripts/create_issues_from_tasks.py: it reads the
 * lines of a Markdown task list, cuts it into numbered tasks with their
 * phase and their block of bullet lines, pulls the named fields out of each
 * block, and derives labels and slugs.
 *
 * The two expressions of the script, written out as matchers on one line:
 *   task_re   ^\s*\d+\.\s*(T-\d{3})\s*[—-]\s*(.+?)\s*$
 *   phase_re  ^##\s*(Phase\s+\d+\s*[—-]\s*.+)
 * `\s` is Python's white space for text (`IsPySpace`), `\d` an ASCII digit.
 * The lines come from `str.splitlines`, so none holds a line break, and `.`
 * matches every character of a line.
 */
module TaskParser {
  import opened Wrappers
  import opened Text

  /** The `[—-]` class: an em dash or a hyphen. */
  predicate IsDash(c: char) { c == '\U{2014}' || c == '-' }

  /**
   * Group 1 of `phase_re`, `Phase\s+\d+\s*[—-]\s*.+`, at the start of `t`. The
   * runs of white space and digits are greedy and what follows each cannot
   * start another, so none backtracks; `.+` is greedy, so the group runs to
   * the end of the line.
   */
  predicate PhaseTitle(t: string)
  {
    && LitAt(t, 0, "Phase")
    && var w := RunLength(t, 5, IsPySpace);
    && w > 0
    && var d := RunLength(t, 5 + w, IsDigit);
    && d > 0
    && var p := 5 + w + d + RunLength(t, 5 + w + d, IsPySpace);
    && p + 1 < |t| && IsDash(t[p])
  }

  /**
   * `phase_re.match(line)`, giving group 1. White space after `##` is greedy and
   * `Phase` must follow it, so the group starts after the whole run.
   */
  function PhaseMatch(line: string): Option<string>
  {
    if !LitAt(line, 0, "##") then None
    else
      var a := 2 + RunLength(line, 2, IsPySpace);
      if PhaseTitle(line[a..]) then Some(line[a..]) else None
  }

  /** A phase title starts with `P`, which is not white space. */
  lemma PhaseTitleStart(t: string)
    requires PhaseTitle(t)
    ensures t != [] && !IsPySpace(t[0])
  {
    assert t[..5] == "Phase";
  }

  /** The only place a phase title can start after `##` is after the whole run of white space. */
  lemma PhaseTitleStartUnique(line: string, b: nat)
    requires 2 <= b <= |line| && (forall j :: 2 <= j < b ==> IsPySpace(line[j])) && PhaseTitle(line[b..])
    ensures b == 2 + RunLength(line, 2, IsPySpace)
  {
    PhaseTitleStart(line[b..]);
    assert !IsPySpace(line[b]);
    RunLengthExact(line, 2, IsPySpace, b - 2);
  }

  /** A phase heading is `##`, white space, and a phase title running to the end of the line. */
  lemma PhaseMatchShape(line: string)
    ensures PhaseMatch(line).Some? <==>
      exists a :: 2 <= a <= |line| && LitAt(line, 0, "##") && (forall j :: 2 <= j < a ==> IsPySpace(line[j]))
                  && PhaseTitle(line[a..])
    ensures PhaseMatch(line).Some? ==> PhaseTitle(PhaseMatch(line).value)
  {
    if LitAt(line, 0, "##") {
      var a := 2 + RunLength(line, 2, IsPySpace);
      RunLengthKeeps(line, 2, IsPySpace);
      forall b | 2 <= b <= |line| && (forall j :: 2 <= j < b ==> IsPySpace(line[j])) && PhaseTitle(line[b..])
        ensures b == a
      {
        PhaseTitleStartUnique(line, b);
      }
    }
  }

  /**
   * The `(.+?)\s*$` group after the dash and the white space that follows it,
   * on a non-empty rest of the line. The lazy group ends where only white
   * space is left; when the rest is all white space, the leading `\s*` gives
   * back its last character to the group.
   */
  function TitleGroup(rest: string): string
    requires rest != []
  {
    var w := RunLength(rest, 0, IsPySpace);
    if w < |rest| then TrimEnd(rest[w..], IsPySpace) else rest[|rest| - 1..]
  }

  /** A task id: `T-` and three digits. */
  predicate IsTaskId(id: string)
  {
    |id| == 5 && id[..2] == "T-" && forall i :: 2 <= i < 5 ==> IsDigit(id[i])
  }

  /** `task_re.match(line)`, giving the id group and the title group: `^\s*` first. */
  function TaskMatch(line: string): (r: Option<(string, string)>)
    ensures r.Some? ==> IsTaskId(r.value.0) && r.value.1 != []
  {
    TaskAfterSpace(line, RunLength(line, 0, IsPySpace))
  }

  /** The rest of `task_re` from `a`, after the leading white space: `\d+\.`. */
  function TaskAfterSpace(line: string, a: nat): (r: Option<(string, string)>)
    requires a <= |line|
    ensures r.Some? ==> IsTaskId(r.value.0) && r.value.1 != []
  {
    var n := RunLength(line, a, IsDigit);
    if n == 0 || !LitAt(line, a + n, ".") then None
    else TaskAfterNumber(line, a + n + 1)
  }

  /** The rest of `task_re` from `i`, after the number and its dot: `\s*(T-\d{3})`. */
  function TaskAfterNumber(line: string, i: nat): (r: Option<(string, string)>)
    requires i <= |line|
    ensures r.Some? ==> IsTaskId(r.value.0) && r.value.1 != []
  {
    var b := i + RunLength(line, i, IsPySpace);
    if b + 5 > |line| || !IsTaskId(line[b..b + 5]) then None
    else TaskAfterId(line, b)
  }

  /** The rest of `task_re` after the id at `b`: `\s*[—-]\s*(.+?)\s*$`. */
  function TaskAfterId(line: string, b: nat): (r: Option<(string, string)>)
    requires b + 5 <= |line| && IsTaskId(line[b..b + 5])
    ensures r.Some? ==> IsTaskId(r.value.0) && r.value.1 != []
  {
    var p := b + 5 + RunLength(line, b + 5, IsPySpace);
    if p == |line| || !IsDash(line[p]) || p + 1 == |line| then None
    else
      TitleGroupNonEmpty(line[p + 1..]);
      Some((line[b..b + 5], TitleGroup(line[p + 1..])))
  }

  lemma TitleGroupNonEmpty(rest: string)
    requires rest != []
    ensures TitleGroup(rest) != []
  {
    var w := RunLength(rest, 0, IsPySpace);
    if w < |rest| {
      TrimEndShape(rest[w..], IsPySpace);
    }
  }

  /** Every character of `s` from `i` up to `j` satisfies `keep`. */
  predicate Spans(s: string, i: nat, j: nat, keep: char -> bool)
  {
    i <= j <= |s| && forall k :: i <= k < j ==> keep(s[k])
  }

  /** A run spans the characters it counts. */
  lemma RunSpans(s: string, i: nat, keep: char -> bool)
    requires i <= |s|
    ensures Spans(s, i, i + RunLength(s, i, keep), keep)
  {
    RunLengthKeeps(s, i, keep);
  }

  /** A span that cannot be extended is the whole run. */
  lemma SpansRun(s: string, i: nat, j: nat, keep: char -> bool)
    requires Spans(s, i, j, keep) && (j == |s| || !keep(s[j]))
    ensures RunLength(s, i, keep) == j - i
  {
    RunLengthExact(s, i, keep, j - i);
  }

  /**
   * The places a match of `task_re` cuts a line at: white space up to `a`, the
   * task number up to `d`, `.`, white space up to `b`, the id, white space up to
   * `p`, a dash, and at least one more character for the title.
   */
  predicate TaskCuts(line: string, a: nat, d: nat, b: nat, p: nat)
  {
    && a < d && d < b && b + 5 <= p && p + 1 < |line|
    && Spans(line, 0, a, IsPySpace)
    && Spans(line, a, d, IsDigit)
    && LitAt(line, d, ".")
    && Spans(line, d + 1, b, IsPySpace)
    && IsTaskId(line[b..b + 5])
    && Spans(line, b + 5, p, IsPySpace)
    && IsDash(line[p])
  }

  /** `task_re` matches a line exactly when the line can be cut that way. */
  lemma TaskMatchShape(line: string)
    ensures TaskMatch(line).Some? <==> exists a, d, b, p :: TaskCuts(line, a, d, b, p)
  {
    if TaskMatch(line).Some? {
      var a, d, b, p := TaskMatchCuts(line);
    }
    forall a, d, b, p | TaskCuts(line, a, d, b, p) ensures TaskMatch(line).Some? {
      CutsTaskMatch(line, a, d, b, p);
    }
  }

  /** A match cuts the line after the greedy runs of white space and digits. */
  lemma TaskMatchCuts(line: string) returns (a: nat, d: nat, b: nat, p: nat)
    requires TaskMatch(line).Some?
    ensures TaskCuts(line, a, d, b, p)
  {
    a := RunLength(line, 0, IsPySpace);
    RunSpans(line, 0, IsPySpace);
    d, b, p := AfterSpaceCuts(line, a);
  }

  /** A match after the leading white space cuts the line after the greedy run of digits. */
  lemma AfterSpaceCuts(line: string, a: nat) returns (d: nat, b: nat, p: nat)
    requires a <= |line| && TaskAfterSpace(line, a).Some?
    ensures a < d && d < b && b + 5 <= p && p + 1 < |line|
    ensures Spans(line, a, d, IsDigit) && LitAt(line, d, ".")
    ensures Spans(line, d + 1, b, IsPySpace) && IsTaskId(line[b..b + 5])
    ensures Spans(line, b + 5, p, IsPySpace) && IsDash(line[p])
  {
    d := a + RunLength(line, a, IsDigit);
    RunSpans(line, a, IsDigit);
    b, p := AfterNumberCuts(line, d + 1);
  }

  /** A match after the number cuts the line after the greedy runs of white space. */
  lemma AfterNumberCuts(line: string, i: nat) returns (b: nat, p: nat)
    requires i <= |line| && TaskAfterNumber(line, i).Some?
    ensures i <= b && b + 5 <= p && p + 1 < |line|
    ensures Spans(line, i, b, IsPySpace) && IsTaskId(line[b..b + 5])
    ensures Spans(line, b + 5, p, IsPySpace) && IsDash(line[p])
  {
    b := i + RunLength(line, i, IsPySpace);
    RunSpans(line, i, IsPySpace);
    p := b + 5 + RunLength(line, b + 5, IsPySpace);
    RunSpans(line, b + 5, IsPySpace);
  }

  /** Any way of cutting the line is the one the greedy runs find, so the line matches. */
  lemma CutsTaskMatch(line: string, a: nat, d: nat, b: nat, p: nat)
    requires TaskCuts(line, a, d, b, p)
    ensures TaskMatch(line).Some?
  {
    assert IsDigit(line[a]);
    SpansRun(line, 0, a, IsPySpace);
    CutsAfterSpace(line, a, d, b, p);
  }

  lemma CutsAfterSpace(line: string, a: nat, d: nat, b: nat, p: nat)
    requires a < d && d < b && b + 5 <= p && p + 1 < |line|
    requires Spans(line, a, d, IsDigit) && LitAt(line, d, ".")
    requires Spans(line, d + 1, b, IsPySpace) && IsTaskId(line[b..b + 5])
    requires Spans(line, b + 5, p, IsPySpace) && IsDash(line[p])
    ensures TaskAfterSpace(line, a).Some?
  {
    assert line[d] == '.' by {
      assert line[d..d + 1][0] == line[d];
    }
    SpansRun(line, a, d, IsDigit);
    CutsAfterNumber(line, d + 1, b, p);
  }

  lemma CutsAfterNumber(line: string, i: nat, b: nat, p: nat)
    requires i <= b && b + 5 <= p && p + 1 < |line|
    requires Spans(line, i, b, IsPySpace) && IsTaskId(line[b..b + 5])
    requires Spans(line, b + 5, p, IsPySpace) && IsDash(line[p])
    ensures TaskAfterNumber(line, i).Some?
  {
    assert line[b] == line[b..b + 5][0];
    SpansRun(line, i, b, IsPySpace);
    SpansRun(line, b + 5, p, IsPySpace);
  }

  lemma TrimStartRun(s: string, drop: char -> bool)
    ensures TrimStart(s, drop) == s[RunLength(s, 0, drop)..]
  {
    TrimStartShape(s, drop);
    var r := TrimStart(s, drop);
    var k := |s| - |r|;
    assert k == |s| || !drop(s[k]) by {
      if k < |s| { assert s[k] == r[0]; }
    }
    RunLengthExact(s, 0, drop, k);
  }

  lemma TrimEndIdempotent(s: string, drop: char -> bool)
    ensures TrimEnd(TrimEnd(s, drop), drop) == TrimEnd(s, drop)
  {
    TrimEndShape(s, drop);
  }

  /** The title, stripped, is the rest of the line after the dash, stripped: the regex's lazy group and `\s*` lose nothing. */
  lemma TitleIsStrippedRest(rest: string)
    requires rest != []
    ensures PyStrip(TitleGroup(rest)) == PyStrip(rest)
  {
    var w := RunLength(rest, 0, IsPySpace);
    TrimStartRun(rest, IsPySpace);
    var g := TitleGroup(rest);
    if w < |rest| {
      var t := rest[w..];
      assert !IsPySpace(t[0]);
      TrimEndShape(t, IsPySpace);
      assert g != [] && g[0] == t[0];
      TrimStartRun(g, IsPySpace);
      RunLengthExact(g, 0, IsPySpace, 0);
      TrimEndIdempotent(t, IsPySpace);
    } else {
      RunLengthKeeps(rest, 0, IsPySpace);
      assert IsPySpace(g[0]);
      assert TrimStart(g, IsPySpace) == TrimStart(g[1..], IsPySpace);
    }
  }

  /**
   * What `parse_tasks` is built from: the two expressions it tries on each
   * line, as matchers (group 1 of the phase heading; the id and title groups
   * of a task line), and the field extraction it applies to a task's block.
   * The parser below is written over any such triple; `Script` is the
   * script's own.
   */
  datatype Syntax = Syntax(
    phase: string -> Option<string>,
    task: string -> Option<(string, string)>,
    fields: seq<string> -> Fields)

  const Script := Syntax(PhaseMatch, TaskMatch, FieldsOf)

  /** A line is a heading when it starts a phase or a task. */
  predicate IsHeading(syn: Syntax, line: string)
  {
    syn.phase(line).Some? || syn.task(line).Some?
  }

  /** A line that starts a task: the phase expression is tried first. */
  predicate IsTaskLine(syn: Syntax, line: string)
  {
    syn.phase(line).None? && syn.task(line).Some?
  }

  /** The first index from `i` whose line satisfies `p`, or the number of lines. */
  function FirstIndex(lines: seq<string>, i: nat, p: string -> bool): (r: nat)
    requires i <= |lines|
    ensures i <= r <= |lines|
    ensures r == |lines| || p(lines[r])
    decreases |lines| - i
  {
    if i == |lines| || p(lines[i]) then i else FirstIndex(lines, i + 1, p)
  }

  /** No line before the one FirstIndex finds satisfies the test. */
  lemma {:induction false} FirstIndexFirst(lines: seq<string>, i: nat, p: string -> bool)
    requires i <= |lines|
    ensures forall k :: i <= k < FirstIndex(lines, i, p) ==> !p(lines[k])
    decreases |lines| - i
  {
    if i < |lines| && !p(lines[i]) {
      FirstIndexFirst(lines, i + 1, p);
    }
  }

  /** The first heading from `i`, or the number of lines. */
  function NextHeading(syn: Syntax, lines: seq<string>, i: nat): (r: nat)
    requires i <= |lines|
    ensures i <= r <= |lines|
    ensures r == |lines| || IsHeading(syn, lines[r])
    ensures forall k :: i <= k < r ==> !IsHeading(syn, lines[k])
    decreases |lines| - i
  {
    if i == |lines| || IsHeading(syn, lines[i]) then i else NextHeading(syn, lines, i + 1)
  }

  /** Indices of all task lines among the first `n` lines, in document order. */
  function TaskLines(syn: Syntax, lines: seq<string>, n: nat): (r: seq<nat>)
    requires n <= |lines|
    ensures forall k :: 0 <= k < |r| ==> r[k] < n && IsTaskLine(syn, lines[r[k]])
    ensures forall k, m :: 0 <= k < m < |r| ==> r[k] < r[m]
  {
    if n == 0 then []
    else TaskLines(syn, lines, n - 1) + (if IsTaskLine(syn, lines[n - 1]) then [n - 1] else [])
  }

  /** No task line is skipped. */
  lemma {:induction false} TaskLinesComplete(syn: Syntax, lines: seq<string>, n: nat, j: nat)
    requires j < n <= |lines| && IsTaskLine(syn, lines[j])
    ensures j in TaskLines(syn, lines, n)
  {
    if j < n - 1 {
      TaskLinesComplete(syn, lines, n - 1, j);
    }
  }

  /** The indices of the script's task lines, in document order. */
  function TaskStarts(lines: seq<string>): seq<nat>
  {
    TaskLines(Script, lines, |lines|)
  }

  /** The value `f` gives on the last line it gives one among the first `n`, or "". */
  function LastValue(lines: seq<string>, n: nat, f: string -> Option<string>): string
    requires n <= |lines|
  {
    if n == 0 then ""
    else
      match f(lines[n - 1])
      case Some(v) => v
      case None => LastValue(lines, n - 1, f)
  }

  /** The text of the last phase heading among the first `n` lines, or "" (`cur_phase or ""`). */
  function PhaseBefore(syn: Syntax, lines: seq<string>, n: nat): string
    requires n <= |lines|
  {
    LastValue(lines, n, syn.phase)
  }

  lemma {:induction false} LastValueNearest(lines: seq<string>, j: nat, n: nat, f: string -> Option<string>)
    requires j < n <= |lines| && f(lines[j]).Some?
    requires forall k :: j < k < n ==> f(lines[k]).None?
    ensures LastValue(lines, n, f) == f(lines[j]).value
    decreases n
  {
    if n - 1 > j {
      LastValueNearest(lines, j, n - 1, f);
    }
  }

  lemma {:induction false} LastValueNone(lines: seq<string>, n: nat, f: string -> Option<string>)
    requires n <= |lines|
    requires forall k :: 0 <= k < n ==> f(lines[k]).None?
    ensures LastValue(lines, n, f) == ""
  {
    if n > 0 {
      LastValueNone(lines, n - 1, f);
    }
  }

  /** A task's phase is the nearest phase heading above it. */
  lemma PhaseIsNearest(lines: seq<string>, j: nat, n: nat)
    requires j < n <= |lines| && PhaseMatch(lines[j]).Some?
    requires forall k :: j < k < n ==> PhaseMatch(lines[k]).None?
    ensures PhaseBefore(Script, lines, n) == PhaseMatch(lines[j]).value
  {
    LastValueNearest(lines, j, n, PhaseMatch);
  }

  /** Above the first phase heading, the phase is empty. */
  lemma NoPhaseAbove(lines: seq<string>, n: nat)
    requires n <= |lines|
    requires forall k :: 0 <= k < n ==> PhaseMatch(lines[k]).None?
    ensures PhaseBefore(Script, lines, n) == ""
  {
    LastValueNone(lines, n, PhaseMatch);
  }

  /** Lines that are no heading add no task and change no phase. */
  lemma {:induction false} NoHeadingsBetween(syn: Syntax, lines: seq<string>, a: nat, b: nat)
    requires a <= b <= |lines|
    requires forall k :: a <= k < b ==> !IsHeading(syn, lines[k])
    ensures TaskLines(syn, lines, b) == TaskLines(syn, lines, a)
    ensures PhaseBefore(syn, lines, b) == PhaseBefore(syn, lines, a)
    decreases b
  {
    if a < b {
      NoHeadingsBetween(syn, lines, a, b - 1);
    }
  }

  /** The fields of a task's block. */
  datatype Fields = Fields(
    description: string,
    requirements: string,
    dependencies: string,
    estimate: string,
    priority: string,
    acceptance: seq<string>)

  datatype Task = Task(id: string, title: string, phase: string, fields: Fields)

  const DescriptionKey := "- Description:"
  const RequirementsKey := "- Related Requirements:"
  const DependenciesKey := "- Dependencies:"
  const EstimateKey := "- Estimate:"
  const PriorityKey := "- Priority:"
  const AcceptanceKey := "- Acceptance Criteria:"

  /** `s.split(":", 1)[1]`: the text after the first colon. */
  function AfterColon(s: string): string
  {
    var n := RunLength(s, 0, c => c != ':');
    if n == |s| then "" else s[n + 1..]
  }

  /** On a line that starts with a field key, the text after the first colon is the text after the key. */
  lemma AfterKey(s: string, key: string)
    requires key in {DescriptionKey, RequirementsKey, DependenciesKey, EstimateKey, PriorityKey, AcceptanceKey}
    requires StartsWith(s, key)
    ensures AfterColon(s) == s[|key|..]
  {
    var n := |key| - 1;
    forall j | 0 <= j < n ensures s[j] != ':' {
      assert s[j] == key[j];
    }
    assert s[n] == key[n] == ':';
    RunLengthExact(s, 0, c => c != ':', n);
  }

  /** The value of a field on one line, if the stripped line starts with `key`. */
  function FieldOn(line: string, key: string): Option<string>
  {
    var s := PyStrip(line);
    if StartsWith(s, key) then Some(PyStrip(s[|key|..])) else None
  }

  function FieldOf(key: string): string -> Option<string>
  {
    line => FieldOn(line, key)
  }

  /** A simple field: the value on the last line carrying it, or "". */
  function FieldValue(lines: seq<string>, key: string): string
  {
    LastValue(lines, |lines|, FieldOf(key))
  }

  /** The last line carrying a field decides it. */
  lemma FieldValueLast(lines: seq<string>, key: string, j: nat)
    requires j < |lines| && FieldOn(lines[j], key).Some?
    requires forall k :: j < k < |lines| ==> FieldOn(lines[k], key).None?
    ensures FieldValue(lines, key) == FieldOn(lines[j], key).value
  {
    LastValueNearest(lines, j, |lines|, FieldOf(key));
  }

  /** A field no line carries is empty. */
  lemma FieldValueDefault(lines: seq<string>, key: string)
    requires forall k :: 0 <= k < |lines| ==> FieldOn(lines[k], key).None?
    ensures FieldValue(lines, key) == ""
  {
    LastValueNone(lines, |lines|, FieldOf(key));
  }

  /** The concatenation of `f` over the lines from `lo` up to `hi`. */
  function Collect(lines: seq<string>, lo: nat, hi: nat, f: string -> seq<string>): seq<string>
    requires lo <= hi <= |lines|
    decreases hi - lo
  {
    if hi == lo then [] else Collect(lines, lo, hi - 1, f) + f(lines[hi - 1])
  }

  lemma CollectNext(lines: seq<string>, lo: nat, hi: nat, f: string -> seq<string>, acc: seq<string>, acc': seq<string>)
    requires lo <= hi < |lines|
    requires acc == Collect(lines, lo, hi, f) && acc' == acc + f(lines[hi])
    ensures acc' == Collect(lines, lo, hi + 1, f)
  {
  }

  /** The inline criterion of an acceptance line, when it is not empty. */
  function CritOn(line: string): seq<string>
  {
    match FieldOn(line, AcceptanceKey)
    case Some(v) => if v != "" then [v] else []
    case None => []
  }

  /** Inline criteria: the non-empty values of the `- Acceptance Criteria:` lines, in order. */
  function InlineCrits(lines: seq<string>): seq<string>
  {
    Collect(lines, 0, |lines|, CritOn)
  }

  predicate IsAcceptanceLine(line: string) { StartsWith(PyStrip(line), AcceptanceKey) }

  predicate IsBlank(line: string) { PyStrip(line) == "" }

  /** The item a line after the acceptance line contributes: a `-` line other than an acceptance line, without its `-`. */
  function BulletOn(line: string): seq<string>
  {
    var s := PyStrip(line);
    if !IsAcceptanceLine(line) && StartsWith(s, "-") && PyStrip(s[1..]) != "" then [PyStrip(s[1..])] else []
  }

  /**
   * The bullet items: the `-` lines after the first acceptance line, up to the
   * first blank line after it.
   */
  function BulletItems(lines: seq<string>): seq<string>
  {
    var a := FirstIndex(lines, 0, IsAcceptanceLine);
    if a == |lines| then [] else Collect(lines, a + 1, FirstIndex(lines, a + 1, IsBlank), BulletOn)
  }

  predicate IsStripChar(c: char) { c == '-' || c == ' ' }

  /** `[a for a in [x.strip("- ") for x in acc] if a]`. */
  function Clean(acc: seq<string>): (r: seq<string>)
    ensures |r| <= |acc|
    ensures forall k :: 0 <= k < |r| ==> r[k] != [] && !IsStripChar(r[k][0]) && !IsStripChar(r[k][|r[k]| - 1])
  {
    if acc == [] then []
    else
      var a := Trim(acc[0], IsStripChar);
      TrimShape(acc[0], IsStripChar);
      (if a != [] then [a] else []) + Clean(acc[1..])
  }

  /** What `extract_fields` returns for the lines of a block. */
  function FieldsOf(lines: seq<string>): Fields
  {
    Fields(
      FieldValue(lines, DescriptionKey),
      FieldValue(lines, RequirementsKey),
      FieldValue(lines, DependenciesKey),
      FieldValue(lines, EstimateKey),
      FieldValue(lines, PriorityKey),
      Clean(InlineCrits(lines) + BulletItems(lines)))
  }

  /** No line starts with two different field keys. */
  lemma KeysExclusive(s: string)
    ensures StartsWith(s, DescriptionKey) ==>
      !StartsWith(s, RequirementsKey) && !StartsWith(s, DependenciesKey) && !StartsWith(s, EstimateKey)
      && !StartsWith(s, PriorityKey) && !StartsWith(s, AcceptanceKey)
    ensures StartsWith(s, RequirementsKey) ==>
      !StartsWith(s, DependenciesKey) && !StartsWith(s, EstimateKey) && !StartsWith(s, PriorityKey)
      && !StartsWith(s, AcceptanceKey)
    ensures StartsWith(s, DependenciesKey) ==>
      !StartsWith(s, EstimateKey) && !StartsWith(s, PriorityKey) && !StartsWith(s, AcceptanceKey)
    ensures StartsWith(s, EstimateKey) ==> !StartsWith(s, PriorityKey) && !StartsWith(s, AcceptanceKey)
    ensures StartsWith(s, PriorityKey) ==> !StartsWith(s, AcceptanceKey)
  {
    if |s| > 3 {
      assert DescriptionKey[2] == 'D' && DescriptionKey[3] == 'e' && DescriptionKey[4] == 's';
      assert DependenciesKey[2] == 'D' && DependenciesKey[3] == 'e' && DependenciesKey[4] == 'p';
      assert RequirementsKey[2] == 'R' && EstimateKey[2] == 'E' && PriorityKey[2] == 'P' && AcceptanceKey[2] == 'A';
    }
  }

  /** `extract_fields(block)` on the block's lines. */
  method ExtractFields(lines: seq<string>) returns (f: Fields)
    ensures f == FieldsOf(lines)
  {
    var description, requirements, dependencies, estimate, priority := "", "", "", "", "";
    var acc: seq<string> := [];
    var k := 0;
    while k < |lines|
      invariant k <= |lines|
      invariant description == LastValue(lines, k, FieldOf(DescriptionKey))
      invariant requirements == LastValue(lines, k, FieldOf(RequirementsKey))
      invariant dependencies == LastValue(lines, k, FieldOf(DependenciesKey))
      invariant estimate == LastValue(lines, k, FieldOf(EstimateKey))
      invariant priority == LastValue(lines, k, FieldOf(PriorityKey))
      invariant acc == Collect(lines, 0, k, CritOn)
    {
      var s := PyStrip(lines[k]);
      KeysExclusive(s);
      if StartsWith(s, DescriptionKey) {
        AfterKey(s, DescriptionKey);
        description := PyStrip(AfterColon(s));
      } else if StartsWith(s, RequirementsKey) {
        AfterKey(s, RequirementsKey);
        requirements := PyStrip(AfterColon(s));
      } else if StartsWith(s, DependenciesKey) {
        AfterKey(s, DependenciesKey);
        dependencies := PyStrip(AfterColon(s));
      } else if StartsWith(s, EstimateKey) {
        AfterKey(s, EstimateKey);
        estimate := PyStrip(AfterColon(s));
      } else if StartsWith(s, PriorityKey) {
        AfterKey(s, PriorityKey);
        priority := PyStrip(AfterColon(s));
      } else if StartsWith(s, AcceptanceKey) {
        AfterKey(s, AcceptanceKey);
        var crit := PyStrip(AfterColon(s));
        if crit != "" {
          acc := acc + [crit];
        }
      }
      k := k + 1;
    }
    var bullets := AcceptanceBullets(lines);
    f := Fields(description, requirements, dependencies, estimate, priority, Clean(acc + bullets));
  }

  /** The second pass of `extract_fields`, with its `after_acc` flag. */
  method AcceptanceBullets(lines: seq<string>) returns (bullets: seq<string>)
    ensures bullets == BulletItems(lines)
  {
    ghost var a := FirstIndex(lines, 0, IsAcceptanceLine);
    var afterAcc := false;
    bullets := [];
    var k := 0;
    while k < |lines|
      invariant k <= |lines|
      invariant BulletsSoFar(lines, a, k, afterAcc, bullets)
    {
      var stop;
      afterAcc, bullets, stop := AcceptanceStep(lines, a, k, afterAcc, bullets);
      if stop {
        break;
      }
      k := k + 1;
    }
    BulletsDone(lines, a, k, afterAcc, bullets);
  }

  /**
   * Where the second pass stands before line `k`, `a` being the first acceptance
   * line: before it nothing is collected, after it the items of the lines in between.
   */
  ghost predicate BulletsSoFar(lines: seq<string>, a: nat, k: nat, afterAcc: bool, bullets: seq<string>)
    requires k <= |lines|
  {
    && (!afterAcc ==> FirstIndex(lines, k, IsAcceptanceLine) == a && bullets == [])
    && (afterAcc ==> a < k && FirstIndex(lines, k, IsBlank) == FirstIndex(lines, a + 1, IsBlank)
                     && bullets == Collect(lines, a + 1, k, BulletOn))
  }

  /** The pass ends with the bullet items, at the end of the lines or at the blank line closing the list. */
  lemma BulletsDone(lines: seq<string>, a: nat, k: nat, afterAcc: bool, bullets: seq<string>)
    requires a == FirstIndex(lines, 0, IsAcceptanceLine)
    requires k <= |lines| && BulletsSoFar(lines, a, k, afterAcc, bullets)
    requires k == |lines| || (afterAcc && FirstIndex(lines, k, IsBlank) == k)
    ensures bullets == BulletItems(lines)
  {
  }

  /** Moving past a line before the first acceptance line collects nothing. */
  lemma BulletsBefore(lines: seq<string>, a: nat, k: nat)
    requires k < |lines| && FirstIndex(lines, k, IsAcceptanceLine) == a && !IsAcceptanceLine(lines[k])
    ensures BulletsSoFar(lines, a, k + 1, false, [])
  {
  }

  /** Moving past an acceptance line starts the list, or adds nothing to it. */
  lemma BulletsAtAcceptance(lines: seq<string>, a: nat, k: nat, afterAcc: bool, bullets: seq<string>)
    requires k < |lines| && BulletsSoFar(lines, a, k, afterAcc, bullets) && IsAcceptanceLine(lines[k])
    ensures BulletsSoFar(lines, a, k + 1, true, bullets)
  {
    assert !IsBlank(lines[k]);
    if afterAcc {
      assert BulletOn(lines[k]) == [];
      CollectNext(lines, a + 1, k, BulletOn, bullets, bullets + []);
    }
  }

  /** Moving past another line of the list adds its item. */
  lemma BulletsInList(lines: seq<string>, a: nat, k: nat, bullets: seq<string>)
    requires k < |lines| && BulletsSoFar(lines, a, k, true, bullets) && !IsBlank(lines[k])
    ensures BulletsSoFar(lines, a, k + 1, true, bullets + BulletOn(lines[k]))
  {
    CollectNext(lines, a + 1, k, BulletOn, bullets, bullets + BulletOn(lines[k]));
  }

  /** One iteration of the second pass: it either stops at the blank line ending the list or moves past line `k`. */
  method AcceptanceStep(lines: seq<string>, ghost a: nat, k: nat, afterAcc: bool, bullets: seq<string>)
    returns (afterAcc': bool, bullets': seq<string>, stop: bool)
    requires k < |lines| && BulletsSoFar(lines, a, k, afterAcc, bullets)
    ensures stop ==> afterAcc' && FirstIndex(lines, k, IsBlank) == k && BulletsSoFar(lines, a, k, afterAcc', bullets')
    ensures !stop ==> BulletsSoFar(lines, a, k + 1, afterAcc', bullets')
  {
    var s := PyStrip(lines[k]);
    afterAcc', bullets', stop := afterAcc, bullets, false;
    if StartsWith(s, AcceptanceKey) {
      BulletsAtAcceptance(lines, a, k, afterAcc, bullets);
      afterAcc' := true;
    } else if afterAcc {
      var b;
      stop, b := BulletLine(lines[k], bullets);
      if !stop {
        BulletsInList(lines, a, k, bullets);
        bullets' := b;
      }
    } else {
      BulletsBefore(lines, a, k);
    }
  }

  /**
   * A line after the acceptance line that is not itself an acceptance line:
   * a `-` line adds its item, a blank line ends the list.
   */
  method BulletLine(line: string, bullets: seq<string>) returns (stop: bool, bullets': seq<string>)
    requires !IsAcceptanceLine(line)
    ensures stop <==> IsBlank(line)
    ensures bullets' == if stop then bullets else bullets + BulletOn(line)
  {
    var s := PyStrip(line);
    stop := false;
    bullets' := bullets;
    if StartsWith(s, "-") {
      var item := PyStrip(s[1..]);
      if item != "" {
        bullets' := bullets + [item];
      }
    } else if s == "" {
      stop := true;
    }
  }

  /** `str.splitlines` on text whose only line break is `\n`: a final empty piece is no line. */
  function SplitLines(text: string): (r: seq<string>)
  {
    var pieces := Split(text, '\n');
    if pieces[|pieces| - 1] == "" then pieces[..|pieces| - 1] else pieces
  }

  /** Splitting the joined block gives back its lines, less a final empty line. */
  lemma BlockLines(desc: seq<string>)
    requires forall k :: 0 <= k < |desc| ==> '\n' !in desc[k]
    ensures SplitLines(Join(desc, '\n')) == if desc != [] && desc[|desc| - 1] == "" then desc[..|desc| - 1] else desc
  {
    var text := Join(desc, '\n');
    if desc != [] {
      SplitJoin(desc, '\n');
      SplitLinesOf(text, desc);
    } else {
      assert text == "";
      SplitLinesOf(text, [""]);
    }
  }

  /** `SplitLines` drops a final empty piece of the split, and only that. */
  lemma SplitLinesOf(text: string, pieces: seq<string>)
    requires Split(text, '\n') == pieces
    ensures SplitLines(text) == if pieces[|pieces| - 1] == "" then pieces[..|pieces| - 1] else pieces
  {
  }

  /** What a task line at `j` yields. */
  function TaskAt(syn: Syntax, lines: seq<string>, j: nat): Task
    requires j < |lines| && IsTaskLine(syn, lines[j])
  {
    var m := syn.task(lines[j]).value;
    var block := Join(lines[j + 1..NextHeading(syn, lines, j + 1)], '\n');
    Task(m.0, PyStrip(m.1), PhaseBefore(syn, lines, j), syn.fields(SplitLines(block)))
  }

  /** All tasks yielded by task lines among the first `n` lines, in document order. */
  function TasksUpTo(syn: Syntax, lines: seq<string>, n: nat): seq<Task>
    requires n <= |lines|
  {
    if n == 0 then []
    else if IsTaskLine(syn, lines[n - 1]) then TasksUpTo(syn, lines, n - 1) + [TaskAt(syn, lines, n - 1)]
    else TasksUpTo(syn, lines, n - 1)
  }

  lemma {:induction false} TasksUpToSkip(syn: Syntax, lines: seq<string>, a: nat, b: nat)
    requires a <= b <= |lines|
    requires forall k :: a <= k < b ==> !IsHeading(syn, lines[k])
    ensures TasksUpTo(syn, lines, b) == TasksUpTo(syn, lines, a)
    decreases b
  {
    if a < b {
      TasksUpToSkip(syn, lines, a, b - 1);
    }
  }

  /** One task per task line, in document order. */
  lemma {:induction false} TasksUpToLines(syn: Syntax, lines: seq<string>, n: nat)
    requires n <= |lines|
    ensures |TasksUpTo(syn, lines, n)| == |TaskLines(syn, lines, n)|
    ensures forall k :: 0 <= k < |TasksUpTo(syn, lines, n)| ==>
      TasksUpTo(syn, lines, n)[k] == TaskAt(syn, lines, TaskLines(syn, lines, n)[k])
  {
    if n > 0 {
      TasksUpToLines(syn, lines, n - 1);
      var prev, idx := TasksUpTo(syn, lines, n - 1), TaskLines(syn, lines, n - 1);
      if IsTaskLine(syn, lines[n - 1]) {
        var ts, ix := TasksUpTo(syn, lines, n), TaskLines(syn, lines, n);
        assert ts == prev + [TaskAt(syn, lines, n - 1)] && ix == idx + [n - 1];
        forall k | 0 <= k < |ts| ensures ts[k] == TaskAt(syn, lines, ix[k]) {
          if k < |prev| {
            assert ts[k] == prev[k] && ix[k] == idx[k];
          }
        }
      }
    }
  }

  /** The inner loop of `parse_tasks`: the lines after a task line up to the next heading. */
  method CollectBlock(syn: Syntax, lines: seq<string>, start: nat) returns (desc: seq<string>, next: nat)
    requires start < |lines|
    ensures next == NextHeading(syn, lines, start + 1)
    ensures desc == lines[start + 1..next]
  {
    desc := [];
    next := start + 1;
    while next < |lines|
      invariant start + 1 <= next <= |lines|
      invariant desc == lines[start + 1..next]
      invariant forall k :: start + 1 <= k < next ==> !IsHeading(syn, lines[k])
    {
      var ln := lines[next];
      if syn.phase(ln).Some? || syn.task(ln).Some? {
        break;
      }
      desc := desc + [ln];
      next := next + 1;
    }
  }

  /** The loop of `parse_tasks`, over the matchers of `syn`. */
  method ParseTasksWith(syn: Syntax, lines: seq<string>) returns (tasks: seq<Task>)
    requires forall block {:trigger FieldsOf(block)} :: syn.fields(block) == FieldsOf(block)
    ensures tasks == TasksUpTo(syn, lines, |lines|)
  {
    tasks := [];
    var curPhase: Option<string> := None;
    var i := 0;
    while i < |lines|
      invariant i <= |lines|
      invariant (match curPhase case Some(p) => p case None => "") == PhaseBefore(syn, lines, i)
      invariant tasks == TasksUpTo(syn, lines, i)
    {
      var mPhase := syn.phase(lines[i]);
      if mPhase.Some? {
        curPhase := mPhase;
        i := i + 1;
      } else if syn.task(lines[i]).Some? {
        var start := i;
        var task;
        task, i := ParseTask(syn, lines, start, match curPhase case Some(p) => p case None => "");
        NoHeadingsBetween(syn, lines, start + 1, i);
        TasksUpToSkip(syn, lines, start + 1, i);
        tasks := tasks + [task];
      } else {
        i := i + 1;
      }
    }
  }

  /** The branch of `parse_tasks` for a task line: the line at `start`, its block and its fields. */
  method ParseTask(syn: Syntax, lines: seq<string>, start: nat, phase: string) returns (task: Task, next: nat)
    requires forall block {:trigger FieldsOf(block)} :: syn.fields(block) == FieldsOf(block)
    requires start < |lines| && IsTaskLine(syn, lines[start]) && phase == PhaseBefore(syn, lines, start)
    ensures task == TaskAt(syn, lines, start)
    ensures next == NextHeading(syn, lines, start + 1)
  {
    var (tid, title) := syn.task(lines[start]).value;
    var desc;
    desc, next := CollectBlock(syn, lines, start);
    var data := ExtractFields(SplitLines(Join(desc, '\n')));
    task := Task(tid, PyStrip(title), phase, data);
  }

  /**
   * `parse_tasks` on the lines of the document: every task line yields one
   * task, in document order, with the phase above it and the fields of the
   * lines up to the next heading.
   */
  method ParseTasks(lines: seq<string>) returns (tasks: seq<Task>)
    ensures |tasks| == |TaskStarts(lines)|
    ensures forall n :: 0 <= n < |tasks| ==> tasks[n] == TaskAt(Script, lines, TaskStarts(lines)[n])
  {
    tasks := ParseTasksWith(Script, lines);
    TasksUpToLines(Script, lines, |lines|);
  }

  /** `priority_label`: a case-insensitive `high`, `medium` or `low` prefix gives a label. */
  function PriorityLabel(p: string): (r: Option<string>)
    ensures r.Some? <==> exists w :: w in {"high", "medium", "low"} && StartsWith(LowerAscii(p), w)
    ensures r.Some? ==> exists w :: w in {"high", "medium", "low"} && StartsWith(LowerAscii(p), w) && r.value == "priority:" + w
  {
    var q := LowerAscii(p);
    if StartsWith(q, "high") then Some("priority:high")
    else if StartsWith(q, "medium") then Some("priority:medium")
    else if StartsWith(q, "low") then Some("priority:low")
    else None
  }

  lemma LowerAsciiIdempotent(s: string)
    ensures LowerAscii(LowerAscii(s)) == LowerAscii(s)
  {
  }

  /** The priority label ignores case. */
  lemma PriorityLabelIgnoresCase(p: string)
    ensures PriorityLabel(LowerAscii(p)) == PriorityLabel(p)
  {
    LowerAsciiIdempotent(p);
  }

  /** From position 5 up to `w` there is only white space, and a digit is at `w`. */
  predicate DigitAfterSpaces(phase: string, w: int)
  {
    5 <= w < |phase| && IsDigit(phase[w]) && forall j :: 5 <= j < w ==> IsPySpace(phase[j])
  }

  /** From position 5 up to `w` there is only white space, then the whole digit run `d`. */
  predicate DigitsAfterSpaces(phase: string, w: int, d: string)
  {
    && 5 <= w && w + |d| <= |phase| && phase[w..w + |d|] == d
    && (forall j :: 5 <= j < w ==> IsPySpace(phase[j]))
    && (w + |d| == |phase| || !IsDigit(phase[w + |d|]))
  }

  /** `phase_label`: `Phase`, optional white space and digits give `phase:` and the digits. */
  function PhaseLabel(phase: string): (r: Option<string>)
  {
    if !LitAt(phase, 0, "Phase") then None
    else
      var w := 5 + RunLength(phase, 5, IsPySpace);
      var d := RunLength(phase, w, IsDigit);
      if d == 0 then None
      else
        RunLengthKeeps(phase, w, IsDigit);
        assert AllDigits(phase[w..w + d]);
        Some("phase:" + phase[w..w + d])
  }

  /** A phase label exactly when `Phase` is followed by white space and a digit. */
  lemma PhaseLabelMeaning(phase: string)
    ensures PhaseLabel(phase).Some? <==> StartsWith(phase, "Phase") && (exists w :: DigitAfterSpaces(phase, w))
  {
    if LitAt(phase, 0, "Phase") {
      var w := 5 + RunLength(phase, 5, IsPySpace);
      RunLengthKeeps(phase, 5, IsPySpace);
      if RunLength(phase, w, IsDigit) > 0 {
        assert DigitAfterSpaces(phase, w);
      } else {
        forall v ensures !DigitAfterSpaces(phase, v) {
        }
      }
    } else {
      assert !StartsWith(phase, "Phase");
    }
  }

  /** A phase label is `phase:` and the whole digit run after `Phase` and its white space. */
  lemma PhaseLabelDigits(phase: string)
    requires PhaseLabel(phase).Some?
    ensures var r := PhaseLabel(phase).value;
      |r| > 6 && r[..6] == "phase:" && AllDigits(r[6..]) && exists w :: DigitsAfterSpaces(phase, w, r[6..])
  {
    var w := 5 + RunLength(phase, 5, IsPySpace);
    var d := RunLength(phase, w, IsDigit);
    RunLengthKeeps(phase, 5, IsPySpace);
    RunLengthKeeps(phase, w, IsDigit);
    var digits := phase[w..w + d];
    assert PhaseLabel(phase) == Some("phase:" + digits);
    assert DigitsAfterSpaces(phase, w, digits);
    PhaseLabelShape(phase, w, digits);
  }

  lemma PhaseLabelShape(phase: string, w: int, digits: string)
    requires DigitsAfterSpaces(phase, w, digits) && AllDigits(digits) && digits != []
    ensures var r := "phase:" + digits;
      |r| > 6 && r[..6] == "phase:" && AllDigits(r[6..]) && exists w :: DigitsAfterSpaces(phase, w, r[6..])
  {
    var r := "phase:" + digits;
    assert r[6..] == digits;
  }

  /** Every phase heading's text gets a phase label, from the number after `Phase`. */
  lemma PhaseHeadingLabelled(t: string)
    requires PhaseTitle(t)
    ensures PhaseLabel(t).Some?
  {
  }

  predicate IsAlnum(c: char) { 'a' <= c <= 'z' || 'A' <= c <= 'Z' || IsDigit(c) }

  predicate NotAlnum(c: char) { !IsAlnum(c) }

  predicate IsHyphen(c: char) { c == '-' }

  /** No two hyphens in a row. */
  predicate NoDoubleHyphen(s: string)
  {
    forall j :: 0 <= j < |s| - 1 ==> !(s[j] == '-' && s[j + 1] == '-')
  }

  /** `re.sub(r"[^a-zA-Z0-9]+", "-", s)`: every maximal run of other characters becomes one `-`. */
  function ReplaceRuns(s: string): (r: string)
    ensures forall j :: 0 <= j < |r| ==> IsAlnum(r[j]) || r[j] == '-'
    ensures NoDoubleHyphen(r)
    ensures s != [] ==> r != [] && (IsAlnum(s[0]) ==> r[0] == s[0])
    decreases |s|
  {
    if s == [] then []
    else if IsAlnum(s[0]) then [s[0]] + ReplaceRuns(s[1..])
    else
      var n := RunLength(s, 0, NotAlnum);
      "-" + ReplaceRuns(s[n..])
  }

  /** A slug character: a lower-case ASCII letter, a digit or `-`. */
  predicate IsSlugChar(c: char) { 'a' <= c <= 'z' || IsDigit(c) || c == '-' }

  /** The shape of a slug. */
  predicate IsSlug(s: string)
  {
    && (forall j :: 0 <= j < |s| ==> IsSlugChar(s[j]))
    && (s != [] ==> s[0] != '-' && s[|s| - 1] != '-')
    && NoDoubleHyphen(s)
  }

  lemma TrimKeepsShape(s: string)
    requires forall j :: 0 <= j < |s| ==> IsAlnum(s[j]) || s[j] == '-'
    requires NoDoubleHyphen(s)
    ensures var t := Trim(s, IsHyphen);
      && (forall j :: 0 <= j < |t| ==> IsAlnum(t[j]) || t[j] == '-')
      && (t != [] ==> t[0] != '-' && t[|t| - 1] != '-')
      && NoDoubleHyphen(t)
  {
    var u := TrimStart(s, IsHyphen);
    TrimStartShape(s, IsHyphen);
    var t := TrimEnd(u, IsHyphen);
    TrimEndShape(u, IsHyphen);
    var off := |s| - |u|;
    assert t == s[off..off + |t|];
    InfixChars(s, t, off);
    InfixNoDoubleHyphen(s, t, off);
    TrimShape(s, IsHyphen);
  }

  /** A slice of a text made of letters, digits and `-` is made of them too. */
  lemma InfixChars(s: string, t: string, off: int)
    requires 0 <= off <= off + |t| <= |s| && t == s[off..off + |t|]
    requires forall j :: 0 <= j < |s| ==> IsAlnum(s[j]) || s[j] == '-'
    ensures forall j :: 0 <= j < |t| ==> IsAlnum(t[j]) || t[j] == '-'
  {
    forall j | 0 <= j < |t| ensures IsAlnum(t[j]) || t[j] == '-' {
      assert t[j] == s[off + j];
    }
  }

  /** A slice of a text without a double hyphen has none either. */
  lemma InfixNoDoubleHyphen(s: string, t: string, off: int)
    requires 0 <= off <= off + |t| <= |s| && t == s[off..off + |t|]
    requires NoDoubleHyphen(s)
    ensures NoDoubleHyphen(t)
  {
    forall j | 0 <= j < |t| - 1 ensures !(t[j] == '-' && t[j + 1] == '-') {
      assert t[j] == s[off + j] && t[j + 1] == s[off + j + 1];
    }
  }

  /** `slugify`: runs of other characters to `-`, `-` stripped at both ends, lower-cased. */
  function Slugify(text: string): (r: string)
    ensures IsSlug(r)
  {
    var t := Trim(ReplaceRuns(text), IsHyphen);
    TrimKeepsShape(ReplaceRuns(text));
    LowerAscii(t)
  }

  /** A slug has no run to replace: each `-` stands alone. */
  lemma {:induction false} ReplaceRunsOfSlug(s: string)
    requires forall j :: 0 <= j < |s| ==> IsSlugChar(s[j])
    requires NoDoubleHyphen(s)
    requires s != [] ==> s[|s| - 1] != '-'
    ensures ReplaceRuns(s) == s
    decreases |s|
  {
    if s != [] {
      if IsAlnum(s[0]) {
        ReplaceRunsOfSlug(s[1..]);
      } else {
        assert |s| >= 2 && IsAlnum(s[1]);
        RunLengthExact(s, 0, NotAlnum, 1);
        ReplaceRunsOfSlug(s[1..]);
        assert s == "-" + s[1..];
      }
    }
  }

  /** Slugifying a slug changes nothing. */
  lemma SlugifyIdempotent(text: string)
    ensures Slugify(Slugify(text)) == Slugify(text)
  {
    var s := Slugify(text);
    ReplaceRunsOfSlug(s);
    TrimKeeps(s, IsHyphen);
    assert LowerAscii(s) == s;
  }

  /** The ASCII letters and digits of a text, in order. */
  function Alnums(s: string): (r: string)
    ensures |r| <= |s|
    ensures forall j :: 0 <= j < |r| ==> IsAlnum(r[j])
    decreases |s|
  {
    if s == [] then [] else (if IsAlnum(s[0]) then [s[0]] else []) + Alnums(s[1..])
  }

  /** A text with every `-` removed. */
  function Dehyphen(s: string): (r: string)
    ensures |r| <= |s|
    ensures forall j :: 0 <= j < |r| ==> r[j] != '-'
    decreases |s|
  {
    if s == [] then [] else (if s[0] != '-' then [s[0]] else []) + Dehyphen(s[1..])
  }

  lemma {:induction false} DehyphenAppend(a: string, b: string)
    ensures Dehyphen(a + b) == Dehyphen(a) + Dehyphen(b)
    decreases |a|
  {
    if a != [] {
      assert (a + b)[0] == a[0] && (a + b)[1..] == a[1..] + b;
      DehyphenAppend(a[1..], b);
    } else {
      assert a + b == b;
    }
  }

  lemma {:induction false} DehyphenOfHyphens(s: string)
    requires forall j :: 0 <= j < |s| ==> s[j] == '-'
    ensures Dehyphen(s) == []
    decreases |s|
  {
    if s != [] {
      DehyphenOfHyphens(s[1..]);
    }
  }

  /** A prefix without letters or digits contributes none. */
  lemma {:induction false} AlnumsSkip(s: string, n: nat)
    requires n <= |s|
    requires forall j :: 0 <= j < n ==> NotAlnum(s[j])
    ensures Alnums(s) == Alnums(s[n..])
    decreases n
  {
    if n > 0 {
      AlnumsSkip(s[1..], n - 1);
      assert s[1..][n - 1..] == s[n..];
    }
  }

  /** Replacing the runs keeps every letter and digit, in order, and adds only hyphens. */
  lemma {:induction false} ReplaceRunsKeepsAlnums(s: string)
    ensures Dehyphen(ReplaceRuns(s)) == Alnums(s)
    decreases |s|
  {
    if s != [] {
      if IsAlnum(s[0]) {
        ReplaceRunsKeepsAlnums(s[1..]);
        DehyphenAppend([s[0]], ReplaceRuns(s[1..]));
      } else {
        var n := RunLength(s, 0, NotAlnum);
        RunLengthAtLeast(s, 0, NotAlnum, 1);
        RunLengthKeeps(s, 0, NotAlnum);
        ReplaceRunsKeepsAlnums(s[n..]);
        DehyphenAppend("-", ReplaceRuns(s[n..]));
        AlnumsSkip(s, n);
      }
    }
  }

  /** Stripping `-` from the front removes only hyphens. */
  lemma TrimStartHyphensKeepsRest(s: string)
    ensures Dehyphen(TrimStart(s, IsHyphen)) == Dehyphen(s)
  {
    var u := TrimStart(s, IsHyphen);
    TrimStartShape(s, IsHyphen);
    var k := |s| - |u|;
    var front := s[..k];
    assert s == front + u;
    forall j | 0 <= j < |front| ensures front[j] == '-' {
      assert IsHyphen(s[j]);
    }
    DehyphenOfHyphens(front);
    DehyphenAppend(front, u);
  }

  /** Stripping `-` from the back removes only hyphens. */
  lemma TrimEndHyphensKeepsRest(u: string)
    ensures Dehyphen(TrimEnd(u, IsHyphen)) == Dehyphen(u)
  {
    var t := TrimEnd(u, IsHyphen);
    TrimEndShape(u, IsHyphen);
    var back := u[|t|..];
    assert u == t + back;
    forall j | 0 <= j < |back| ensures back[j] == '-' {
      assert IsHyphen(u[|t| + j]);
    }
    DehyphenOfHyphens(back);
    DehyphenAppend(t, back);
  }

  /** Stripping `-` from both ends removes only hyphens. */
  lemma TrimHyphensKeepsRest(s: string)
    ensures Dehyphen(Trim(s, IsHyphen)) == Dehyphen(s)
  {
    TrimStartHyphensKeepsRest(s);
    TrimEndHyphensKeepsRest(TrimStart(s, IsHyphen));
  }

  /** Lower-casing neither makes nor removes a `-`. */
  lemma {:induction false} DehyphenLower(s: string)
    ensures Dehyphen(LowerAscii(s)) == LowerAscii(Dehyphen(s))
    decreases |s|
  {
    if s != [] {
      assert LowerAscii(s) == [LowerChar(s[0])] + LowerAscii(s[1..]);
      DehyphenAppend([LowerChar(s[0])], LowerAscii(s[1..]));
      DehyphenLower(s[1..]);
      var head := if s[0] != '-' then [s[0]] else [];
      assert LowerAscii(head + Dehyphen(s[1..])) == LowerAscii(head) + LowerAscii(Dehyphen(s[1..]));
    }
  }

  /**
   * The content of a slug: with its hyphens removed it is the lower-cased ASCII letters
   * and digits of the text, in order, so the slug is empty exactly when the text has none.
   */
  lemma SlugifyKeepsAlnums(text: string)
    ensures Dehyphen(Slugify(text)) == LowerAscii(Alnums(text))
    ensures Slugify(text) == [] <==> Alnums(text) == []
  {
    var t := Trim(ReplaceRuns(text), IsHyphen);
    ReplaceRunsKeepsAlnums(text);
    TrimHyphensKeepsRest(ReplaceRuns(text));
    DehyphenLower(t);
    var r := Slugify(text);
    if r != [] {
      assert r == [r[0]] + r[1..];
      DehyphenAppend([r[0]], r[1..]);
    }
  }
}
