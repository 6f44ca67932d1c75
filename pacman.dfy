/** The update logic of the `pacman` block: count the pending updates in the
    output of `pacman -Qu`, decide whether one of them is critical, and set
    the widget's text and state from the count.  Running commands, the file
    system and the environment are outside the model: their results are
    parameters of `Pacman.Update`. */
module Pacman {
  import opened Wrappers

  // ---------------------------------------------------------------------
  // Lines

  /** The position of the first `c` in `s`, or `|s|`. */
  function IndexOf(s: string, c: char): (i: nat)
    ensures i <= |s|
    ensures i < |s| ==> s[i] == c
    ensures forall j :: 0 <= j < i ==> s[j] != c
  {
    if s == [] then 0 else if s[0] == c then 0 else 1 + IndexOf(s[1..], c)
  }

  predicate EndsWithCR(l: string) {
    |l| > 0 && l[|l| - 1] == '\r'
  }

  /** A line ended by `\r\n` loses its `\r`. */
  function StripCR(l: string): string {
    if EndsWithCR(l) then l[..|l| - 1] else l
  }

  /** `str::lines`: the pieces between `\n`s, each without a `\r` before its
      `\n`; the last piece is a line only when it is not empty, so a final
      `\n` ends the last line rather than starting an empty one. */
  function Lines(s: string): (ls: seq<string>)
    ensures s == [] <==> ls == []
    decreases |s|
  {
    if s == [] then []
    else
      var i := IndexOf(s, '\n');
      if i == |s| then [s]
      else [StripCR(s[..i])] + Lines(s[i + 1..])
  }

  /** Lines each followed by `\n`, then an unterminated tail. */
  function Terminated(ls: seq<string>): string {
    if ls == [] then "" else ls[0] + "\n" + Terminated(ls[1..])
  }

  lemma IndexOfAfterPrefix(a: string, b: string, c: char)
    requires c !in a
    ensures IndexOf(a + [c] + b, c) == |a|
  {
    var s := a + [c] + b;
    assert s[|a|] == c;
    assert forall j :: 0 <= j < |a| ==> s[j] == a[j];
  }

  /** A line without `\n` and without a trailing `\r`, terminated, is the
      first line. */
  lemma LinesCons(a: string, rest: string)
    requires '\n' !in a && !EndsWithCR(a)
    ensures Lines(a + "\n" + rest) == [a] + Lines(rest)
  {
    var s := a + "\n" + rest;
    IndexOfAfterPrefix(a, rest, '\n');
    assert s[..|a|] == a;
    assert s[|a| + 1..] == rest;
  }

  /** `lines` undoes joining lines with `\n` terminators: lines without
      `\n` and without a trailing `\r`, each terminated, then an optional
      unterminated last line, split back into exactly those lines. */
  lemma {:induction false} LinesOfTerminated(ls: seq<string>, last: string)
    requires forall l :: l in ls ==> '\n' !in l && !EndsWithCR(l)
    requires '\n' !in last
    ensures Lines(Terminated(ls) + last) == ls + (if last == [] then [] else [last])
    decreases |ls|
  {
    if ls == [] {
      assert Terminated(ls) + last == last;
      if last != [] {
        assert IndexOf(last, '\n') == |last|;
      }
    } else {
      var a, tl := ls[0], ls[1..];
      var tail := if last == [] then [] else [last];
      var rest := Terminated(tl) + last;
      assert Terminated(ls) == a + "\n" + Terminated(tl);
      assert Terminated(ls) + last == a + "\n" + rest;
      LinesCons(a, rest);
      forall l | l in tl ensures '\n' !in l && !EndsWithCR(l) {
        assert l in ls;
      }
      LinesOfTerminated(tl, last);
      assert ls == [a] + tl;
      assert [a] + (tl + tail) == ls + tail;
    }
  }

  // ---------------------------------------------------------------------
  // Counting

  /** `str::contains` with a string pattern. */
  predicate Contains(line: string, pat: string) {
    exists i :: 0 <= i <= |line| && MatchesAt(line, pat, i)
  }

  /** `pat` occurs in `line` at position `i`. */
  predicate MatchesAt(line: string, pat: string, i: nat) {
    i + |pat| <= |line| && line[i..i + |pat|] == pat
  }

  const IGNORED: string := "[ignored]"

  /** `Iterator::filter`, keeping the order. */
  function Filter(ls: seq<string>, keep: string -> bool): (r: seq<string>)
    ensures |r| <= |ls|
    ensures forall l :: l in r <==> l in ls && keep(l)
  {
    if ls == [] then []
    else (if keep(ls[0]) then [ls[0]] else []) + Filter(ls[1..], keep)
  }

  /** Every line that satisfies `keep` is kept as often as it occurs, every
      other line is dropped. */
  lemma {:induction false} FilterMultiplicity(ls: seq<string>, keep: string -> bool)
    ensures forall l :: multiset(Filter(ls, keep))[l] == if keep(l) then multiset(ls)[l] else 0
  {
    if ls != [] {
      assert ls == [ls[0]] + ls[1..];
      FilterMultiplicity(ls[1..], keep);
    }
  }

  /** Filtering distributes over concatenation. */
  lemma {:induction false} FilterAppend(a: seq<string>, b: seq<string>, keep: string -> bool)
    ensures Filter(a + b, keep) == Filter(a, keep) + Filter(b, keep)
  {
    if a != [] {
      var ab, t := a + b, a[1..];
      var h := if keep(a[0]) then [a[0]] else [];
      assert ab[0] == a[0] && ab[1..] == t + b;
      FilterAppend(t, b, keep);
      var ft, fb := Filter(t, keep), Filter(b, keep);
      assert Filter(ab, keep) == h + Filter(t + b, keep);
      assert Filter(a, keep) == h + ft;
      assert h + (ft + fb) == (h + ft) + fb;
    } else {
      assert a + b == b;
    }
  }

  /** The positions of the lines that satisfy `keep`. */
  function Positions(ls: seq<string>, keep: string -> bool): set<nat> {
    set i: nat | i < |ls| && keep(ls[i])
  }

  /** Appending a line adds its position when it satisfies `keep`. */
  lemma PositionsSnoc(a: seq<string>, x: string, keep: string -> bool)
    ensures Positions(a + [x], keep) == Positions(a, keep) + (if keep(x) then {|a|} else {})
  {
    var ls := a + [x];
    forall i: nat | i < |a| ensures ls[i] == a[i] {
    }
  }

  /** `filter(..).count()` counts the positions whose line satisfies `keep`. */
  lemma {:induction false} FilterCountsPositions(ls: seq<string>, keep: string -> bool)
    ensures |Filter(ls, keep)| == |Positions(ls, keep)|
    decreases |ls|
  {
    if ls != [] {
      var a, x := ls[..|ls| - 1], ls[|ls| - 1];
      assert ls == a + [x];
      FilterAppend(a, [x], keep);
      FilterCountsPositions(a, keep);
      assert |Filter([x], keep)| == if keep(x) then 1 else 0 by {
        assert [x][1..] == [];
      }
      PositionsSnoc(a, x, keep);
      assert |a| !in Positions(a, keep);
    } else {
      assert Positions(ls, keep) == {};
    }
  }

  /** Filtering by a predicate and by its negation splits the lines. */
  lemma {:induction false} FilterPartition(ls: seq<string>, keep: string -> bool)
    ensures |Filter(ls, keep)| + |Filter(ls, l => !keep(l))| == |ls|
  {
    if ls != [] {
      FilterPartition(ls[1..], keep);
    }
  }

  function NotIgnored(): string -> bool {
    l => !Contains(l, IGNORED)
  }

  /** `get_update_count`: the lines of `pacman -Qu` output that are not
      marked `[ignored]`. */
  function UpdateCount(updates: string): (n: nat)
    ensures n <= |Lines(updates)|
    ensures n == |set i: nat | i < |Lines(updates)| && !Contains(Lines(updates)[i], IGNORED)|
    ensures n == 0 <==> forall l :: l in Lines(updates) ==> Contains(l, IGNORED)
  {
    var kept := Filter(Lines(updates), NotIgnored());
    FilterCountsPositions(Lines(updates), NotIgnored());
    assert Positions(Lines(updates), NotIgnored())
        == set i: nat | i < |Lines(updates)| && !Contains(Lines(updates)[i], IGNORED);
    assert kept == [] <==> forall l :: l in Lines(updates) ==> Contains(l, IGNORED) by {
      if kept != [] {
        assert kept[0] in kept;
      }
    }
    |kept|
  }

  /** The pending updates and the ignored ones make up all the lines. */
  lemma CountPlusIgnored(updates: string)
    ensures UpdateCount(updates) + |Filter(Lines(updates), l => Contains(l, IGNORED))| == |Lines(updates)|
  {
    var ls := Lines(updates);
    FilterPartition(ls, NotIgnored());
    assert Filter(ls, l => !NotIgnored()(l)) == Filter(ls, l => Contains(l, IGNORED)) by {
      FilterExtensional(ls, l => !NotIgnored()(l), l => Contains(l, IGNORED));
    }
  }

  lemma {:induction false} FilterExtensional(ls: seq<string>, p: string -> bool, q: string -> bool)
    requires forall l :: p(l) == q(l)
    ensures Filter(ls, p) == Filter(ls, q)
  {
    if ls != [] {
      FilterExtensional(ls[1..], p, q);
    }
  }

  /** `has_critical_update`: some line matches the regular expression. */
  function HasCriticalUpdate(updates: string, isMatch: string -> bool): (b: bool)
    ensures b <==> exists l :: l in Lines(updates) && isMatch(l)
    ensures updates == [] ==> !b
  {
    var matching := Filter(Lines(updates), isMatch);
    assert matching != [] ==> matching[0] in matching;
    |matching| > 0
  }

  /** A line that contains neither `\n` nor `[` and does not end with `\r`:
      a pending update on a line of its own. */
  predicate PlainLine(l: string) {
    forall i :: 0 <= i < |l| ==> l[i] != '\n' && l[i] != '[' && l[i] != '\r'
  }

  lemma PlainLineFacts(l: string)
    requires PlainLine(l)
    ensures '\n' !in l && !EndsWithCR(l) && !Contains(l, IGNORED)
  {
    forall i | 0 <= i <= |l| ensures !MatchesAt(l, IGNORED, i) {
      if i + |IGNORED| <= |l| {
        assert l[i..i + |IGNORED|][0] == l[i] != IGNORED[0];
      }
    }
  }

  /** Two lines, each ended by `\n`. */
  lemma TwoLines(a: string, b: string)
    requires '\n' !in a && '\n' !in b && !EndsWithCR(a) && !EndsWithCR(b)
    ensures Lines(a + "\n" + b + "\n") == [a, b]
  {
    var t := b + "\n";
    assert t == b + "\n" + "";
    LinesCons(b, "");
    assert Lines(t) == [b];
    var s := a + "\n" + t;
    LinesCons(a, t);
    assert s == a + "\n" + b + "\n";
  }

  lemma FilterTwo(a: string, b: string, keep: string -> bool)
    ensures Filter([a, b], keep) == (if keep(a) then [a] else []) + (if keep(b) then [b] else [])
  {
    assert [a, b][1..] == [b];
    assert [b][1..] == [];
  }

  /** Two plain lines, each ended by `\n`, are two pending updates. */
  lemma TwoPlainLinesCounted(a: string, b: string)
    requires PlainLine(a) && PlainLine(b)
    ensures UpdateCount(a + "\n" + b + "\n") == 2
  {
    PlainLineFacts(a);
    PlainLineFacts(b);
    TwoLines(a, b);
    FilterTwo(a, b, NotIgnored());
  }

  lemma SystemdLinesPlain()
    ensures PlainLine("systemd 245.4-2 -> 245.5-1")
    ensures PlainLine("systemd-libs 245.4-2 -> 245.5-1")
  {
  }

  lemma SystemdOutput()
    ensures "systemd 245.4-2 -> 245.5-1\nsystemd-libs 245.4-2 -> 245.5-1\n"
         == "systemd 245.4-2 -> 245.5-1" + "\n" + "systemd-libs 245.4-2 -> 245.5-1" + "\n"
  {
  }

  /** No output, no updates; two lines each ended by `\n` are two updates. */
  lemma UpdateCountExamples()
    ensures UpdateCount("") == 0
    ensures UpdateCount("systemd 245.4-2 -> 245.5-1\nsystemd-libs 245.4-2 -> 245.5-1\n") == 2
  {
    SystemdLinesPlain();
    TwoPlainLinesCounted("systemd 245.4-2 -> 245.5-1", "systemd-libs 245.4-2 -> 245.5-1");
    SystemdOutput();
  }

  // ---------------------------------------------------------------------
  // The block

  /** The widget states (`State` of the widget module). */
  datatype State = Idle | Info | Good | Warning | Critical

  /** Errors of `update`: a block error with the block's name, or an error
      passed on from a collaborator. */
  datatype Error = BlockError(block: string, message: string) | Passed(message: string)

  /** A compiled `FormatTemplate`, rendered with `{count}`. */
  datatype Template = Template(render: nat -> Result<string, Error>)

  /** A compiled `Regex`. */
  datatype Regex = Regex(isMatch: string -> bool)

  /** The three templates of the block. */
  datatype TemplateKind = UpToDate | Singular | Plural

  /** The template for `count` pending updates. */
  function TemplateFor(count: nat): (k: TemplateKind)
    ensures k == UpToDate <==> count == 0
    ensures k == Singular <==> count == 1
    ensures k == Plural <==> count >= 2
  {
    if count == 0 then UpToDate else if count == 1 then Singular else Plural
  }

  /** The state for `count` pending updates listed in `updates`. */
  function StateFor(count: nat, regex: Option<Regex>, updates: string): (s: State)
    ensures s == Idle <==> count == 0
    ensures s == Critical <==>
      count > 0 && regex.Some? && exists l :: l in Lines(updates) && regex.value.isMatch(l)
    ensures s == Info <==>
      count > 0 && (regex.None? || forall l :: l in Lines(updates) ==> !regex.value.isMatch(l))
  {
    if count == 0 then Idle
    else if regex.Some? && HasCriticalUpdate(updates, regex.value.isMatch) then Critical
    else Info
  }

  /** Nothing pending is idle, whatever the critical expression matches. */
  lemma IdleWinsOverCritical(updates: string, regex: Regex)
    requires UpdateCount(updates) == 0
    ensures StateFor(UpdateCount(updates), Some(regex), updates) == Idle
  {
  }

  /** A plain line and an ignored line: one pending update. */
  lemma PlainThenIgnored(a: string, b: string)
    requires PlainLine(a) && '\n' !in b && !EndsWithCR(b) && Contains(b, IGNORED)
    ensures Lines(a + "\n" + b + "\n") == [a, b]
    ensures UpdateCount(a + "\n" + b + "\n") == 1
  {
    PlainLineFacts(a);
    TwoLines(a, b);
    FilterTwo(a, b, NotIgnored());
  }

  lemma IgnoredExampleFacts()
    ensures PlainLine("a")
    ensures '\n' !in "b [ignored]" && !EndsWithCR("b [ignored]")
    ensures Contains("b [ignored]", IGNORED)
    ensures "a\nb [ignored]\n" == "a" + "\n" + "b [ignored]" + "\n"
  {
    assert MatchesAt("b [ignored]", IGNORED, 2);
  }

  /** A pending update makes the block critical when an ignored update
      matches the critical expression: ignored lines are searched too. */
  lemma IgnoredLineCanBeCritical(regex: Regex)
    requires regex.isMatch("b [ignored]")
    ensures UpdateCount("a\nb [ignored]\n") == 1
    ensures StateFor(1, Some(regex), "a\nb [ignored]\n") == Critical
  {
    IgnoredExampleFacts();
    PlainThenIgnored("a", "b [ignored]");
    assert "b [ignored]" in Lines("a\nb [ignored]\n");
  }

  /** The `pacman` block: its widget's text and state, which `update`
      changes in place, and its configuration. */
  class PacmanBlock {
    var text: string
    var state: State
    const updateInterval: nat
    const format: Template
    const formatSingular: Template
    const formatUpToDate: Template
    const criticalUpdatesRegex: Option<Regex>

    /** A block around a widget showing `text` in `state`. */
    constructor(text: string, state: State, updateInterval: nat, format: Template,
                formatSingular: Template, formatUpToDate: Template, criticalUpdatesRegex: Option<Regex>)
      ensures this.text == text && this.state == state
      ensures this.updateInterval == updateInterval && this.format == format
      ensures this.formatSingular == formatSingular && this.formatUpToDate == formatUpToDate
      ensures this.criticalUpdatesRegex == criticalUpdatesRegex
    {
      this.text := text;
      this.state := state;
      this.updateInterval := updateInterval;
      this.format := format;
      this.formatSingular := formatSingular;
      this.formatUpToDate := formatUpToDate;
      this.criticalUpdatesRegex := criticalUpdatesRegex;
    }

    function TemplateOf(k: TemplateKind): Template {
      match k
      case UpToDate => formatUpToDate
      case Singular => formatSingular
      case Plural => format
    }

    /** `Pacman::update`, given the result of looking for `fakeroot` and the
        output of `pacman -Qu`.  Every error leaves the widget as it was; on
        success the text is the template for the count rendered with it and
        the state follows the count. */
    method Update(hasFakeRoot: Result<bool, Error>, packages: Result<string, Error>)
      returns (r: Result<Option<nat>, Error>)
      modifies this
      ensures hasFakeRoot.Failure? ==> r == Failure(hasFakeRoot.error) && unchanged(this)
      ensures hasFakeRoot == Success(false) ==>
        r == Failure(BlockError("pacman", "fakeroot not found")) && unchanged(this)
      ensures hasFakeRoot == Success(true) && packages.Failure? ==>
        r == Failure(packages.error) && unchanged(this)
      ensures hasFakeRoot == Success(true) && packages.Success? ==>
        var count := UpdateCount(packages.value);
        var rendered := TemplateOf(TemplateFor(count)).render(count);
        && (rendered.Failure? ==> r == Failure(rendered.error) && unchanged(this))
        && (rendered.Success? ==>
              && r == Success(Some(updateInterval))
              && text == rendered.value
              && state == StateFor(count, criticalUpdatesRegex, packages.value))
    {
      if hasFakeRoot.Failure? {
        return Failure(hasFakeRoot.error);
      }
      if !hasFakeRoot.value {
        return Failure(BlockError("pacman", "fakeroot not found"));
      }
      if packages.Failure? {
        return Failure(packages.error);
      }
      var updates := packages.value;
      var count := UpdateCount(updates);
      var rendered;
      if count == 0 {
        rendered := formatUpToDate.render(count);
      } else if count == 1 {
        rendered := formatSingular.render(count);
      } else {
        rendered := format.render(count);
      }
      if rendered.Failure? {
        return Failure(rendered.error);
      }
      text := rendered.value;
      if count == 0 {
        state := Idle;
      } else if criticalUpdatesRegex.Some? && HasCriticalUpdate(updates, criticalUpdatesRegex.value.isMatch) {
        state := Critical;
      } else {
        state := Info;
      }
      return Success(Some(updateInterval));
    }
  }
}
