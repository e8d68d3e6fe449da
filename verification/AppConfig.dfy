/** The line-driven parser that collects the Helm sources of an application manifest. */
module AppConfig {
  import opened Wrappers

  /** The recognised part of a line, with its value trimmed and its templates substituted. */
  datatype Field =
    | RepoURL(v: string)
    | TargetRevision(v: string)
    | Chart(v: string)
    | PathOf(v: string)
    | ReleaseName(v: string)
    | Other

  /**
   A line as the parser looks at it: whether it is the front-matter delimiter, the assignment it
   holds, whether it begins with `spec:`, where `sources:` occurs in it (-1 if nowhere), how far it
   is indented, whether a dash comes first, and the field it sets.
   */
  datatype Line = Line(
    delimiter: bool, definition: Option<(string, string)>, spec: bool, sourcesAt: int,
    indent: nat, dash: bool, field: Field)

  datatype Common = Common(appName: string, namespace: string, order: string)

  datatype Component = Component(common: Common, repo: string, chart: string, version: string, releaseName: string)

  const NO_COMMON := Common("", "", "")

  function Blank(c: Common): Component {
    Component(c, "", "", "", "")
  }

  /** The text before and after the last slash; nothing before if there is none. */
  function SplitOnLastSlash(s: string): (string, string) {
    if '/' !in s then ("", s)
    else if s[|s| - 1] == '/' then (s[..|s| - 1], "")
    else
      var r := SplitOnLastSlash(s[..|s| - 1]);
      (r.0, r.1 + [s[|s| - 1]])
  }

  function Apply(c: Component, f: Field): Component {
    match f
    case RepoURL(v) => c.(repo := v)
    case TargetRevision(v) => c.(version := v)
    case Chart(v) =>
      var r := SplitOnLastSlash(v);
      if r.0 != "" then c.(chart := r.1, repo := c.repo + "/" + r.0) else c.(chart := r.1)
    case PathOf(v) => c.(chart := v)
    case ReleaseName(v) => c.(releaseName := v)
    case Other => c
  }

  function Define(c: Common, d: Option<(string, string)>): Common {
    match d
    case None => c
    case Some((name, value)) =>
      if name == "appName" then c.(appName := value)
      else if name == "namespace" then c.(namespace := value)
      else if name == "syncWave" then c.(order := value)
      else c
  }

  predicate Nonempty(c: Component) {
    c.repo != "" || c.chart != ""
  }

  /** The parser's variables between two lines. */
  datatype State = State(
    inFrontmatter: bool, inSpec: bool, inSources: bool, sourcesIndent: int,
    common: Common, current: Component, components: seq<Component>, stopped: bool)

  const START := State(true, false, false, 2, NO_COMMON, Blank(NO_COMMON), [], false)

  /** The components collected so far, the current one included. */
  function Flushed(s: State): seq<Component> {
    s.components + (if Nonempty(s.current) then [s.current] else [])
  }

  function SourceLine(s: State, line: Line): State {
    var s1 :=
      if line.indent >= s.sourcesIndent && line.dash
      then s.(components := Flushed(s), current := Blank(s.common))
      else s;
    if line.indent <= s.sourcesIndent && !line.dash then s1.(stopped := true)
    else s1.(current := Apply(s1.current, line.field))
  }

  function Step(s: State, line: Line): State {
    if s.stopped then s
    else if s.inFrontmatter then
      if line.delimiter then s.(inFrontmatter := false) else s.(common := Define(s.common, line.definition))
    else if line.spec then s.(inSpec := true)
    else
      var s1 := if s.inSpec then s.(sourcesIndent := line.sourcesAt) else s;
      if s.inSpec && line.sourcesAt > 0 then s1.(inSpec := false, inSources := true)
      else if s.inSources then SourceLine(s1, line)
      else s1
  }

  function Run(s: State, lines: seq<Line>): State
    decreases |lines|
  {
    if lines == [] then s else Run(Step(s, lines[0]), lines[1..])
  }

  function Parse(lines: seq<Line>): seq<Component> {
    Flushed(Run(START, lines))
  }

  lemma {:induction false} StoppedStays(s: State, lines: seq<Line>)
    requires s.stopped
    ensures Run(s, lines) == s
    decreases |lines|
  {
    if lines != [] {
      StoppedStays(s, lines[1..]);
    }
  }

  method ParseAppConfig(lines: seq<Line>) returns (result: seq<Component>)
    ensures result == Parse(lines)
  {
    var components: seq<Component> := [];
    var common := NO_COMMON;
    var inFrontmatter, inSpec, inSources := true, false, false;
    var sourcesIndent := 2;
    var current := Blank(NO_COMMON);

    var i := 0;
    while i < |lines|
      invariant 0 <= i <= |lines|
      invariant Run(START, lines) ==
                Run(State(inFrontmatter, inSpec, inSources, sourcesIndent, common, current, components, false),
                    lines[i..])
    {
      var line := lines[i];
      ghost var s := State(inFrontmatter, inSpec, inSources, sourcesIndent, common, current, components, false);
      assert lines[i..][0] == line && lines[i..][1..] == lines[i + 1..];
      assert Run(s, lines[i..]) == Run(Step(s, line), lines[i + 1..]);
      i := i + 1;
      if inFrontmatter {
        if line.delimiter {
          inFrontmatter := false;
          continue;
        }
        if line.definition.None? {
          continue;
        }
        common := Define(common, line.definition);
      } else {
        if line.spec {
          inSpec := true;
          continue;
        }
        if inSpec {
          sourcesIndent := line.sourcesAt;
          if sourcesIndent > 0 {
            inSpec := false;
            inSources := true;
            continue;
          }
        }
        if inSources {
          if line.indent >= sourcesIndent && line.dash {
            if current.repo != "" || current.chart != "" {
              components := components + [current];
            }
            current := Blank(common);
          }
          if line.indent <= sourcesIndent && !line.dash {
            StoppedStays(State(inFrontmatter, inSpec, inSources, sourcesIndent, common, current, components, true),
                         lines[i..]);
            break;
          }
          current := Apply(current, line.field);
        }
        assert Step(s, line) ==
               State(inFrontmatter, inSpec, inSources, sourcesIndent, common, current, components, false);
      }
    }
    result := components;
    if current.repo != "" || current.chart != "" {
      result := result + [current];
    }
  }

  // Documents

  lemma {:induction false} RunSplit(s: State, a: seq<Line>, b: seq<Line>)
    ensures Run(s, a + b) == Run(Run(s, a), b)
    decreases |a|
  {
    if a == [] {
      assert a + b == b;
    } else {
      assert (a + b)[0] == a[0] && (a + b)[1..] == a[1..] + b;
      RunSplit(Step(s, a[0]), a[1..], b);
    }
  }

  function CommonOf(c: Common, lines: seq<Line>): Common
    decreases |lines|
  {
    if lines == [] then c else CommonOf(Define(c, lines[0].definition), lines[1..])
  }

  /** The value that the last line defining `name` gives it; "" if there is none. */
  function LastDefinition(lines: seq<Line>, name: string): string {
    if lines == [] then ""
    else
      match lines[|lines| - 1].definition
      case Some((n, value)) => if n == name then value else LastDefinition(lines[..|lines| - 1], name)
      case None => LastDefinition(lines[..|lines| - 1], name)
  }

  /** The common details that front matter defines. */
  function DefinedBy(front: seq<Line>): Common {
    Common(LastDefinition(front, "appName"), LastDefinition(front, "namespace"), LastDefinition(front, "syncWave"))
  }

  lemma {:induction false} CommonAppend(c: Common, lines: seq<Line>, last: Line)
    ensures CommonOf(c, lines + [last]) == Define(CommonOf(c, lines), last.definition)
    decreases |lines|
  {
    if lines == [] {
      assert ([] + [last])[1..] == [];
    } else {
      assert (lines + [last])[0] == lines[0] && (lines + [last])[1..] == lines[1..] + [last];
      CommonAppend(Define(c, lines[0].definition), lines[1..], last);
    }
  }

  /** Of the front matter the last definition of each of the three names counts, and no other line. */
  lemma {:induction false} FrontMeans(front: seq<Line>)
    ensures CommonOf(NO_COMMON, front) == DefinedBy(front)
  {
    if front != [] {
      var n := |front| - 1;
      FrontMeans(front[..n]);
      CommonAppend(NO_COMMON, front[..n], front[n]);
      assert front == front[..n] + [front[n]];
      NamesDiffer();
    }
  }

  lemma NamesDiffer()
    ensures "appName" != "namespace" && "appName" != "syncWave" && "namespace" != "syncWave"
  {
    assert "appName"[0] == 'a' && "namespace"[0] == 'n' && "syncWave"[0] == 's';
  }

  predicate Plain(lines: seq<Line>) {
    forall i :: 0 <= i < |lines| ==> !lines[i].spec
  }

  /** Everything before the sources: front matter, delimiter, resource header, `spec:` and its first fields. */
  datatype Head = Head(
    front: seq<Line>, delimiter: Line, preamble: seq<Line>, spec: Line, fields: seq<Line>, sources: Line)

  predicate ValidHead(h: Head) {
    && (forall i :: 0 <= i < |h.front| ==> !h.front[i].delimiter)
    && h.delimiter.delimiter
    && Plain(h.preamble) && h.spec.spec && Plain(h.fields)
    && (forall i :: 0 <= i < |h.fields| ==> h.fields[i].sourcesAt <= 0)
    && !h.sources.spec && h.sources.sourcesAt > 0
  }

  function HeadLines(h: Head): seq<Line> {
    h.front + [h.delimiter] + h.preamble + [h.spec] + h.fields + [h.sources]
  }

  /** The state of the parser inside the sources. */
  function InSources(c: Common, indent: int, current: Component, components: seq<Component>): State {
    State(false, false, true, indent, c, current, components, false)
  }

  lemma {:induction false} FrontRun(s: State, lines: seq<Line>)
    requires s.inFrontmatter && !s.stopped && forall i :: 0 <= i < |lines| ==> !lines[i].delimiter
    ensures Run(s, lines) == s.(common := CommonOf(s.common, lines))
    decreases |lines|
  {
    if lines != [] {
      FrontRun(Step(s, lines[0]), lines[1..]);
    }
  }

  lemma {:induction false} PreambleRun(s: State, lines: seq<Line>)
    requires !s.stopped && !s.inFrontmatter && !s.inSpec && !s.inSources && Plain(lines)
    ensures Run(s, lines) == s
    decreases |lines|
  {
    if lines != [] {
      assert Step(s, lines[0]) == s;
      PreambleRun(s, lines[1..]);
    }
  }

  lemma {:induction false} SpecRun(s: State, lines: seq<Line>)
    requires !s.stopped && !s.inFrontmatter && s.inSpec && !s.inSources && Plain(lines)
    requires forall i :: 0 <= i < |lines| ==> lines[i].sourcesAt <= 0
    ensures exists k: int :: Run(s, lines) == s.(sourcesIndent := k)
    decreases |lines|
  {
    if lines == [] {
      assert Run(s, lines) == s.(sourcesIndent := s.sourcesIndent);
    } else {
      var s1 := Step(s, lines[0]);
      SpecRun(s1, lines[1..]);
      var k: int :| Run(s1, lines[1..]) == s1.(sourcesIndent := k);
      assert Run(s, lines) == s.(sourcesIndent := k);
    }
  }

  lemma HeadRun(h: Head)
    requires ValidHead(h)
    ensures Run(START, HeadLines(h)) ==
            InSources(DefinedBy(h.front), h.sources.sourcesAt, Blank(NO_COMMON), [])
  {
    FrontMeans(h.front);
    var rest := [h.delimiter] + h.preamble + [h.spec] + h.fields + [h.sources];
    assert HeadLines(h) == h.front + rest;
    RunSplit(START, h.front, rest);
    FrontRun(START, h.front);
    var s1 := START.(common := CommonOf(NO_COMMON, h.front));
    BodyRun(s1, h);
  }

  lemma BodyRun(s: State, h: Head)
    requires ValidHead(h) && s == START.(common := s.common)
    ensures Run(s, [h.delimiter] + h.preamble + [h.spec] + h.fields + [h.sources]) ==
            InSources(s.common, h.sources.sourcesAt, Blank(NO_COMMON), [])
  {
    var tail := [h.spec] + h.fields + [h.sources];
    assert [h.delimiter] + h.preamble + [h.spec] + h.fields + [h.sources] == [h.delimiter] + (h.preamble + tail);
    assert ([h.delimiter] + (h.preamble + tail))[1..] == h.preamble + tail;
    var s1 := s.(inFrontmatter := false);
    RunSplit(s1, h.preamble, tail);
    PreambleRun(s1, h.preamble);
    assert tail[1..] == h.fields + [h.sources];
    var s2 := s1.(inSpec := true);
    RunSplit(s2, h.fields, [h.sources]);
    SpecRun(s2, h.fields);
    assert [h.sources][1..] == [];
  }

  /** One source: its dash line, the lines that set its fields, and nested lines that set none. */
  datatype Group = Group(first: Line, fields: seq<Line>, tail: seq<Line>)

  /** The line goes on with the source it is in. */
  predicate Continues(line: Line, indent: int) {
    !line.spec && if line.dash then line.indent < indent else indent < line.indent
  }

  predicate AllContinue(lines: seq<Line>, indent: int) {
    forall i :: 0 <= i < |lines| ==> Continues(lines[i], indent)
  }

  /** The line is nested under a source and sets no field. */
  predicate Nested(line: Line, indent: int) {
    !line.spec && line.field.Other? && (line.dash || indent < line.indent)
  }

  predicate AllNested(lines: seq<Line>, indent: int) {
    forall i :: 0 <= i < |lines| ==> Nested(lines[i], indent)
  }

  predicate ValidGroup(g: Group, indent: int) {
    && g.first.dash && !g.first.spec && indent <= g.first.indent
    && AllContinue(g.fields, indent) && AllNested(g.tail, indent)
  }

  function GroupLines(g: Group): seq<Line> {
    [g.first] + g.fields + g.tail
  }

  function ApplyAll(c: Component, lines: seq<Line>): Component
    decreases |lines|
  {
    if lines == [] then c else ApplyAll(Apply(c, lines[0].field), lines[1..])
  }

  /** The component a source describes. */
  function Described(c: Common, g: Group): Component {
    ApplyAll(Blank(c), [g.first] + g.fields)
  }

  lemma {:induction false} FieldsRun(
    c: Common, indent: int, current: Component, components: seq<Component>, lines: seq<Line>)
    requires AllContinue(lines, indent)
    ensures Run(InSources(c, indent, current, components), lines) ==
            InSources(c, indent, ApplyAll(current, lines), components)
    decreases |lines|
  {
    if lines != [] {
      FieldsRun(c, indent, Apply(current, lines[0].field), components, lines[1..]);
    }
  }

  /** Inside the sources, the lines lead to a state that holds `more` components than before. */
  ghost predicate Collects(s: State, lines: seq<Line>, more: seq<Component>) {
    var e := Run(s, lines);
    e == InSources(s.common, s.sourcesIndent, e.current, e.components) && Flushed(e) == Flushed(s) + more
  }

  lemma CollectsBoth(s: State, a: seq<Line>, b: seq<Line>, x: seq<Component>, y: seq<Component>)
    requires Collects(s, a, x) && Collects(Run(s, a), b, y)
    ensures Collects(s, a + b, x + y)
  {
    RunSplit(s, a, b);
    assert Flushed(s) + (x + y) == Flushed(s) + x + y;
  }

  /** Nested lines, with or without dashes, neither lose nor change nor add a component. */
  lemma {:induction false} TailRun(
    c: Common, indent: int, current: Component, components: seq<Component>, lines: seq<Line>)
    requires AllNested(lines, indent)
    ensures Collects(InSources(c, indent, current, components), lines, [])
    decreases |lines|
  {
    var s := InSources(c, indent, current, components);
    if lines == [] {
      assert Run(s, lines) == s;
    } else {
      var s1 := Step(s, lines[0]);
      assert Flushed(s1) == Flushed(s) && s1 == InSources(c, indent, s1.current, s1.components);
      TailRun(c, indent, s1.current, s1.components, lines[1..]);
    }
  }

  /** The components that name a repository or a chart. */
  function Kept(cs: seq<Component>): seq<Component> {
    if cs == [] then []
    else (if cs[0].repo != "" || cs[0].chart != "" then [cs[0]] else []) + Kept(cs[1..])
  }

  lemma KeptFirst(c: Component, rest: seq<Component>)
    ensures Kept([c] + rest) == Kept([c]) + Kept(rest)
    ensures Kept([c]) == if c.repo != "" || c.chart != "" then [c] else []
  {
    assert ([c] + rest)[1..] == rest && [c][1..] == [];
  }

  /** A source adds the component it describes, if that is not empty, whatever came before it. */
  lemma GroupRun(c: Common, indent: int, current: Component, components: seq<Component>, g: Group)
    requires ValidGroup(g, indent)
    ensures Collects(InSources(c, indent, current, components), GroupLines(g), Kept([Described(c, g)]))
  {
    var s := InSources(c, indent, current, components);
    var before := Flushed(s);
    var first := Apply(Blank(c), g.first.field);
    assert GroupLines(g) == [g.first] + (g.fields + g.tail);
    assert ([g.first] + (g.fields + g.tail))[1..] == g.fields + g.tail;
    assert Step(s, g.first) == InSources(c, indent, first, before);
    RunSplit(InSources(c, indent, first, before), g.fields, g.tail);
    FieldsRun(c, indent, first, before, g.fields);
    assert ([g.first] + g.fields)[1..] == g.fields;
    assert ApplyAll(first, g.fields) == Described(c, g);
    TailRun(c, indent, Described(c, g), before, g.tail);
    KeptFirst(Described(c, g), []);
  }

  function GroupsLines(groups: seq<Group>): seq<Line>
    decreases |groups|
  {
    if groups == [] then [] else GroupLines(groups[0]) + GroupsLines(groups[1..])
  }

  predicate ValidGroups(groups: seq<Group>, indent: int) {
    forall i :: 0 <= i < |groups| ==> ValidGroup(groups[i], indent)
  }

  function AllDescribed(groups: seq<Group>, c: Common): (r: seq<Component>)
    ensures |r| == |groups| && forall i :: 0 <= i < |r| ==> r[i] == Described(c, groups[i])
  {
    seq(|groups|, i requires 0 <= i < |groups| => Described(c, groups[i]))
  }

  lemma {:induction false} GroupsRun(
    c: Common, indent: int, current: Component, components: seq<Component>, groups: seq<Group>)
    requires ValidGroups(groups, indent)
    ensures Collects(InSources(c, indent, current, components), GroupsLines(groups), Kept(AllDescribed(groups, c)))
    decreases |groups|
  {
    var s := InSources(c, indent, current, components);
    if groups == [] {
      assert AllDescribed(groups, c) == [];
    } else {
      var first, rest := Described(c, groups[0]), AllDescribed(groups[1..], c);
      GroupRun(c, indent, current, components, groups[0]);
      var s1 := Run(s, GroupLines(groups[0]));
      GroupsRun(c, indent, s1.current, s1.components, groups[1..]);
      CollectsBoth(s, GroupLines(groups[0]), GroupsLines(groups[1..]), Kept([first]), Kept(rest));
      KeptFirst(first, rest);
      assert AllDescribed(groups, c) == [first] + rest;
    }
  }

  /** What may follow the sources: nothing, or a line that leaves them and then anything. */
  predicate Closes(closing: seq<Line>, indent: int) {
    closing == [] || (!closing[0].spec && !closing[0].dash && closing[0].indent <= indent)
  }

  /** What lines before the first source describe: a component without the common details. */
  function Leading(lead: seq<Line>): Component {
    ApplyAll(Blank(NO_COMMON), lead)
  }

  /**
   Parsing a document gives the components that its sources describe, with the details defined last in
   its front matter, all that are not empty and in order, whether it ends by the end of the file or by
   a line that leaves the sources. Fields set before the first source make a component of their own.
   */
  lemma ParseRoundTrip(h: Head, lead: seq<Line>, groups: seq<Group>, closing: seq<Line>)
    requires ValidHead(h) && AllContinue(lead, h.sources.sourcesAt) && ValidGroups(groups, h.sources.sourcesAt)
    requires Closes(closing, h.sources.sourcesAt)
    ensures Parse(HeadLines(h) + lead + GroupsLines(groups) + closing) ==
            Kept([Leading(lead)] + AllDescribed(groups, DefinedBy(h.front)))
  {
    var c, indent := DefinedBy(h.front), h.sources.sourcesAt;
    RunSplit(START, HeadLines(h) + lead + GroupsLines(groups), closing);
    RunSplit(START, HeadLines(h) + lead, GroupsLines(groups));
    RunSplit(START, HeadLines(h), lead);
    HeadRun(h);
    FieldsRun(c, indent, Blank(NO_COMMON), [], lead);
    GroupsRun(c, indent, Leading(lead), [], groups);
    KeptFirst(Leading(lead), AllDescribed(groups, c));
    ClosingRun(Run(InSources(c, indent, Leading(lead), []), GroupsLines(groups)), closing);
  }

  /** Closing lines neither add nor lose a component. */
  lemma ClosingRun(s: State, closing: seq<Line>)
    requires s == InSources(s.common, s.sourcesIndent, s.current, s.components) && Closes(closing, s.sourcesIndent)
    ensures Flushed(Run(s, closing)) == Flushed(s)
  {
    if closing != [] {
      StoppedStays(Step(s, closing[0]), closing[1..]);
    }
  }

  // What a source describes

  function LastVersion(lines: seq<Line>): string {
    if lines == [] then ""
    else
      match lines[|lines| - 1].field
      case TargetRevision(v) => v
      case _ => LastVersion(lines[..|lines| - 1])
  }

  function LastReleaseName(lines: seq<Line>): string {
    if lines == [] then ""
    else
      match lines[|lines| - 1].field
      case ReleaseName(v) => v
      case _ => LastReleaseName(lines[..|lines| - 1])
  }

  function LastChart(lines: seq<Line>): string {
    if lines == [] then ""
    else
      match lines[|lines| - 1].field
      case Chart(v) => SplitOnLastSlash(v).1
      case PathOf(v) => v
      case _ => LastChart(lines[..|lines| - 1])
  }

  /** The last repository, and after it what later charts have before their last slash. */
  function LastRepo(lines: seq<Line>): string {
    if lines == [] then ""
    else
      var before := LastRepo(lines[..|lines| - 1]);
      match lines[|lines| - 1].field
      case RepoURL(v) => v
      case Chart(v) => before + (if SplitOnLastSlash(v).0 == "" then "" else "/" + SplitOnLastSlash(v).0)
      case _ => before
  }

  lemma {:induction false} ApplyAppend(c: Component, lines: seq<Line>, last: Line)
    ensures ApplyAll(c, lines + [last]) == Apply(ApplyAll(c, lines), last.field)
    decreases |lines|
  {
    if lines == [] {
      assert ([] + [last])[1..] == [];
    } else {
      assert (lines + [last])[0] == lines[0] && (lines + [last])[1..] == lines[1..] + [last];
      ApplyAppend(Apply(c, lines[0].field), lines[1..], last);
    }
  }

  /** Field by field: what lines describe is set by the last of them that sets it, in whatever order they come. */
  lemma {:induction false} FieldsMean(c: Common, lines: seq<Line>)
    ensures ApplyAll(Blank(c), lines) ==
            Component(c, LastRepo(lines), LastChart(lines), LastVersion(lines), LastReleaseName(lines))
  {
    if lines != [] {
      var n := |lines| - 1;
      FieldsMean(c, lines[..n]);
      ApplyAppend(Blank(c), lines[..n], lines[n]);
      assert lines == lines[..n] + [lines[n]];
    }
  }

  // Printed documents

  /** The split takes a text apart at its last slash and nowhere else. */
  lemma {:induction false} SplitOnLastSlashMeans(s: string)
    ensures var r := SplitOnLastSlash(s);
            '/' !in r.1 && if '/' in s then s == r.0 + "/" + r.1 else r == ("", s)
  {
    if '/' in s && s[|s| - 1] != '/' {
      var init := s[..|s| - 1];
      assert s == init + [s[|s| - 1]];
      SplitOnLastSlashMeans(init);
    }
  }

  lemma {:induction false} SplitPrinted(path: string, chart: string)
    requires '/' !in chart
    ensures SplitOnLastSlash(path + "/" + chart) == (path, chart)
    decreases |chart|
  {
    var s := path + "/" + chart;
    assert s[|path|] == '/';
    if chart == "" {
      assert s[..|s| - 1] == path;
    } else {
      var n := |chart| - 1;
      SplitPrinted(path, chart[..n]);
      assert s[..|s| - 1] == path + "/" + chart[..n] && s[|s| - 1] == chart[n];
      assert chart == chart[..n] + [chart[n]];
    }
  }

  /** A source as a manifest spells it out: a chart in a Helm repository, or a path in a Git one. */
  datatype Source =
    | HelmSource(repo: string, path: string, chart: string, version: string, release: string)
    | GitSource(repo: string, path: string, version: string, release: string)

  predicate ValidSource(s: Source) {
    match s
    case HelmSource(repo, path, chart, _, _) => '/' !in chart && (repo != "" || chart != "")
    case GitSource(repo, path, _, _) => repo != "" || path != ""
  }

  function ComponentOf(c: Common, s: Source): Component {
    match s
    case HelmSource(repo, path, chart, version, release) =>
      Component(c, if path == "" then repo else repo + "/" + path, chart, version, release)
    case GitSource(repo, path, version, release) => Component(c, repo, path, version, release)
  }

  function FieldLine(indent: nat, dash: bool, f: Field): Line {
    Line(false, None, false, -1, indent, dash, f)
  }

  /** The source's own lines, followed by nested ones. */
  function PrintSource(s: Source, indent: nat, tail: seq<Line>): Group {
    var last := match s
      case HelmSource(_, path, chart, _, _) => Chart(if path == "" then chart else path + "/" + chart)
      case GitSource(_, path, _, _) => PathOf(path);
    Group(FieldLine(indent, true, RepoURL(s.repo)),
          [FieldLine(indent + 2, false, last), FieldLine(indent + 2, false, TargetRevision(s.version)),
           FieldLine(indent + 4, false, ReleaseName(s.release))],
          tail)
  }

  lemma PrintedSource(c: Common, s: Source, indent: nat, tail: seq<Line>)
    requires ValidSource(s)
    ensures Described(c, PrintSource(s, indent, tail)) == ComponentOf(c, s) && Nonempty(ComponentOf(c, s))
  {
    var g := PrintSource(s, indent, tail);
    var lines := [g.first] + g.fields;
    assert lines[1..] == g.fields;
    var c1 := Apply(Blank(c), g.first.field);
    var c2 := Apply(c1, g.fields[0].field);
    match s {
      case HelmSource(_, path, chart, _, _) =>
        if path == "" {
          SplitOnLastSlashMeans(chart);
        } else {
          SplitPrinted(path, chart);
        }
      case GitSource(_, _, _, _) =>
    }
    var c3 := Apply(c2, g.fields[1].field);
    assert g.fields[1..][1..] == [g.fields[2]] && [g.fields[2]][1..] == [];
    assert ApplyAll(c1, g.fields) == ApplyAll(c2, g.fields[1..]) == ApplyAll(c3, [g.fields[2]]) ==
           Apply(c3, g.fields[2].field);
  }

  function PrintHead(front: seq<Line>, preamble: seq<Line>, fields: seq<Line>, indent: int): Head {
    Head(front, Line(true, None, false, -1, 0, false, Other), preamble,
         Line(false, None, true, -1, 0, false, Other), fields, Line(false, None, false, indent, 0, false, Other))
  }

  /** A printed source together with the nested lines that follow it. */
  datatype Entry = Entry(source: Source, tail: seq<Line>)

  predicate ValidEntry(e: Entry, indent: nat) {
    ValidSource(e.source) && AllNested(e.tail, indent)
  }

  function PrintSources(entries: seq<Entry>, indent: nat): (groups: seq<Group>)
    ensures |groups| == |entries|
    ensures forall i :: 0 <= i < |entries| ==> groups[i] == PrintSource(entries[i].source, indent, entries[i].tail)
  {
    seq(|entries|, i requires 0 <= i < |entries| => PrintSource(entries[i].source, indent, entries[i].tail))
  }

  function Printed(entries: seq<Entry>, c: Common): (r: seq<Component>)
    ensures |r| == |entries| && forall i :: 0 <= i < |r| ==> r[i] == ComponentOf(c, entries[i].source)
  {
    seq(|entries|, i requires 0 <= i < |entries| => ComponentOf(c, entries[i].source))
  }

  lemma {:induction false} AllKept(cs: seq<Component>)
    requires forall i :: 0 <= i < |cs| ==> Nonempty(cs[i])
    ensures Kept(cs) == cs
  {
    if cs != [] {
      AllKept(cs[1..]);
      assert cs == [cs[0]] + cs[1..];
    }
  }

  /** Parsing a printed document gives back its sources, each with the details last defined in the front matter. */
  lemma PrintRoundTrip(
    front: seq<Line>, preamble: seq<Line>, fields: seq<Line>, indent: nat, entries: seq<Entry>, closing: seq<Line>)
    requires forall i :: 0 <= i < |front| ==> !front[i].delimiter
    requires Plain(preamble) && Plain(fields) && (forall i :: 0 <= i < |fields| ==> fields[i].sourcesAt <= 0)
    requires indent > 0 && Closes(closing, indent)
    requires forall i :: 0 <= i < |entries| ==> ValidEntry(entries[i], indent)
    ensures var head, sources := PrintHead(front, preamble, fields, indent), PrintSources(entries, indent);
            Parse(HeadLines(head) + GroupsLines(sources) + closing) == Printed(entries, DefinedBy(front))
  {
    var h, groups := PrintHead(front, preamble, fields, indent), PrintSources(entries, indent);
    var c, printed := DefinedBy(front), Printed(entries, DefinedBy(front));
    forall i | 0 <= i < |groups|
      ensures ValidGroup(groups[i], indent) && Nonempty(printed[i]) && Described(c, groups[i]) == printed[i]
    {
      assert ValidEntry(entries[i], indent);
      PrintedSource(c, entries[i].source, indent, entries[i].tail);
    }
    assert AllDescribed(groups, c) == printed;
    assert HeadLines(h) + [] == HeadLines(h);
    ParseRoundTrip(h, [], groups, closing);
    KeptFirst(Leading([]), printed);
    AllKept(printed);
  }
}
