/** scripts/test-lanes.mjs: the lane table, which paths its globs match, and lane selection. */
module TestLanes {
  import opened Strings


  datatype Lane = Lane(name: string, globs: seq<string>, hermetic: bool)

  const UNIT := Lane("unit", ["spec/**/*-spec.mjs"], true)
  const PLAYWRIGHT := Lane("ui:playwright", ["spec/ui/playwright/*-playwright.mjs"], true)
  const STAGEHAND := Lane("ui:stagehand", ["spec/ui/stagehand/*-stagehand.mjs"], false)
  const PUPPETEER := Lane("ui:puppeteer", ["spec/ui/puppeteer/*-puppeteer.mjs"], false)

  const LANES: seq<Lane> := [UNIT, PLAYWRIGHT, STAGEHAND, PUPPETEER]

  const DEFAULT_LANE_NAMES: set<string> := {"unit", "ui:playwright"}

  // ----- globs

  /** Within a segment `*` stands for any run of characters. */
  predicate SegmentMatches(pattern: string, s: string)
    decreases |pattern| + |s|
  {
    if pattern == "" then s == ""
    else if pattern[0] == '*' then SegmentMatches(pattern[1..], s) || (s != "" && SegmentMatches(pattern, s[1..]))
    else s != "" && s[0] == pattern[0] && SegmentMatches(pattern[1..], s[1..])
  }

  /** A `**` segment stands for any number of segments, none included. */
  predicate SegmentsMatch(patterns: seq<string>, segments: seq<string>)
    decreases |patterns| + |segments|
  {
    if patterns == [] then segments == []
    else if patterns[0] == "**" then
      SegmentsMatch(patterns[1..], segments) || (segments != [] && SegmentsMatch(patterns, segments[1..]))
    else segments != [] && SegmentMatches(patterns[0], segments[0]) && SegmentsMatch(patterns[1..], segments[1..])
  }

  predicate GlobMatches(glob: string, path: string) {
    SegmentsMatch(PathSegments(glob), PathSegments(path))
  }

  predicate LaneMatches(lane: Lane, path: string) {
    exists k :: 0 <= k < |lane.globs| && GlobMatches(lane.globs[k], path)
  }

  predicate EndsWith(s: string, suffix: string) {
    |suffix| <= |s| && s[|s| - |suffix|..] == suffix
  }

  predicate NoStar(s: string) {
    forall i :: 0 <= i < |s| ==> s[i] != '*'
  }

  lemma {:induction false} LiteralMatches(lit: string, s: string)
    requires NoStar(lit)
    ensures SegmentMatches(lit, s) <==> s == lit
  {
    if lit != "" && s != "" {
      LiteralMatches(lit[1..], s[1..]);
      assert lit == [lit[0]] + lit[1..] && s == [s[0]] + s[1..];
    }
  }

  /** A star and a literal match exactly the strings that end in the literal. */
  lemma {:induction false} StarMatches(lit: string, s: string)
    requires NoStar(lit)
    ensures SegmentMatches("*" + lit, s) <==> EndsWith(s, lit)
    decreases |s|
  {
    assert ("*" + lit)[1..] == lit;
    LiteralMatches(lit, s);
    if s == lit {
    } else if s != "" {
      StarMatches(lit, s[1..]);
      if |lit| < |s| {
        assert s[1..][|s| - 1 - |lit|..] == s[|s| - |lit|..];
      }
    }
  }

  /** Where a glob of the form of the unit lane matches: below its first segment, at any depth. */
  lemma {:induction false} DeepMatches(last: string, segments: seq<string>)
    requires last != "**"
    ensures SegmentsMatch(["**", last], segments)
        <==> segments != [] && SegmentMatches(last, segments[|segments| - 1])
    decreases |segments|
  {
    assert ["**", last][1..] == [last];
    OneMatches(last, segments);
    if segments != [] {
      DeepMatches(last, segments[1..]);
    }
  }

  lemma OneMatches(last: string, segments: seq<string>)
    requires last != "**"
    ensures SegmentsMatch([last], segments) <==> |segments| == 1 && SegmentMatches(last, segments[0])
  {
    assert [last][1..] == [];
    if segments != [] {
      assert SegmentsMatch([], segments[1..]) <==> segments[1..] == [];
    }
  }

  lemma UnitShape(suffix: string, segments: seq<string>)
    requires NoStar(suffix)
    ensures SegmentsMatch(["spec", "**", "*" + suffix], segments)
        <==> |segments| >= 2 && segments[0] == "spec" && EndsWith(segments[|segments| - 1], suffix)
  {
    assert ["spec", "**", "*" + suffix][1..] == ["**", "*" + suffix];
    assert suffix != "" ==> ("*" + suffix)[1] != '*';
    if segments != [] {
      LiteralMatches("spec", segments[0]);
      DeepMatches("*" + suffix, segments[1..]);
      StarMatches(suffix, segments[|segments| - 1]);
    }
  }

  lemma LiteralHead(lit: string, rest: seq<string>, segments: seq<string>)
    requires NoStar(lit)
    ensures SegmentsMatch([lit] + rest, segments)
        <==> segments != [] && segments[0] == lit && SegmentsMatch(rest, segments[1..])
  {
    assert ([lit] + rest)[1..] == rest;
    assert lit != "" ==> lit[0] != '*';
    if segments != [] {
      LiteralMatches(lit, segments[0]);
    }
  }

  lemma TwoHeads(a: string, b: string, rest: seq<string>, segments: seq<string>)
    requires NoStar(a) && NoStar(b)
    ensures SegmentsMatch([a] + ([b] + rest), segments)
        <==> |segments| >= 2 && segments[0] == a && segments[1] == b && SegmentsMatch(rest, segments[2..])
  {
    LiteralHead(a, [b] + rest, segments);
    if segments != [] {
      LiteralHead(b, rest, segments[1..]);
    }
    if |segments| >= 2 {
      assert segments[1..][1..] == segments[2..];
    }
  }

  lemma LiteralThenStar(dir: string, suffix: string, segments: seq<string>)
    requires NoStar(suffix) && NoStar(dir)
    ensures SegmentsMatch([dir] + ["*" + suffix], segments)
        <==> |segments| == 2 && segments[0] == dir && EndsWith(segments[1], suffix)
  {
    LiteralHead(dir, ["*" + suffix], segments);
    if segments != [] {
      StarSegment(suffix, segments[1..]);
    }
  }

  lemma DirectoryShape(dir: string, suffix: string, segments: seq<string>)
    requires NoStar(suffix) && NoStar(dir)
    ensures SegmentsMatch(["spec"] + (["ui"] + ([dir] + ["*" + suffix])), segments) <==> InDirectory(dir, suffix, segments)
  {
    TwoHeads("spec", "ui", [dir] + ["*" + suffix], segments);
    if |segments| >= 2 {
      LiteralThenStar(dir, suffix, segments[2..]);
    }
  }

  lemma StarSegment(suffix: string, segments: seq<string>)
    requires NoStar(suffix)
    ensures SegmentsMatch(["*" + suffix], segments) <==> |segments| == 1 && EndsWith(segments[0], suffix)
  {
    assert suffix != "" ==> ("*" + suffix)[1] != '*';
    OneMatches("*" + suffix, segments);
    if |segments| == 1 {
      StarMatches(suffix, segments[0]);
    }
  }

  lemma {:induction false} SplitCons(a: string, b: string)
    requires forall i :: 0 <= i < |a| ==> a[i] != '/'
    ensures PathSegments(a + "/" + b) == [a] + PathSegments(b)
  {
    if a == "" {
      assert a + "/" + b == "/" + b && ("/" + b)[1..] == b;
    } else {
      SplitCons(a[1..], b);
      assert (a + "/" + b)[1..] == a[1..] + "/" + b && a == [a[0]] + a[1..];
    }
  }

  lemma {:induction false} SplitNone(a: string)
    requires forall i :: 0 <= i < |a| ==> a[i] != '/'
    ensures PathSegments(a) == [a]
  {
    if a == "" {
    } else {
      SplitNone(a[1..]);
      assert a == [a[0]] + a[1..];
    }
  }

  lemma DirectorySegments(dir: string, suffix: string)
    requires forall i :: 0 <= i < |dir| ==> dir[i] != '/'
    requires forall i :: 0 <= i < |suffix| ==> suffix[i] != '/'
    ensures PathSegments("spec" + "/" + ("ui" + "/" + (dir + "/" + ("*" + suffix))))
         == ["spec"] + (["ui"] + ([dir] + ["*" + suffix]))
  {
    SplitCons("spec", "ui" + "/" + (dir + "/" + ("*" + suffix)));
    SplitCons("ui", dir + "/" + ("*" + suffix));
    SplitCons(dir, "*" + suffix);
    SplitNone("*" + suffix);
  }

  /** The suffix and, but for the unit lane, the directory that a lane covers. */
  predicate InDeep(suffix: string, segments: seq<string>) {
    |segments| >= 2 && segments[0] == "spec" && EndsWith(segments[|segments| - 1], suffix)
  }

  predicate InDirectory(dir: string, suffix: string, segments: seq<string>) {
    && |segments| == 4
    && segments[0] == "spec" && segments[1] == "ui" && segments[2] == dir && EndsWith(segments[3], suffix)
  }

  lemma SingleGlob(lane: Lane, glob: string, path: string)
    requires lane.globs == [glob]
    ensures LaneMatches(lane, path) <==> GlobMatches(glob, path)
  {
    assert lane.globs[0] == glob;
  }

  lemma DeepSegments(glob: string, suffix: string)
    requires forall i :: 0 <= i < |suffix| ==> suffix[i] != '/'
    requires glob == "spec" + "/" + ("**" + "/" + ("*" + suffix))
    ensures PathSegments(glob) == ["spec", "**", "*" + suffix]
  {
    SplitCons("spec", "**" + "/" + ("*" + suffix));
    SplitCons("**", "*" + suffix);
    SplitNone("*" + suffix);
  }

  /** A lane with one glob that starts with the spec directory and goes to any depth. */
  lemma DeepCovers(lane: Lane, glob: string, suffix: string, path: string)
    requires NoStar(suffix)
    requires forall i :: 0 <= i < |suffix| ==> suffix[i] != '/'
    requires lane.globs == [glob] && glob == "spec" + "/" + ("**" + "/" + ("*" + suffix))
    ensures LaneMatches(lane, path) <==> InDeep(suffix, PathSegments(path))
  {
    DeepSegments(glob, suffix);
    SingleGlob(lane, glob, path);
    UnitShape(suffix, PathSegments(path));
  }

  lemma UnitCovers(path: string)
    ensures LaneMatches(UNIT, path) <==> InDeep("-spec.mjs", PathSegments(path))
  {
    DeepCovers(UNIT, "spec/**/*-spec.mjs", "-spec.mjs", path);
  }

  /** A lane with one glob of the form spec/ui/dir/ *suffix. */
  lemma DirectoryCovers(lane: Lane, glob: string, dir: string, suffix: string, path: string)
    requires NoStar(dir) && NoStar(suffix)
    requires forall i :: 0 <= i < |dir| ==> dir[i] != '/'
    requires forall i :: 0 <= i < |suffix| ==> suffix[i] != '/'
    requires lane.globs == [glob] && glob == "spec" + "/" + ("ui" + "/" + (dir + "/" + ("*" + suffix)))
    ensures LaneMatches(lane, path) <==> InDirectory(dir, suffix, PathSegments(path))
  {
    DirectorySegments(dir, suffix);
    SingleGlob(lane, glob, path);
    DirectoryShape(dir, suffix, PathSegments(path));
  }

  lemma PlaywrightCovers(path: string)
    ensures LaneMatches(PLAYWRIGHT, path) <==> InDirectory("playwright", "-playwright.mjs", PathSegments(path))
  {
    DirectoryCovers(PLAYWRIGHT, "spec/ui/playwright/*-playwright.mjs", "playwright", "-playwright.mjs", path);
  }

  lemma StagehandCovers(path: string)
    ensures LaneMatches(STAGEHAND, path) <==> InDirectory("stagehand", "-stagehand.mjs", PathSegments(path))
  {
    DirectoryCovers(STAGEHAND, "spec/ui/stagehand/*-stagehand.mjs", "stagehand", "-stagehand.mjs", path);
  }

  lemma PuppeteerCovers(path: string)
    ensures LaneMatches(PUPPETEER, path) <==> InDirectory("puppeteer", "-puppeteer.mjs", PathSegments(path))
  {
    DirectoryCovers(PUPPETEER, "spec/ui/puppeteer/*-puppeteer.mjs", "puppeteer", "-puppeteer.mjs", path);
  }

  /** Exactly which paths each lane's globs match, for paths of any length and depth. */
  lemma CoverageIff(path: string)
    ensures LaneMatches(UNIT, path) <==> InDeep("-spec.mjs", PathSegments(path))
    ensures LaneMatches(PLAYWRIGHT, path) <==> InDirectory("playwright", "-playwright.mjs", PathSegments(path))
    ensures LaneMatches(STAGEHAND, path) <==> InDirectory("stagehand", "-stagehand.mjs", PathSegments(path))
    ensures LaneMatches(PUPPETEER, path) <==> InDirectory("puppeteer", "-puppeteer.mjs", PathSegments(path))
  {
    UnitCovers(path);
    PlaywrightCovers(path);
    StagehandCovers(path);
    PuppeteerCovers(path);
  }

  function LastSegment(path: string): string {
    PathSegments(path)[|PathSegments(path)| - 1]
  }

  /** The character before `.mjs` in the file names of lane i. */
  function Mark(i: nat): char
    requires i < |LANES|
  {
    if i == 0 then 'c' else if i == 1 then 't' else if i == 2 then 'd' else 'r'
  }

  function Suffix(i: nat): string
    requires i < |LANES|
  {
    if i == 0 then "-spec.mjs" else if i == 1 then "-playwright.mjs"
    else if i == 2 then "-stagehand.mjs" else "-puppeteer.mjs"
  }

  lemma LaneSuffix(path: string, i: nat)
    requires i < |LANES| && LaneMatches(LANES[i], path)
    ensures EndsWith(LastSegment(path), Suffix(i))
  {
    if i == 0 {
      UnitCovers(path);
    } else if i == 1 {
      PlaywrightCovers(path);
    } else if i == 2 {
      StagehandCovers(path);
    } else {
      PuppeteerCovers(path);
    }
  }

  lemma SuffixMark(i: nat)
    requires i < |LANES|
    ensures |Suffix(i)| >= 5 && Suffix(i)[|Suffix(i)| - 5] == Mark(i)
  {
  }

  lemma LaneMark(path: string, i: nat)
    requires i < |LANES| && LaneMatches(LANES[i], path)
    ensures |LastSegment(path)| >= 5 && LastSegment(path)[|LastSegment(path)| - 5] == Mark(i)
  {
    LaneSuffix(path, i);
    SuffixMark(i);
    SuffixChar(LastSegment(path), Suffix(i));
  }

  /** No path matches the globs of two lanes: its last segment can carry only one of the suffixes. */
  lemma LanesAreDisjoint(path: string, i: nat, j: nat)
    requires i < j < |LANES|
    ensures !(LaneMatches(LANES[i], path) && LaneMatches(LANES[j], path))
  {
    if LaneMatches(LANES[i], path) && LaneMatches(LANES[j], path) {
      LaneMark(path, i);
      LaneMark(path, j);
    }
  }

  lemma SuffixChar(s: string, suffix: string)
    requires |suffix| >= 5
    ensures EndsWith(s, suffix) ==> s[|s| - 5] == suffix[|suffix| - 5]
  {
    if EndsWith(s, suffix) {
      assert s[|s| - 5] == s[|s| - |suffix|..][|suffix| - 5];
    }
  }

  lemma MarksDiffer(i: nat, j: nat)
    requires i < |LANES| && j < |LANES| && Mark(i) == Mark(j)
    ensures i == j
  {
  }

  lemma OnlyItsLane(path: string, i: nat, j: nat)
    requires i < |LANES| && EndsWith(LastSegment(path), Suffix(i))
    requires j < |LANES| && LaneMatches(LANES[j], path)
    ensures i == j
  {
    SuffixMark(i);
    SuffixChar(LastSegment(path), Suffix(i));
    LaneMark(path, j);
    MarksDiffer(i, j);
  }

  /** A file named like the specs of lane i is seen by that lane or by none, wherever it stands: a
      browser spec outside its own directory is invisible to every gate. */
  lemma SpecIsSeenByItsLaneOrNone(path: string, i: nat)
    requires i < |LANES| && EndsWith(LastSegment(path), Suffix(i))
    ensures forall j: nat :: j < |LANES| && LaneMatches(LANES[j], path) ==> i == j
  {
    forall j: nat | j < |LANES| && LaneMatches(LANES[j], path)
      ensures i == j
    {
      OnlyItsLane(path, i, j);
    }
  }

  // ----- selection

  function LaneNames(lanes: seq<Lane>): set<string> {
    set lane | lane in lanes :: lane.name
  }

  /** Arguments that do not start with a dash. */
  function Named(argv: seq<string>): set<string> {
    set a | a in argv && !("-" <= a)
  }

  function ResolveSelection(argv: seq<string>): set<string> {
    if "--all" in argv then LaneNames(LANES)
    else if Named(argv) != {} then Named(argv)
    else DEFAULT_LANE_NAMES
  }

  function UnknownLaneNames(selection: set<string>): set<string> {
    selection - LaneNames(LANES)
  }

  /** LANES.filter((lane) => selection.has(lane.name) === wanted) */
  function Pick(lanes: seq<Lane>, selection: set<string>, wanted: bool): seq<Lane> {
    if lanes == [] then []
    else
      var rest := Pick(lanes[..|lanes| - 1], selection, wanted);
      var last := lanes[|lanes| - 1];
      if (last.name in selection) == wanted then rest + [last] else rest
  }

  lemma {:induction false} PickMembers(lanes: seq<Lane>, selection: set<string>, wanted: bool)
    ensures forall lane :: lane in Pick(lanes, selection, wanted) <==> lane in lanes && (lane.name in selection) == wanted
  {
    if lanes == [] {
    } else {
      PickMembers(lanes[..|lanes| - 1], selection, wanted);
      assert lanes == lanes[..|lanes| - 1] + [lanes[|lanes| - 1]];
    }
  }

  /** The lanes that run and the lanes that do not partition the table. */
  lemma {:induction false} PickPartitions(lanes: seq<Lane>, selection: set<string>)
    ensures multiset(Pick(lanes, selection, true)) + multiset(Pick(lanes, selection, false)) == multiset(lanes)
  {
    if lanes == [] {
    } else {
      PickPartitions(lanes[..|lanes| - 1], selection);
      assert lanes == lanes[..|lanes| - 1] + [lanes[|lanes| - 1]];
    }
  }

  /** Both keep the order of the table: picking commutes with cutting the table in two. */
  lemma {:induction false} PickKeepsOrder(a: seq<Lane>, b: seq<Lane>, selection: set<string>, wanted: bool)
    ensures Pick(a + b, selection, wanted) == Pick(a, selection, wanted) + Pick(b, selection, wanted)
  {
    if b == [] {
      assert a + b == a;
    } else {
      assert (a + b)[..|a + b| - 1] == a + b[..|b| - 1];
      PickKeepsOrder(a, b[..|b| - 1], selection, wanted);
    }
  }

  /** A selection without unknown names runs at least one lane, whatever the arguments. */
  lemma SomethingIsSelected(argv: seq<string>)
    requires UnknownLaneNames(ResolveSelection(argv)) == {}
    ensures Pick(LANES, ResolveSelection(argv), true) != []
  {
    var selection := ResolveSelection(argv);
    PickMembers(LANES, selection, true);
    assert UNIT in LANES && UNIT.name in LaneNames(LANES);
    assert "unit" in DEFAULT_LANE_NAMES;
    var name :| name in selection;
    assert name !in LaneNames(LANES) ==> name in UnknownLaneNames(selection);
    var lane :| lane in LANES && lane.name == name;
    assert lane in Pick(LANES, selection, true);
  }

  // ----- selection by the arguments alone

  function Names(lanes: seq<Lane>): seq<string> {
    if lanes == [] then [] else Names(lanes[..|lanes| - 1]) + [lanes[|lanes| - 1].name]
  }

  lemma {:induction false} NamesAt(lanes: seq<Lane>)
    ensures |Names(lanes)| == |lanes| && forall k :: 0 <= k < |lanes| ==> Names(lanes)[k] == lanes[k].name
  {
    if lanes == [] {
    } else {
      NamesAt(lanes[..|lanes| - 1]);
    }
  }

  function When(wanted: bool, name: string): seq<string> {
    if wanted then [name] else []
  }

  lemma {:induction false} NamesConcat(a: seq<Lane>, b: seq<Lane>)
    ensures Names(a + b) == Names(a) + Names(b)
  {
    if b == [] {
      assert a + b == a;
    } else {
      assert (a + b)[..|a + b| - 1] == a + b[..|b| - 1];
      NamesConcat(a, b[..|b| - 1]);
    }
  }

  lemma PickJoin(a: seq<Lane>, b: seq<Lane>, selection: set<string>)
    ensures Names(Pick(a + b, selection, true)) == Names(Pick(a, selection, true)) + Names(Pick(b, selection, true))
  {
    PickKeepsOrder(a, b, selection, true);
    NamesConcat(Pick(a, selection, true), Pick(b, selection, true));
  }

  lemma PickOne(lane: Lane, selection: set<string>)
    ensures Names(Pick([lane], selection, true)) == When(lane.name in selection, lane.name)
  {
    var front: seq<Lane> := [lane][..0];
    assert Pick(front, selection, true) == [] && Names([]) == [];
    assert Pick([lane], selection, true) == if lane.name in selection then [lane] else [];
    assert [lane][..0] == [];
  }

  lemma PickFour(a: Lane, b: Lane, c: Lane, d: Lane, selection: set<string>)
    ensures Names(Pick([a, b, c, d], selection, true))
         == When(a.name in selection, a.name) + When(b.name in selection, b.name)
            + When(c.name in selection, c.name) + When(d.name in selection, d.name)
  {
    PickOne(a, selection);
    PickOne(b, selection);
    PickOne(c, selection);
    PickOne(d, selection);
    PickJoin([a], [b], selection);
    PickJoin([a] + [b], [c], selection);
    PickJoin([a] + [b] + [c], [d], selection);
    assert [a] + [b] + [c] + [d] == [a, b, c, d];
  }

  /** The names of the picked lanes, written out. */
  lemma PickedNames(selection: set<string>)
    ensures Names(Pick(LANES, selection, true))
         == When("unit" in selection, "unit") + When("ui:playwright" in selection, "ui:playwright")
            + When("ui:stagehand" in selection, "ui:stagehand") + When("ui:puppeteer" in selection, "ui:puppeteer")
  {
    PickFour(UNIT, PLAYWRIGHT, STAGEHAND, PUPPETEER, selection);
  }

  /** Some argument names a lane, or tries to. */
  predicate NamesSomething(argv: seq<string>) {
    exists k :: 0 <= k < |argv| && !("-" <= argv[k])
  }

  /** The lanes a run is about, by its arguments: all four, the two default ones, or those whose names
      are given, in the order of the table. */
  function LanesFor(argv: seq<string>): seq<string> {
    if "--all" in argv then ["unit", "ui:playwright", "ui:stagehand", "ui:puppeteer"]
    else if !NamesSomething(argv) then ["unit", "ui:playwright"]
    else
      When("unit" in argv, "unit") + When("ui:playwright" in argv, "ui:playwright")
      + When("ui:stagehand" in argv, "ui:stagehand") + When("ui:puppeteer" in argv, "ui:puppeteer")
  }

  /** Without --all, an argument that is neither an option nor the name of a lane. */
  predicate HasUnknown(argv: seq<string>) {
    && "--all" !in argv
    && exists k :: 0 <= k < |argv| && IsUnknown(argv[k])
  }

  predicate IsUnknown(a: string) {
    !("-" <= a) && a != "unit" && a != "ui:playwright" && a != "ui:stagehand" && a != "ui:puppeteer"
  }

  lemma KnownNames(name: string)
    ensures name in LaneNames(LANES) <==>
              name == "unit" || name == "ui:playwright" || name == "ui:stagehand" || name == "ui:puppeteer"
  {
    assert UNIT in LANES && PLAYWRIGHT in LANES && STAGEHAND in LANES && PUPPETEER in LANES;
  }

  lemma NamedIff(argv: seq<string>)
    ensures Named(argv) != {} <==> NamesSomething(argv)
  {
    if a :| a in Named(argv) {
      var k :| 0 <= k < |argv| && argv[k] == a;
    }
    if k :| 0 <= k < |argv| && !("-" <= argv[k]) {
      assert argv[k] in Named(argv);
    }
  }

  lemma SelectedIff(argv: seq<string>, name: string)
    requires name == "unit" || name == "ui:playwright" || name == "ui:stagehand" || name == "ui:puppeteer"
    ensures name in ResolveSelection(argv) <==>
              if "--all" in argv then true
              else if !NamesSomething(argv) then name == "unit" || name == "ui:playwright"
              else name in argv
  {
    NamedIff(argv);
    KnownNames(name);
    assert name[0] != '-';
  }

  /** The selection is what the arguments say, by their literal names. */
  lemma SelectionIsLanesFor(argv: seq<string>)
    ensures Names(Pick(LANES, ResolveSelection(argv), true)) == LanesFor(argv)
  {
    PickedNames(ResolveSelection(argv));
    SelectedIff(argv, "unit");
    SelectedIff(argv, "ui:playwright");
    SelectedIff(argv, "ui:stagehand");
    SelectedIff(argv, "ui:puppeteer");
  }

  lemma UnknownIff(argv: seq<string>)
    ensures UnknownLaneNames(ResolveSelection(argv)) != {} <==> HasUnknown(argv)
  {
    NamedIff(argv);
    forall name: string
      ensures name in LaneNames(LANES) <==>
                name == "unit" || name == "ui:playwright" || name == "ui:stagehand" || name == "ui:puppeteer"
    {
      KnownNames(name);
    }
    if name :| name in UnknownLaneNames(ResolveSelection(argv)) {
      assert "unit" in DEFAULT_LANE_NAMES && "ui:playwright" in DEFAULT_LANE_NAMES;
      assert name in Named(argv);
      var k :| 0 <= k < |argv| && argv[k] == name;
      assert IsUnknown(argv[k]);
    }
    if HasUnknown(argv) {
      var k :| 0 <= k < |argv| && IsUnknown(argv[k]);
      assert argv[k] in Named(argv);
      assert argv[k] in UnknownLaneNames(ResolveSelection(argv));
    }
  }
}
