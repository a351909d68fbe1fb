/** scripts/run-test-lanes.mjs: the reporter parser, one lane's run, and the gate's exit code. */
module TestGate {
  import opened Prelude
  import opened Strings
  import opened TestLanes

  // ----- parseCount

  /** Where `^` and `$` match under the m flag. */
  predicate IsLineTerminator(c: char) {
    c == '\n' || c == '\r' || c == '\U{2028}' || c == '\U{2029}'
  }

  function Lines(output: string): (lines: seq<string>)
    ensures lines != []
  {
    SplitBy(output, IsLineTerminator)
  }

  function Lead(tag: string): string {
    "\U{2139} " + tag + " "
  }

  /** The number on a line that the expression for the tag matches. */
  function CountOn(line: string, tag: string): Option<nat> {
    var lead := Lead(tag);
    if lead <= line && |lead| < |line| && AllDigits(line[|lead|..]) then Some(Value(line[|lead|..])) else None
  }

  /** Exactly which lines match: an information sign, the tag, and digits to the end of the line. */
  lemma CountOnIff(line: string, tag: string, n: nat)
    ensures CountOn(line, tag) == Some(n)
        <==> exists ds :: ds != "" && AllDigits(ds) && Value(ds) == n && line == "\U{2139} " + tag + " " + ds
  {
    var lead := Lead(tag);
    if CountOn(line, tag) == Some(n) {
      var ds := line[|lead|..];
      assert line == lead + ds;
    }
    if ds :| ds != "" && AllDigits(ds) && Value(ds) == n && line == "\U{2139} " + tag + " " + ds {
      assert line == lead + ds && line[|lead|..] == ds;
    }
  }

  /** matches.at(-1), or null without a match. */
  function LastCount(lines: seq<string>, tag: string): Option<nat> {
    if lines == [] then None
    else if CountOn(lines[|lines| - 1], tag).Some? then CountOn(lines[|lines| - 1], tag)
    else LastCount(lines[..|lines| - 1], tag)
  }

  function ParseCount(output: string, tag: string): Option<nat> {
    LastCount(Lines(output), tag)
  }

  lemma {:induction false} LastCountAfter(before: seq<string>, after: seq<string>, tag: string)
    requires forall line :: line in after ==> CountOn(line, tag) == None
    ensures LastCount(before + after, tag) == LastCount(before, tag)
  {
    if after == [] {
      assert before + after == before;
    } else {
      var all := before + after;
      assert all[|all| - 1] == after[|after| - 1] && after[|after| - 1] in after;
      assert all[..|all| - 1] == before + after[..|after| - 1];
      LastCountAfter(before, after[..|after| - 1], tag);
    }
  }

  lemma {:induction false} NoCount(lines: seq<string>, tag: string)
    ensures LastCount(lines, tag) == None <==> forall line :: line in lines ==> CountOn(line, tag) == None
  {
    if lines == [] {
    } else {
      assert lines[|lines| - 1] in lines;
      assert lines == lines[..|lines| - 1] + [lines[|lines| - 1]];
      NoCount(lines[..|lines| - 1], tag);
    }
  }

  predicate Unbroken(line: string) {
    forall i :: 0 <= i < |line| ==> !IsLineTerminator(line[i])
  }

  lemma {:induction false} SplitUnbroken(line: string)
    requires Unbroken(line)
    ensures Lines(line) == [line]
  {
    if line == "" {
    } else {
      SplitUnbroken(line[1..]);
      assert line == [line[0]] + line[1..];
    }
  }

  /** Lines break at these four characters and nowhere else. */
  lemma {:induction false} OneLineIff(s: string)
    ensures |Lines(s)| == 1 <==>
              forall i :: 0 <= i < |s| ==> s[i] != '\n' && s[i] != '\r' && s[i] != '\U{2028}' && s[i] != '\U{2029}'
  {
    if s == "" {
    } else {
      OneLineIff(s[1..]);
      assert s == [s[0]] + s[1..];
    }
  }

  lemma {:induction false} SplitFirstLine(line: string, rest: string)
    requires Unbroken(line)
    ensures Lines(line + "\n" + rest) == [line] + Lines(rest)
  {
    var text := line + "\n" + rest;
    if line == "" {
      assert text[1..] == rest;
    } else {
      SplitFirstLine(line[1..], rest);
      assert text[1..] == line[1..] + "\n" + rest && line == [line[0]] + line[1..];
    }
  }

  /** Splitting undoes joining. */
  lemma {:induction false} SplitOfJoin(lines: seq<string>)
    requires lines != [] && forall line :: line in lines ==> Unbroken(line)
    ensures Lines(JoinLines(lines)) == lines
  {
    assert lines[0] in lines;
    if |lines| == 1 {
      SplitUnbroken(lines[0]);
    } else {
      SplitOfJoin(lines[1..]);
      SplitFirstLine(lines[0], JoinLines(lines[1..]));
    }
  }

  /** A line terminator of any kind separates the lines before it from the lines behind it. */
  lemma {:induction false} LinesConcat(a: string, t: char, b: string)
    requires t == '\n' || t == '\r' || t == '\U{2028}' || t == '\U{2029}'
    ensures Lines(a + [t] + b) == Lines(a) + Lines(b)
  {
    var text := a + [t] + b;
    if a == "" {
      assert text[1..] == b;
    } else {
      LinesConcat(a[1..], t, b);
      assert text[1..] == a[1..] + [t] + b;
    }
  }

  /** In any output the last line that counts for a tag decides. */
  lemma LastMatchDecides(output: string, tag: string, k: nat)
    requires k < |Lines(output)| && CountOn(Lines(output)[k], tag).Some?
    requires forall j :: k < j < |Lines(output)| ==> CountOn(Lines(output)[j], tag) == None
    ensures ParseCount(output, tag) == CountOn(Lines(output)[k], tag)
  {
    var lines := Lines(output);
    forall line | line in lines[k + 1..]
      ensures CountOn(line, tag) == None
    {
      var i :| 0 <= i < |lines[k + 1..]| && lines[k + 1..][i] == line;
      assert line == lines[k + 1 + i];
    }
    LastCountAfter(lines[..k + 1], lines[k + 1..], tag);
    assert lines == lines[..k + 1] + lines[k + 1..];
  }

  /** A count printed on a line of its own is read back, whatever surrounds it, unless a later line
      counts for the same tag. */
  lemma CountIsRead(a: string, t: char, tag: string, n: nat, u: char, b: string)
    requires t == '\n' || t == '\r' || t == '\U{2028}' || t == '\U{2029}'
    requires u == '\n' || u == '\r' || u == '\U{2028}' || u == '\U{2029}'
    requires IsTag(tag)
    requires forall line :: line in Lines(b) ==> CountOn(line, tag) == None
    ensures ParseCount(a + [t] + Summary(tag, n) + [u] + b, tag) == Some(n)
  {
    var line := Summary(tag, n);
    var output := a + [t] + line + [u] + b;
    SummaryIsUnbroken(tag, n);
    SplitUnbroken(line);
    assert output == a + [t] + (line + [u] + b);
    LinesConcat(a, t, line + [u] + b);
    LinesConcat(line, u, b);
    assert Lines(output) == (Lines(a) + [line]) + Lines(b);
    LastCountAfter(Lines(a) + [line], Lines(b), tag);
    assert (Lines(a) + [line])[|Lines(a)|] == line;
    SummaryReads(tag, n);
  }

  /** One line of the reporter's summary. */
  function Summary(tag: string, n: nat): string {
    Lead(tag) + Digits(n)
  }

  predicate IsTag(tag: string) {
    ' ' !in tag && Unbroken(tag)
  }

  lemma SummaryIsUnbroken(tag: string, n: nat)
    requires IsTag(tag)
    ensures Unbroken(Summary(tag, n))
  {
    DigitsValue(n);
    var line := Summary(tag, n);
    forall i | 0 <= i < |line|
      ensures !IsLineTerminator(line[i])
    {
      if |Lead(tag)| <= i {
        assert line[i] == Digits(n)[i - |Lead(tag)|];
        assert IsDigit(line[i]);
      } else if 2 <= i < 2 + |tag| {
        assert line[i] == tag[i - 2];
      }
    }
  }

  lemma SummaryReads(tag: string, n: nat)
    ensures CountOn(Summary(tag, n), tag) == Some(n)
  {
    DigitsValue(n);
    assert Summary(tag, n)[|Lead(tag)|..] == Digits(n);
  }

  /** A summary line counts for its own tag only. */
  lemma OtherTag(tag: string, n: nat, other: string)
    requires ' ' !in tag && ' ' !in other && tag != other
    ensures CountOn(Summary(tag, n), other) == None
  {
    var line := Summary(tag, n);
    if Lead(other) <= line {
      var rest := line[|Lead(other)|..];
      assert line == Lead(other) + rest;
      assert line[2..] == tag + [' '] + Digits(n);
      assert line[2..] == other + [' '] + rest;
      SplitFirst(tag, Digits(n), other, rest, ' ');
    }
  }

  datatype Entry = Entry(tag: string, count: nat)

  /** The summary block that one child prints. */
  function Block(entries: seq<Entry>): (lines: seq<string>)
    ensures |lines| == |entries|
    ensures forall k :: 0 <= k < |entries| ==> lines[k] == Summary(entries[k].tag, entries[k].count)
  {
    seq(|entries|, k requires 0 <= k < |entries| => Summary(entries[k].tag, entries[k].count))
  }

  /** Whatever a spec prints before the block, lookalikes included, every count of the block is read
      back, as long as no later line carries the same tag. */
  lemma BlockIsRead(before: seq<string>, entries: seq<Entry>, after: seq<string>, k: nat)
    requires k < |entries|
    requires forall i :: 0 <= i < |entries| ==> IsTag(entries[i].tag)
    requires forall i, j :: 0 <= i < j < |entries| ==> entries[i].tag != entries[j].tag
    requires forall line :: line in before || line in after ==> Unbroken(line)
    requires forall line :: line in after ==> CountOn(line, entries[k].tag) == None
    ensures ParseCount(JoinLines(before + Block(entries) + after), entries[k].tag) == Some(entries[k].count)
  {
    var block := Block(entries);
    BlockIsUnbroken(before, entries, after);
    SplitOfJoin(before + block + after);
    LaterTags(entries, k);
    assert before + block + after == (before + block[..k] + [block[k]]) + (block[k + 1..] + after);
    SummaryReads(entries[k].tag, entries[k].count);
    LastDecides(before + block[..k], block[k], block[k + 1..] + after, entries[k].tag);
  }

  lemma LastDecides(before: seq<string>, line: string, after: seq<string>, tag: string)
    requires CountOn(line, tag).Some? && forall later :: later in after ==> CountOn(later, tag) == None
    ensures LastCount(before + [line] + after, tag) == CountOn(line, tag)
  {
    LastCountAfter(before + [line], after, tag);
    assert (before + [line])[|before|] == line;
  }

  lemma BlockIsUnbroken(before: seq<string>, entries: seq<Entry>, after: seq<string>)
    requires forall i :: 0 <= i < |entries| ==> IsTag(entries[i].tag)
    requires forall line :: line in before || line in after ==> Unbroken(line)
    requires entries != []
    ensures before + Block(entries) + after != []
    ensures forall line :: line in before + Block(entries) + after ==> Unbroken(line)
  {
    var block := Block(entries);
    assert (before + block + after)[|before|] == block[0];
    forall line | line in before + block + after
      ensures Unbroken(line)
    {
      if line in block {
        var i :| 0 <= i < |block| && block[i] == line;
        SummaryIsUnbroken(entries[i].tag, entries[i].count);
      }
    }
  }

  /** The lines of a block behind the one at k do not count for its tag. */
  lemma LaterTags(entries: seq<Entry>, k: nat)
    requires k < |entries|
    requires forall i :: 0 <= i < |entries| ==> IsTag(entries[i].tag)
    requires forall i, j :: 0 <= i < j < |entries| ==> entries[i].tag != entries[j].tag
    ensures forall line :: line in Block(entries)[k + 1..] ==> CountOn(line, entries[k].tag) == None
  {
    var later := Block(entries)[k + 1..];
    forall line | line in later
      ensures CountOn(line, entries[k].tag) == None
    {
      var i :| 0 <= i < |later| && later[i] == line;
      assert line == Block(entries)[k + 1 + i];
      OtherTag(entries[k + 1 + i].tag, entries[k + 1 + i].count, entries[k].tag);
    }
  }

  // ----- runLane

  datatype Event =
    | Output(text: string)
    | TimerFires
    | SpawnFails
    | Closes(code: Option<int>, signal: Option<string>)

  datatype LaneResult = LaneResult(
    name: string,
    ok: bool,
    exitCode: Option<int>,
    tests: Option<nat>,
    skipped: nat,
    failed: nat,
    executed: Option<int>)

  predicate Settles(event: Event) {
    event.SpawnFails? || event.Closes?
  }

  function OrZero(count: Option<nat>): nat {
    match count
    case None => 0
    case Some(n) => n
  }

  /** What the settling event resolves the lane's promise with, after the output so far. */
  function ResultOf(lane: Lane, output: string, event: Event): LaneResult
    requires Settles(event)
  {
    match event
    case SpawnFails => LaneResult(lane.name, false, None, None, 0, 0, None)
    case Closes(code, signal) =>
      var tests := ParseCount(output, "tests");
      var skipped := OrZero(ParseCount(output, "skipped"));
      var failed := OrZero(ParseCount(output, "fail"));
      var executed := if tests.None? then None else Some(tests.value - skipped - failed);
      LaneResult(lane.name, code == Some(0) && signal == None, code, tests, skipped, failed, executed)
  }

  /** Everything the child printed in a stretch of events. */
  function Printed(events: seq<Event>): string {
    if events == [] then ""
    else
      var before := Printed(events[..|events| - 1]);
      var last := events[|events| - 1];
      if last.Output? then before + last.text else before
  }

  /** That is the chunks of output, in order, and nothing else. */
  lemma {:induction false} PrintedIs(a: seq<Event>, b: seq<Event>)
    ensures Printed(a + b) == Printed(a) + Printed(b)
    ensures |a| == 1 ==> Printed(a) == match a[0] { case Output(text) => text case _ => "" }
  {
    assert |a| == 1 ==> Printed(a[..0]) == "";
    if b == [] {
      assert a + b == a;
    } else {
      PrintedIs(a, b[..|b| - 1]);
      assert (a + b)[..|a + b| - 1] == a + b[..|b| - 1];
    }
  }

  /** None of the first n events settles. */
  predicate Unsettled(events: seq<Event>, n: nat) {
    forall i :: 0 <= i < n && i < |events| ==> !Settles(events[i])
  }

  /** Event k is the first that settles. */
  predicate FirstSettles(events: seq<Event>, k: nat) {
    k < |events| && Settles(events[k]) && Unsettled(events, k)
  }

  /** The timer fires at t, before anything settles. */
  predicate FiresInTime(events: seq<Event>, t: nat) {
    t < |events| && events[t].TimerFires? && Unsettled(events, t)
  }

  function Joined(chunks: seq<string>): string {
    if chunks == [] then "" else Joined(chunks[..|chunks| - 1]) + chunks[|chunks| - 1]
  }

  lemma OneFirst(events: seq<Event>, j: nat, k: nat)
    requires FirstSettles(events, j) && FirstSettles(events, k)
    ensures j == k
  {
  }

  /** runLane: later events change nothing, and a timer that fires kills once, only before the end. */
  method RunLane(lane: Lane, events: seq<Event>) returns (result: Option<LaneResult>, kills: nat)
    ensures result.None? <==> Unsettled(events, |events|)
    ensures forall k: nat :: FirstSettles(events, k) ==> result == Some(ResultOf(lane, Printed(events[..k]), events[k]))
    ensures kills <= 1
    ensures kills == 1 <==> exists t: nat :: FiresInTime(events, t)
  {
    var chunks: seq<string> := [];
    var armed := true;
    result, kills := None, 0;
    ghost var first := 0;
    var n := 0;
    while n < |events|
      invariant 0 <= n <= |events|
      invariant result.None? <==> Unsettled(events, n)
      invariant result.None? ==> Joined(chunks) == Printed(events[..n]) && armed == (kills == 0)
      invariant result.Some? ==> FirstSettles(events, first) && !armed
      invariant result.Some? ==> result == Some(ResultOf(lane, Printed(events[..first]), events[first]))
      invariant kills <= 1
      invariant kills == 1 <==> exists t: nat :: t < n && FiresInTime(events, t)
    {
      assert events[..n + 1][..n] == events[..n];
      var event := events[n];
      if event.Output? {
        assert (chunks + [event.text])[..|chunks|] == chunks;
        chunks := chunks + [event.text];
      } else if event.TimerFires? {
        assert armed ==> FiresInTime(events, n);
        if armed {
          armed, kills := false, kills + 1;
        }
      } else {
        armed := false;
        if result.None? {
          result, first := Some(ResultOf(lane, Joined(chunks), event)), n;
        }
      }
      n := n + 1;
    }
    forall k: nat | FirstSettles(events, k)
      ensures result == Some(ResultOf(lane, Printed(events[..k]), events[k]))
    {
      if result.Some? {
        OneFirst(events, first, k);
      }
    }
  }

  /** The promise of runLane as a function of the events. */
  function Outcome(lane: Lane, events: seq<Event>): Option<LaneResult> {
    OutcomeAfter(lane, events, 0)
  }

  function OutcomeAfter(lane: Lane, events: seq<Event>, k: nat): Option<LaneResult>
    requires k <= |events|
    decreases |events| - k
  {
    if k == |events| then None
    else if Settles(events[k]) then Some(ResultOf(lane, Printed(events[..k]), events[k]))
    else OutcomeAfter(lane, events, k + 1)
  }

  lemma {:induction false} OutcomeIsFirst(lane: Lane, events: seq<Event>, k: nat)
    requires k <= |events| && Unsettled(events, k)
    ensures (var outcome := OutcomeAfter(lane, events, k);
             && (outcome == None ==> Unsettled(events, |events|))
             && (outcome.Some? ==>
                   exists f: nat :: FirstSettles(events, f) && outcome == Some(ResultOf(lane, Printed(events[..f]), events[f]))))
    decreases |events| - k
  {
    if k == |events| {
    } else if Settles(events[k]) {
      assert FirstSettles(events, k);
    } else {
      OutcomeIsFirst(lane, events, k + 1);
    }
  }

  // ----- what makes a lane pass

  /** As many tests were skipped or failed as there were, by the last counts of the output. */
  predicate NothingRan(output: string) {
    ParseCount(output, "tests") == Some(OrZero(ParseCount(output, "skipped")) + OrZero(ParseCount(output, "fail")))
  }

  /** The first thing that settles is the end of the child, with code zero and without a signal, after an
      output that does not say that nothing ran. */
  predicate Green(events: seq<Event>) {
    exists k: nat :: k < |events| && FirstSettles(events, k) && events[k] == Closes(Some(0), None) && !NothingRan(Printed(events[..k]))
  }

  lemma PassesIff(lane: Lane, output: string, event: Event)
    requires Settles(event)
    ensures Passes(ResultOf(lane, output, event)) <==> event == Closes(Some(0), None) && !NothingRan(output)
  {
  }

  lemma GreenIff(lane: Lane, events: seq<Event>)
    ensures Outcome(lane, events).Some? && Passes(Outcome(lane, events).value) <==> Green(events)
    ensures Outcome(lane, events).None? <==> Unsettled(events, |events|)
  {
    OutcomeIsFirst(lane, events, 0);
    forall k: nat | FirstSettles(events, k)
      ensures Outcome(lane, events) == Some(ResultOf(lane, Printed(events[..k]), events[k]))
      ensures Passes(ResultOf(lane, Printed(events[..k]), events[k]))
          <==> events[k] == Closes(Some(0), None) && !NothingRan(Printed(events[..k]))
    {
      var f: nat :| FirstSettles(events, f) && Outcome(lane, events) == Some(ResultOf(lane, Printed(events[..f]), events[f]));
      OneFirst(events, f, k);
      PassesIff(lane, Printed(events[..k]), events[k]);
    }
  }

  predicate AllGreen(names: seq<string>, runs: string -> seq<Event>) {
    forall k :: 0 <= k < |names| ==> Green(runs(names[k]))
  }

  predicate SomeHangs(names: seq<string>, runs: string -> seq<Event>) {
    exists k :: 0 <= k < |names| && Unsettled(runs(names[k]), |runs(names[k])|)
  }

  lemma AllGreenIff(lanes: seq<Lane>, runs: string -> seq<Event>)
    ensures AllPass(lanes, runs) <==> AllGreen(Names(lanes), runs)
    ensures AllSettle(lanes, runs) <==> !SomeHangs(Names(lanes), runs)
  {
    NamesAt(lanes);
    forall k | 0 <= k < |lanes|
      ensures Outcome(lanes[k], runs(lanes[k].name)).Some? && Passes(Outcome(lanes[k], runs(lanes[k].name)).value)
          <==> Green(runs(Names(lanes)[k]))
      ensures Outcome(lanes[k], runs(lanes[k].name)).None?
          <==> Unsettled(runs(Names(lanes)[k]), |runs(Names(lanes)[k])|)
    {
      GreenIff(lanes[k], runs(lanes[k].name));
    }
  }

  // ----- the gate

  /** Neither FAIL nor EMPTY. */
  predicate Passes(result: LaneResult) {
    result.ok && result.executed != Some(0)
  }

  function ResultNames(results: seq<LaneResult>): seq<string> {
    if results == [] then [] else ResultNames(results[..|results| - 1]) + [results[|results| - 1].name]
  }

  lemma {:induction false} ResultNamesAt(results: seq<LaneResult>)
    ensures |ResultNames(results)| == |results|
    ensures forall k :: 0 <= k < |results| ==> ResultNames(results)[k] == results[k].name
  {
    if results == [] {
    } else {
      ResultNamesAt(results[..|results| - 1]);
    }
  }

  predicate AllSettle(lanes: seq<Lane>, runs: string -> seq<Event>) {
    forall k :: 0 <= k < |lanes| ==> Outcome(lanes[k], runs(lanes[k].name)).Some?
  }

  predicate AllPass(lanes: seq<Lane>, runs: string -> seq<Event>) {
    forall k :: 0 <= k < |lanes| ==>
      var outcome := Outcome(lanes[k], runs(lanes[k].name)); outcome.Some? && Passes(outcome.value)
  }

  /** Results in the order of the lanes, each its lane's outcome. */
  predicate AreOutcomes(lanes: seq<Lane>, runs: string -> seq<Event>, results: seq<LaneResult>) {
    |results| <= |lanes| && forall k :: 0 <= k < |results| ==> Outcome(lanes[k], runs(lanes[k].name)) == Some(results[k])
  }

  /** The loop over the selected lanes; it waits for each in turn, and stays at one that never settles. */
  method RunSelected(selected: seq<Lane>, runs: string -> seq<Event>) returns (done: bool, results: seq<LaneResult>)
    ensures AreOutcomes(selected, runs, results)
    ensures done <==> AllSettle(selected, runs)
    ensures done ==> |results| == |selected| && ResultNames(results) == Names(selected)
  {
    results := [];
    var n := 0;
    while n < |selected|
      invariant 0 <= n <= |selected| && |results| == n
      invariant AreOutcomes(selected, runs, results)
      invariant ResultNames(results) == Names(selected[..n])
    {
      var result, _ := RunLane(selected[n], runs(selected[n].name));
      OutcomeIsFirst(selected[n], runs(selected[n].name), 0);
      assert result == Outcome(selected[n], runs(selected[n].name));
      if result.None? {
        return false, results;
      }
      assert selected[..n + 1][..n] == selected[..n];
      assert (results + [result.value])[..n] == results;
      results := results + [result.value];
      n := n + 1;
    }
    assert selected[..n] == selected;
    done := true;
  }

  lemma OutcomesPass(lanes: seq<Lane>, runs: string -> seq<Event>, results: seq<LaneResult>)
    requires AreOutcomes(lanes, runs, results) && |results| == |lanes|
    ensures AllPass(lanes, runs) <==> Failed(results) == [] && Empty(results) == []
  {
    FailedOrEmpty(results);
    assert forall k :: 0 <= k < |lanes| ==> Outcome(lanes[k], runs(lanes[k].name)) == Some(results[k]);
  }

  /** The whole script. `runs` gives the events of each lane's child; without an exit code it is still
      waiting for a lane. */
  method Gate(argv: seq<string>, runs: string -> seq<Event>) returns (exit: Option<int>, results: seq<LaneResult>)
    ensures var selection := ResolveSelection(argv);
            var selected := Pick(LANES, selection, true);
            && (exit == Some(2) <==> UnknownLaneNames(selection) != {})
            && (exit == Some(0) <==> UnknownLaneNames(selection) == {} && AllPass(selected, runs))
            && (exit == Some(1) <==> UnknownLaneNames(selection) == {} && AllSettle(selected, runs) && !AllPass(selected, runs))
            && (exit == None <==> UnknownLaneNames(selection) == {} && !AllSettle(selected, runs))
    ensures exit == Some(0) || exit == Some(1) ==>
              results != [] && ResultNames(results) == Names(Pick(LANES, ResolveSelection(argv), true))
    ensures exit == Some(2) <==> HasUnknown(argv)
    ensures exit == Some(0) || exit == Some(1) ==>
              |results| == |LanesFor(argv)| && forall k :: 0 <= k < |results| ==> results[k].name == LanesFor(argv)[k]
    ensures exit == Some(0) <==> !HasUnknown(argv) && AllGreen(LanesFor(argv), runs)
    ensures exit == None <==> !HasUnknown(argv) && SomeHangs(LanesFor(argv), runs)
    ensures exit == None || exit == Some(0) || exit == Some(1) || exit == Some(2)
  {
    UnknownIff(argv);
    SelectionIsLanesFor(argv);
    AllGreenIff(Pick(LANES, ResolveSelection(argv), true), runs);
    var selection := ResolveSelection(argv);
    if UnknownLaneNames(selection) != {} {
      return Some(2), [];
    }
    SomethingIsSelected(argv);
    var selected := Pick(LANES, selection, true);
    var done;
    done, results := RunSelected(selected, runs);
    if !done {
      assert !AllPass(selected, runs);
      return None, results;
    }
    OutcomesPass(selected, runs, results);
    ResultNamesAt(results);
    var failed, empty := Failed(results), Empty(results);
    if |failed| > 0 || |empty| > 0 {
      return Some(1), results;
    }
    exit := Some(0);
  }

  function Failed(results: seq<LaneResult>): seq<LaneResult> {
    if results == [] then []
    else
      var rest := Failed(results[..|results| - 1]);
      if !results[|results| - 1].ok then rest + [results[|results| - 1]] else rest
  }

  function Empty(results: seq<LaneResult>): seq<LaneResult> {
    if results == [] then []
    else
      var rest := Empty(results[..|results| - 1]);
      var last := results[|results| - 1];
      if last.ok && last.executed == Some(0) then rest + [last] else rest
  }

  lemma {:induction false} FailedOrEmpty(results: seq<LaneResult>)
    ensures Failed(results) == [] && Empty(results) == [] <==> forall k :: 0 <= k < |results| ==> Passes(results[k])
  {
    if results == [] {
    } else {
      FailedOrEmpty(results[..|results| - 1]);
      assert forall k :: 0 <= k < |results| - 1 ==> results[k] == results[..|results| - 1][k];
    }
  }

  // ----- what a passing lane says

  /** The lines of the child's summary that the gate reads. */
  function Counts(tests: nat, skipped: nat, failed: nat): seq<Entry> {
    [Entry("tests", tests), Entry("fail", failed), Entry("skipped", skipped)]
  }

  /** An output that ends with a summary: no line behind it counts for a tag of its own. */
  predicate EndsWithSummary(before: seq<string>, after: seq<string>) {
    && (forall line :: line in before ==> Unbroken(line))
    && (forall line :: line in after ==>
          && Unbroken(line)
          && CountOn(line, "tests") == None && CountOn(line, "fail") == None && CountOn(line, "skipped") == None)
  }

  function Summarised(before: seq<string>, tests: nat, skipped: nat, failed: nat, after: seq<string>): string {
    JoinLines(before + Block(Counts(tests, skipped, failed)) + after)
  }

  /** When the child ends with a summary, the gate counts exactly what it says. */
  lemma SummaryDecides(lane: Lane, before: seq<string>, tests: nat, skipped: nat, failed: nat, after: seq<string>,
                       code: Option<int>, signal: Option<string>)
    requires EndsWithSummary(before, after)
    ensures (var r := ResultOf(lane, Summarised(before, tests, skipped, failed, after), Closes(code, signal));
             && r.tests == Some(tests) && r.skipped == skipped && r.failed == failed
             && r.executed == Some(tests - skipped - failed)
             && (Passes(r) <==> code == Some(0) && signal == None && tests != skipped + failed))
  {
    var entries := Counts(tests, skipped, failed);
    assert |entries[0].tag| == 5 && |entries[1].tag| == 4 && |entries[2].tag| == 7;
    CountsAreRead(before, entries, after);
  }

  lemma CountsAreRead(before: seq<string>, entries: seq<Entry>, after: seq<string>)
    requires forall i :: 0 <= i < |entries| ==> IsTag(entries[i].tag)
    requires forall i, j :: 0 <= i < j < |entries| ==> entries[i].tag != entries[j].tag
    requires forall line :: line in before || line in after ==> Unbroken(line)
    requires forall line, k :: line in after && 0 <= k < |entries| ==> CountOn(line, entries[k].tag) == None
    ensures forall k :: 0 <= k < |entries| ==>
              ParseCount(JoinLines(before + Block(entries) + after), entries[k].tag) == Some(entries[k].count)
  {
    forall k | 0 <= k < |entries|
      ensures ParseCount(JoinLines(before + Block(entries) + after), entries[k].tag) == Some(entries[k].count)
    {
      BlockIsRead(before, entries, after, k);
    }
  }

  /** Some test of the lane neither failed nor was skipped, by the lane's own counts. */
  predicate Executed(r: LaneResult) {
    r.executed.Some? && r.executed.value > 0
  }

  /** A lane that ends with a summary passes for having executed something if and only if it exits 0,
      unsignalled, and counts more tests than it skipped and failed. */
  lemma SummarisedLaneExecutesIff(lane: Lane, before: seq<string>, tests: nat, skipped: nat, failed: nat, after: seq<string>,
                                  code: Option<int>, signal: Option<string>)
    requires EndsWithSummary(before, after)
    ensures (var r := ResultOf(lane, Summarised(before, tests, skipped, failed, after), Closes(code, signal));
             Passes(r) && Executed(r) <==> code == Some(0) && signal == None && tests > skipped + failed)
  {
    SummaryDecides(lane, before, tests, skipped, failed, after, code, signal);
  }

  /** The output has a line with the count of the tag. */
  predicate Mentions(output: string, tag: string) {
    exists line :: line in Lines(output) && CountOn(line, tag).Some?
  }

  /** The last counts of an output say that more tests were skipped or failed than there were. */
  predicate Overcounts(output: string) {
    var tests := ParseCount(output, "tests");
    tests.Some? && tests.value < OrZero(ParseCount(output, "skipped")) + OrZero(ParseCount(output, "fail"))
  }

  lemma MentionsIff(output: string, tag: string)
    ensures Mentions(output, tag) <==> ParseCount(output, tag).Some?
  {
    NoCount(Lines(output), tag);
  }

  /** The script's header says that a lane that ran nothing cannot be green. When it is, for every output
      and every way to close: a lane that executed nothing passes if and only if it exits 0, unsignalled,
      and its output has no test count, or one that is exceeded by what was skipped and failed. */
  lemma HollowLanePassesIff(lane: Lane, output: string, code: Option<int>, signal: Option<string>)
    ensures (var r := ResultOf(lane, output, Closes(code, signal));
             Passes(r) && !Executed(r) <==>
               code == Some(0) && signal == None && (!Mentions(output, "tests") || Overcounts(output)))
  {
    MentionsIff(output, "tests");
  }

  /** So a passing lane executed something exactly when it has a test count that is not exceeded. */
  lemma PassMeansExecutedIff(lane: Lane, output: string, event: Event)
    requires Settles(event) && Passes(ResultOf(lane, output, event))
    ensures (exists n: int :: n > 0 && ResultOf(lane, output, event).executed == Some(n))
        <==> Mentions(output, "tests") && !Overcounts(output)
  {
    MentionsIff(output, "tests");
    var executed := ResultOf(lane, output, event).executed;
    if executed.Some? && executed.value > 0 {
      assert executed == Some(executed.value);
    }
  }

  /** Whenever more was skipped and failed than there were tests, the lane is green with fewer than no
      tests executed, although it has a test count. */
  lemma OvercountedLaneIsGreen(lane: Lane, before: seq<string>, tests: nat, skipped: nat, failed: nat, after: seq<string>)
    requires EndsWithSummary(before, after) && tests < skipped + failed
    ensures (var output := Summarised(before, tests, skipped, failed, after);
             var r := ResultOf(lane, output, Closes(Some(0), None));
             Passes(r) && !Executed(r) && r.executed == Some(tests - skipped - failed) && Mentions(output, "tests"))
  {
    SummaryDecides(lane, before, tests, skipped, failed, after, Some(0), None);
    MentionsIff(Summarised(before, tests, skipped, failed, after), "tests");
  }

  /** One test and two skips, for instance. */
  lemma OneTestTwoSkips(lane: Lane, before: seq<string>, after: seq<string>)
    requires EndsWithSummary(before, after)
    ensures (var r := ResultOf(lane, Summarised(before, 1, 2, 0, after), Closes(Some(0), None));
             Passes(r) && r.executed == Some(-1))
  {
    OvercountedLaneIsGreen(lane, before, 1, 2, 0, after);
  }

  /** So lanes whose children print nothing and exit 0 make the gate green, whatever is selected. */
  lemma SilentLanesAreGreen(argv: seq<string>, runs: string -> seq<Event>)
    requires forall name :: runs(name) == [Closes(Some(0), None)]
    ensures AllPass(Pick(LANES, ResolveSelection(argv), true), runs)
    ensures forall lane: Lane :: Outcome(lane, runs(lane.name)) == Some(LaneResult(lane.name, true, Some(0), None, 0, 0, None))
  {
    SplitUnbroken("");
    assert forall tag :: CountOn("", tag) == None;
    NoCount([""], "tests");
    NoCount([""], "skipped");
    NoCount([""], "fail");
    forall lane: Lane
      ensures Outcome(lane, runs(lane.name)) == Some(LaneResult(lane.name, true, Some(0), None, 0, 0, None))
    {
      var events := [Closes(Some(0), None)];
      assert runs(lane.name) == events && events[..0] == [] && Printed([]) == "";
    }
  }
}
