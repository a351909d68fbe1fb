/** scripts/opencode-session.mjs: truncate, renderPart, decorateMessages and loadMessages. */
module SessionView {
  import opened Prelude
  import opened Strings
  import opened SessionArgs
  import opened SessionRows

  // ----- truncate

  /** text.slice(0, n) */
  function Kept(text: string, n: int): (kept: string)
    ensures kept <= text
  {
    if n >= |text| then text
    else if n >= 0 then text[..n]
    else if |text| + n >= 0 then text[..|text| + n]
    else ""
  }

  function Notice(omitted: string): string {
    "\n... [truncated " + omitted + " chars]"
  }

  function Truncate(text: string, max: Num): string {
    match max
    case Infinite => text
    case NotANumber => Notice("NaN")
    case NegativeInfinite => Notice("Infinity")
    case Finite(n) => if |text| <= n then text else Kept(text, n) + Notice(Digits(|text| - n))
  }

  /** A text of at most n characters, or its first n and how many more there were. */
  function Shortened(text: string, n: nat): string {
    if |text| <= n then text else text[..n] + ("\n... [truncated " + Digits(|text| - n) + " chars]")
  }

  lemma TruncateReads(text: string, n: nat)
    ensures Truncate(text, Finite(n)) == Shortened(text, n)
    ensures Truncate(text, Infinite) == text
  {
  }

  /** What a nonnegative limit cuts can be told from what is left: the first characters and the length of
      the text are the same whenever the output is. */
  lemma TruncateTellsLength(a: string, b: string, n: nat)
    requires n < |a| && n < |b| && Truncate(a, Finite(n)) == Truncate(b, Finite(n))
    ensures a[..n] == b[..n] && |a| == |b|
  {
    var da, db := Digits(|a| - n), Digits(|b| - n);
    var ta, tb := Truncate(a, Finite(n)), Truncate(b, Finite(n));
    assert ta[..n] == a[..n] && tb[..n] == b[..n];
    assert ta[n..] == Notice(da) && tb[n..] == Notice(db);
    NoticeInjective(da, db);
    DigitsInjective(|a| - n, |b| - n);
  }

  lemma NoticeInjective(a: string, b: string)
    requires Notice(a) == Notice(b)
    ensures a == b
  {
    var front, back := "\n... [truncated ", " chars]";
    assert |Notice(a)| == |front| + |a| + |back| && |Notice(b)| == |front| + |b| + |back|;
    assert Notice(a)[|front|..|front| + |a|] == a;
    assert Notice(b)[|front|..|front| + |b|] == b;
  }

  /** What is kept, and a notice of how much is not. */
  function Honest(text: string, n: int): string {
    Kept(text, n) + Notice(Digits(|text| - |Kept(text, n)|))
  }

  lemma SameFront(a: string, b: string, c: string)
    requires a + b == a + c
    ensures b == c
  {
    assert (a + b)[|a|..] == b && (a + c)[|a|..] == c;
  }

  /** Text that is cut is printed with the number of characters cut exactly when the limit is not
      negative: a negative one cuts at most its size off the end, and claims that on top of the whole
      length. */
  lemma NoticeIsRightIff(text: string, n: int)
    requires n < |text|
    ensures Truncate(text, Finite(n)) == Honest(text, n) <==> n >= 0
  {
    var kept := Kept(text, n);
    var said, cut: nat := |text| - n, |text| - |kept|;
    if Truncate(text, Finite(n)) == Honest(text, n) {
      SameFront(kept, Notice(Digits(said)), Notice(Digits(cut)));
      NoticeInjective(Digits(said), Digits(cut));
      DigitsInjective(said, cut);
    }
  }

  // ----- renderPart

  datatype Input =
    | NotFields
    | Fields(command: string, filePath: string, content: string, oldString: string, newString: string, json: string)

  /** The parsed data of a part; the empty string stands for a missing or falsy field. */
  datatype Part =
    | NotAnObject
    | TextPart(text: string)
    | Reasoning(text: string)
    | ToolPart(tool: string, status: string, title: string, input: Input, output: string)
    | FilePart(path: string, text: string)
    | PatchPart(files: seq<string>)
    | CompactionPart(auto: bool, overflow: bool)
    | StepStart
    | StepFinish
    | OtherPart(kind: string, text: string)

  datatype Rendered =
    | Worded(kind: string, text: string)
    | ToolUse(tool: string, status: string, title: string, input: string, output: string)
    | FileShown(path: string, text: string)
    | PatchShown(files: seq<string>)
    | CompactionShown(auto: bool, overflow: bool)

  function OrUnknown(s: string): string {
    if s == "" then "unknown" else s
  }

  function SummarizeInput(tool: string, input: Input, o: Options): string {
    match input
    case NotFields => ""
    case Fields(command, filePath, content, oldString, newString, json) =>
      if tool == "bash" then command
      else if tool == "write" then filePath + "\n" + Truncate(content, o.tool)
      else if tool == "edit" then
        filePath + "\n- " + Truncate(oldString, Finite(400)) + "\n+ " + Truncate(newString, Finite(400))
      else if tool == "read" || tool == "glob" || tool == "grep" then json
      else Truncate(json, o.tool)
  }

  function RenderPart(part: Part, o: Options): Option<Rendered> {
    match part
    case NotAnObject => None
    case TextPart(text) => Some(Worded("text", Truncate(text, o.text)))
    case Reasoning(text) => if !o.thinking then None else Some(Worded("thinking", Truncate(text, o.text)))
    case ToolPart(tool, status, title, input, output) =>
      if !o.tools then None
      else Some(ToolUse(OrUnknown(tool), status, title, SummarizeInput(tool, input, o), Truncate(output, o.tool)))
    case FilePart(path, text) => Some(FileShown(path, Truncate(text, o.tool)))
    case PatchPart(files) => Some(PatchShown(files))
    case CompactionPart(auto, overflow) => Some(CompactionShown(auto, overflow))
    case StepStart => None
    case StepFinish => None
    case OtherPart(kind, text) => Some(Worded(OrUnknown(kind), Truncate(text, o.text)))
  }

  /** What the options leave out. */
  predicate Dropped(part: Part, o: Options) {
    || part.NotAnObject?
    || part.StepStart?
    || part.StepFinish?
    || (part.Reasoning? && !o.thinking)
    || (part.ToolPart? && !o.tools)
  }

  /** The tool limit bears on tools and files alone. */
  lemma ToolLimitIsForToolsAndFiles(part: Part, o: Options, max: Num)
    requires !part.ToolPart? && !part.FilePart?
    ensures RenderPart(part, o.(tool := max)) == RenderPart(part, o)
  {
    match part
    case NotAnObject =>
    case TextPart(_) =>
    case Reasoning(_) =>
    case PatchPart(_) =>
    case CompactionPart(_, _) =>
    case StepStart =>
    case StepFinish =>
    case OtherPart(_, _) =>
  }

  lemma InputIgnoresTextLimit(tool: string, input: Input, o: Options, max: Num)
    ensures SummarizeInput(tool, input, o.(text := max)) == SummarizeInput(tool, input, o)
  {
  }

  /** The text limit bears on the parts with words alone. */
  lemma TextLimitIsForWords(part: Part, o: Options, max: Num)
    requires !part.TextPart? && !part.Reasoning? && !part.OtherPart?
    ensures RenderPart(part, o.(text := max)) == RenderPart(part, o)
  {
    if part.ToolPart? {
      InputIgnoresTextLimit(part.tool, part.input, o, max);
    }
  }

  /** --no-thinking bears on reasoning alone. */
  lemma ThinkingIsForReasoning(part: Part, o: Options, on: bool)
    requires !part.Reasoning?
    ensures RenderPart(part, o.(thinking := on)) == RenderPart(part, o)
  {
    if part.ToolPart? {
      assert SummarizeInput(part.tool, part.input, o.(thinking := on)) == SummarizeInput(part.tool, part.input, o);
    }
  }

  /** --no-tools bears on tools alone. */
  lemma ToolsIsForTools(part: Part, o: Options, on: bool)
    requires !part.ToolPart?
    ensures RenderPart(part, o.(tools := on)) == RenderPart(part, o)
  {
  }

  /** safeJSON: text that does not parse becomes an object without a type, which is shown as unknown. */
  function SafePart(text: string, parse: string -> Option<Part>): Part {
    match parse(text)
    case None => OtherPart("", "")
    case Some(part) => part
  }

  /** The parts of one message as they are pushed. */
  function RenderAll(rows: seq<Row>, o: Options, parse: string -> Option<Part>): seq<Rendered> {
    if rows == [] then []
    else
      var rest := RenderAll(rows[..|rows| - 1], o, parse);
      match RenderPart(SafePart(rows[|rows| - 1].data, parse), o)
      case None => rest
      case Some(r) => rest + [r]
  }

  /** The positions of the parts that stay. */
  function Staying(rows: seq<Row>, o: Options, parse: string -> Option<Part>): (at: seq<nat>)
    ensures forall i :: 0 <= i < |at| ==> at[i] < |rows|
  {
    if rows == [] then []
    else
      var rest := Staying(rows[..|rows| - 1], o, parse);
      if Dropped(SafePart(rows[|rows| - 1].data, parse), o) then rest else rest + [|rows| - 1]
  }

  lemma {:induction false} StayingAscends(rows: seq<Row>, o: Options, parse: string -> Option<Part>)
    ensures forall i, j :: 0 <= i < j < |Staying(rows, o, parse)| ==> Staying(rows, o, parse)[i] < Staying(rows, o, parse)[j]
  {
    if rows == [] {
    } else {
      StayingAscends(rows[..|rows| - 1], o, parse);
    }
  }

  lemma {:induction false} StayingMembers(rows: seq<Row>, o: Options, parse: string -> Option<Part>, k: nat)
    ensures k in Staying(rows, o, parse) <==> k < |rows| && !Dropped(SafePart(rows[k].data, parse), o)
  {
    if rows == [] {
    } else {
      StayingMembers(rows[..|rows| - 1], o, parse, k);
    }
  }

  lemma RenderedUnlessDropped(part: Part, o: Options)
    ensures RenderPart(part, o).None? <==> Dropped(part, o)
  {
  }

  lemma {:induction false} RenderedInOrder(rows: seq<Row>, o: Options, parse: string -> Option<Part>)
    ensures (var at := Staying(rows, o, parse);
             && |RenderAll(rows, o, parse)| == |at|
             && forall i :: 0 <= i < |at| ==>
                  RenderPart(SafePart(rows[at[i]].data, parse), o) == Some(RenderAll(rows, o, parse)[i]))
  {
    if rows == [] {
    } else {
      RenderedInOrder(rows[..|rows| - 1], o, parse);
      RenderedUnlessDropped(SafePart(rows[|rows| - 1].data, parse), o);
    }
  }

  /** Decoration keeps the order and drops exactly what the options and the part types leave out. */
  lemma DecorationKeepsOrder(rows: seq<Row>, o: Options, parse: string -> Option<Part>)
    ensures (var at := Staying(rows, o, parse);
             && (forall i, j :: 0 <= i < j < |at| ==> at[i] < at[j])
             && (forall k: nat :: k in at <==> k < |rows| && !Dropped(SafePart(rows[k].data, parse), o))
             && |RenderAll(rows, o, parse)| == |at|
             && forall i :: 0 <= i < |at| ==>
                  RenderPart(SafePart(rows[at[i]].data, parse), o) == Some(RenderAll(rows, o, parse)[i]))
  {
    StayingAscends(rows, o, parse);
    RenderedInOrder(rows, o, parse);
    forall k: nat
      ensures k in Staying(rows, o, parse) <==> k < |rows| && !Dropped(SafePart(rows[k].data, parse), o)
    {
      StayingMembers(rows, o, parse, k);
    }
  }

  /** With --full in the arguments no text and no tool output is cut. */
  lemma FullCutsNothing(argv: seq<string>, db: string, number: string -> Num, text: string)
    requires Tokens(argv).Ok? && Turned(FullSwitch) in Tokens(argv).value
    ensures (var o := Parse(argv, db, number).value;
             && Truncate(text, o.text) == text
             && Truncate(text, o.tool) == text
             && RenderPart(TextPart(text), o) == Some(Worded("text", text)))
  {
    LastMentionWins(argv, db, number);
  }

  /** With nothing cut and nothing hidden, each kind of part shows its own fields in full. */
  lemma FullView(o: Options, text: string, tool: string, status: string, title: string, input: Input, output: string,
                 path: string, files: seq<string>, auto: bool, overflow: bool)
    requires o.text == Infinite && o.tool == Infinite && o.thinking && o.tools
    ensures RenderPart(TextPart(text), o) == Some(Worded("text", text))
    ensures RenderPart(Reasoning(text), o) == Some(Worded("thinking", text))
    ensures tool != "" ==>
              Some(ToolUse(tool, status, title, SummarizeInput(tool, input, o), output))
              == RenderPart(ToolPart(tool, status, title, input, output), o)
    ensures RenderPart(FilePart(path, text), o) == Some(FileShown(path, text))
    ensures RenderPart(PatchPart(files), o) == Some(PatchShown(files))
    ensures RenderPart(CompactionPart(auto, overflow), o) == Some(CompactionShown(auto, overflow))
    ensures RenderPart(OtherPart("", text), o) == Some(Worded("unknown", text))
  {
  }

  /** What is shown of the input of each tool. */
  lemma InputByTool(o: Options, f: Input, n: nat, other: string)
    requires o.tool == Finite(n) && f.Fields?
    ensures SummarizeInput("bash", f, o) == f.command
    ensures SummarizeInput("write", f, o) == f.filePath + "\n" + Shortened(f.content, n)
    ensures SummarizeInput("edit", f, o)
         == f.filePath + "\n- " + Shortened(f.oldString, 400) + "\n+ " + Shortened(f.newString, 400)
    ensures SummarizeInput("read", f, o) == SummarizeInput("glob", f, o) == SummarizeInput("grep", f, o) == f.json
    ensures other != "bash" && other != "write" && other != "edit" && other != "read" && other != "glob" && other != "grep" ==>
              SummarizeInput(other, f, o) == Shortened(f.json, n)
    ensures SummarizeInput(other, NotFields, o) == ""
  {
  }

  /** With limits, each kind of part is cut to the limit that is meant for it. */
  lemma CutView(o: Options, words: nat, outputs: nat, text: string, tool: string, status: string, title: string,
                input: Input, path: string)
    requires o.text == Finite(words) && o.tool == Finite(outputs) && o.thinking && o.tools
    ensures RenderPart(TextPart(text), o) == Some(Worded("text", Shortened(text, words)))
    ensures RenderPart(Reasoning(text), o) == Some(Worded("thinking", Shortened(text, words)))
    ensures RenderPart(ToolPart(tool, status, title, input, text), o)
         == Some(ToolUse(if tool == "" then "unknown" else tool, status, title, SummarizeInput(tool, input, o),
                         Shortened(text, outputs)))
    ensures RenderPart(FilePart(path, text), o) == Some(FileShown(path, Shortened(text, outputs)))
  {
  }

  // ----- decorateMessages

  /** The parsed data of a message; JSON null has no fields to read. */
  datatype Meta =
    | NullData
    | Meta(role: string, agent: string, model: Option<string>, summary: Option<string>, error: Option<string>)

  datatype Message = Message(
    id: string,
    role: string,
    agent: Option<string>,
    model: Option<string>,
    time: int,
    summary: Option<string>,
    error: Option<string>,
    parts: seq<Rendered>)

  function SafeMeta(text: string, parse: string -> Option<Meta>): Meta {
    match parse(text)
    case None => Meta("", "", None, None, None)
    case Some(meta) => meta
  }

  function OrNull(s: string): Option<string> {
    if s == "" then None else Some(s)
  }

  /** The message that one row becomes; reading a field of null throws. */
  function Decorate(row: Row, partTable: seq<Row>, o: Options, meta: string -> Option<Meta>, part: string -> Option<Part>)
    : Result<Message, string>
  {
    match SafeMeta(row.data, meta)
    case NullData => Err("TypeError")
    case Meta(role, agent, model, summary, error) =>
      Ok(Message(row.id, OrUnknown(role), OrNull(agent), model, row.time, summary, error,
                 RenderAll(Whole(partTable, row.id), o, part)))
  }

  /** Which field of a message comes from where. */
  lemma DecoratedFields(row: Row, partTable: seq<Row>, o: Options, meta: string -> Option<Meta>, part: string -> Option<Part>)
    requires Decorate(row, partTable, o, meta, part).Ok?
    ensures (var m, d := Decorate(row, partTable, o, meta, part).value, SafeMeta(row.data, meta);
             && m.id == row.id && m.time == row.time
             && d.Meta? && m.model == d.model && m.summary == d.summary && m.error == d.error
             && (d.role != "" ==> m.role == d.role) && (d.role == "" ==> m.role == "unknown")
             && (d.agent != "" ==> m.agent == Some(d.agent)) && (d.agent == "" ==> m.agent == None)
             && m.parts == RenderAll(Whole(partTable, row.id), o, part))
  {
  }

  method DecorateParts(rows: seq<Row>, o: Options, parse: string -> Option<Part>) returns (decorated: seq<Rendered>)
    ensures decorated == RenderAll(rows, o, parse)
  {
    decorated := [];
    var n := 0;
    while n < |rows|
      invariant 0 <= n <= |rows|
      invariant decorated == RenderAll(rows[..n], o, parse)
    {
      var rendered := RenderPart(SafePart(rows[n].data, parse), o);
      assert rows[..n + 1][..n] == rows[..n];
      if rendered.Some? {
        decorated := decorated + [rendered.value];
      }
      n := n + 1;
    }
    assert rows[..n] == rows;
  }

  /** decorateMessages: one message per row, in the order of the rows, or a throw at a null row. */
  method DecorateMessages(rows: seq<Row>, partTable: seq<Row>, o: Options, meta: string -> Option<Meta>, part: string -> Option<Part>)
    returns (r: Result<seq<Message>, string>)
    ensures r.Ok? <==> forall k :: 0 <= k < |rows| ==> SafeMeta(rows[k].data, meta) != NullData
    ensures r.Ok? ==> |r.value| == |rows|
    ensures r.Ok? ==> forall k :: 0 <= k < |rows| ==> Decorate(rows[k], partTable, o, meta, part) == Ok(r.value[k])
  {
    var messages: seq<Message> := [];
    var n := 0;
    while n < |rows|
      invariant 0 <= n <= |rows| && |messages| == n
      invariant forall k :: 0 <= k < n ==> Decorate(rows[k], partTable, o, meta, part) == Ok(messages[k])
    {
      var data := SafeMeta(rows[n].data, meta);
      var decorated := DecorateParts(Whole(partTable, rows[n].id), o, part);
      match data {
        case NullData =>
          return Err("TypeError");
        case Meta(role, agent, model, summary, error) =>
          messages := messages
          + [Message(rows[n].id, OrUnknown(role), OrNull(agent), model, rows[n].time, summary, error, decorated)];
      }
      n := n + 1;
    }
    r := Ok(messages);
  }

  /** loadMessages: the rows that the options ask for, decorated. */
  method LoadMessages(table: seq<Row>, partTable: seq<Row>, owner: string, o: Options, date: string -> Option<int>,
                      meta: string -> Option<Meta>, part: string -> Option<Part>)
    returns (r: Result<seq<Message>, string>)
    requires DistinctIds(table)
    ensures (var rows := Shown(Whole(table, owner), owner, o, date);
             && (r.Ok? <==> rows.Ok? && forall k :: 0 <= k < |rows.value| ==> SafeMeta(rows.value[k].data, meta) != NullData)
             && (r.Ok? ==> |r.value| == |rows.value|)
             && (r.Ok? ==> forall k :: 0 <= k < |rows.value| ==>
                               Decorate(rows.value[k], partTable, o, meta, part) == Ok(r.value[k])))
  {
    var rows := LoadRows(table, owner, o, date);
    match rows {
      case Err(e) => r := Err(e);
      case Ok(chosen) => r := DecorateMessages(chosen, partTable, o, meta, part);
    }
  }
}
