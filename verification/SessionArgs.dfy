/** scripts/opencode-session.mjs: parseArgs. */
module SessionArgs {
  import opened Prelude

  /** What Number() yields. */
  datatype Num = NotANumber | Finite(value: int) | Infinite | NegativeInfinite

  datatype Options = Options(
    db: Option<string>,
    list: bool,
    all: bool,
    limit: Num,
    tail: Option<Num>,
    head: Option<Num>,
    since: Option<string>,
    until: Option<string>,
    full: bool,
    text: Num,
    tool: Num,
    thinking: bool,
    tools: bool,
    json: bool,
    help: bool,
    target: Option<string>)

  function Defaults(db: string): Options {
    Options(Some(db), false, false, Finite(25), None, None, None, None, false, Finite(2000), Finite(1200), true, true, false,
            false, None)
  }

  /** Options that stand alone, and options that take the next argument. */
  datatype Switch = ListSwitch | AllSwitch | FullSwitch | NoThinking | NoTools | JsonSwitch | HelpSwitch | ShortHelp
  datatype Setting = Db | Limit | Tail | Head | Since | Until | TextLength | ToolLength

  function SwitchName(s: Switch): string {
    match s
    case ListSwitch => "--list"
    case AllSwitch => "--all"
    case FullSwitch => "--full"
    case NoThinking => "--no-thinking"
    case NoTools => "--no-tools"
    case JsonSwitch => "--json"
    case HelpSwitch => "--help"
    case ShortHelp => "-h"
  }

  function SettingName(s: Setting): string {
    match s
    case Db => "--db"
    case Limit => "--limit"
    case Tail => "--tail"
    case Head => "--head"
    case Since => "--since"
    case Until => "--until"
    case TextLength => "--text"
    case ToolLength => "--tool"
  }

  datatype Kind = OfSwitch(switch: Switch) | OfSetting(setting: Setting) | Unknown | Plain

  /** The switch statement of parseArgs. */
  function KindOf(arg: string): Kind {
    if arg == "--db" then OfSetting(Db)
    else if arg == "--list" then OfSwitch(ListSwitch)
    else if arg == "--all" then OfSwitch(AllSwitch)
    else if arg == "--limit" then OfSetting(Limit)
    else if arg == "--tail" then OfSetting(Tail)
    else if arg == "--head" then OfSetting(Head)
    else if arg == "--since" then OfSetting(Since)
    else if arg == "--until" then OfSetting(Until)
    else if arg == "--full" then OfSwitch(FullSwitch)
    else if arg == "--text" then OfSetting(TextLength)
    else if arg == "--tool" then OfSetting(ToolLength)
    else if arg == "--no-thinking" then OfSwitch(NoThinking)
    else if arg == "--no-tools" then OfSwitch(NoTools)
    else if arg == "--json" then OfSwitch(JsonSwitch)
    else if arg == "--help" then OfSwitch(HelpSwitch)
    else if arg == "-h" then OfSwitch(ShortHelp)
    else if "--" <= arg then Unknown
    else Plain
  }

  lemma SwitchKind(s: Switch)
    ensures KindOf(SwitchName(s)) == OfSwitch(s)
  {
    match s
    case ListSwitch =>
    case AllSwitch =>
    case FullSwitch =>
    case NoThinking =>
    case NoTools =>
    case JsonSwitch =>
    case HelpSwitch =>
    case ShortHelp =>
  }

  lemma SettingKind(s: Setting)
    ensures KindOf(SettingName(s)) == OfSetting(s)
  {
    match s
    case Db =>
    case Limit =>
    case Tail =>
    case Head =>
    case Since =>
    case Until =>
    case TextLength =>
    case ToolLength =>
  }

  function Turn(o: Options, s: Switch): Options {
    match s
    case ListSwitch => o.(list := true)
    case AllSwitch => o.(all := true)
    case FullSwitch => o.(full := true)
    case NoThinking => o.(thinking := false)
    case NoTools => o.(tools := false)
    case JsonSwitch => o.(json := true)
    case HelpSwitch => o.(help := true)
    case ShortHelp => o.(help := true)
  }

  /** Number(next()); nothing left to take is not a number. */
  function Numeric(value: Option<string>, number: string -> Num): Num {
    if value.None? then NotANumber else number(value.value)
  }

  function Put(o: Options, s: Setting, value: Option<string>, number: string -> Num): Options {
    match s
    case Db => o.(db := value)
    case Limit => o.(limit := Numeric(value, number))
    case Tail => o.(tail := Some(Numeric(value, number)))
    case Head => o.(head := Some(Numeric(value, number)))
    case Since => o.(since := value)
    case Until => o.(until := value)
    case TextLength => o.(text := Numeric(value, number))
    case ToolLength => o.(tool := Numeric(value, number))
  }

  function Widen(o: Options): Options {
    if o.full then o.(text := Infinite, tool := Infinite) else o
  }

  // ----- argument groups

  /** An option with its value, if it takes one, or a positional argument. */
  datatype Group = Turned(switch: Switch) | Given(setting: Setting, value: Option<string>) | Positional(text: string)

  function Apply(o: Options, g: Group, number: string -> Num): Options {
    match g
    case Turned(s) => Turn(o, s)
    case Given(s, value) => Put(o, s, value, number)
    case Positional(text) => o.(target := Some(text))
  }

  function Fold(gs: seq<Group>, o: Options, number: string -> Num): Options {
    if gs == [] then o else Fold(gs[1..], Apply(o, gs[0], number), number)
  }

  function Spell(g: Group): seq<string> {
    match g
    case Turned(s) => [SwitchName(s)]
    case Given(s, None) => [SettingName(s)]
    case Given(s, Some(value)) => [SettingName(s), value]
    case Positional(text) => [text]
  }

  function Flatten(gs: seq<Group>): seq<string> {
    if gs == [] then [] else Spell(gs[0]) + Flatten(gs[1..])
  }

  /** A setting lacks its value only at the very end; a positional is no option. */
  predicate WellFormed(gs: seq<Group>) {
    forall k :: 0 <= k < |gs| ==>
      && (gs[k].Given? && gs[k].value == None ==> k == |gs| - 1)
      && (gs[k].Positional? ==> KindOf(gs[k].text) == Plain)
  }

  /** The groups of an argument list, or the unknown option it stops at. */
  function Tokens(argv: seq<string>): Result<seq<Group>, string> {
    if argv == [] then Ok([])
    else
      match KindOf(argv[0])
      case OfSwitch(s) => Prepend(Turned(s), Tokens(argv[1..]))
      case OfSetting(s) =>
        if |argv| == 1 then Ok([Given(s, None)]) else Prepend(Given(s, Some(argv[1])), Tokens(argv[2..]))
      case Unknown => Err(argv[0])
      case Plain => Prepend(Positional(argv[0]), Tokens(argv[1..]))
  }

  function Prepend(g: Group, rest: Result<seq<Group>, string>): Result<seq<Group>, string> {
    match rest
    case Err(e) => Err(e)
    case Ok(gs) => Ok([g] + gs)
  }

  /** Cutting into groups and spelling them out undo each other. */
  lemma {:induction false} TokensOfFlatten(gs: seq<Group>)
    requires WellFormed(gs)
    ensures Tokens(Flatten(gs)) == Ok(gs)
  {
    if gs == [] {
    } else {
      var g, rest := gs[0], gs[1..];
      TokensOfFlatten(rest);
      assert gs == [g] + rest;
      assert g.Given? && g.value == None ==> rest == [];
      var argv := Flatten(gs);
      match g
      case Turned(s) =>
        SwitchKind(s);
        assert argv[1..] == Flatten(rest);
      case Given(s, value) =>
        SettingKind(s);
        if value == None {
          assert argv == [SettingName(s)] && gs == [Given(s, None)];
        } else {
          assert argv[2..] == Flatten(rest);
        }
      case Positional(_) =>
        assert argv[1..] == Flatten(rest);
    }
  }

  lemma KindNames(arg: string)
    ensures KindOf(arg).OfSwitch? ==> SwitchName(KindOf(arg).switch) == arg
    ensures KindOf(arg).OfSetting? ==> SettingName(KindOf(arg).setting) == arg
  {
  }

  lemma {:induction false} FlattenOfTokens(argv: seq<string>)
    requires Tokens(argv).Ok?
    ensures WellFormed(Tokens(argv).value) && Flatten(Tokens(argv).value) == argv
  {
    if argv == [] {
    } else {
      KindNames(argv[0]);
      var gs := Tokens(argv).value;
      match KindOf(argv[0])
      case OfSwitch(s) =>
        FlattenOfTokens(argv[1..]);
        assert gs[1..] == Tokens(argv[1..]).value;
      case OfSetting(s) =>
        if |argv| == 1 {
          assert gs[1..] == [];
        } else {
          FlattenOfTokens(argv[2..]);
          assert gs[1..] == Tokens(argv[2..]).value;
        }
      case Plain =>
        FlattenOfTokens(argv[1..]);
        assert gs[1..] == Tokens(argv[1..]).value;
    }
  }

  /** parseArgs as a function: cut into groups, apply them in order, then widen for --full. */
  function Parse(argv: seq<string>, db: string, number: string -> Num): Result<Options, string> {
    match Tokens(argv)
    case Err(arg) => Err(arg)
    case Ok(gs) => Ok(Widen(Fold(gs, Defaults(db), number)))
  }

  function ParseRest(argv: seq<string>, o: Options, number: string -> Num): Result<Options, string> {
    match Tokens(argv)
    case Err(arg) => Err(arg)
    case Ok(gs) => Ok(Fold(gs, o, number))
  }

  lemma FoldPrepend(g: Group, rest: Result<seq<Group>, string>, o: Options, number: string -> Num)
    ensures Prepend(g, rest).Ok? <==> rest.Ok?
    ensures rest.Ok? ==> Fold(Prepend(g, rest).value, o, number) == Fold(rest.value, Apply(o, g, number), number)
    ensures rest.Err? ==> Prepend(g, rest) == rest
  {
    if rest.Ok? {
      assert ([g] + rest.value)[1..] == rest.value;
    }
  }

  /** One turn of the loop. */
  lemma ParseStep(argv: seq<string>, o: Options, number: string -> Num)
    requires argv != []
    ensures match KindOf(argv[0])
            case OfSwitch(s) => ParseRest(argv, o, number) == ParseRest(argv[1..], Turn(o, s), number)
            case OfSetting(s) =>
              if |argv| == 1 then ParseRest(argv, o, number) == Ok(Put(o, s, None, number))
              else ParseRest(argv, o, number) == ParseRest(argv[2..], Put(o, s, Some(argv[1]), number), number)
            case Unknown => ParseRest(argv, o, number) == Err(argv[0])
            case Plain => ParseRest(argv, o, number) == ParseRest(argv[1..], o.(target := Some(argv[0])), number)
  {
    match KindOf(argv[0])
    case OfSwitch(s) => FoldPrepend(Turned(s), Tokens(argv[1..]), o, number);
    case OfSetting(s) =>
      if |argv| == 1 {
        assert Fold([Given(s, None)][1..], Put(o, s, None, number), number) == Put(o, s, None, number);
      } else {
        FoldPrepend(Given(s, Some(argv[1])), Tokens(argv[2..]), o, number);
      }
    case Unknown =>
    case Plain => FoldPrepend(Positional(argv[0]), Tokens(argv[1..]), o, number);
  }

  /** parseArgs: the loop moves its own index past the value that an option takes. */
  method ParseArgs(argv: seq<string>, db: string, number: string -> Num) returns (r: Result<Options, string>)
    ensures r == Parse(argv, db, number)
  {
    var o := Defaults(db);
    var index := 0;
    assert argv[0..] == argv;
    while index < |argv|
      invariant 0 <= index <= |argv| + 1
      invariant index <= |argv| ==> ParseRest(argv, Defaults(db), number) == ParseRest(argv[index..], o, number)
      invariant index == |argv| + 1 ==> ParseRest(argv, Defaults(db), number) == Ok(o)
    {
      var rest := argv[index..];
      ParseStep(rest, o, number);
      match KindOf(argv[index]) {
        case OfSwitch(s) =>
          assert rest[1..] == argv[index + 1..];
          o := Turn(o, s);
        case OfSetting(s) =>
          index := index + 1;
          var value := None;
          if index < |argv| {
            assert rest[2..] == argv[index + 1..];
            value := Some(argv[index]);
          }
          o := Put(o, s, value, number);
        case Unknown =>
          return Err(argv[index]);
        case Plain =>
          assert rest[1..] == argv[index + 1..];
          o := o.(target := Some(argv[index]));
      }
      index := index + 1;
    }
    if o.full {
      o := o.(text := Infinite, tool := Infinite);
    }
    r := Ok(o);
  }

  // ----- the last word

  /** The value of the last mention of a setting, if it is mentioned. */
  function LastGiven(gs: seq<Group>, s: Setting): Option<Option<string>> {
    if gs == [] then None
    else
      var last := gs[|gs| - 1];
      if last.Given? && last.setting == s then Some(last.value) else LastGiven(gs[..|gs| - 1], s)
  }

  function LastPositional(gs: seq<Group>): Option<string> {
    if gs == [] then None
    else if gs[|gs| - 1].Positional? then Some(gs[|gs| - 1].text)
    else LastPositional(gs[..|gs| - 1])
  }

  function Or<T>(o: Option<T>, otherwise: T): T {
    if o.Some? then o.value else otherwise
  }

  function Length(gs: seq<Group>, s: Setting, otherwise: int, number: string -> Num): Num {
    if Turned(FullSwitch) in gs then Infinite
    else
      match LastGiven(gs, s)
      case None => Finite(otherwise)
      case Some(value) => Numeric(value, number)
  }

  function Count(gs: seq<Group>, s: Setting, number: string -> Num): Option<Num> {
    match LastGiven(gs, s)
    case None => None
    case Some(value) => Some(Numeric(value, number))
  }

  /** Every field read off the groups, one field at a time. */
  function Declared(gs: seq<Group>, db: string, number: string -> Num): Options {
    Options(
      Or(LastGiven(gs, Db), Some(db)),
      Turned(ListSwitch) in gs,
      Turned(AllSwitch) in gs,
      Or(Count(gs, Limit, number), Finite(25)),
      Count(gs, Tail, number),
      Count(gs, Head, number),
      Or(LastGiven(gs, Since), None),
      Or(LastGiven(gs, Until), None),
      Turned(FullSwitch) in gs,
      Length(gs, TextLength, 2000, number),
      Length(gs, ToolLength, 1200, number),
      Turned(NoThinking) !in gs,
      Turned(NoTools) !in gs,
      Turned(JsonSwitch) in gs,
      Turned(HelpSwitch) in gs || Turned(ShortHelp) in gs,
      LastPositional(gs))
  }

  lemma {:induction false} FoldSnoc(gs: seq<Group>, g: Group, o: Options, number: string -> Num)
    ensures Fold(gs + [g], o, number) == Apply(Fold(gs, o, number), g, number)
  {
    if gs == [] {
      assert [g][1..] == [] && gs + [g] == [g];
    } else {
      assert (gs + [g])[1..] == gs[1..] + [g];
      FoldSnoc(gs[1..], g, Apply(o, gs[0], number), number);
    }
  }

  /** Before --full widens the lengths, a length is the last one given. */
  function Unwidened(gs: seq<Group>, db: string, number: string -> Num): Options {
    Declared(gs, db, number).(
    text := Or(Count(gs, TextLength, number), Finite(2000)),
    tool := Or(Count(gs, ToolLength, number), Finite(1200)))
  }

  lemma LastGivenSnoc(front: seq<Group>, g: Group, s: Setting)
    ensures LastGiven(front + [g], s) == if g.Given? && g.setting == s then Some(g.value) else LastGiven(front, s)
  {
    assert (front + [g])[..|front|] == front;
  }

  lemma LastPositionalSnoc(front: seq<Group>, g: Group)
    ensures LastPositional(front + [g]) == if g.Positional? then Some(g.text) else LastPositional(front)
  {
    assert (front + [g])[..|front|] == front;
  }

  /** Group lists that differ only in one switch. */
  lemma OneSwitchDiffers(front: seq<Group>, gs: seq<Group>, s: Switch, db: string, number: string -> Num)
    requires forall t: Setting :: LastGiven(gs, t) == LastGiven(front, t)
    requires forall t: Switch :: Turned(t) in gs <==> t == s || Turned(t) in front
    requires LastPositional(gs) == LastPositional(front)
    ensures Unwidened(gs, db, number) == Turn(Unwidened(front, db, number), s)
  {
    match s
    case ListSwitch =>
    case AllSwitch =>
    case FullSwitch =>
    case NoThinking =>
    case NoTools =>
    case JsonSwitch =>
    case HelpSwitch =>
    case ShortHelp =>
  }

  lemma TurnedSnoc(front: seq<Group>, s: Switch, db: string, number: string -> Num)
    ensures Unwidened(front + [Turned(s)], db, number) == Turn(Unwidened(front, db, number), s)
  {
    forall t: Setting
      ensures LastGiven(front + [Turned(s)], t) == LastGiven(front, t)
    {
      LastGivenSnoc(front, Turned(s), t);
    }
    LastPositionalSnoc(front, Turned(s));
    OneSwitchDiffers(front, front + [Turned(s)], s, db, number);
  }

  /** Group lists that differ only in the last value of one setting. */
  lemma OneSettingDiffers(front: seq<Group>, gs: seq<Group>, s: Setting, value: Option<string>, db: string, number: string -> Num)
    requires forall t: Setting :: LastGiven(gs, t) == if s == t then Some(value) else LastGiven(front, t)
    requires forall t: Switch :: Turned(t) in gs <==> Turned(t) in front
    requires LastPositional(gs) == LastPositional(front)
    ensures Unwidened(gs, db, number) == Put(Unwidened(front, db, number), s, value, number)
  {
    match s
    case Db =>
    case Limit =>
    case Tail =>
    case Head =>
    case Since =>
    case Until =>
    case TextLength =>
    case ToolLength =>
  }

  lemma GivenSnoc(front: seq<Group>, s: Setting, value: Option<string>, db: string, number: string -> Num)
    ensures Unwidened(front + [Given(s, value)], db, number) == Put(Unwidened(front, db, number), s, value, number)
  {
    var g := Given(s, value);
    forall t: Setting
      ensures LastGiven(front + [g], t) == if s == t then Some(value) else LastGiven(front, t)
    {
      LastGivenSnoc(front, g, t);
    }
    LastPositionalSnoc(front, g);
    OneSettingDiffers(front, front + [g], s, value, db, number);
  }

  lemma UnwidenedSnoc(front: seq<Group>, g: Group, db: string, number: string -> Num)
    ensures Unwidened(front + [g], db, number) == Apply(Unwidened(front, db, number), g, number)
  {
    match g
    case Turned(s) => TurnedSnoc(front, s, db, number);
    case Given(s, value) => GivenSnoc(front, s, value, db, number);
    case Positional(text) =>
      forall t: Setting
        ensures LastGiven(front + [g], t) == LastGiven(front, t)
      {
        LastGivenSnoc(front, g, t);
      }
      LastPositionalSnoc(front, g);
  }

  lemma {:induction false} FoldIsUnwidened(gs: seq<Group>, db: string, number: string -> Num)
    ensures Fold(gs, Defaults(db), number) == Unwidened(gs, db, number)
  {
    if gs == [] {
    } else {
      var front, last := gs[..|gs| - 1], gs[|gs| - 1];
      assert gs == front + [last];
      FoldIsUnwidened(front, db, number);
      FoldSnoc(front, last, Defaults(db), number);
      UnwidenedSnoc(front, last, db, number);
    }
  }

  /** The last mention wins in every field, and --full overrides both lengths wherever it stands. */
  lemma LastMentionWins(argv: seq<string>, db: string, number: string -> Num)
    ensures Tokens(argv).Ok? ==> Parse(argv, db, number) == Ok(Declared(Tokens(argv).value, db, number))
    ensures Tokens(argv).Err? ==> Parse(argv, db, number) == Err(Tokens(argv).error)
  {
    if Tokens(argv).Ok? {
      FoldIsUnwidened(Tokens(argv).value, db, number);
    }
  }

  /** parseArgs throws exactly on what no sequence of options, values and positionals spells. */
  lemma ThrowsIff(argv: seq<string>, db: string, number: string -> Num)
    ensures Parse(argv, db, number).Ok? <==> exists gs :: WellFormed(gs) && Flatten(gs) == argv
  {
    if Tokens(argv).Ok? {
      FlattenOfTokens(argv);
    } else if gs :| WellFormed(gs) && Flatten(gs) == argv {
      TokensOfFlatten(gs);
    }
  }

  // ----- order

  /** Two groups agree when they are the same or set different things. */
  predicate Agree(g: Group, h: Group) {
    || g == h
    || (match (g, h)
        case (Given(s, _), Given(t, _)) => s != t
        case (Positional(_), Positional(_)) => false
        case _ => true)
  }

  predicate AllAgree(gs: seq<Group>) {
    forall g, h :: g in gs && h in gs ==> Agree(g, h)
  }

  lemma {:induction false} LastGivenIsGiven(gs: seq<Group>, s: Setting)
    ensures match LastGiven(gs, s)
            case None => forall g :: g in gs && g.Given? ==> g.setting != s
            case Some(value) => Given(s, value) in gs
  {
    if gs == [] {
    } else {
      assert gs == gs[..|gs| - 1] + [gs[|gs| - 1]];
      LastGivenIsGiven(gs[..|gs| - 1], s);
    }
  }

  lemma {:induction false} LastPositionalIsThere(gs: seq<Group>)
    ensures match LastPositional(gs)
            case None => forall g :: g in gs ==> !g.Positional?
            case Some(text) => Positional(text) in gs
  {
    if gs == [] {
    } else {
      assert gs == gs[..|gs| - 1] + [gs[|gs| - 1]];
      LastPositionalIsThere(gs[..|gs| - 1]);
    }
  }

  /** Without disagreement the last mention is the only one, so membership decides every field. */
  lemma MembersDecide(gs: seq<Group>, hs: seq<Group>, db: string, number: string -> Num)
    requires AllAgree(gs) && forall g :: g in gs <==> g in hs
    ensures Declared(gs, db, number) == Declared(hs, db, number)
  {
    forall s: Setting
      ensures LastGiven(gs, s) == LastGiven(hs, s)
    {
      LastGivenIsGiven(gs, s);
      LastGivenIsGiven(hs, s);
    }
    LastPositionalIsThere(gs);
    LastPositionalIsThere(hs);
  }

  /** The order of the groups is irrelevant as long as no two of them disagree; each option at most
      once, with its value, and at most one positional argument is a special case. */
  lemma OrderDoesNotMatter(gs: seq<Group>, hs: seq<Group>, db: string, number: string -> Num)
    requires WellFormed(gs) && WellFormed(hs)
    requires multiset(gs) == multiset(hs) && AllAgree(gs)
    ensures Parse(Flatten(gs), db, number) == Parse(Flatten(hs), db, number)
  {
    TokensOfFlatten(gs);
    TokensOfFlatten(hs);
    LastMentionWins(Flatten(gs), db, number);
    LastMentionWins(Flatten(hs), db, number);
    forall g: Group
      ensures g in gs <==> g in hs
    {
      assert g in multiset(gs) <==> g in multiset(hs);
    }
    MembersDecide(gs, hs, db, number);
  }

  lemma FoldTwo(g: Group, h: Group, o: Options, number: string -> Num)
    ensures Fold([g, h], o, number) == Apply(Apply(o, g, number), h, number)
  {
    assert [g, h] == [g] + [h];
    FoldSnoc([g], h, o, number);
    FoldSnoc([], g, o, number);
    assert [] + [g] == [g];
  }

  /** A number reading that tells the two values apart. */
  function Marking(x: Option<string>): string -> Num {
    (y: string) => if x == Some(y) then Infinite else Finite(0)
  }

  lemma MarkingTells(x: Option<string>, y: Option<string>)
    requires x != y
    ensures Numeric(x, Marking(x)) != Numeric(y, Marking(x))
  {
  }

  lemma PutsDiffer(o: Options, s: Setting, x: Option<string>, y: Option<string>)
    requires x != y
    ensures Put(Put(o, s, x, Marking(x)), s, y, Marking(x)) != Put(Put(o, s, y, Marking(x)), s, x, Marking(x))
  {
    MarkingTells(x, y);
    match s
    case Db =>
    case Limit =>
    case Tail =>
    case Head =>
    case Since =>
    case Until =>
    case TextLength =>
    case ToolLength =>
  }

  lemma ParseTwo(g: Group, h: Group, db: string, number: string -> Num)
    requires WellFormed([g, h])
    ensures Parse(Flatten([g, h]), db, number) == Ok(Widen(Apply(Apply(Defaults(db), g, number), h, number)))
  {
    TokensOfFlatten([g, h]);
    FoldTwo(g, h, Defaults(db), number);
  }

  ghost predicate OrderShows(g: Group, h: Group, db: string, number: string -> Num) {
    Parse(Flatten([g, h]), db, number) != Parse(Flatten([h, g]), db, number)
  }

  /** And it matters for any two groups that disagree. */
  lemma DisagreementShows(g: Group, h: Group, db: string)
    requires !Agree(g, h) && WellFormed([g, h]) && WellFormed([h, g])
    ensures exists number: string -> Num :: OrderShows(g, h, db, number)
  {
    var mark := if g.Given? then Marking(g.value) else Marking(None);
    ParseTwo(g, h, db, mark);
    ParseTwo(h, g, db, mark);
    assert OrderShows(g, h, db, mark) by {
      if g.Given? {
        PutsDiffer(Defaults(db), g.setting, g.value, h.value);
        NotWidened(Defaults(db), g.setting, g.value, h.value, mark);
        NotWidened(Defaults(db), g.setting, h.value, g.value, mark);
      }
    }
  }

  lemma NotWidened(o: Options, s: Setting, x: Option<string>, y: Option<string>, number: string -> Num)
    requires !o.full
    ensures Widen(Put(Put(o, s, x, number), s, y, number)) == Put(Put(o, s, x, number), s, y, number)
  {
    PutKeepsFull(o, s, x, number);
    PutKeepsFull(Put(o, s, x, number), s, y, number);
  }

  lemma PutKeepsFull(o: Options, s: Setting, x: Option<string>, number: string -> Num)
    ensures Put(o, s, x, number).full == o.full
  {
    match s
    case Db =>
    case Limit =>
    case Tail =>
    case Head =>
    case Since =>
    case Until =>
    case TextLength =>
    case ToolLength =>
  }

  // ----- the options, by name

  predicate IsOptionName(arg: string) {
    || arg == "--db" || arg == "--list" || arg == "--all" || arg == "--limit" || arg == "--tail" || arg == "--head"
    || arg == "--since" || arg == "--until" || arg == "--full" || arg == "--text" || arg == "--tool"
    || arg == "--no-thinking" || arg == "--no-tools" || arg == "--json" || arg == "--help" || arg == "-h"
  }

  /** Anything else that starts with two dashes is refused, and anything else again is the target. */
  lemma UnknownIff(arg: string)
    ensures KindOf(arg) == Unknown <==> "--" <= arg && !IsOptionName(arg)
    ensures KindOf(arg) == Plain <==> !("--" <= arg) && !IsOptionName(arg)
  {
  }

  /** An argument list of one option, alone or with a value. */
  lemma OneOption(argv: seq<string>, db: string, number: string -> Num)
    requires 1 <= |argv| <= 2
    ensures |argv| == 1 && KindOf(argv[0]).OfSwitch? ==>
              Parse(argv, db, number) == Ok(Widen(Turn(Defaults(db), KindOf(argv[0]).switch)))
    ensures |argv| == 2 && KindOf(argv[0]).OfSetting? ==>
              Parse(argv, db, number) == Ok(Widen(Put(Defaults(db), KindOf(argv[0]).setting, Some(argv[1]), number)))
  {
    ParseStep(argv, Defaults(db), number);
  }

  /** Each switch by its name. */
  lemma SwitchesByName(argv: seq<string>, db: string, number: string -> Num, o: Options)
    requires |argv| == 1
    requires o == Options(Some(db), false, false, Finite(25), None, None, None, None, false, Finite(2000), Finite(1200),
                          true, true, false, false, None)
    ensures Parse([], db, number) == Ok(o)
    ensures argv[0] == "--list" ==> Parse(argv, db, number) == Ok(o.(list := true))
    ensures argv[0] == "--all" ==> Parse(argv, db, number) == Ok(o.(all := true))
    ensures argv[0] == "--full" ==> Parse(argv, db, number) == Ok(o.(full := true, text := Infinite, tool := Infinite))
    ensures argv[0] == "--no-thinking" ==> Parse(argv, db, number) == Ok(o.(thinking := false))
    ensures argv[0] == "--no-tools" ==> Parse(argv, db, number) == Ok(o.(tools := false))
    ensures argv[0] == "--json" ==> Parse(argv, db, number) == Ok(o.(json := true))
    ensures argv[0] == "--help" || argv[0] == "-h" ==> Parse(argv, db, number) == Ok(o.(help := true))
  {
    OneOption(argv, db, number);
  }

  /** Each setting by its name. */
  lemma SettingsByName(argv: seq<string>, db: string, number: string -> Num, o: Options)
    requires |argv| == 2
    requires o == Options(Some(db), false, false, Finite(25), None, None, None, None, false, Finite(2000), Finite(1200),
                          true, true, false, false, None)
    ensures argv[0] == "--db" ==> Parse(argv, db, number) == Ok(o.(db := Some(argv[1])))
    ensures argv[0] == "--limit" ==> Parse(argv, db, number) == Ok(o.(limit := number(argv[1])))
    ensures argv[0] == "--tail" ==> Parse(argv, db, number) == Ok(o.(tail := Some(number(argv[1]))))
    ensures argv[0] == "--head" ==> Parse(argv, db, number) == Ok(o.(head := Some(number(argv[1]))))
    ensures argv[0] == "--since" ==> Parse(argv, db, number) == Ok(o.(since := Some(argv[1])))
    ensures argv[0] == "--until" ==> Parse(argv, db, number) == Ok(o.(until := Some(argv[1])))
    ensures argv[0] == "--text" ==> Parse(argv, db, number) == Ok(o.(text := number(argv[1])))
    ensures argv[0] == "--tool" ==> Parse(argv, db, number) == Ok(o.(tool := number(argv[1])))
  {
    OneOption(argv, db, number);
  }
}
