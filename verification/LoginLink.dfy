/** scripts/request-login-link.mjs: the link it prints, how it finds a code in a log, and how it waits
    for one. */
module LoginLink {
  import opened Prelude
  import opened PercentCoding

  // ----- escape sequences

  const ESC: char := '\U{1B}'

  /** The end of the run of characters of [0-9;?] from i on. */
  function ParamsEnd(s: string, i: nat): (j: nat)
    requires i <= |s|
    ensures i <= j <= |s|
    decreases |s| - i
  {
    if i < |s| && ('0' <= s[i] <= '9' || s[i] == ';' || s[i] == '?') then ParamsEnd(s, i + 1) else i
  }

  /** The end of the run of characters of [ -/] from i on. */
  function IntermediatesEnd(s: string, i: nat): (j: nat)
    requires i <= |s|
    ensures i <= j <= |s|
    decreases |s| - i
  {
    if i < |s| && ' ' <= s[i] <= '/' then IntermediatesEnd(s, i + 1) else i
  }

  /** The length of the match of ANSI_ESCAPE_PATTERN at the front of s, or 0. The three character
      classes are disjoint, so the greedy match is the only one. */
  function EscapeLength(s: string): (n: nat)
    ensures n <= |s|
  {
    if |s| < 2 || s[0] != ESC || s[1] != '[' then 0
    else
      var j := IntermediatesEnd(s, ParamsEnd(s, 2));
      if j < |s| && '@' <= s[j] <= '~' then j + 1 else 0
  }

  function StripAnsi(s: string): string
    decreases |s|
  {
    if s == "" then ""
    else if EscapeLength(s) > 0 then StripAnsi(s[EscapeLength(s)..])
    else [s[0]] + StripAnsi(s[1..])
  }

  /** A coloured text: plain stretches and escape sequences. */
  datatype Piece = Plain(text: string) | Escape(params: string, intermediates: string, final: char)

  predicate PieceOk(p: Piece) {
    match p
    case Plain(t) => NoEscape(t)
    case Escape(params, intermediates, final) =>
      && (forall i :: 0 <= i < |params| ==> '0' <= params[i] <= '9' || params[i] == ';' || params[i] == '?')
      && (forall i :: 0 <= i < |intermediates| ==> ' ' <= intermediates[i] <= '/')
      && '@' <= final <= '~'
  }

  predicate PiecesOk(pieces: seq<Piece>) {
    forall i :: 0 <= i < |pieces| ==> PieceOk(pieces[i])
  }

  predicate NoEscape(s: string) {
    forall i :: 0 <= i < |s| ==> s[i] != ESC
  }

  function Render(pieces: seq<Piece>): string {
    if pieces == [] then ""
    else
      (match pieces[0]
       case Plain(t) => t
       case Escape(params, intermediates, final) => [ESC, '['] + params + intermediates + [final])
      + Render(pieces[1..])
  }

  function Visible(pieces: seq<Piece>): string {
    if pieces == [] then "" else (if pieces[0].Plain? then pieces[0].text else "") + Visible(pieces[1..])
  }

  lemma StripChar(c: char, rest: string)
    requires c != ESC
    ensures StripAnsi([c] + rest) == [c] + StripAnsi(rest)
  {
    assert ([c] + rest)[0] == c && ([c] + rest)[1..] == rest;
  }

  lemma {:induction false} StripPlain(t: string, rest: string)
    requires NoEscape(t)
    ensures StripAnsi(t + rest) == t + StripAnsi(rest)
  {
    if t == "" {
      assert t + rest == rest;
    } else {
      StripPlain(t[1..], rest);
      StripChar(t[0], t[1..] + rest);
      assert [t[0]] + t[1..] == t;
      Associative([t[0]], t[1..], rest);
      Associative([t[0]], t[1..], StripAnsi(rest));
    }
  }

  lemma {:induction false} RunsEnd(s: string, i: nat, j: nat)
    requires i <= j < |s| && !('0' <= s[j] <= '9' || s[j] == ';' || s[j] == '?')
    requires forall k :: i <= k < j ==> '0' <= s[k] <= '9' || s[k] == ';' || s[k] == '?'
    ensures ParamsEnd(s, i) == j
    decreases j - i
  {
    if i < j {
      RunsEnd(s, i + 1, j);
    }
  }

  lemma {:induction false} IntermediatesRun(s: string, i: nat, j: nat)
    requires i <= j < |s| && !(' ' <= s[j] <= '/') && forall k :: i <= k < j ==> ' ' <= s[k] <= '/'
    ensures IntermediatesEnd(s, i) == j
    decreases j - i
  {
    if i < j {
      IntermediatesRun(s, i + 1, j);
    }
  }

  lemma StripEscape(p: Piece, rest: string)
    requires p.Escape? && PieceOk(p)
    ensures StripAnsi([ESC, '['] + p.params + p.intermediates + [p.final] + rest) == StripAnsi(rest)
  {
    var s := [ESC, '['] + p.params + p.intermediates + [p.final] + rest;
    var i, j := 2 + |p.params|, 2 + |p.params| + |p.intermediates|;
    assert forall k :: 2 <= k < i ==> s[k] == p.params[k - 2];
    assert forall k :: i <= k < j ==> s[k] == p.intermediates[k - i];
    assert s[j] == p.final;
    RunsEnd(s, 2, i);
    IntermediatesRun(s, i, j);
    assert s[j + 1..] == rest;
  }

  /** An escape sequence is exactly ESC, a bracket, parameters, intermediates and a final character: an
      unfinished one stays in the text. */
  lemma EscapeIff(s: string, n: nat)
    requires 0 < n <= |s|
    ensures EscapeLength(s) == n <==>
              exists p: Piece :: p.Escape? && PieceOk(p) && s[..n] == [ESC, '['] + p.params + p.intermediates + [p.final]
  {
    if EscapeLength(s) == n {
      var i := ParamsEnd(s, 2);
      var j := IntermediatesEnd(s, i);
      ParamsRun(s, 2);
      IntermediatesAre(s, i);
      var p := Escape(s[2..i], s[i..j], s[j]);
      assert s[..n] == [ESC, '['] + p.params + p.intermediates + [p.final];
      assert PieceOk(p);
    }
    if p: Piece :| p.Escape? && PieceOk(p) && s[..n] == [ESC, '['] + p.params + p.intermediates + [p.final] {
      EscapeFound(s, n, p);
    }
  }

  lemma EscapeFound(s: string, n: nat, p: Piece)
    requires 0 < n <= |s| && p.Escape? && PieceOk(p)
    requires s[..n] == [ESC, '['] + p.params + p.intermediates + [p.final]
    ensures EscapeLength(s) == n
  {
    var u, i, j := s[..n], 2 + |p.params|, 2 + |p.params| + |p.intermediates|;
    assert s[0] == u[0] && s[1] == u[1];
    forall k | 2 <= k < i
      ensures s[k] == p.params[k - 2]
    {
      assert s[k] == u[k];
    }
    forall k | i <= k < j
      ensures s[k] == p.intermediates[k - i]
    {
      assert s[k] == u[k];
    }
    assert s[j] == u[j] == p.final;
    RunsEnd(s, 2, i);
    IntermediatesRun(s, i, j);
  }

  lemma {:induction false} ParamsRun(s: string, i: nat)
    requires i <= |s|
    ensures forall k :: i <= k < ParamsEnd(s, i) ==> '0' <= s[k] <= '9' || s[k] == ';' || s[k] == '?'
    decreases |s| - i
  {
    if i < |s| && ('0' <= s[i] <= '9' || s[i] == ';' || s[i] == '?') {
      ParamsRun(s, i + 1);
    }
  }

  lemma {:induction false} IntermediatesAre(s: string, i: nat)
    requires i <= |s|
    ensures forall k :: i <= k < IntermediatesEnd(s, i) ==> ' ' <= s[k] <= '/'
    decreases |s| - i
  {
    if i < |s| && ' ' <= s[i] <= '/' {
      IntermediatesAre(s, i + 1);
    }
  }

  /** Stripping a coloured text leaves exactly its visible part. */
  lemma {:induction false} StripRendered(pieces: seq<Piece>)
    requires PiecesOk(pieces)
    ensures StripAnsi(Render(pieces)) == Visible(pieces)
  {
    if pieces == [] {
    } else {
      StripRendered(pieces[1..]);
      match pieces[0]
      case Plain(t) => StripPlain(t, Render(pieces[1..]));
      case Escape(params, intermediates, final) =>
        StripEscape(pieces[0], Render(pieces[1..]));
    }
  }

  lemma StripNothing(s: string)
    requires NoEscape(s)
    ensures StripAnsi(s) == s
  {
    StripPlain(s, "");
    assert s + "" == s;
  }

  // ----- extraction

  const CODE: string := "code="
  const VERIFY: string := "/auth/magic-link/verify?code="
  const MAGIC: string := "magic_link_url="

  predicate IsSpace(c: char) {
    || c == ' ' || '\t' <= c <= '\r' || c == '\U{A0}' || c == '\U{1680}' || '\U{2000}' <= c <= '\U{200A}'
    || c == '\U{2028}' || c == '\U{2029}' || c == '\U{202F}' || c == '\U{205F}' || c == '\U{3000}' || c == '\U{FEFF}'
  }

  /** The characters that end a code: the complement of [^"'\s,}]. */
  predicate Ends(c: char) {
    c == '"' || c == '\'' || c == ',' || c == '}' || IsSpace(c)
  }

  /** The longest run of code characters from i on. */
  function CodeRun(s: string, i: nat): string
    requires i <= |s|
    decreases |s| - i
  {
    if i == |s| || Ends(s[i]) then "" else [s[i]] + CodeRun(s, i + 1)
  }

  predicate StartsAt(s: string, i: nat, lit: string) {
    i <= |s| && lit <= s[i..]
  }

  /** A verification link at n is the first. */
  predicate NoneBefore(s: string, n: nat) {
    forall k: nat :: k < n ==> !StartsAt(s, k, VERIFY)
  }

  /** The first '?' from i on, or the end. */
  function QuestionMark(s: string, i: nat): (j: nat)
    requires i <= |s|
    ensures i <= j <= |s|
    decreases |s| - i
  {
    if i == |s| || s[i] == '?' then i else QuestionMark(s, i + 1)
  }

  datatype Pattern = VerifyPattern | MagicPattern | CodePattern

  /** Where the code would begin if the pattern matched at i. `[^?]*\?` ends at the first '?'. */
  function CodeStart(p: Pattern, s: string, i: nat): (k: Option<nat>)
    ensures k.Some? ==> k.value <= |s|
  {
    match p
    case VerifyPattern => if StartsAt(s, i, VERIFY) then Some(i + |VERIFY|) else None
    case CodePattern => if StartsAt(s, i, CODE) then Some(i + |CODE|) else None
    case MagicPattern =>
      if !StartsAt(s, i, MAGIC) then None
      else
        var q := QuestionMark(s, i + |MAGIC|);
        if StartsAt(s, q, "?code=") then Some(q + 6) else None
  }

  /** The captured group if the pattern matches at i. */
  function CaptureAt(p: Pattern, s: string, i: nat): Option<string> {
    var k := CodeStart(p, s, i);
    if k.Some? && CodeRun(s, k.value) != "" then Some(CodeRun(s, k.value)) else None
  }

  /** The first value of f at an index from i up to n. */
  function FirstSome(f: nat -> Option<string>, i: nat, n: nat): Option<string>
    decreases if i <= n then n - i + 1 else 0
  {
    if i > n then None else if f(i).Some? then f(i) else FirstSome(f, i + 1, n)
  }

  lemma {:induction false} FirstSomeMeans(f: nat -> Option<string>, i: nat, n: nat)
    ensures FirstSome(f, i, n).None? <==> forall j: nat :: i <= j <= n ==> f(j).None?
    ensures FirstSome(f, i, n).Some? ==> exists j: nat :: i <= j <= n && f(j) == FirstSome(f, i, n)
    ensures forall j: nat :: i <= j <= n && f(j).Some? && (forall k: nat :: i <= k < j ==> f(k).None?)
              ==> FirstSome(f, i, n) == f(j)
    decreases if i <= n then n - i + 1 else 0
  {
    if i <= n && f(i).None? {
      FirstSomeMeans(f, i + 1, n);
    }
  }

  /** pattern.exec: the captured group of the leftmost match. */
  function FirstMatch(p: Pattern, s: string): Option<string> {
    FirstSome((i: nat) => CaptureAt(p, s, i), 0, |s|)
  }

  /** The first pattern that matches, in the order of the table. */
  function Capture(clean: string): Option<string> {
    var verify := FirstMatch(VerifyPattern, clean);
    if verify.Some? then verify
    else
      var magic := FirstMatch(MagicPattern, clean);
      if magic.Some? then magic else FirstMatch(CodePattern, clean)
  }

  /** "" when nothing was captured; Err when decodeURIComponent throws. */
  function Read(captured: Option<string>): Result<string, string> {
    if captured.None? then Ok("")
    else
      var code := Decode(captured.value);
      if code.None? then Err("URI malformed") else Ok(code.value)
  }

  /** extractMagicLinkCode */
  function Extract(text: string): Result<string, string> {
    Read(Capture(StripAnsi(text)))
  }

  /** The link main prints. */
  function Link(publicURL: string, code: string): string {
    publicURL + "/?code=" + Encode(code)
  }

  lemma FirstMatchMeans(p: Pattern, s: string)
    ensures FirstMatch(p, s).None? <==> forall j: nat :: j <= |s| ==> CaptureAt(p, s, j).None?
    ensures FirstMatch(p, s).Some? ==> exists j: nat :: j <= |s| && CaptureAt(p, s, j) == FirstMatch(p, s)
  {
    var f := (i: nat) => CaptureAt(p, s, i);
    FirstSomeMeans(f, 0, |s|);
    if FirstMatch(p, s).Some? {
      var j: nat :| j <= |s| && f(j) == FirstMatch(p, s);
      assert CaptureAt(p, s, j) == FirstMatch(p, s);
    }
    forall j: nat | j <= |s|
      ensures CaptureAt(p, s, j) == f(j)
    {
    }
  }

  lemma LeftmostMatch(p: Pattern, s: string, j: nat)
    requires j <= |s| && CaptureAt(p, s, j).Some? && forall k: nat :: k < j ==> CaptureAt(p, s, k).None?
    ensures FirstMatch(p, s) == CaptureAt(p, s, j)
  {
    var f := (i: nat) => CaptureAt(p, s, i);
    FirstSomeMeans(f, 0, |s|);
    assert f(j).Some? && forall k: nat :: k < j ==> f(k).None?;
  }

  /** Whatever the pattern, the code it captures stands right behind some `code=`. */
  lemma CodeIsBehindLiteral(p: Pattern, s: string, i: nat)
    requires CodeStart(p, s, i).Some?
    ensures var k := CodeStart(p, s, i).value; k >= 5 && StartsAt(s, k - 5, CODE)
  {
    var k := CodeStart(p, s, i).value;
    match p
    case VerifyPattern =>
      assert VERIFY[|VERIFY| - 5..] == CODE;
      assert s[k - 5..][..5] == s[i..][..|VERIFY|][|VERIFY| - 5..];
    case MagicPattern =>
      assert "?code="[1..] == CODE;
      assert s[k - 5..][..5] == s[k - 6..][..6][1..];
    case CodePattern =>
  }

  /** A `code=` at i with a code character behind it. */
  predicate CodeAt(s: string, i: nat) {
    StartsAt(s, i, CODE) && CodeRun(s, i + 5) != ""
  }

  lemma CaptureMeansCode(p: Pattern, s: string, i: nat)
    requires CaptureAt(p, s, i).Some?
    ensures CaptureAt(p, s, i).value != "" && exists j: nat :: CodeAt(s, j)
  {
    CodeIsBehindLiteral(p, s, i);
    assert CodeAt(s, CodeStart(p, s, i).value - 5);
  }

  lemma MatchMeansCode(p: Pattern, s: string)
    requires FirstMatch(p, s).Some?
    ensures FirstMatch(p, s).value != "" && exists j: nat :: CodeAt(s, j)
  {
    FirstMatchMeans(p, s);
    var i: nat :| i <= |s| && CaptureAt(p, s, i) == FirstMatch(p, s);
    CaptureMeansCode(p, s, i);
  }

  lemma CodeMeansMatch(s: string, i: nat)
    requires CodeAt(s, i)
    ensures FirstMatch(CodePattern, s).Some?
  {
    FirstMatchMeans(CodePattern, s);
    assert CaptureAt(CodePattern, s, i).Some?;
  }

  lemma CapturedIff(s: string)
    ensures Capture(s).Some? <==> exists i: nat :: CodeAt(s, i)
    ensures Capture(s).Some? ==> Capture(s).value != ""
  {
    if FirstMatch(VerifyPattern, s).Some? {
      MatchMeansCode(VerifyPattern, s);
    } else if FirstMatch(MagicPattern, s).Some? {
      MatchMeansCode(MagicPattern, s);
    } else if FirstMatch(CodePattern, s).Some? {
      MatchMeansCode(CodePattern, s);
    }
    if i: nat :| CodeAt(s, i) {
      CodeMeansMatch(s, i);
    }
  }

  lemma ReadsNothingIff(captured: Option<string>)
    requires captured != Some("")
    ensures Read(captured) == Ok("") <==> captured.None?
  {
    if captured.Some? && Decode(captured.value).Some? {
      DecodeNonempty(captured.value);
    }
  }

  ghost predicate NoCode(s: string) {
    forall i: nat :: !CodeAt(s, i)
  }

  lemma NothingCapturedIff(s: string)
    ensures Read(Capture(s)) == Ok("") <==> NoCode(s)
  {
    CapturedIff(s);
    ReadsNothingIff(Capture(s));
  }

  /** Extraction finds nothing exactly when no `code=` is followed by a code character. */
  lemma NothingFoundIff(text: string)
    ensures Extract(text) == Ok("") <==> NoCode(StripAnsi(text))
  {
    NothingCapturedIff(StripAnsi(text));
  }

  // ----- the round trip

  /** Inside an encoded code only an apostrophe ends the run. */
  lemma CodedEnds(c: char)
    requires IsCoded(c)
    ensures Ends(c) <==> c == '\''
    ensures c != '=' && c != ESC
  {
  }

  lemma {:induction false} CodeRunIs(s: string, i: nat, run: string)
    requires i + |run| <= |s| && s[i..i + |run|] == run
    requires forall k :: 0 <= k < |run| ==> !Ends(run[k])
    requires i + |run| < |s| ==> Ends(s[i + |run|])
    ensures CodeRun(s, i) == run
    decreases |run|
  {
    if run == "" {
    } else {
      assert s[i] == run[0] && s[i + 1..i + |run|] == run[1..];
      CodeRunIs(s, i + 1, run[1..]);
      assert run == [run[0]] + run[1..];
    }
  }

  /** The part of a code before its first apostrophe. */
  function BeforeQuote(code: string): string {
    if code == "" || code[0] == '\'' then "" else [code[0]] + BeforeQuote(code[1..])
  }

  lemma {:induction false} BeforeQuoteSplits(code: string)
    ensures var u := BeforeQuote(code);
            && Unquoted(u) && |u| <= |code| && u == code[..|u|]
            && (|u| < |code| ==> code[|u|] == '\'')
            && (u == code <==> Unquoted(code))
  {
    if code == "" || code[0] == '\'' {
    } else {
      BeforeQuoteSplits(code[1..]);
      assert code == [code[0]] + code[1..];
      assert Unquoted(code) <==> Unquoted(code[1..]) by {
        assert forall i :: 0 < i < |code| ==> code[i] == code[1..][i - 1];
      }
    }
  }

  /** The run captured behind the link's `code=` is the encoding of the part before the apostrophe. */
  lemma LinkRun(publicURL: string, code: string)
    ensures CodeRun(Link(publicURL, code), |publicURL| + 7) == Encode(BeforeQuote(code))
  {
    var u := BeforeQuote(code);
    var s, at, run := Link(publicURL, code), |publicURL| + 7, Encode(u);
    BeforeQuoteSplits(code);
    EncodeAlphabet(u);
    EncodeAlphabet(code);
    var v := code[|u|..];
    EncodeConcat(u, v);
    assert code == u + v;
    assert s[at..] == run + Encode(v);
    assert s[at..at + |run|] == run;
    forall k | 0 <= k < |run|
      ensures !Ends(run[k])
    {
      CodedEnds(run[k]);
    }
    if v == "" {
      assert at + |run| == |s|;
    } else {
      assert Encode(v) == EncodeChar('\'') + Encode(v[1..]);
      assert s[at..][|run|] == '\'';
    }
    CodeRunIs(s, at, run);
  }

  lemma StartsAtPrefix(a: string, b: string, i: nat, lit: string)
    requires i + |lit| <= |a|
    ensures StartsAt(a + b, i, lit) <==> StartsAt(a, i, lit)
  {
    assert (a + b)[i..][..|lit|] == a[i..][..|lit|];
  }

  lemma LiteralEnds(s: string, i: nat)
    ensures StartsAt(s, i, CODE) ==> i + 5 <= |s| && s[i + 4] == '='
  {
    if StartsAt(s, i, CODE) {
      assert s[i..][4] == '=';
    }
  }

  /** Behind the base URL there is one equals sign. */
  lemma OnlyEquals(publicURL: string, code: string, k: nat)
    requires |publicURL| <= k < |Link(publicURL, code)|
    ensures Link(publicURL, code)[k] == '=' <==> k == |publicURL| + 6
  {
    EncodeAlphabet(code);
    var literal := "/?code=";
    if k >= |publicURL| + 7 {
      CodedEnds(Encode(code)[k - |publicURL| - 7]);
    } else {
      assert Link(publicURL, code)[k] == literal[k - |publicURL|];
      assert literal[0] != '=' && literal[1] != '=' && literal[2] != '=' && literal[3] != '=';
    }
  }

  /** The link's own `code=` is the only one in it. */
  lemma OnlyOneLiteral(publicURL: string, code: string, i: nat)
    requires forall k: nat :: !StartsAt(publicURL, k, CODE)
    ensures StartsAt(Link(publicURL, code), i, CODE) <==> i == |publicURL| + 2
  {
    var s := Link(publicURL, code);
    assert s == publicURL + ("/?code=" + Encode(code));
    assert s[|publicURL| + 2..] == CODE + Encode(code);
    LiteralEnds(s, i);
    if i + 5 <= |publicURL| {
      StartsAtPrefix(publicURL, "/?code=" + Encode(code), i, CODE);
    } else if i + 4 < |s| {
      OnlyEquals(publicURL, code, i + 4);
    }
  }

  lemma LinkIsClean(publicURL: string, code: string)
    requires NoEscape(publicURL)
    ensures StripAnsi(Link(publicURL, code)) == Link(publicURL, code)
  {
    EncodeAlphabet(code);
    forall i | 0 <= i < |Encode(code)|
      ensures Encode(code)[i] != ESC
    {
      CodedEnds(Encode(code)[i]);
    }
    StripNothing(Link(publicURL, code));
  }

  /** What extraction makes of a printed link, for every code. */
  lemma ExtractFromLink(publicURL: string, code: string)
    requires NoEscape(publicURL) && forall k: nat :: !StartsAt(publicURL, k, CODE)
    ensures Extract(Link(publicURL, code)) == Ok(BeforeQuote(code))
  {
    var s, at, u := Link(publicURL, code), |publicURL| + 7, BeforeQuote(code);
    LinkIsClean(publicURL, code);
    LinkRun(publicURL, code);
    DecodeEncode(u);
    FirstMatchMeans(VerifyPattern, s);
    FirstMatchMeans(MagicPattern, s);
    FirstMatchMeans(CodePattern, s);
    forall p: Pattern, i: nat | CodeStart(p, s, i).Some?
      ensures CodeStart(p, s, i) == Some(at)
    {
      CodeIsBehindLiteral(p, s, i);
      OnlyOneLiteral(publicURL, code, CodeStart(p, s, i).value - 5);
    }
    OnlyOneLiteral(publicURL, code, at - 5);
    assert CodeStart(CodePattern, s, at - 5) == Some(at);
    assert Encode("") == "";
    if u != "" {
      assert CaptureAt(CodePattern, s, at - 5).Some?;
    }
  }

  /** Printing and extracting undo each other exactly for the codes without an apostrophe, the one
      character that encodeURIComponent leaves alone and the extraction stops at. */
  lemma LinkRoundTripIff(publicURL: string, code: string)
    requires NoEscape(publicURL) && forall k: nat :: !StartsAt(publicURL, k, CODE)
    ensures Extract(publicURL + "/?code=" + Encode(code)) == Ok(code) <==> Unquoted(code)
  {
    ExtractFromLink(publicURL, code);
    BeforeQuoteSplits(code);
  }

  lemma CodedPart(code: string, part: string)
    requires Unquoted(code) && part <= Encode(code)
    ensures forall k :: 0 <= k < |part| ==> !Ends(part[k])
  {
    EncodeAlphabet(code);
    forall k | 0 <= k < |part|
      ensures !Ends(part[k])
    {
      assert part[k] == Encode(code)[k];
      CodedEnds(part[k]);
    }
  }

  /** An encoded code and what ends it. */
  lemma RunAt(s: string, at: nat, code: string, after: string)
    requires at <= |s| && s[at..] == Encode(code) + after
    requires Unquoted(code) && (after != "" ==> Ends(after[0]))
    ensures CodeRun(s, at) == Encode(code)
  {
    var run := Encode(code);
    CodedPart(code, run);
    assert |s| == at + |run| + |after|;
    assert s[at..at + |run|] == s[at..][..|run|] == run;
    assert after != "" ==> s[at + |run|] == s[at..][|run|] == after[0];
    CodeRunIs(s, at, run);
  }

  lemma VerifyStart(s: string, before: string, tail: string)
    requires s == before + VERIFY + tail
    ensures CodeStart(VerifyPattern, s, |before|) == Some(|before| + |VERIFY|)
    ensures s[|before| + |VERIFY|..] == tail
  {
    assert s[|before|..] == VERIFY + tail;
  }

  lemma VerifyCapture(s: string, before: string, code: string, after: string)
    requires s == before + VERIFY + Encode(code) + after
    requires code != "" && Unquoted(code) && (after != "" ==> Ends(after[0]))
    ensures CaptureAt(VerifyPattern, s, |before|) == Some(Encode(code))
  {
    DecodeEncode(code);
    Associative(before + VERIFY, Encode(code), after);
    VerifyStart(s, before, Encode(code) + after);
    RunAt(s, |before| + |VERIFY|, code, after);
  }

  /** What ends a code, written out: quotes, comma, brace, and every character that \s stands for. */
  predicate Terminates(c: char) {
    || c == '"' || c == '\'' || c == ',' || c == '}'
    || c == ' ' || c == '\t' || c == '\n' || c == '\r' || c == '\U{000B}' || c == '\U{000C}'
    || c == '\U{00A0}' || c == '\U{1680}' || c == '\U{2000}' || c == '\U{2001}' || c == '\U{2002}' || c == '\U{2003}'
    || c == '\U{2004}' || c == '\U{2005}' || c == '\U{2006}' || c == '\U{2007}' || c == '\U{2008}' || c == '\U{2009}'
    || c == '\U{200A}' || c == '\U{2028}' || c == '\U{2029}' || c == '\U{202F}' || c == '\U{205F}' || c == '\U{3000}'
    || c == '\U{FEFF}'
  }

  lemma EndsIff(c: char)
    ensures Ends(c) <==> Terminates(c)
  {
  }

  /** A verification link in a log is found first and read in full, whatever other `code=` stands
      before or behind it, coloured or not. */
  lemma VerifyLinkWins(pieces: seq<Piece>, before: string, code: string, after: string)
    requires PiecesOk(pieces)
    requires Visible(pieces) == before + "/auth/magic-link/verify?code=" + Encode(code) + after
    requires code != "" && Unquoted(code) && (after != "" ==> Terminates(after[0]))
    requires NoneBefore(Visible(pieces), |before|)
    ensures Extract(Render(pieces)) == Ok(code)
  {
    if after != "" {
      EndsIff(after[0]);
    }
    StripRendered(pieces);
    VerifyCapture(Visible(pieces), before, code, after);
    FirstLinkIsCaptured(Visible(pieces), before, Encode(code));
    DecodeEncode(code);
  }

  /** Text behind the code, up to the next of these characters, is part of it. */
  lemma RunEndsIff(s: string, i: nat)
    requires i <= |s|
    ensures i + |CodeRun(s, i)| <= |s| && CodeRun(s, i) == s[i..i + |CodeRun(s, i)|]
    ensures i + |CodeRun(s, i)| == |s| || Terminates(s[i + |CodeRun(s, i)|])
    ensures forall k :: 0 <= k < |CodeRun(s, i)| ==> !Terminates(CodeRun(s, i)[k])
    decreases |s| - i
  {
    if i < |s| {
      EndsIff(s[i]);
      if !Ends(s[i]) {
        RunEndsIff(s, i + 1);
        assert s[i..i + |CodeRun(s, i)|] == [s[i]] + s[i + 1..i + |CodeRun(s, i)|];
      }
    }
  }

  /** Where the line of a verification link breaks off, extraction takes what is there. */
  lemma CutCapture(s: string, before: string, part: string)
    requires s == before + VERIFY + part && part != ""
    requires forall k :: 0 <= k < |part| ==> !Ends(part[k])
    ensures CaptureAt(VerifyPattern, s, |before|) == Some(part)
  {
    var at := |before| + |VERIFY|;
    VerifyStart(s, before, part);
    assert s[at..at + |part|] == part;
    CodeRunIs(s, at, part);
  }

  lemma FirstLinkIsCaptured(s: string, before: string, run: string)
    requires NoneBefore(s, |before|) && |before| <= |s| && CaptureAt(VerifyPattern, s, |before|) == Some(run)
    ensures Capture(s) == Some(run)
  {
    forall k: nat | k < |before|
      ensures CaptureAt(VerifyPattern, s, k).None?
    {
      assert !StartsAt(s, k, VERIFY);
    }
    LeftmostMatch(VerifyPattern, s, |before|);
  }

  lemma CutExtract(s: string, before: string, part: string)
    requires s == before + VERIFY + part && part != ""
    requires forall k :: 0 <= k < |part| ==> !Ends(part[k])
    requires NoneBefore(s, |before|)
    ensures Capture(s) == Some(part)
  {
    CutCapture(s, before, part);
    FirstLinkIsCaptured(s, before, part);
  }

  /** The part is the encoding of p, which the code begins with. */
  predicate Spells(code: string, part: string, p: string) {
    p <= code && part == Encode(p)
  }

  lemma PartReads(code: string, part: string)
    requires part <= Encode(code)
    ensures forall p :: Read(Some(part)) == Ok(p) <==> Spells(code, part, p)
    ensures Read(Some(part)).Err? <==> forall p :: !Spells(code, part, p)
  {
    forall p
      ensures Decode(part) == Some(p) <==> Spells(code, part, p)
    {
      CutDecodesIff(code, part, p);
    }
    if Decode(part).Some? {
      assert Spells(code, part, Decode(part).value);
    }
  }

  /** What a poll makes of an unfinished line of a verification link that so far holds only the first
      part of the code. It gets p exactly when the part is the encoding of p, a prefix of the code: the
      code itself when the part is all of it, a wrong code when the line breaks off between two
      characters. It is an error exactly when the line breaks off inside an escape sequence. */
  lemma CutLineIff(pieces: seq<Piece>, before: string, code: string, part: string)
    requires PiecesOk(pieces)
    requires part != "" && part <= Encode(code) && Unquoted(code)
    requires Visible(pieces) == before + VERIFY + part
    requires NoneBefore(Visible(pieces), |before|)
    ensures forall p :: Extract(Render(pieces)) == Ok(p) <==> Spells(code, part, p)
    ensures Extract(Render(pieces)).Err? <==> forall p :: !Spells(code, part, p)
  {
    CodedPart(code, part);
    StripRendered(pieces);
    CutExtract(Visible(pieces), before, part);
    PartReads(code, part);
  }

  /** Every proper prefix of every code can come back in its place. */
  lemma EveryPrefixCanComeBack(pieces: seq<Piece>, before: string, code: string, p: string)
    requires PiecesOk(pieces) && Unquoted(code) && p != "" && p < code
    requires Visible(pieces) == before + VERIFY + Encode(p)
    requires NoneBefore(Visible(pieces), |before|)
    ensures Encode(p) < Encode(code) && Extract(Render(pieces)) == Ok(p)
  {
    EncodePrefix(p, code);
    DecodeEncode(p);
    CutLineIff(pieces, before, code, Encode(p));
    assert Spells(code, Encode(p), p);
  }

  /** And every code with an escape sequence can fail: here it is cut behind the percent sign. */
  lemma EscapeCanBeCut(pieces: seq<Piece>, before: string, code: string, p: string)
    requires PiecesOk(pieces) && Unquoted(code) && p < code && !IsPlain(code[|p|])
    requires Visible(pieces) == before + VERIFY + (Encode(p) + "%")
    requires NoneBefore(Visible(pieces), |before|)
    ensures Encode(p) + "%" < Encode(code) && Extract(Render(pieces)).Err?
  {
    var part := Encode(p) + "%";
    CutEscape(code, p);
    CutLineIff(pieces, before, code, part);
    forall q
      ensures !Spells(code, part, q)
    {
      if q <= code {
        NoPrefixSpellsCut(code, p, q);
      }
    }
  }

  lemma CutEscape(code: string, p: string)
    requires p < code && !IsPlain(code[|p|])
    ensures Encode(p) + "%" < Encode(code)
    ensures |Encode(p + [code[|p|]])| > |Encode(p)| + 1
  {
    var c, rest := code[|p|], code[|p| + 1..];
    assert code == p + ([c] + rest);
    EncodeConcat(p, [c] + rest);
    EncodeCons(c, rest);
    EncodeConcat(p, [c]);
    EncodeCons(c, "");
    assert [c] + "" == [c];
    assert |EncodeChar(c)| >= 3 && EncodeChar(c)[0] == '%';
    assert Encode(code) == Encode(p) + (EncodeChar(c) + Encode(rest));
    assert Encode(code)[..|Encode(p)|] == Encode(p) && Encode(code)[|Encode(p)|] == '%';
  }

  lemma NoPrefixSpellsCut(code: string, p: string, q: string)
    requires p < code && !IsPlain(code[|p|]) && q <= code
    ensures Encode(q) != Encode(p) + "%"
  {
    CutEscape(code, p);
    if |q| <= |p| {
      EncodePrefix(q, p);
    } else {
      EncodePrefix(p + [code[|p|]], q);
    }
  }

  /** The code "ab", read when the log holds its first letter. */
  lemma HalfACode(before: string, pieces: seq<Piece>)
    requires PiecesOk(pieces) && Visible(pieces) == before + VERIFY + "a" && NoneBefore(Visible(pieces), |before|)
    ensures Encode("ab") == "ab" && Extract(Render(pieces)) == Ok("a")
  {
    EncodeCons('a', "b");
    EncodeCons('b', "");
    EncodeCons('a', "");
    assert Encode("") == "" && ['a'] + "b" == "ab" && ['b'] + "" == "b" && ['a'] + "" == "a";
    EveryPrefixCanComeBack(pieces, before, "ab", "a");
  }

  // ----- the mailer's own line

  lemma QuestionMarkAt(s: string, i: nat, j: nat)
    requires i <= j < |s| && s[j] == '?' && forall k :: i <= k < j ==> s[k] != '?'
    ensures QuestionMark(s, i) == j
    decreases j - i
  {
    if i < j {
      QuestionMarkAt(s, i + 1, j);
    }
  }

  /** No verification link with a code in it, and no mailer line before n. */
  ghost predicate MailerFirst(s: string, n: nat) {
    && (forall k: nat :: CaptureAt(VerifyPattern, s, k).None?)
    && (forall k: nat :: k < n ==> !StartsAt(s, k, MAGIC))
  }

  lemma MailerStart(s: string, before: string, url: string, tail: string)
    requires s == before + MAGIC + url + "?code=" + tail && '?' !in url
    ensures CodeStart(MagicPattern, s, |before|) == Some(|before| + |MAGIC| + |url| + 6)
  {
    var q := |before| + |MAGIC| + |url|;
    assert s[|before|..] == MAGIC + (url + "?code=" + tail);
    assert s[q..] == "?code=" + tail;
    forall k | |before| + |MAGIC| <= k < q
      ensures s[k] != '?'
    {
      assert s[k] == url[k - |before| - |MAGIC|];
    }
    assert s[q] == s[q..][0] == '?';
    QuestionMarkAt(s, |before| + |MAGIC|, q);
  }

  lemma MailerCapture(s: string, before: string, url: string, code: string, after: string)
    requires s == before + MAGIC + url + "?code=" + (Encode(code) + after)
    requires '?' !in url && code != "" && Unquoted(code) && (after != "" ==> Ends(after[0]))
    ensures CaptureAt(MagicPattern, s, |before|) == Some(Encode(code))
  {
    MailerStart(s, before, url, Encode(code) + after);
    DecodeEncode(code);
    RunAt(s, |before| + |MAGIC| + |url| + 6, code, after);
  }

  /** The mailer's line is read in full when the log has no verification link with a code, whatever other
      `code=` stands before or behind it, coloured or not. */
  lemma MailerLineWins(pieces: seq<Piece>, before: string, url: string, code: string, after: string)
    requires PiecesOk(pieces)
    requires Visible(pieces) == before + "magic_link_url=" + url + "?code=" + (Encode(code) + after)
    requires '?' !in url && code != "" && Unquoted(code) && (after != "" ==> Terminates(after[0]))
    requires MailerFirst(Visible(pieces), |before|)
    ensures Extract(Render(pieces)) == Ok(code)
  {
    if after != "" {
      EndsIff(after[0]);
    }
    StripRendered(pieces);
    MailerCapture(Visible(pieces), before, url, code, after);
    MailerIsCaptured(Visible(pieces), before, Encode(code));
    DecodeEncode(code);
  }

  lemma MailerIsCaptured(s: string, before: string, run: string)
    requires MailerFirst(s, |before|) && |before| <= |s| && CaptureAt(MagicPattern, s, |before|) == Some(run)
    ensures Capture(s) == Some(run)
  {
    FirstMatchMeans(VerifyPattern, s);
    forall k: nat | k < |before|
      ensures CaptureAt(MagicPattern, s, k).None?
    {
      assert !StartsAt(s, k, MAGIC);
    }
    LeftmostMatch(MagicPattern, s, |before|);
  }

  // ----- waiting for the log

  /** readFileSlice: the bytes past the offset, and none when the file is missing or shorter. */
  function ReadFileSlice(file: Option<seq<bv8>>, offset: nat): (slice: seq<bv8>)
    ensures file.None? ==> slice == []
    ensures file.Some? && offset <= |file.value| ==> file.value[..offset] + slice == file.value
    ensures file.Some? && offset > |file.value| ==> slice == []
  {
    if file.None? || |file.value| <= offset then [] else file.value[offset..]
  }

  /** One turn of the polling loop: the time it began at, and what each log file then holds. */
  datatype Poll = Poll(now: int, files: seq<Option<seq<bv8>>>)

  datatype Outcome = Found(code: string) | Throws(message: string) | TimedOut | StillPolling

  /** What the first k logs of a poll yield: a code, an error, or nothing. */
  function Scan(files: seq<Option<seq<bv8>>>, offsets: seq<nat>, utf8: seq<bv8> -> string, k: nat): Outcome
    requires |files| == |offsets| && k <= |files|
  {
    if k == 0 then StillPolling
    else
      var earlier := Scan(files, offsets, utf8, k - 1);
      if !earlier.StillPolling? then earlier
      else match Extract(utf8(ReadFileSlice(files[k - 1], offsets[k - 1])))
        case Err(message) => Throws(message)
        case Ok(code) => if code != "" then Found(code) else StillPolling
  }

  /** What the first k polls yield. */
  function Watch(polls: seq<Poll>, offsets: seq<nat>, utf8: seq<bv8> -> string, deadline: int, k: nat): Outcome
    requires k <= |polls| && forall i :: 0 <= i < |polls| ==> |polls[i].files| == |offsets|
  {
    if k == 0 then StillPolling
    else
      var earlier := Watch(polls, offsets, utf8, deadline, k - 1);
      if !earlier.StillPolling? then earlier
      else if polls[k - 1].now > deadline then TimedOut
      else Scan(polls[k - 1].files, offsets, utf8, |offsets|)
  }

  lemma {:induction false} WatchStops(polls: seq<Poll>, offsets: seq<nat>, utf8: seq<bv8> -> string, deadline: int, k: nat)
    requires k <= |polls| && forall i :: 0 <= i < |polls| ==> |polls[i].files| == |offsets|
    requires !Watch(polls, offsets, utf8, deadline, k).StillPolling?
    ensures Watch(polls, offsets, utf8, deadline, |polls|) == Watch(polls, offsets, utf8, deadline, k)
    decreases |polls| - k
  {
    if k < |polls| {
      assert Watch(polls, offsets, utf8, deadline, k + 1) == Watch(polls, offsets, utf8, deadline, k);
      WatchStops(polls, offsets, utf8, deadline, k + 1);
    }
  }

  /** What log t shows at poll k. */
  function Shows(polls: seq<Poll>, offsets: seq<nat>, utf8: seq<bv8> -> string, k: nat, t: nat): Result<string, string>
    requires k < |polls| && t < |offsets| == |polls[k].files|
  {
    Extract(utf8(ReadFileSlice(polls[k].files[t], offsets[t])))
  }

  predicate WellShaped(polls: seq<Poll>, offsets: seq<nat>) {
    forall i :: 0 <= i < |polls| ==> |polls[i].files| == |offsets|
  }

  /** The logs before t show nothing at poll k. */
  predicate NothingBefore(polls: seq<Poll>, offsets: seq<nat>, utf8: seq<bv8> -> string, k: nat, t: nat)
    requires k < |polls| && WellShaped(polls, offsets)
  {
    forall u: nat :: u < t && u < |offsets| ==> Shows(polls, offsets, utf8, k, u) == Ok("")
  }

  /** Poll k is in time and shows nothing. */
  predicate Silent(polls: seq<Poll>, offsets: seq<nat>, utf8: seq<bv8> -> string, deadline: int, k: nat)
    requires k < |polls| && WellShaped(polls, offsets)
  {
    polls[k].now <= deadline && NothingBefore(polls, offsets, utf8, k, |offsets|)
  }

  predicate SilentBefore(polls: seq<Poll>, offsets: seq<nat>, utf8: seq<bv8> -> string, deadline: int, k: nat)
    requires k <= |polls| && WellShaped(polls, offsets)
  {
    forall i: nat :: i < k ==> Silent(polls, offsets, utf8, deadline, i)
  }

  /** Log t at poll k is the first that shows something, in time. */
  predicate FirstSeen(polls: seq<Poll>, offsets: seq<nat>, utf8: seq<bv8> -> string, deadline: int, k: nat, t: nat)
    requires WellShaped(polls, offsets)
  {
    && k < |polls| && t < |offsets|
    && SilentBefore(polls, offsets, utf8, deadline, k) && polls[k].now <= deadline
    && NothingBefore(polls, offsets, utf8, k, t) && Shows(polls, offsets, utf8, k, t) != Ok("")
  }

  function Told(shown: Result<string, string>): Outcome {
    match shown
    case Ok(code) => Found(code)
    case Err(message) => Throws(message)
  }

  lemma ScanStep(polls: seq<Poll>, offsets: seq<nat>, utf8: seq<bv8> -> string, k: nat, n: nat)
    requires WellShaped(polls, offsets) && k < |polls| && n < |offsets|
    ensures Scan(polls[k].files, offsets, utf8, n + 1) ==
            if !Scan(polls[k].files, offsets, utf8, n).StillPolling? then Scan(polls[k].files, offsets, utf8, n)
            else if Shows(polls, offsets, utf8, k, n) == Ok("") then StillPolling
            else Told(Shows(polls, offsets, utf8, k, n))
  {
  }

  /** Whatever is the first thing that the first n logs of poll k show is the outcome. */
  predicate TellsFirst(polls: seq<Poll>, offsets: seq<nat>, utf8: seq<bv8> -> string, k: nat, n: nat, r: Outcome)
    requires WellShaped(polls, offsets) && k < |polls| && n <= |offsets|
  {
    forall t: nat :: t < n && NothingBefore(polls, offsets, utf8, k, t) && Shows(polls, offsets, utf8, k, t) != Ok("")
      ==> r == Told(Shows(polls, offsets, utf8, k, t))
  }

  /** The first thing that is shown, as an outcome. */
  function FirstTold(shown: seq<Result<string, string>>, n: nat): Outcome
    requires n <= |shown|
  {
    if n == 0 then StillPolling
    else
      var earlier := FirstTold(shown, n - 1);
      if !earlier.StillPolling? then earlier
      else if shown[n - 1] == Ok("") then StillPolling
      else Told(shown[n - 1])
  }

  predicate AllEmpty(shown: seq<Result<string, string>>, n: nat) {
    forall u: nat :: u < n && u < |shown| ==> shown[u] == Ok("")
  }

  lemma {:induction false} FirstToldMeans(shown: seq<Result<string, string>>, n: nat)
    requires n <= |shown|
    ensures (var r := FirstTold(shown, n);
             && (r.StillPolling? <==> AllEmpty(shown, n))
             && !r.TimedOut?
             && forall t: nat :: t < n && AllEmpty(shown, t) && shown[t] != Ok("") ==> r == Told(shown[t]))
  {
    if n > 0 {
      FirstToldMeans(shown, n - 1);
      assert AllEmpty(shown, n) <==> AllEmpty(shown, n - 1) && shown[n - 1] == Ok("");
    }
  }

  lemma {:induction false} ScanIsFirstTold(polls: seq<Poll>, offsets: seq<nat>, utf8: seq<bv8> -> string, k: nat, n: nat,
                                           shown: seq<Result<string, string>>)
    requires WellShaped(polls, offsets) && k < |polls| && n <= |offsets| == |shown|
    requires forall t: nat :: t < |offsets| ==> shown[t] == Shows(polls, offsets, utf8, k, t)
    ensures Scan(polls[k].files, offsets, utf8, n) == FirstTold(shown, n)
  {
    if n > 0 {
      ScanIsFirstTold(polls, offsets, utf8, k, n - 1, shown);
      ScanStep(polls, offsets, utf8, k, n - 1);
    }
  }

  lemma ScanMeans(polls: seq<Poll>, offsets: seq<nat>, utf8: seq<bv8> -> string, k: nat, n: nat)
    requires WellShaped(polls, offsets) && k < |polls| && n <= |offsets|
    ensures (var r := Scan(polls[k].files, offsets, utf8, n);
             && (r.StillPolling? <==> NothingBefore(polls, offsets, utf8, k, n))
             && !r.TimedOut?
             && TellsFirst(polls, offsets, utf8, k, n, r))
  {
    var shown := seq(|offsets|, t requires 0 <= t < |offsets| => Shows(polls, offsets, utf8, k, t));
    ScanIsFirstTold(polls, offsets, utf8, k, n, shown);
    FirstToldMeans(shown, n);
    forall t: nat
      ensures AllEmpty(shown, t) <==> NothingBefore(polls, offsets, utf8, k, t)
    {
    }
  }

  lemma {:induction false} WaitsOnIff(polls: seq<Poll>, offsets: seq<nat>, utf8: seq<bv8> -> string, deadline: int, n: nat)
    requires WellShaped(polls, offsets) && n <= |polls|
    ensures Watch(polls, offsets, utf8, deadline, n).StillPolling? <==> SilentBefore(polls, offsets, utf8, deadline, n)
  {
    if n > 0 {
      WaitsOnIff(polls, offsets, utf8, deadline, n - 1);
      ScanMeans(polls, offsets, utf8, n - 1, |offsets|);
      assert SilentBefore(polls, offsets, utf8, deadline, n)
        <==> SilentBefore(polls, offsets, utf8, deadline, n - 1) && Silent(polls, offsets, utf8, deadline, n - 1);
    }
  }

  /** Poll k is the first after the deadline, and nothing was shown before it. */
  predicate Late(polls: seq<Poll>, offsets: seq<nat>, utf8: seq<bv8> -> string, deadline: int, k: nat)
    requires WellShaped(polls, offsets)
  {
    k < |polls| && SilentBefore(polls, offsets, utf8, deadline, k) && polls[k].now > deadline
  }

  lemma LateStep(polls: seq<Poll>, offsets: seq<nat>, utf8: seq<bv8> -> string, deadline: int, n: nat)
    requires WellShaped(polls, offsets) && n < |polls|
    ensures Watch(polls, offsets, utf8, deadline, n + 1).TimedOut?
        <==> Watch(polls, offsets, utf8, deadline, n).TimedOut? || Late(polls, offsets, utf8, deadline, n)
  {
    WaitsOnIff(polls, offsets, utf8, deadline, n);
    ScanMeans(polls, offsets, utf8, n, |offsets|);
  }

  lemma {:induction false} TimesOutIff(polls: seq<Poll>, offsets: seq<nat>, utf8: seq<bv8> -> string, deadline: int, n: nat)
    requires WellShaped(polls, offsets) && n <= |polls|
    ensures Watch(polls, offsets, utf8, deadline, n).TimedOut?
        <==> exists k: nat :: k < n && Late(polls, offsets, utf8, deadline, k)
  {
    if n > 0 {
      TimesOutIff(polls, offsets, utf8, deadline, n - 1);
      LateStep(polls, offsets, utf8, deadline, n - 1);
    }
  }

  lemma SeenAt(polls: seq<Poll>, offsets: seq<nat>, utf8: seq<bv8> -> string, deadline: int, k: nat, t: nat)
    requires WellShaped(polls, offsets) && FirstSeen(polls, offsets, utf8, deadline, k, t)
    ensures Watch(polls, offsets, utf8, deadline, |polls|) == Told(Shows(polls, offsets, utf8, k, t))
  {
    WaitsOnIff(polls, offsets, utf8, deadline, k);
    ScanMeans(polls, offsets, utf8, k, |offsets|);
    assert Watch(polls, offsets, utf8, deadline, k + 1) == Told(Shows(polls, offsets, utf8, k, t));
    WatchStops(polls, offsets, utf8, deadline, k + 1);
  }

  /** What waiting comes to, poll by poll and log by log: the code or error of the first log that shows
      something while all before showed nothing in time; a timeout exactly at the first poll after the
      deadline when nothing was shown before it; and otherwise it goes on. */
  lemma WaitMeans(polls: seq<Poll>, offsets: seq<nat>, utf8: seq<bv8> -> string, deadline: int)
    requires WellShaped(polls, offsets)
    ensures var r := Watch(polls, offsets, utf8, deadline, |polls|);
            && (r.StillPolling? <==> SilentBefore(polls, offsets, utf8, deadline, |polls|))
            && (r.TimedOut? <==> exists k: nat :: k < |polls| && Late(polls, offsets, utf8, deadline, k))
            && forall k: nat, t: nat :: FirstSeen(polls, offsets, utf8, deadline, k, t)
                 ==> r == Told(Shows(polls, offsets, utf8, k, t))
  {
    WaitsOnIff(polls, offsets, utf8, deadline, |polls|);
    TimesOutIff(polls, offsets, utf8, deadline, |polls|);
    forall k: nat, t: nat | FirstSeen(polls, offsets, utf8, deadline, k, t)
      ensures Watch(polls, offsets, utf8, deadline, |polls|) == Told(Shows(polls, offsets, utf8, k, t))
    {
      SeenAt(polls, offsets, utf8, deadline, k, t);
    }
  }

  /** waitForLoginCode over the polls that happen. */
  method WaitForLoginCode(polls: seq<Poll>, offsets: seq<nat>, utf8: seq<bv8> -> string, deadline: int)
    returns (r: Outcome)
    requires forall i :: 0 <= i < |polls| ==> |polls[i].files| == |offsets|
    ensures r == Watch(polls, offsets, utf8, deadline, |polls|)
  {
    for k := 0 to |polls|
      invariant Watch(polls, offsets, utf8, deadline, k).StillPolling?
    {
      r := TimedOut;
      if polls[k].now <= deadline {
        r := ScanLogs(polls[k].files, offsets, utf8);
      }
      if !r.StillPolling? {
        assert Watch(polls, offsets, utf8, deadline, k + 1) == r;
        WatchStops(polls, offsets, utf8, deadline, k + 1);
        return;
      }
    }
    r := StillPolling;
  }

  method ScanLogs(files: seq<Option<seq<bv8>>>, offsets: seq<nat>, utf8: seq<bv8> -> string) returns (r: Outcome)
    requires |files| == |offsets|
    ensures r == Scan(files, offsets, utf8, |files|)
  {
    r := StillPolling;
    var t := 0;
    while t < |files| && r.StillPolling?
      invariant t <= |files| && r == Scan(files, offsets, utf8, t)
      decreases |files| - t
    {
      var text := utf8(ReadFileSlice(files[t], offsets[t]));
      var extracted := Extract(text);
      if extracted.Err? {
        r := Throws(extracted.error);
      } else if extracted.value != "" {
        r := Found(extracted.value);
      }
      t := t + 1;
    }
    if t < |files| {
      ScanStops(files, offsets, utf8, t);
    }
  }

  lemma {:induction false} ScanStops(files: seq<Option<seq<bv8>>>, offsets: seq<nat>, utf8: seq<bv8> -> string, t: nat)
    requires |files| == |offsets| && t <= |files| && !Scan(files, offsets, utf8, t).StillPolling?
    ensures Scan(files, offsets, utf8, |files|) == Scan(files, offsets, utf8, t)
    decreases |files| - t
  {
    if t < |files| {
      ScanStops(files, offsets, utf8, t + 1);
    }
  }

  /** The polls saw the same bytes past the offsets. */
  predicate SameNews(p: Poll, q: Poll, offsets: seq<nat>) {
    && p.now == q.now && |p.files| == |q.files| == |offsets|
    && forall t :: 0 <= t < |offsets| ==> ReadFileSlice(p.files[t], offsets[t]) == ReadFileSlice(q.files[t], offsets[t])
  }

  lemma {:induction false} ScanSameNews(p: Poll, q: Poll, offsets: seq<nat>, utf8: seq<bv8> -> string, k: nat)
    requires SameNews(p, q, offsets) && k <= |offsets|
    ensures Scan(p.files, offsets, utf8, k) == Scan(q.files, offsets, utf8, k)
  {
    if k > 0 {
      ScanSameNews(p, q, offsets, utf8, k - 1);
    }
  }

  /** Links that were in the logs when the request was made have no influence on the code returned. */
  lemma {:induction false} OldLinksDoNotMatter(polls: seq<Poll>, polls': seq<Poll>, offsets: seq<nat>,
                                               utf8: seq<bv8> -> string, deadline: int, k: nat)
    requires |polls| == |polls'| && k <= |polls|
    requires forall i :: 0 <= i < |polls| ==> |polls[i].files| == |offsets| && |polls'[i].files| == |offsets|
    requires forall i :: 0 <= i < |polls| ==> SameNews(polls[i], polls'[i], offsets)
    ensures Watch(polls, offsets, utf8, deadline, k) == Watch(polls', offsets, utf8, deadline, k)
  {
    if k > 0 {
      OldLinksDoNotMatter(polls, polls', offsets, utf8, deadline, k - 1);
      assert SameNews(polls[k - 1], polls'[k - 1], offsets);
      ScanSameNews(polls[k - 1], polls'[k - 1], offsets, utf8, |offsets|);
    }
  }

  /** A log that only grew shows exactly what was appended since its size was taken. */
  lemma SliceIsTheNews(earlier: seq<bv8>, appended: seq<bv8>)
    ensures ReadFileSlice(Some(earlier + appended), |earlier|) == appended
  {
    assert (earlier + appended)[|earlier|..] == appended;
  }
}
