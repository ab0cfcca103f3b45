/**
  The picker's output side (jome.cpp): the -f format choice, the rendering
  of a chosen emoji, the external command line, and what the application
  does when an emoji is chosen, when the picker is cancelled and when the
  server receives a command.
 */
module Output {

  import opened Wrappers
  import opened Strings
  import opened Hex
  import opened Emojis

  datatype Format = Utf8 | CodepointsHex

  /** The default value of the -f option. */
  const DefaultFormatName: string := "utf-8"

  /** A command-line error: the line written to the standard error, with its newline, and the exit status. */
  datatype CliError = CliError(message: string, exitStatus: int)

  /** The command-line options the model uses (parseArgs' result). */
  datatype Params = Params(fmt: Format, noNewline: bool, serverName: string, cmd: string, cpPrefix: string)

  /** The name that selects a format. */
  function FormatName(fmt: Format): string {
    match fmt
    case Utf8 => "utf-8"
    case CodepointsHex => "cp"
  }

  /** The format named by the -f option; any other name is an error that exits with status 1. */
  function ParseFormat(name: string): (r: Result<Format, CliError>)
    ensures r.Ok? ==> name == FormatName(r.value)
    ensures forall fmt :: name == FormatName(fmt) ==> r == Ok(fmt)
    ensures r.Err? <==> name != "utf-8" && name != "cp"
    ensures r.Err? ==> r.error == CliError("Command-line error: unknown format `" + name + "`.\n", 1)
  {
    if name == "utf-8" then Ok(Utf8)
    else if name == "cp" then Ok(CodepointsHex)
    else Err(CliError("Command-line error: unknown format `" + name + "`.\n", 1))
  }

  /** Each format's name selects it, the default selects UTF-8, and no other name selects a format. */
  lemma FormatNameRoundTrip(fmt: Format, name: string)
    ensures ParseFormat(FormatName(fmt)) == Ok(fmt)
    ensures ParseFormat(DefaultFormatName) == Ok(Utf8)
    ensures ParseFormat(name).Ok? ==> name == FormatName(ParseFormat(name).value)
  {
  }

  /** The line handed to the process runner: the command, one space, the argument. */
  function CommandLine(cmd: string, arg: string): (line: string)
    ensures |line| == |cmd| + 1 + |arg|
    ensures line[..|cmd|] == cmd && line[|cmd|] == ' ' && line[|cmd| + 1..] == arg
  {
    cmd + " " + arg
  }

  /** The codepoints rendered: the tone variant only when the emoji has one. */
  function ChosenCodepoints(e: Emoji, tone: SkinTone): seq<Codepoint> {
    if e.hasSkinToneSupport then e.codepointsWithSkinTone(tone) else e.codepoints
  }

  /** Each codepoint as the prefix followed by its lowercase hexadecimal digits. */
  function Items(prefix: string, cps: seq<Codepoint>): (items: seq<string>)
    ensures |items| == |cps|
  {
    if cps == [] then [] else Items(prefix, cps[..|cps| - 1]) + [prefix + LowerHex(cps[|cps| - 1])]
  }

  /** Item i is the prefix followed by the digits of codepoint i. */
  lemma {:induction false} ItemAt(prefix: string, cps: seq<Codepoint>, i: nat)
    requires i < |cps|
    ensures Items(prefix, cps)[i] == prefix + LowerHex(cps[i])
  {
    if i < |cps| - 1 {
      ItemAt(prefix, cps[..|cps| - 1], i);
    }
  }

  /**
    What the C library needs to render the codepoints: a nonempty list (the
    trailing-space removal shortens the output by one), a prefix without NUL
    (it is passed as a C string), and room in the 32-byte buffer for each
    item, its space and the terminating NUL.
   */
  predicate Renderable(prefix: string, cps: seq<Codepoint>) {
    && cps != []
    && '\0' !in prefix
    && forall i :: 0 <= i < |cps| ==> |prefix| + |LowerHex(cps[i])| + 2 <= 32
  }

  /**
    Every 32-bit codepoint prints in at most 8 digits, so any nonempty list
    renders with a NUL-free prefix of at most 22 characters.
   */
  lemma PrefixFits(prefix: string, cps: seq<Codepoint>)
    requires cps != [] && '\0' !in prefix && |prefix| <= 22
    ensures Renderable(prefix, cps)
  {
    forall i | 0 <= i < |cps|
      ensures |prefix| + |LowerHex(cps[i])| + 2 <= 32
    {
      LowerHexLength32(cps[i]);
    }
  }

  /** Whether formatEmoji is defined for these arguments. */
  predicate CanFormat(e: Emoji, tone: SkinTone, fmt: Format, prefix: string) {
    fmt == CodepointsHex ==> Renderable(prefix, ChosenCodepoints(e, tone))
  }

  /**
    The rendered emoji before the optional newline. UTF-8 output is the
    emoji's own string whatever the tone: the tone variant is looked up and
    then not used. Codepoint output is the items separated by single spaces.
   */
  function Body(e: Emoji, tone: SkinTone, fmt: Format, prefix: string): string
    requires CanFormat(e, tone, fmt, prefix)
  {
    match fmt
    case Utf8 => e.str
    case CodepointsHex => Join(Items(prefix, ChosenCodepoints(e, tone)), " ")
  }

  /** The full output: the body, then a newline unless noNl. */
  function Formatted(e: Emoji, tone: SkinTone, fmt: Format, prefix: string, noNl: bool): string
    requires CanFormat(e, tone, fmt, prefix)
  {
    Body(e, tone, fmt, prefix) + (if noNl then "" else "\n")
  }

  /** Each item followed by a space, as the loop appends them. */
  function Spelled(prefix: string, cps: seq<Codepoint>): string {
    if cps == [] then [] else Spelled(prefix, cps[..|cps| - 1]) + (prefix + LowerHex(cps[|cps| - 1]) + " ")
  }

  lemma SpelledSnoc(prefix: string, cps: seq<Codepoint>, i: nat)
    requires i < |cps|
    ensures Spelled(prefix, cps[..i + 1]) == Spelled(prefix, cps[..i]) + (prefix + LowerHex(cps[i]) + " ")
  {
    assert cps[..i + 1][..i] == cps[..i];
  }

  lemma {:induction false} SpelledJoin(prefix: string, cps: seq<Codepoint>)
    requires cps != []
    ensures Spelled(prefix, cps) == Join(Items(prefix, cps), " ") + " "
  {
    var init := cps[..|cps| - 1];
    var items := Items(prefix, cps);
    assert items == Items(prefix, init) + [prefix + LowerHex(cps[|cps| - 1])];
    if init != [] {
      SpelledJoin(prefix, init);
      JoinSnoc(Items(prefix, init), " ", prefix + LowerHex(cps[|cps| - 1]));
    }
  }

  /**
    The codepoint loop of formatEmoji: each item is appended with a trailing
    space, and the last space is removed at the end.
   */
  method RenderCodepoints(prefix: string, cps: seq<Codepoint>) returns (output: string)
    requires Renderable(prefix, cps)
    ensures output == Join(Items(prefix, cps), " ")
  {
    output := [];
    for i := 0 to |cps|
      invariant output == Spelled(prefix, cps[..i])
    {
      SpelledSnoc(prefix, cps, i);
      output := output + (prefix + LowerHex(cps[i]) + " ");
    }
    assert cps[..|cps|] == cps;
    SpelledJoin(prefix, cps);
    output := output[..|output| - 1];
  }

  /** Renders an emoji in the given format, with a newline unless noNl. */
  method FormatEmoji(e: Emoji, tone: SkinTone, fmt: Format, prefix: string, noNl: bool) returns (output: string)
    requires CanFormat(e, tone, fmt, prefix)
    ensures output == Formatted(e, tone, fmt, prefix, noNl)
  {
    match fmt {
      case Utf8 =>
        // The tone variant is looked up but the output is the plain string.
        var str := if e.hasSkinToneSupport then e.strWithSkinTone(tone) else e.str;
        output := e.str;
      case CodepointsHex =>
        var cps := if e.hasSkinToneSupport then e.codepointsWithSkinTone(tone) else e.codepoints;
        output := RenderCodepoints(prefix, cps);
    }
    if !noNl {
      output := output + "\n";
    }
  }

  /** UTF-8 output never depends on the skin tone. */
  lemma Utf8IgnoresTone(e: Emoji, t1: SkinTone, t2: SkinTone, prefix: string, noNl: bool)
    ensures Formatted(e, t1, Utf8, prefix, noNl) == Formatted(e, t2, Utf8, prefix, noNl)
    ensures Body(e, t1, Utf8, prefix) == e.str
  {
  }

  /** Without skin-tone support the codepoint output does not depend on the tone. */
  lemma CodepointsToneNeedsSupport(e: Emoji, t1: SkinTone, t2: SkinTone, prefix: string)
    requires !e.hasSkinToneSupport
    requires CanFormat(e, t1, CodepointsHex, prefix)
    ensures CanFormat(e, t2, CodepointsHex, prefix)
    ensures Body(e, t1, CodepointsHex, prefix) == Body(e, t2, CodepointsHex, prefix)
  {
  }

  predicate AllHexDigits(s: string) {
    forall i :: 0 <= i < |s| ==> IsHexDigit(s[i])
  }

  /** The value of one item: the prefix, then at least one hexadecimal digit. */
  function ParseItem(prefix: string, item: string): Option<nat> {
    if |prefix| < |item| && item[..|prefix|] == prefix && AllHexDigits(item[|prefix|..])
    then Some(HexValue(item[|prefix|..]))
    else None
  }

  /** The values of all items, or None when one of them does not parse. */
  function ParseItems(prefix: string, items: seq<string>): Option<seq<nat>> {
    if items == [] then Some([])
    else
      var init := ParseItems(prefix, items[..|items| - 1]);
      var last := ParseItem(prefix, items[|items| - 1]);
      if init.Some? && last.Some? then Some(init.value + [last.value]) else None
  }

  /** Reads codepoint output back: space-separated items. */
  function ParseCodepoints(prefix: string, body: string): Option<seq<nat>> {
    ParseItems(prefix, Split(body, ' '))
  }

  /** One item reads back as its codepoint. */
  lemma ParseItemOfItem(prefix: string, cp: Codepoint)
    ensures ParseItem(prefix, prefix + LowerHex(cp)) == Some(cp)
  {
    var item := prefix + LowerHex(cp);
    assert item[..|prefix|] == prefix && item[|prefix|..] == LowerHex(cp);
    HexValueOfLowerHex(cp);
  }

  lemma {:induction false} ParseItemsOfItems(prefix: string, cps: seq<Codepoint>)
    ensures ParseItems(prefix, Items(prefix, cps)) == Some(cps)
  {
    if cps != [] {
      var init, last := cps[..|cps| - 1], cps[|cps| - 1];
      var items, initItems, lastItem := Items(prefix, cps), Items(prefix, init), prefix + LowerHex(last);
      assert items == initItems + [lastItem];
      assert items[..|items| - 1] == initItems;
      assert items[|items| - 1] == lastItem;
      ParseItemsOfItems(prefix, init);
      ParseItemOfItem(prefix, last);
      assert ParseItems(prefix, items) == Some(init + [last]);
      assert init + [last] == cps;
    }
  }

  /**
    Codepoint output determines the codepoints: when the prefix has no
    space, reading the body back gives the rendered codepoints, so items are
    single-space separated with no trailing space.
   */
  lemma CodepointsRoundTrip(e: Emoji, tone: SkinTone, prefix: string)
    requires CanFormat(e, tone, CodepointsHex, prefix)
    requires ' ' !in prefix
    ensures ParseCodepoints(prefix, Body(e, tone, CodepointsHex, prefix)) == Some(ChosenCodepoints(e, tone))
  {
    var cps := ChosenCodepoints(e, tone);
    var items := Items(prefix, cps);
    forall i | 0 <= i < |items|
      ensures ' ' !in items[i]
    {
      ItemAt(prefix, cps, i);
    }
    SplitJoin(items, ' ');
    ParseItemsOfItems(prefix, cps);
  }

  /** What the application does in reaction to an event. */
  datatype AppAction =
    | SendToClient(reply: string)
    | WriteStdout(text: string)
    | ExecCommand(line: string)
    | HideWindow
    | ShowWindow
    | AddRecentEmoji(emoji: Emoji)
    | RefreshEmojis
    | QuitApp
    | ExitApp(status: int)

  /** A server exists exactly when a server name was given. */
  predicate HasServer(p: Params) {
    p.serverName != []
  }

  /** The string an emoji choice produces: no newline when a command is configured. */
  function ChosenOutput(p: Params, e: Emoji, tone: SkinTone): string
    requires CanFormat(e, tone, p.fmt, p.cpPrefix)
  {
    Formatted(e, tone, p.fmt, p.cpPrefix, p.noNewline || p.cmd != [])
  }

  /** Whether the actions end the process. */
  predicate Ends(acts: seq<AppAction>) {
    exists i :: 0 <= i < |acts| && (acts[i] == QuitApp || acts[i].ExitApp?)
  }

  /**
    An emoji was chosen. The actions are in the order they take effect:
    first the immediate ones, then the zero-delay timers, then the command
    20 ms later and the quit that follows it.
   */
  function OnEmojiChosen(p: Params, e: Emoji, tone: SkinTone): (acts: seq<AppAction>)
    requires CanFormat(e, tone, p.fmt, p.cpPrefix)
    ensures 4 <= |acts|
  {
    var out := ChosenOutput(p, e, tone);
    var exec := ExecCommand(CommandLine(p.cmd, out));
    if HasServer(p) && p.cmd == [] then
      [SendToClient(out), WriteStdout(out), HideWindow, AddRecentEmoji(e), RefreshEmojis]
    else if HasServer(p) then
      [SendToClient(out), WriteStdout(out), HideWindow, AddRecentEmoji(e), RefreshEmojis, exec]
    else if p.cmd == [] then
      [WriteStdout(out), HideWindow, AddRecentEmoji(e), QuitApp]
    else
      [WriteStdout(out), HideWindow, AddRecentEmoji(e), exec, QuitApp]
  }

  /** A choice writes the output to the standard output exactly once. */
  lemma EmojiChosenStdout(p: Params, e: Emoji, tone: SkinTone)
    requires CanFormat(e, tone, p.fmt, p.cpPrefix)
    ensures var acts, k := OnEmojiChosen(p, e, tone), if HasServer(p) then 1 else 0;
      && acts[k] == WriteStdout(ChosenOutput(p, e, tone))
      && (HasServer(p) ==> acts[0] == SendToClient(ChosenOutput(p, e, tone)))
      && forall i :: 0 <= i < |acts| && i != k ==> !acts[i].WriteStdout?
  {
  }

  /**
    A choice sends the output to the client exactly when a server exists,
    and runs the command line built from it exactly when a command is
    configured; the output then has no newline.
   */
  lemma EmojiChosenReply(p: Params, e: Emoji, tone: SkinTone)
    requires CanFormat(e, tone, p.fmt, p.cpPrefix)
    ensures var acts, out := OnEmojiChosen(p, e, tone), ChosenOutput(p, e, tone);
      && (SendToClient(out) in acts <==> HasServer(p))
      && (ExecCommand(CommandLine(p.cmd, out)) in acts <==> p.cmd != [])
      && (p.cmd != [] ==> out == Body(e, tone, p.fmt, p.cpPrefix))
  {
  }

  /**
    A choice always hides the window and records the emoji as recent, never
    exits with a status, and refreshes the emoji list exactly when a server
    exists.
   */
  lemma EmojiChosenWindow(p: Params, e: Emoji, tone: SkinTone)
    requires CanFormat(e, tone, p.fmt, p.cpPrefix)
    ensures var acts := OnEmojiChosen(p, e, tone);
      && HideWindow in acts && AddRecentEmoji(e) in acts
      && (RefreshEmojis in acts <==> HasServer(p))
      && forall i :: 0 <= i < |acts| ==> !acts[i].ExitApp?
  {
  }

  /**
    A choice quits the application exactly when there is no server, as the
    last action, right after the command when one is configured.
   */
  lemma EmojiChosenQuit(p: Params, e: Emoji, tone: SkinTone)
    requires CanFormat(e, tone, p.fmt, p.cpPrefix)
    ensures var acts := OnEmojiChosen(p, e, tone);
      && (QuitApp in acts <==> !HasServer(p))
      && (QuitApp in acts ==> acts[|acts| - 1] == QuitApp)
      && (p.cmd != [] && !HasServer(p) ==> acts[|acts| - 2].ExecCommand?)
  {
  }

  /** The picker was cancelled: an empty reply with a server, otherwise exit with status 1. */
  function OnCanceled(p: Params): (acts: seq<AppAction>)
    ensures |acts| == 1
    ensures SendToClient("") in acts <==> HasServer(p)
    ensures ExitApp(1) in acts <==> !HasServer(p)
    ensures QuitApp !in acts
  {
    if HasServer(p) then [SendToClient("")] else [ExitApp(1)]
  }

  /** A command received by the server. */
  datatype ServerCommand = QuitCommand | OtherCommand

  /** QUIT replies with an empty message and quits 10 ms later; any other command shows the window. */
  function OnClientRequested(cmd: ServerCommand): (acts: seq<AppAction>)
    ensures QuitApp in acts <==> cmd == QuitCommand
    ensures ShowWindow in acts <==> cmd != QuitCommand
    ensures cmd == QuitCommand ==> acts[0] == SendToClient("") && acts[|acts| - 1] == QuitApp
    ensures forall i :: 0 <= i < |acts| ==> !acts[i].ExitApp?
  {
    match cmd
    case QuitCommand => [SendToClient(""), QuitApp]
    case OtherCommand => [ShowWindow]
  }

  /** At start-up the window is shown only when there is no server. */
  function OnStartup(p: Params): (acts: seq<AppAction>)
    ensures ShowWindow in acts <==> !HasServer(p)
    ensures !Ends(acts)
  {
    if HasServer(p) then [] else [ShowWindow]
  }

  /**
    Without a server the process ends after the first choice or cancel;
    with a server it stays resident through both and ends only on QUIT.
   */
  lemma ResidentIffServer(p: Params, e: Emoji, tone: SkinTone)
    requires CanFormat(e, tone, p.fmt, p.cpPrefix)
    ensures Ends(OnEmojiChosen(p, e, tone)) <==> !HasServer(p)
    ensures Ends(OnCanceled(p)) <==> !HasServer(p)
    ensures Ends(OnClientRequested(QuitCommand)) && !Ends(OnClientRequested(OtherCommand))
  {
    var chosen := OnEmojiChosen(p, e, tone);
    if !HasServer(p) {
      var i :| 0 <= i < |chosen| && chosen[i] == QuitApp;
    }
    assert OnCanceled(p)[0] in OnCanceled(p);
    assert OnClientRequested(QuitCommand)[1] == QuitApp;
  }
}
