/**
  The picker window (class QJomeWindow and its search-box event filter):
  the search query, the key table, the key handlers, accepting an emoji,
  the eternal mode that hides instead of closing, and the info label.
  Widget calls are recorded as actions.
 */
module Window {

  import opened Wrappers
  import opened Strings
  import opened Hex
  import opened Emojis

  // ---------------------------------------------------------------------
  // Search query

  /** What the emoji view shows for a search text. */
  datatype Query = ShowAll | Find(cat: string, needles: string)

  /**
    Empty text shows every emoji. Text with exactly one '/' searches the
    category before it for the needles after it; any other text searches
    every category for the whole text.
   */
  function ParseQuery(text: string): (q: Query)
    ensures q.ShowAll? <==> text == []
    ensures text != [] && CountChar(text, '/') != 1 ==> q == Find([], text)
    ensures CountChar(text, '/') == 1 ==>
              && q.Find? && q.cat + "/" + q.needles == text
              && '/' !in q.cat && '/' !in q.needles
  {
    if text == [] then ShowAll
    else
      var parts := Split(text, '/');
      if |parts| != 2 then Find([], text)
      else
        JoinSplit(text, '/');
        assert Join(parts, "/") == parts[0] + "/" + Join(parts[1..], "/");
        Find(parts[0], parts[1])
  }

  /** A category and needles without '/' are recovered from their joined text. */
  lemma ParseQueryOfFind(cat: string, needles: string)
    requires '/' !in cat && '/' !in needles
    ensures ParseQuery(cat + "/" + needles) == Find(cat, needles)
  {
    var parts := [cat, needles];
    assert Join(parts[1..], "/") == needles;
    SplitJoin(parts, '/');
  }

  /** With two slashes the whole text is the needles, in every category. */
  lemma ParseQueryTwoSlashes(text: string)
    requires text == "a/b/c"
    ensures ParseQuery(text) == Find("", text)
  {
    SplitWithoutSep("c", '/');
    SplitAtFirstSep("b", '/', "c");
    assert "b" + "/" + "c" == "b/c";
    SplitAtFirstSep("a", '/', "b/c");
    assert "a" + "/" + "b/c" == text;
  }

  /** A trailing slash searches the category with empty needles. */
  lemma ParseQueryTrailingSlash(text: string)
    requires text == "cat/"
    ensures ParseQuery(text) == Find("cat", "")
  {
    ParseQueryOfFind("cat", "");
    assert "cat" + "/" + "" == text;
  }

  // ---------------------------------------------------------------------
  // Search-box key filter

  datatype Key =
    | KeyUp | KeyRight | KeyDown | KeyLeft
    | KeyF1 | KeyF2 | KeyF3 | KeyF4 | KeyF5
    | KeyPageUp | KeyPageDown | KeyHome | KeyEnd
    | KeyEnter | KeyReturn
    | OtherKey  // any key other than the fifteen above

  /** An event reaching the search box's filter. */
  datatype Event = KeyPress(key: Key) | OtherEvent

  /** The filter's signals, one per handled key; Enter and Return share one. */
  datatype KeySignal =
    | UpPressed | RightPressed | DownPressed | LeftPressed
    | F1Pressed | F2Pressed | F3Pressed | F4Pressed | F5Pressed
    | PgUpPressed | PgDownPressed | HomePressed | EndPressed
    | EnterPressed

  /** The keys the filter consumes. */
  const FilteredKeys: set<Key> := {
    KeyUp, KeyRight, KeyDown, KeyLeft, KeyF1, KeyF2, KeyF3, KeyF4, KeyF5,
    KeyPageUp, KeyPageDown, KeyHome, KeyEnd, KeyEnter, KeyReturn }

  /**
    The signal a key press raises; None when the event is passed on
    unfiltered. Some means the event is consumed.
   */
  function FilterEvent(ev: Event): (r: Option<KeySignal>)
    ensures r.Some? <==> ev.KeyPress? && ev.key in FilteredKeys
    ensures r == Some(EnterPressed) <==> ev == KeyPress(KeyEnter) || ev == KeyPress(KeyReturn)
  {
    match ev
    case OtherEvent => None
    case KeyPress(key) =>
      match key
      case KeyUp => Some(UpPressed)
      case KeyRight => Some(RightPressed)
      case KeyDown => Some(DownPressed)
      case KeyLeft => Some(LeftPressed)
      case KeyF1 => Some(F1Pressed)
      case KeyF2 => Some(F2Pressed)
      case KeyF3 => Some(F3Pressed)
      case KeyF4 => Some(F4Pressed)
      case KeyF5 => Some(F5Pressed)
      case KeyPageUp => Some(PgUpPressed)
      case KeyPageDown => Some(PgDownPressed)
      case KeyHome => Some(HomePressed)
      case KeyEnd => Some(EndPressed)
      case KeyEnter => Some(EnterPressed)
      case KeyReturn => Some(EnterPressed)
      case OtherKey => None
  }

  /** The key each signal comes from (Enter for the shared one). */
  function SignalKey(sig: KeySignal): Key {
    match sig
    case UpPressed => KeyUp
    case RightPressed => KeyRight
    case DownPressed => KeyDown
    case LeftPressed => KeyLeft
    case F1Pressed => KeyF1
    case F2Pressed => KeyF2
    case F3Pressed => KeyF3
    case F4Pressed => KeyF4
    case F5Pressed => KeyF5
    case PgUpPressed => KeyPageUp
    case PgDownPressed => KeyPageDown
    case HomePressed => KeyHome
    case EndPressed => KeyEnd
    case EnterPressed => KeyEnter
  }

  /** Every signal is raised by its key, and by no other key except Return, which raises Enter's. */
  lemma FilterEventKeys(sig: KeySignal, key: Key)
    ensures FilterEvent(KeyPress(SignalKey(sig))) == Some(sig)
    ensures FilterEvent(KeyPress(key)) == Some(sig) ==>
              key == SignalKey(sig) || (sig == EnterPressed && key == KeyReturn)
  {
    match key {
      case OtherKey =>
      case _ =>
    }
  }

  // ---------------------------------------------------------------------
  // Key handlers

  /** A cursor move in the emoji view; a row step of None is the view's default. */
  datatype CursorMove =
    | SelectPreviousRow(step: Option<nat>)
    | SelectNext
    | SelectNextRow(step: Option<nat>)
    | SelectPrevious
    | SelectFirst
    | SelectLast

  /** The number of rows Page Up and Page Down move. */
  const PageRows: nat := 10

  /** What a key signal does: move the cursor, or accept the selection with a tone. */
  datatype KeyAction = Move(move: CursorMove) | AcceptSelected(tone: SkinTone)

  function ActionFor(sig: KeySignal): (a: KeyAction)
    ensures a.Move? && (a.move.SelectPreviousRow? || a.move.SelectNextRow?) ==>
              (a.move.step == Some(PageRows) <==> sig == PgUpPressed || sig == PgDownPressed)
  {
    match sig
    case UpPressed => Move(SelectPreviousRow(None))
    case RightPressed => Move(SelectNext)
    case DownPressed => Move(SelectNextRow(None))
    case LeftPressed => Move(SelectPrevious)
    case PgUpPressed => Move(SelectPreviousRow(Some(PageRows)))
    case PgDownPressed => Move(SelectNextRow(Some(PageRows)))
    case HomePressed => Move(SelectFirst)
    case EndPressed => Move(SelectLast)
    case EnterPressed => AcceptSelected(NoTone)
    case F1Pressed => AcceptSelected(Light)
    case F2Pressed => AcceptSelected(MediumLight)
    case F3Pressed => AcceptSelected(Medium)
    case F4Pressed => AcceptSelected(MediumDark)
    case F5Pressed => AcceptSelected(Dark)
  }

  /** The signal that accepts with a tone: Enter for none, F1 to F5 from light to dark. */
  function ToneSignal(tone: SkinTone): KeySignal {
    match tone
    case NoTone => EnterPressed
    case Light => F1Pressed
    case MediumLight => F2Pressed
    case Medium => F3Pressed
    case MediumDark => F4Pressed
    case Dark => F5Pressed
  }

  /** Every tone has exactly one accepting signal, and the other signals move the cursor. */
  lemma AcceptSignalsAreTones(sig: KeySignal, tone: SkinTone)
    ensures ActionFor(sig) == AcceptSelected(tone) <==> sig == ToneSignal(tone)
    ensures ActionFor(sig).Move? <==> forall t :: sig != ToneSignal(t)
  {
    if ActionFor(sig).Move? {
      forall t ensures sig != ToneSignal(t) {
        assert ActionFor(ToneSignal(t)).AcceptSelected?;
      }
    } else {
      assert sig == ToneSignal(ActionFor(sig).tone);
    }
  }

  function OppositeSignal(sig: KeySignal): KeySignal {
    match sig
    case UpPressed => DownPressed
    case DownPressed => UpPressed
    case LeftPressed => RightPressed
    case RightPressed => LeftPressed
    case PgUpPressed => PgDownPressed
    case PgDownPressed => PgUpPressed
    case HomePressed => EndPressed
    case EndPressed => HomePressed
    case _ => sig
  }

  function OppositeMove(m: CursorMove): CursorMove {
    match m
    case SelectPreviousRow(step) => SelectNextRow(step)
    case SelectNextRow(step) => SelectPreviousRow(step)
    case SelectNext => SelectPrevious
    case SelectPrevious => SelectNext
    case SelectFirst => SelectLast
    case SelectLast => SelectFirst
  }

  /** Opposite navigation keys make opposite moves with the same step. */
  lemma OppositeKeysMoveOpposite(sig: KeySignal)
    requires ActionFor(sig).Move?
    ensures ActionFor(OppositeSignal(sig)) == Move(OppositeMove(ActionFor(sig).move))
    ensures OppositeSignal(OppositeSignal(sig)) == sig
  {
  }

  // ---------------------------------------------------------------------
  // Info label

  /** The fixed text between the bold name and the codepoint list. */
  const LabelOpen: string := "</b> <span style=\"color: #999\">("
  const LabelClose: string := ")</span>"

  /** The codepoints in lowercase hexadecimal. */
  function Hexes(cps: seq<Codepoint>): (hs: seq<string>)
    ensures |hs| == |cps|
  {
    if cps == [] then [] else Hexes(cps[..|cps| - 1]) + [LowerHex(cps[|cps| - 1])]
  }

  lemma {:induction false} HexAt(cps: seq<Codepoint>, i: nat)
    requires i < |cps|
    ensures Hexes(cps)[i] == LowerHex(cps[i])
  {
    if i < |cps| - 1 {
      HexAt(cps[..|cps| - 1], i);
    }
  }

  /**
    The info label: empty without an emoji; otherwise the bold name and the
    codepoints in parentheses separated by ", ". With no codepoints the two
    characters removed from the end are the opening ">(" of the list.
   */
  function InfoLabel(e: Option<Emoji>): string {
    match e
    case None => ""
    case Some(x) =>
      if x.codepoints == [] then "<b>" + x.name + LabelOpen[..|LabelOpen| - 2] + LabelClose
      else "<b>" + x.name + LabelOpen + Join(Hexes(x.codepoints), ", ") + LabelClose
  }

  /** Each codepoint followed by ", ", as the label loop appends them. */
  function Listed(cps: seq<Codepoint>): string {
    if cps == [] then [] else Listed(cps[..|cps| - 1]) + LowerHex(cps[|cps| - 1]) + ", "
  }

  lemma {:induction false} ListedJoin(cps: seq<Codepoint>)
    requires cps != []
    ensures Listed(cps) == Join(Hexes(cps), ", ") + ", "
  {
    var init := cps[..|cps| - 1];
    if init != [] {
      ListedJoin(init);
      JoinSnoc(Hexes(init), ", ", LowerHex(cps[|cps| - 1]));
    }
  }

  /** Cutting the last two characters of the built text and closing it gives the label. */
  lemma LabelOfListed(x: Emoji)
    ensures var text := "<b>" + x.name + LabelOpen + Listed(x.codepoints);
      2 <= |text| && text[..|text| - 2] + LabelClose == InfoLabel(Some(x))
  {
    var head := "<b>" + x.name + LabelOpen;
    if x.codepoints == [] {
      assert head + Listed(x.codepoints) == "<b>" + x.name + LabelOpen[..|LabelOpen| - 2] + ">(";
    } else {
      ListedJoin(x.codepoints);
      assert head + Listed(x.codepoints) == head + Join(Hexes(x.codepoints), ", ") + ", ";
    }
  }

  /**
    Builds the label as the window does: the name, each codepoint with a
    separator after it, then the last two characters cut and the closing
    text appended.
   */
  method InfoLabelText(e: Option<Emoji>) returns (text: string)
    ensures text == InfoLabel(e)
  {
    text := [];
    if e.Some? {
      var x := e.value;
      text := "<b>";
      text := text + x.name;
      text := text + LabelOpen;
      text := AppendListed(text, x.codepoints);
      LabelOfListed(x);
      text := text[..|text| - 2];
      text := text + LabelClose;
    }
  }

  /** The label loop: appends each codepoint in hexadecimal followed by ", ". */
  method AppendListed(start: string, cps: seq<Codepoint>) returns (text: string)
    ensures text == start + Listed(cps)
  {
    text := start;
    for i := 0 to |cps|
      invariant text == start + Listed(cps[..i])
    {
      ListedSnoc(cps, i);
      text := text + LowerHex(cps[i]) + ", ";
    }
    assert cps[..|cps|] == cps;
  }

  lemma ListedSnoc(cps: seq<Codepoint>, i: nat)
    requires i < |cps|
    ensures Listed(cps[..i + 1]) == Listed(cps[..i]) + LowerHex(cps[i]) + ", "
  {
    assert cps[..i + 1][..i] == cps[..i];
  }

  /** Removes the single space after each ", " separator. */
  function Unspaced(parts: seq<string>): Option<seq<string>> {
    if parts == [] then Some([])
    else if parts[0] != [] && parts[0][0] == ' ' then
      match Unspaced(parts[1..])
      case None => None
      case Some(rest) => Some([parts[0][1..]] + rest)
    else None
  }

  /** The values of hexadecimal strings, or None when one is not a digit string. */
  function HexValues(hs: seq<string>): Option<seq<nat>> {
    if hs == [] then Some([])
    else match HexValues(hs[..|hs| - 1])
      case None => None
      case Some(vs) =>
        var last := hs[|hs| - 1];
        if last != [] && forall i :: 0 <= i < |last| ==> IsHexDigit(last[i])
        then Some(vs + [HexValue(last)])
        else None
  }

  /** Reads a ", "-separated list of hexadecimal values back. */
  function ParseCodepointList(list: string): Option<seq<nat>> {
    var parts := Split(list, ',');
    match Unspaced(parts[1..])
    case None => None
    case Some(rest) => HexValues([parts[0]] + rest)
  }

  /** Each string prefixed with one space. */
  function Spaced(hs: seq<string>): (r: seq<string>)
    ensures |r| == |hs|
    ensures forall i :: 0 <= i < |hs| ==> r[i] == " " + hs[i]
  {
    if hs == [] then [] else [" " + hs[0]] + Spaced(hs[1..])
  }

  lemma {:induction false} UnspacedSpaced(hs: seq<string>)
    ensures Unspaced(Spaced(hs)) == Some(hs)
  {
    if hs != [] {
      var sp := Spaced(hs);
      assert sp[1..] == Spaced(hs[1..]);
      UnspacedSpaced(hs[1..]);
      assert (" " + hs[0])[1..] == hs[0];
      assert [hs[0]] + hs[1..] == hs;
    }
  }

  /** Joining with ", " is joining the space-prefixed tail with ",". */
  lemma {:induction false} JoinCommaSpace(hs: seq<string>)
    requires hs != []
    ensures Join(hs, ", ") == Join([hs[0]] + Spaced(hs[1..]), ",")
  {
    if |hs| > 1 {
      JoinCommaSpace(hs[1..]);
      var tail := Spaced(hs[1..]);
      assert hs[1..][1..] == hs[2..];
      assert tail == [" " + hs[1]] + Spaced(hs[2..]);
      assert ([hs[0]] + tail)[1..] == tail;
      assert Join(hs, ", ") == hs[0] + ", " + Join(hs[1..], ", ");
      assert Join([hs[0]] + tail, ",") == hs[0] + "," + Join(tail, ",");
      if |hs| > 2 {
        assert Join(tail, ",") == (" " + hs[1]) + "," + Join(Spaced(hs[2..]), ",");
      }
    }
  }

  lemma {:induction false} HexValuesOfHexes(cps: seq<Codepoint>)
    ensures HexValues(Hexes(cps)) == Some(cps)
  {
    if cps != [] {
      var hs := Hexes(cps);
      assert hs[..|hs| - 1] == Hexes(cps[..|cps| - 1]);
      HexValuesOfHexes(cps[..|cps| - 1]);
      HexValueOfLowerHex(cps[|cps| - 1]);
      assert cps[..|cps| - 1] + [cps[|cps| - 1]] == cps;
    }
  }

  /** The list in the info label gives back the emoji's codepoints. */
  lemma InfoLabelListRoundTrip(cps: seq<Codepoint>)
    requires cps != []
    ensures ParseCodepointList(Join(Hexes(cps), ", ")) == Some(cps)
  {
    var hs := Hexes(cps);
    var parts := [hs[0]] + Spaced(hs[1..]);
    JoinCommaSpace(hs);
    forall i | 0 <= i < |parts|
      ensures ',' !in parts[i]
    {
      HexAt(cps, i);
      if i > 0 {
        assert parts[i] == " " + hs[i];
      }
    }
    SplitJoin(parts, ',');
    assert parts[1..] == Spaced(hs[1..]);
    UnspacedSpaced(hs[1..]);
    assert [hs[0]] + hs[1..] == hs;
    HexValuesOfHexes(cps);
  }

  /**
    The label is empty exactly when there is no emoji; otherwise it starts
    with the bold name and ends with the closing text.
   */
  lemma InfoLabelShape(e: Option<Emoji>)
    ensures InfoLabel(e) == [] <==> e.None?
    ensures e.Some? ==>
              var s, head := InfoLabel(e), "<b>" + e.value.name + "</b>";
              && |head| + |LabelClose| <= |s|
              && s[..|head|] == head
              && s[|s| - |LabelClose|..] == LabelClose
  {
    if e.Some? {
      var x := e.value;
      var s := InfoLabel(e);
      var mid := if x.codepoints == [] then LabelOpen[..|LabelOpen| - 2] else LabelOpen + Join(Hexes(x.codepoints), ", ");
      assert s == ("<b>" + x.name + "</b>") + (mid[4..] + LabelClose);
    }
  }

  // ---------------------------------------------------------------------
  // The window

  /** What the window asks of its widgets, its dialog base and its owner. */
  datatype WindowAction =
    | ShowDialog
    | RebuildEmojis
    | ShowAllEmojis
    | FocusSearchBox
    | FindEmojis(cat: string, needles: string)
    | MoveCursor(move: CursorMove)
    | ChooseEmoji(emoji: Emoji, tone: SkinTone)
    | Hide
    | IgnoreClose
    | DialogAccept
    | DialogReject
    | DialogClose

  /** The widget call a query makes. */
  function QueryAction(q: Query): WindowAction {
    match q
    case ShowAll => ShowAllEmojis
    case Find(cat, needles) => FindEmojis(cat, needles)
  }

  /** The number of rebuilds of the emoji view. */
  ghost function Rebuilds(acts: seq<WindowAction>): nat {
    if acts == [] then 0
    else Rebuilds(acts[..|acts| - 1]) + (if acts[|acts| - 1] == RebuildEmojis then 1 else 0)
  }

  /** Whether the action ends the dialog the way the base dialog does. */
  predicate EndsDialog(a: WindowAction) {
    a == DialogAccept || a == DialogReject || a == DialogClose
  }

  /** What accepting does: hide when eternal, the dialog's accept otherwise. */
  function AcceptAction(eternal: bool): WindowAction {
    if eternal then Hide else DialogAccept
  }

  /** An eternal window never ends the dialog. */
  ghost predicate NeverEnds(acts: seq<WindowAction>, eternal: bool) {
    eternal ==> forall i :: 0 <= i < |acts| ==> !EndsDialog(acts[i])
  }

  /** Every chosen emoji is immediately followed by the window's accept. */
  ghost predicate ChoicesAccepted(acts: seq<WindowAction>, eternal: bool) {
    forall i :: 0 <= i < |acts| && acts[i].ChooseEmoji? ==>
      i + 1 < |acts| && acts[i + 1] == AcceptAction(eternal)
  }

  /** The history of a window: rebuilt once if built, never ended when eternal, every choice accepted. */
  ghost predicate WindowLog(acts: seq<WindowAction>, eternal: bool, built: bool) {
    && Rebuilds(acts) == (if built then 1 else 0)
    && NeverEnds(acts, eternal)
    && ChoicesAccepted(acts, eternal)
  }

  /** Actions that are no rebuild, no choice, and no dialog end for an eternal window. */
  ghost predicate Plain(more: seq<WindowAction>, eternal: bool) {
    forall i :: 0 <= i < |more| ==>
      more[i] != RebuildEmojis && !more[i].ChooseEmoji? && !(eternal && EndsDialog(more[i]))
  }

  lemma LogAppendPlain(acts: seq<WindowAction>, more: seq<WindowAction>, eternal: bool, built: bool)
    requires WindowLog(acts, eternal, built) && Plain(more, eternal)
    ensures WindowLog(acts + more, eternal, built)
  {
    RebuildsAppend(acts, more);
    RebuildsNone(more);
    var all := acts + more;
    forall i | 0 <= i < |all| && all[i].ChooseEmoji?
      ensures i + 1 < |all| && all[i + 1] == AcceptAction(eternal)
    {
      assert i < |acts| && all[i] == acts[i];
    }
  }

  lemma LogAppendRebuild(acts: seq<WindowAction>, eternal: bool)
    requires WindowLog(acts, eternal, false)
    ensures WindowLog(acts + [RebuildEmojis], eternal, true)
  {
    assert (acts + [RebuildEmojis])[..|acts|] == acts;
    var all := acts + [RebuildEmojis];
    forall i | 0 <= i < |all| && all[i].ChooseEmoji?
      ensures i + 1 < |all| && all[i + 1] == AcceptAction(eternal)
    {
      assert i < |acts| && all[i] == acts[i];
    }
  }

  lemma LogAppendChoice(acts: seq<WindowAction>, e: Emoji, tone: SkinTone, eternal: bool, built: bool)
    requires WindowLog(acts, eternal, built)
    ensures WindowLog(acts + [ChooseEmoji(e, tone), AcceptAction(eternal)], eternal, built)
  {
    var more := [ChooseEmoji(e, tone), AcceptAction(eternal)];
    RebuildsAppend(acts, more);
    RebuildsNone(more);
    var all := acts + more;
    forall i | 0 <= i < |all| && all[i].ChooseEmoji?
      ensures i + 1 < |all| && all[i + 1] == AcceptAction(eternal)
    {
      if i < |acts| {
        assert all[i] == acts[i];
      }
    }
  }

  lemma {:induction false} RebuildsAppend(a: seq<WindowAction>, b: seq<WindowAction>)
    ensures Rebuilds(a + b) == Rebuilds(a) + Rebuilds(b)
  {
    if b != [] {
      assert (a + b)[..|a + b| - 1] == a + b[..|b| - 1];
      RebuildsAppend(a, b[..|b| - 1]);
    } else {
      assert a + b == a;
    }
  }

  lemma {:induction false} RebuildsNone(b: seq<WindowAction>)
    requires forall i :: 0 <= i < |b| ==> b[i] != RebuildEmojis
    ensures Rebuilds(b) == 0
  {
    if b != [] {
      RebuildsNone(b[..|b| - 1]);
    }
  }

  class JomeWindow {
    const isEternal: bool
    /** The emoji under the view's cursor, if any. */
    var selectedEmoji: Option<Emoji>
    var emojisWidgetBuilt: bool
    var infoLabel: string
    /** Widget and owner calls so far, in order. */
    var actions: seq<WindowAction>

    ghost predicate Valid()
      reads this
    {
      WindowLog(actions, isEternal, emojisWidgetBuilt)
    }

    constructor (isEternal: bool)
      ensures Valid()
      ensures this.isEternal == isEternal
      ensures selectedEmoji == None && !emojisWidgetBuilt && infoLabel == [] && actions == []
    {
      this.isEternal := isEternal;
      selectedEmoji := None;
      emojisWidgetBuilt := false;
      infoLabel := [];
      actions := [];
    }

    method Reject()
      requires Valid()
      modifies this
      ensures Valid()
      ensures actions == old(actions) + [if isEternal then Hide else DialogReject]
      ensures selectedEmoji == old(selectedEmoji) && emojisWidgetBuilt == old(emojisWidgetBuilt)
      ensures infoLabel == old(infoLabel)
    {
      var a := if isEternal then Hide else DialogReject;
      LogAppendPlain(actions, [a], isEternal, emojisWidgetBuilt);
      actions := actions + [a];
    }

    method Accept()
      requires Valid()
      modifies this
      ensures Valid()
      ensures actions == old(actions) + [AcceptAction(isEternal)]
      ensures selectedEmoji == old(selectedEmoji) && emojisWidgetBuilt == old(emojisWidgetBuilt)
      ensures infoLabel == old(infoLabel)
    {
      var a := if isEternal then Hide else DialogAccept;
      LogAppendPlain(actions, [a], isEternal, emojisWidgetBuilt);
      actions := actions + [a];
    }

    /** An eternal window ignores the close request and hides. */
    method CloseEvent()
      requires Valid()
      modifies this
      ensures Valid()
      ensures actions == old(actions) + (if isEternal then [IgnoreClose, Hide] else [DialogClose])
      ensures selectedEmoji == old(selectedEmoji) && emojisWidgetBuilt == old(emojisWidgetBuilt)
      ensures infoLabel == old(infoLabel)
    {
      var more := if isEternal then [IgnoreClose, Hide] else [DialogClose];
      LogAppendPlain(actions, more, isEternal, emojisWidgetBuilt);
      actions := actions + more;
    }

    /** Shown: the view is rebuilt the first time only, then shows everything and focuses the search box. */
    method ShowEvent()
      requires Valid()
      modifies this
      ensures Valid()
      ensures emojisWidgetBuilt
      ensures actions == old(actions) + [ShowDialog]
                         + (if old(emojisWidgetBuilt) then [] else [RebuildEmojis])
                         + [ShowAllEmojis, FocusSearchBox]
      ensures selectedEmoji == old(selectedEmoji) && infoLabel == old(infoLabel)
    {
      LogAppendPlain(actions, [ShowDialog], isEternal, emojisWidgetBuilt);
      actions := actions + [ShowDialog];
      if !emojisWidgetBuilt {
        LogAppendRebuild(actions, isEternal);
        actions := actions + [RebuildEmojis];
        emojisWidgetBuilt := true;
      }
      LogAppendPlain(actions, [ShowAllEmojis, FocusSearchBox], isEternal, emojisWidgetBuilt);
      actions := actions + [ShowAllEmojis, FocusSearchBox];
    }

    method SearchTextChanged(text: string)
      requires Valid()
      modifies this
      ensures Valid()
      ensures actions == old(actions) + [QueryAction(ParseQuery(text))]
      ensures selectedEmoji == old(selectedEmoji) && emojisWidgetBuilt == old(emojisWidgetBuilt)
      ensures infoLabel == old(infoLabel)
    {
      var a := QueryAction(ParseQuery(text));
      LogAppendPlain(actions, [a], isEternal, emojisWidgetBuilt);
      actions := actions + [a];
    }

    /** The owner's callback receives the emoji, then the window accepts. */
    method AcceptEmoji(e: Emoji, tone: SkinTone)
      requires Valid()
      modifies this
      ensures Valid()
      ensures actions == old(actions) + [ChooseEmoji(e, tone), AcceptAction(isEternal)]
      ensures selectedEmoji == old(selectedEmoji) && emojisWidgetBuilt == old(emojisWidgetBuilt)
      ensures infoLabel == old(infoLabel)
    {
      LogAppendChoice(actions, e, tone, isEternal, emojisWidgetBuilt);
      // the callback, then the window's own accept
      actions := actions + [ChooseEmoji(e, tone), AcceptAction(isEternal)];
    }

    /** Accepting with nothing selected does nothing. */
    method AcceptSelectedEmoji(tone: SkinTone)
      requires Valid()
      modifies this
      ensures Valid()
      ensures actions == old(actions) +
                (if selectedEmoji.Some? then [ChooseEmoji(selectedEmoji.value, tone), AcceptAction(isEternal)] else [])
      ensures selectedEmoji == old(selectedEmoji) && emojisWidgetBuilt == old(emojisWidgetBuilt)
      ensures infoLabel == old(infoLabel)
    {
      if selectedEmoji.Some? {
        AcceptEmoji(selectedEmoji.value, tone);
      }
    }

    /** A filtered key signal: a cursor move, or accepting the selection with a tone. */
    method KeySignalRaised(sig: KeySignal)
      requires Valid()
      modifies this
      ensures Valid()
      ensures ActionFor(sig).Move? ==> actions == old(actions) + [MoveCursor(ActionFor(sig).move)]
      ensures ActionFor(sig).AcceptSelected? ==>
                actions == old(actions) +
                  (if selectedEmoji.Some? then [ChooseEmoji(selectedEmoji.value, ActionFor(sig).tone), AcceptAction(isEternal)] else [])
      ensures selectedEmoji == old(selectedEmoji) && emojisWidgetBuilt == old(emojisWidgetBuilt)
      ensures infoLabel == old(infoLabel)
    {
      match ActionFor(sig) {
        case Move(m) =>
          LogAppendPlain(actions, [MoveCursor(m)], isEternal, emojisWidgetBuilt);
          actions := actions + [MoveCursor(m)];
        case AcceptSelected(tone) =>
          AcceptSelectedEmoji(tone);
      }
    }

    /** A click accepts the clicked emoji without a tone. */
    method EmojiClicked(e: Emoji)
      requires Valid()
      modifies this
      ensures Valid()
      ensures actions == old(actions) + [ChooseEmoji(e, NoTone), AcceptAction(isEternal)]
      ensures selectedEmoji == old(selectedEmoji) && emojisWidgetBuilt == old(emojisWidgetBuilt)
      ensures infoLabel == old(infoLabel)
    {
      AcceptEmoji(e, NoTone);
    }

    method UpdateInfoLabel(e: Option<Emoji>)
      modifies this
      ensures infoLabel == InfoLabel(e)
      ensures actions == old(actions) && selectedEmoji == old(selectedEmoji)
      ensures emojisWidgetBuilt == old(emojisWidgetBuilt)
    {
      infoLabel := InfoLabelText(e);
    }

    /** The selection moved: it is remembered and described. */
    method EmojiSelectionChanged(e: Option<Emoji>)
      requires Valid()
      modifies this
      ensures Valid()
      ensures selectedEmoji == e && infoLabel == InfoLabel(e)
      ensures actions == old(actions) && emojisWidgetBuilt == old(emojisWidgetBuilt)
    {
      selectedEmoji := e;
      UpdateInfoLabel(e);
    }

    /** The pointer is over an emoji: it is described, the selection is kept. */
    method EmojiHoverEntered(e: Emoji)
      requires Valid()
      modifies this
      ensures Valid()
      ensures infoLabel == InfoLabel(Some(e))
      ensures actions == old(actions) && selectedEmoji == old(selectedEmoji)
      ensures emojisWidgetBuilt == old(emojisWidgetBuilt)
    {
      UpdateInfoLabel(Some(e));
    }

    /** The pointer left an emoji: the label describes the selection again. */
    method EmojiHoverLeaved(e: Emoji)
      requires Valid()
      modifies this
      ensures Valid()
      ensures infoLabel == InfoLabel(selectedEmoji)
      ensures actions == old(actions) && selectedEmoji == old(selectedEmoji)
      ensures emojisWidgetBuilt == old(emojisWidgetBuilt)
    {
      UpdateInfoLabel(selectedEmoji);
    }
  }
}
