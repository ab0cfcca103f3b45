# jome core, modelled in Dafny

jome is a Qt emoji picker. This project models the parts of it that decide
what the program does, leaving out how it draws:

- **The wake-up channel.** Class `QWakeUpServer`, jome's side, holds one
  active peer and a keyword buffer. It reads the peer's bytes one at a time
  and emits `wakeUp` for "wake" and `quit` for "quit". Class
  `QWakeUpClient`, the `jome-wake-up` side, connects, writes the keyword its
  quit flag selects, and disconnects.
  - The keyword protocol is a set of pure functions: `Check` inspects the
    buffer, `Feed` handles one ready-read notification, and `FeedAll`
    covers the life of a connection.
  - The two classes are imperative models proved against those functions.
  - Module `RoundTrip` puts the two classes together. What the client
    writes, cut in any way into notifications, makes a resident server
    with a free slot emit exactly the matching signal, whatever an earlier
    peer left in its buffer.
- **The output side of `jome.cpp`.** This covers:
  - the `-f` format choice;
  - `formatEmoji`, which gives UTF-8 or prefixed lowercase hexadecimal
    codepoints, with an optional newline;
  - the external command line;
  - the reactions to a choice, to a cancel, to a server command and at
    start-up.

  Codepoint output comes with a decoder, and reading the output back gives
  the codepoints.
- **The picker window.** This covers:
  - the search-box key filter;
  - the search-query split at '/';
  - the key handlers, which move the cursor or accept with a skin tone;
  - accepting, rejecting and closing, where an eternal window hides instead
    of ending the dialog;
  - the info label, which comes with a decoder for its codepoint list.

  Class `JomeWindow` records its widget calls as actions. It keeps an
  invariant about that history: the view is rebuilt at most once, an
  eternal window never ends the dialog, and every choice is followed by the
  window's accept.

Modules:

| module | file | contents |
|---|---|---|
| `Wrappers` | `wrappers.dfy` | `Option` and `Result` |
| `Strings` | `strings.dfy` | split and join at a separator |
| `Hex` | `hex.dfy` | lowercase hexadecimal printing and its inverse |
| `Emojis` | `emojis.dfy` | the emoji record and skin tones |
| `WakeUpProtocol` | `wake_up_protocol.dfy` | the keyword protocol as functions |
| `Server` | `wake_up_server.dfy` | `QWakeUpServer` |
| `Client` | `wake_up_client.dfy` | `QWakeUpClient` |
| `RoundTrip` | `round_trip.dfy` | client and server together |
| `Output` | `output.dfy` | `jome.cpp` |
| `Window` | `jome_window.dfy` | `QJomeWindow` and `QSearchBoxEventFilter` |

Two behaviours of the code are worth knowing:

- **"wakewake" in one read signals WakeUp twice.** The server checks the
  buffer once more after the last byte (`q-wake-up-server.cpp:86`), so the
  second "wake" is complete at that check
  (`WakeUpProtocol.WakeWakeInOneRead`).
- **UTF-8 output never carries the skin tone.** `formatEmoji` looks up the
  tone variant of the UTF-8 string and then outputs the plain string
  (`jome.cpp:109-115`, `Output.Utf8IgnoresTone`).

## Model

| member | source | states |
|---|---|---|
| `Strings.Split` | jome/q-jome-window.cpp:309 | k separators give k + 1 parts, and no part contains the separator |
| `Strings.JoinSplit` | jome/q-jome-window.cpp:309 | joining the parts with the separator gives back the split text |
| `Strings.SplitJoin` | jome/q-jome-window.cpp:309 | splitting a join of separator-free parts gives back the parts |
| `Strings.SplitWithoutSep` | jome/q-jome-window.cpp:309 | text without the separator is one part |
| `Strings.SplitAtFirstSep` | jome/q-jome-window.cpp:309 | a separator after a separator-free prefix ends the first part |
| `Strings.CountChar` | jome/q-jome-window.cpp:309 | the count is at most the length, and is zero exactly when the character is absent |
| `Hex.LowerHex` | jome/jome.cpp:132-133 | %x output is nonempty and all lowercase hex digits, starts with '0' only for zero, and has no space or comma |
| `Hex.HexValueOfLowerHex` | jome/jome.cpp:132-133 | reading the printed digits back gives the printed value |
| `Hex.LowerHexInjective` | jome/q-jome-window.cpp:456 | two values print alike only if they are equal |
| `Hex.LowerHexLength` | jome/jome.cpp:130-133 | a value below 16^k prints in at most k digits |
| `Hex.LowerHexLength32` | jome/jome.cpp:130-133 | a 32-bit codepoint prints in at most 8 digits |
| `Hex.DigitValue` | jome/jome.cpp:132-133 | a digit's value is below 16 and prints as that digit |
| `WakeUpProtocol.Check` | jome/q-wake-up-server.cpp:53-67 | "wake" signals WakeUp and "quit" signals Quit, exactly; only "quit" stops reading and is kept; any other buffer of 4 or more bytes is discarded, and a shorter one is kept |
| `WakeUpProtocol.Feed` | jome/q-wake-up-server.cpp:69-87 | a notification reads at most the bytes available, and it closes the connection exactly when it leaves bytes unread |
| `WakeUpProtocol.FeedShape` | jome/q-wake-up-server.cpp:69-87 | afterwards the buffer is settled; it holds "quit" exactly when the last signal is Quit (always after a close); every earlier signal is WakeUp |
| `WakeUpProtocol.CheckPointsBounded` | jome/q-wake-up-server.cpp:62-84 | from a settled buffer, no inspected buffer exceeds 4 bytes |
| `WakeUpProtocol.FeedAligned` | jome/q-wake-up-server.cpp:69-87 | the signals are exactly the keywords at 4-byte-aligned offsets since the buffer was last empty, ending at the first "quit" |
| `WakeUpProtocol.AlignedFirstBlock` | jome/q-wake-up-server.cpp:53-67 | the first 4-byte block gives one check's signal, and "quit" ends the stream |
| `WakeUpProtocol.FeedAlignedFull` | jome/q-wake-up-server.cpp:69-87 | from a full buffer, the signals are the aligned keywords of the buffer followed by the chunk |
| `WakeUpProtocol.AlignedKeyword` | jome/q-wake-up-server.cpp:55-59 | each keyword on its own is one block with its signal |
| `WakeUpProtocol.WakeWakeInOneRead` | jome/q-wake-up-server.cpp:73-86 | "wakewake" in one notification signals WakeUp twice |
| `WakeUpProtocol.QuitRepeatsOnNextRead` | jome/q-wake-up-server.cpp:57-77 | a recognised "quit" stays buffered, so any later notification signals Quit again, reads no byte, and closes unless it carries no byte |
| `WakeUpProtocol.FeedPrefix` | jome/q-wake-up-server.cpp:73-84 | the signals of a chunk are a prefix of the signals of any extension of it |
| `WakeUpProtocol.FeedEmpty` | jome/q-wake-up-server.cpp:86 | a notification with no byte is a single check |
| `WakeUpProtocol.FeedEmptyShort` | jome/q-wake-up-server.cpp:86 | a notification with no byte leaves a short buffer unchanged and signals nothing |
| `WakeUpProtocol.FeedConcat` | jome/q-wake-up-server.cpp:69-87 | unless "quit" was recognised, one notification with c1 + c2 has the same outcome as c1 followed by c2 |
| `WakeUpProtocol.FeedAllAsOneChunk` | jome/q-wake-up-server.cpp:69-87 | unless "quit" comes before the last notification, the way the bytes are cut into notifications changes nothing: signals, final buffer, bytes read, close |
| `WakeUpProtocol.KeywordPrefixNoQuit` | jome/q-wake-up-server.cpp:53-67 | the bytes of a keyword before its last notification never make the server quit |
| `WakeUpProtocol.KeywordAlone` | jome/q-wake-up-server.cpp:69-87 | a keyword in one notification on a fresh connection gives exactly its signal, reads all 4 bytes, does not close, and leaves "quit" buffered or "wake" discarded |
| `WakeUpProtocol.KeywordInAnyChunks` | jome/q-wake-up-server.cpp:69-87 | a keyword on a fresh connection, cut in any way into notifications (for "quit", the last one carrying a byte), gives exactly its signal, never closes, and leaves "quit" buffered or "wake" discarded |
| `Server.WakeUpServer.constructor` | jome/q-wake-up-server.hpp:39-40 | no active peer, an empty buffer, no signals and no closed connection |
| `Server.WakeUpServer.NewConnection` | jome/q-wake-up-server.cpp:23-46 | a null connection changes nothing; while a peer is active the new one is closed; otherwise it becomes active with an empty buffer |
| `Server.WakeUpServer.SocketDisconnected` | jome/q-wake-up-server.cpp:48-51 | the slot is freed and the buffer is kept |
| `Server.WakeUpServer.CheckTmpData` | jome/q-wake-up-server.cpp:53-67 | the new buffer, the signals emitted and the return value are those of Check |
| `Server.WakeUpServer.SocketReadyRead` | jome/q-wake-up-server.cpp:69-87 | buffer, signals and bytes read are those of Feed; the peer is closed exactly when Feed closes; the buffer stays settled |
| `Client.Keyword` | jome-wake-up/q-wake-up-client.cpp:36-40 | the keyword is 4 bytes, and the server's check recognises it as the signal of the quit flag |
| `Client.WakeUpClient.constructor` | jome-wake-up/q-wake-up-client.hpp:33 | the quit flag starts false, and no socket operation has happened yet |
| `Client.WakeUpClient.WakeUp` | jome-wake-up/q-wake-up-client.cpp:28-32 | the flag is stored, and a connection is requested |
| `Client.WakeUpClient.SocketConnected` | jome-wake-up/q-wake-up-client.cpp:34-43 | the keyword of the stored flag is written, then the socket disconnects |
| `RoundTrip.DeliverChunks` | jome/q-wake-up-server.cpp:23-87 | a resident server with a free slot accepts the peer, which stays active; given its chunks as notifications (none after a close), it adds the signals of FeedAll from an empty buffer, whatever it held before, ends with FeedAll's buffer, and has closed the peer exactly when FeedAll closes |
| `RoundTrip.DeliverKeyword` | jome-wake-up/q-wake-up-client.cpp:28-43 | the client writes the keyword of its flag, and a resident server with a free slot, however the bytes are cut, adds exactly the matching signal; the peer stays active and is not closed, and the buffer holds "quit" or is empty |
| `Output.ParseFormat` | jome/jome.cpp:61-71 | "utf-8" and "cp" select their formats and round-trip through the format name; any other name is an error whose line, newline included, is the one written to the standard error, with exit status 1 |
| `Output.FormatNameRoundTrip` | jome/jome.cpp:44-71 | each format's name selects it, the default "utf-8" selects UTF-8, and an accepted name is that format's name |
| `Output.CommandLine` | jome/jome.cpp:88-95 | the command line is the command, one space, then the argument, and it splits back into those two |
| `Output.ItemAt` | jome/jome.cpp:129-135 | item i is the prefix followed by the %x digits of codepoint i |
| `Output.Items` | jome/jome.cpp:129-135 | one item per codepoint |
| `Output.SpelledSnoc` | jome/jome.cpp:129-135 | each loop step appends one item and one space |
| `Output.SpelledJoin` | jome/jome.cpp:129-138 | what the loop builds is the items joined by spaces, plus one trailing space |
| `Output.PrefixFits` | jome/jome.cpp:129-133 | every codepoint's item, its space and the NUL fit the 32-byte buffer when the prefix is NUL-free and at most 22 characters |
| `Output.RenderCodepoints` | jome/jome.cpp:119-139 | the loop and the trailing-space removal give the items joined by single spaces |
| `Output.FormatEmoji` | jome/jome.cpp:97-148 | the output is the body of the chosen format, followed by a newline unless noNl |
| `Output.Utf8IgnoresTone` | jome/jome.cpp:105-116 | UTF-8 output is the emoji's plain string whatever the tone |
| `Output.CodepointsToneNeedsSupport` | jome/jome.cpp:119-127 | without skin-tone support, codepoint output does not depend on the tone |
| `Output.ParseItemOfItem` | jome/jome.cpp:132-133 | one item reads back as its codepoint |
| `Output.ParseItemsOfItems` | jome/jome.cpp:129-135 | the items read back as the codepoints |
| `Output.CodepointsRoundTrip` | jome/jome.cpp:119-139 | when the prefix has no space, codepoint output reads back as exactly the rendered codepoints |
| `Output.OnEmojiChosen` | jome/jome.cpp:178-224 | a choice yields the reactions in the order they take effect, at least four of them |
| `Output.EmojiChosenStdout` | jome/jome.cpp:189-191 | the output is written to the standard output exactly once, after the reply to the client if there is one |
| `Output.EmojiChosenReply` | jome/jome.cpp:180-202 | the client gets the output exactly when a server exists; the command runs on it exactly when one is configured, and then the output has no newline |
| `Output.EmojiChosenWindow` | jome/jome.cpp:210-223 | a choice always hides the window and records the emoji as recent; it refreshes the list exactly when a server exists; it never exits with a status |
| `Output.EmojiChosenQuit` | jome/jome.cpp:193-208 | the application quits exactly when there is no server, as the last action, right after the command when there is one |
| `Output.OnCanceled` | jome/jome.cpp:164-177 | with a server, an empty reply; otherwise exit with status 1; never a plain quit |
| `Output.OnClientRequested` | jome/jome.cpp:229-240 | QUIT replies with an empty message and then quits; any other command shows the window |
| `Output.OnStartup` | jome/jome.cpp:243-245 | the window is shown at start-up exactly when there is no server, and nothing ends |
| `Output.ResidentIffServer` | jome/jome.cpp:164-245 | without a server the process ends after the first choice or cancel; with a server it stays resident and ends only on QUIT |
| `Window.ParseQuery` | jome/q-jome-window.cpp:299-317 | empty text shows everything; text with exactly one '/' is category and needles, neither containing '/'; otherwise the whole text is searched in every category |
| `Window.ParseQueryOfFind` | jome/q-jome-window.cpp:309-316 | a category and needles without '/' are recovered from their joined text |
| `Window.ParseQueryTwoSlashes` | jome/q-jome-window.cpp:309-313 | "a/b/c" is searched whole, in every category |
| `Window.ParseQueryTrailingSlash` | jome/q-jome-window.cpp:309-316 | "cat/" searches category "cat" with empty needles |
| `Window.FilterEvent` | jome/q-jome-window.cpp:30-102 | the event is consumed exactly when it is a press of one of the fifteen keys; Enter and Return both raise the enter signal |
| `Window.FilterEventKeys` | jome/q-jome-window.cpp:39-99 | each signal is raised by its own key and by no other key, except that Return raises Enter's |
| `Window.ActionFor` | jome/q-jome-window.cpp:341-409 | a row move has the 10-row page step exactly for Page Up and Page Down |
| `Window.AcceptSignalsAreTones` | jome/q-jome-window.cpp:381-409 | each tone has exactly one accepting key (Enter for none, F1 to F5 from light to dark), and every other key moves the cursor |
| `Window.OppositeKeysMoveOpposite` | jome/q-jome-window.cpp:341-379 | opposite navigation keys make opposite moves with the same step |
| `Window.Hexes` | jome/q-jome-window.cpp:455-457 | one hexadecimal string per codepoint |
| `Window.HexAt` | jome/q-jome-window.cpp:456 | string i is the lowercase hexadecimal of codepoint i |
| `Window.ListedSnoc` | jome/q-jome-window.cpp:455-457 | each loop step appends one codepoint and ", " |
| `Window.ListedJoin` | jome/q-jome-window.cpp:455-459 | what the loop builds is the codepoints joined by ", ", plus a trailing ", " |
| `Window.LabelOfListed` | jome/q-jome-window.cpp:450-461 | cutting two characters from the built text and closing it gives the label, including the case with no codepoints |
| `Window.AppendListed` | jome/q-jome-window.cpp:455-457 | the loop appends each codepoint followed by ", " |
| `Window.InfoLabelText` | jome/q-jome-window.cpp:446-464 | the built text is the info label of the emoji |
| `Window.HexValuesOfHexes` | jome/q-jome-window.cpp:456 | the hexadecimal strings read back as the codepoints |
| `Window.InfoLabelListRoundTrip` | jome/q-jome-window.cpp:455-459 | the label's codepoint list reads back as the emoji's codepoints |
| `Window.InfoLabelShape` | jome/q-jome-window.cpp:446-464 | the label is empty exactly without an emoji; otherwise it starts with the bold name and ends with the closing text |
| `Window.LogAppendPlain` | jome/q-jome-window.cpp:249-288 | actions that are no rebuild, no choice and no dialog end for an eternal window keep the window invariant |
| `Window.LogAppendRebuild` | jome/q-jome-window.cpp:271-274 | the first rebuild keeps the invariant, with the view now built |
| `Window.LogAppendChoice` | jome/q-jome-window.cpp:439-444 | a choice followed by the window's accept keeps the invariant |
| `Window.JomeWindow.constructor` | jome/q-jome-window.cpp:104-117 | the eternal flag is stored; nothing is selected or built; the label is empty; no widget call has happened |
| `Window.JomeWindow.Reject` | jome/q-jome-window.cpp:249-256 | an eternal window hides; otherwise the dialog rejects |
| `Window.JomeWindow.Accept` | jome/q-jome-window.cpp:258-265 | an eternal window hides; otherwise the dialog accepts |
| `Window.JomeWindow.ShowEvent` | jome/q-jome-window.cpp:267-278 | the view is rebuilt on the first show only; every show shows all emojis and focuses the search box |
| `Window.JomeWindow.CloseEvent` | jome/q-jome-window.cpp:280-288 | an eternal window ignores the close and hides; otherwise the dialog closes |
| `Window.JomeWindow.SearchTextChanged` | jome/q-jome-window.cpp:290-317 | the view shows all emojis or the find results of the parsed query |
| `Window.JomeWindow.AcceptEmoji` | jome/q-jome-window.cpp:439-444 | the owner's callback gets the emoji and tone, then the window accepts |
| `Window.JomeWindow.AcceptSelectedEmoji` | jome/q-jome-window.cpp:432-437 | the selection is accepted with the tone; with nothing selected, nothing happens |
| `Window.JomeWindow.KeySignalRaised` | jome/q-jome-window.cpp:341-409 | a navigation key moves the cursor; Enter and F1 to F5 accept the selection with their tone |
| `Window.JomeWindow.EmojiClicked` | jome/q-jome-window.cpp:417-420 | a click accepts the clicked emoji with no tone |
| `Window.JomeWindow.UpdateInfoLabel` | jome/q-jome-window.cpp:446-464 | the label becomes the info label of the emoji |
| `Window.JomeWindow.EmojiSelectionChanged` | jome/q-jome-window.cpp:411-415 | the selection is remembered and described |
| `Window.JomeWindow.EmojiHoverEntered` | jome/q-jome-window.cpp:422-425 | the hovered emoji is described and the selection is kept |
| `Window.JomeWindow.EmojiHoverLeaved` | jome/q-jome-window.cpp:427-430 | the label describes the selection again |

Proof helpers carry no row: they are steps of the proofs above, not
statements about the source. `ThenAssociative`, `FeedThen`, `FeedStep`,
`CheckShort`, `FeedConcatNil`, `FeedTwiceEmpty`, `FeedAfterEmpty`,
`FeedConcatStep`, `FeedConsConcat`, `FlattenSnoc`, `FeedAllStep`,
`FeedAllFrom` and `FeedFourBytes` (module `WakeUpProtocol`),
`Client.WrittenAppend`, and `Spaced`, `UnspacedSpaced`, `JoinCommaSpace`,
`RebuildsAppend` and `RebuildsNone` (module `Window`).

## Left out

- **Transport.** The local-socket transport is abstract. A connection is a
  `PeerId`, and a ready-read notification is the chunk of bytes available
  at that moment. Listening on a named server, socket errors and
  `bytesAvailable` races are not modelled.
- **Socket lifetime.** Closing a socket is recorded in `closed`. The server
  frees its slot only on an explicit disconnect notification. Whether and
  when Qt delivers that notification after `close()`, and the
  `deleteLater` cleanup, are not modelled.
- **Client socket I/O.** The client's socket operations are a log of
  actions. The connection is assumed to succeed; a failed connection is
  not modelled.
- **Timers.** The zero-, 10- and 20-millisecond timers of `jome.cpp` keep
  only the order in which their effects take place.
- **External command.** `QProcess::execute` is reduced to the command line
  it is given. Process start-up, argument splitting and the exit status are
  not modelled.
- **Command-line parsing.** Only the `-f` choice is modelled. The rest of
  `parseArgs` and all of `jome-wake-up.cpp` is option plumbing, and the
  model takes the resulting `Params` as given.
- **The emoji database.** The database (`emoji-db`) is not part of this
  model: an emoji is given by what its accessors return. Finding emojis
  (`findEmojis`) and recent emojis are recorded as actions and not computed.
  The category list (`_catListItemSelectionChanged` and
  `_catListItemClicked`, `q-jome-window.cpp:319-339`) is not modelled.
- **Rendering.** Qt widgets, layout, style sheets and images are left out.
  Cursor moves in the emoji view (`selectPreviousRow` and the rest) are
  recorded, not computed, since the view is not part of this model.
- **Strings and encodings.** Strings are sequences of characters. UTF-16
  `QString` and UTF-8 `std::string` conversions, and the difference between
  bytes and characters, are not modelled.
- **The server class `jome.cpp` talks to.** `jome.cpp` uses a
  `QJomeServer` (`sendToClient`, `clientRequested`) that is not part of
  this model. Its reactions are stated against a command value, and the
  reply is an action. `jome.cpp` also constructs the window from the
  database alone, while the window's constructor takes the eternal flag and
  the choice callback. The model takes the constructor's parameters.
- Output.RenderCodepoints: takes a nonempty codepoint list. With no
  codepoints, `output.size() - 1` at `jome.cpp:138` wraps around to the
  largest `size_t`, and `resize` throws instead of shrinking the output.
  It also takes a prefix without NUL, because the prefix is passed as a C
  string. Finally, it takes room in the 32-byte buffer for each item, so
  that `sprintf` does not overflow (`Output.PrefixFits` shows that a prefix
  of at most 22 characters always leaves that room). The model does not describe the
  behaviour outside these conditions.
- Output.FormatEmoji: for codepoint output it takes the same conditions as
  `RenderCodepoints`, through `CanFormat`.
- Window.FilterEvent: the number of filtered keys (fifteen) is stated by
  the set `FilteredKeys`, not proved as a cardinality.
- RoundTrip.DeliverKeyword: for "quit" it takes the last notification to
  carry a byte. A trailing notification with no byte would signal Quit a
  second time (`WakeUpProtocol.QuitRepeatsOnNextRead`).
- WakeUpProtocol.KeywordInAnyChunks: takes the same last-notification
  condition as `DeliverKeyword`, for the same reason.
