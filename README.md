# AlloLib core pieces, modelled in Dafny

This project models five small pieces of the AlloLib multimedia framework and
proves what they promise:

- **Command connection** (`wire.dfy`, `command_connection.dfy`).
  - The wire encoding of 16- and 32-bit integers.
  - The handshake between a `CommandClient` and a `CommandServer`.
  - How each side classifies an incoming message by its first byte.
  - The receive buffers: the server's compaction of left-over bytes, and the client's buffer, which grows by every receive and shrinks only after a handled message.
  - Who receives a broadcast, and what `sendMessage` reports.
  - `waitForConnections`, with its result truncated to 16 bits.
- **Text widgets of GLV** (`textview.dfy`).
  - `TextView` editing: cursor, selection, insert through an optional filter, Backspace, Delete, arrows, Ctrl+A.
  - `filterNumeric`.
  - `SearchBox`: suggestions by substring, Tab completion by C-string prefix, Enter taking the list's selected entry.
  - `DropDown`'s first-letter jump.
  - The digit replacement of `NumberDialers`.
- **Parameter bundles** (`bundle.dfy`).
  - The per-name instance counter.
  - The OSC prefix scheme `parent/name/index-or-id`.
  - `addParameter`, `operator<<` and `addBundle`.
  - `addNotifier`, which reaches every bundle of the tree.
- **AlloSphere calibration loader** (`calibration.dfy`).
  - `load_allosphere_calibration` as a token-stream parser with exactly the source's loop structure.
  - A reference encoder, and the round trip through it.
- **Texture parameters** (`texture.dfy`).
  - The default state of an `al::Texture`.
  - The `update_param` change-flag pattern behind the filter and wrap setters.
  - The size rule of `copyFrameBuffer`.

`options.dfy` holds the `Option` datatype shared by the modules.

## Modelling choices

### Form
- Code that only computes is written as functions and lemmas. Examples: byte conversions, handshake parsing, message classification, prefixes, the calibration token grammar.
- Objects whose methods update fields are written as classes with `modifies` frames: `TextView`, `SearchBox`, `DropDown`, `ParameterBundle`, `BundleRegistry`, `WarpBlendData`, `Texture`, `CommandServer`, `CommandClient`.
- The two receive loops keep their 2048-byte `array`, modelled by `ServerReader` and `ClientReader`. Each receive is proved equal to a pure step function (`ServerStep`, `ClientStep`).

### Environment
- Sockets are parameters. A `transport(peer, length)` function gives the byte count each `send` returns. `recv` results are the `data` arguments of `Receive`.
- `processIncomingMessage` is unknown code. It is modelled by two parameters: `handled` (its boolean result) and `consumed` (how far it advanced the message cursor).
- Protocol tag bytes (`HANDSHAKE`, `PING` and the others) are fields of a `Tags` value. They are assumed distinct only where a lemma needs it.
- `waitForConnections` sees the connection count through a sequence of polls, one per iteration of its timed loop.

### Header functions
`glv_textview.cpp` relies on helpers defined in a header that is not part of this model. They are taken with these meanings:
- `validPos()`: `0 < pos <= |text|`.
- `empty()`: the text is empty.
- `deselect()`: sets `sel` to 0.
- `cursorEnd()`: `cursorPos(|text|)`.
- `textSelected()`: `sel != 0`.
- `setValue(s)`: sets the model value and, through `onAssignData`, the text.
- The suggestion list's `getValue()`: its selected entry.
- The suggestion list's `clipIndices()`: clamps the selected entry into the new data.
- `DropDown`'s list selection: `mItemList.select(i)` is modelled by the `selected` field. The `DropDown` constructors set `mSelectedItem` to -1 and add their items with `addItem`, but the list's initial selection is set in `ListView`, which is not part of this model. The model assumes it starts at the first entry (`selected == 0`).

## Places where the code differs from the documentation
The code is followed in each case:
- The server's acknowledgement writes version and revision into its buffer, but sends only 2 bytes (al_CommandConnection.cpp:153-160).
- The client's 8-byte handshake is shorter than the 9 bytes the server needs before it reads a version. A client is therefore always recorded as version 0, revision 0 (`HandshakeAgreement`).
- `CommandServer::stop` (al_CommandConnection.cpp:242-259) closes the connections but does not clear the connection registry.
- `waitForConnections` returns the total size of the registry, not the number of connections made while it waited: `existingConnections` is fixed at 0 (al_CommandConnection.cpp:268).
- One receive hands on at most one message. When two messages arrive in one `recv`, only the first is dispatched in that iteration; the second waits in the buffer for the next receive.
- The server builds the `Message` it hands on over the bytes of the *last* `recv` only. Left-over bytes at the front of the buffer push part of the new data out of it (`ServerStepWindow`).
- When the filter rejects a key and a selection had been deleted, the text is restored but the model value keeps the deletion (`TextView.TypeChar`).

## Model

| member | source | states |
|---|---|---|
| Wire.EncodeU16 | src/protocol/al_CommandConnection.cpp:8-20 | two bytes whose little-endian value is the input |
| Wire.DecodeU16 | src/protocol/al_CommandConnection.cpp:35-37 | the little-endian value of the two bytes at the offset |
| Wire.DecodeEncodeU16 | src/protocol/al_CommandConnection.cpp:8-37 | decoding an encoded u16 gives it back |
| Wire.EncodeDecodeU16 | src/protocol/al_CommandConnection.cpp:8-37 | re-encoding a decoded u16 gives back the two bytes read |
| Wire.EncodeU32 | src/protocol/al_CommandConnection.cpp:22-33 | four bytes whose little-endian value is the input |
| Wire.DecodeU32AsWritten | src/protocol/al_CommandConnection.cpp:39-42 | the u32 decoder as written: the value of bytes 0, 1, 4, 3 (it needs 5 bytes) |
| Wire.DecodeU32AsWrittenIgnoresByte2 | src/protocol/al_CommandConnection.cpp:39-42 | the as-written decoder never looks at byte 2 |
| Wire.DecodeU32AsWrittenBreaksRoundTrip | src/protocol/al_CommandConnection.cpp:39-42 | `to_bytes(0x10000)` followed by a zero byte decodes to 0 |
| Wire.DecodeU32 | src/protocol/al_CommandConnection.cpp:39-42 | corrected decoder: the little-endian value of bytes 0..3 |
| Wire.DecodeEncodeU32 | src/protocol/al_CommandConnection.cpp:22-42 | corrected decoder inverts the encoder |
| Wire.EncodeDecodeU32 | src/protocol/al_CommandConnection.cpp:22-42 | the encoder inverts the corrected decoder on any 4 bytes |
| CommandConnection.ClientHandshake | src/protocol/al_CommandConnection.cpp:344-350 | 8 bytes: the handshake tag, the client port little-endian at 1..2, zeros after |
| CommandConnection.ServerParseHandshake | src/protocol/al_CommandConnection.cpp:135-143 | nothing received iff empty; accepted iff the first byte is the handshake tag; version and revision read from bytes 1 and 5 only when at least 9 bytes arrived, otherwise 0 |
| CommandConnection.ServerAck | src/protocol/al_CommandConnection.cpp:153-160 | the acknowledgement as sent: the first 2 of the bytes written into the buffer (its shape is `ServerAckShape`) |
| CommandConnection.ServerAckShape | src/protocol/al_CommandConnection.cpp:153-160 | the acknowledgement sent is always exactly `[HANDSHAKE_ACK, 0]` |
| CommandConnection.ClientAcceptsAck | src/protocol/al_CommandConnection.cpp:355-363 | the client's reply test: exactly 2 bytes led by `HANDSHAKE_ACK` (its consequences are `HandshakeAgreement` and `ClientRejectsOtherLengths`) |
| CommandConnection.HandshakeAgreement | src/protocol/al_CommandConnection.cpp:136-160 | the server accepts the client's handshake with version and revision 0, and the client accepts the server's ack |
| CommandConnection.ClientRejectsOtherLengths | src/protocol/al_CommandConnection.cpp:354-363 | a reply of any length other than 2 is not an ack |
| CommandConnection.ServerClassify | src/protocol/al_CommandConnection.cpp:179-190 | a message is handed on iff its tag is not PONG, GOODBYE or HANDSHAKE; PONG is logged, GOODBYE reported unimplemented; the server never answers a ping |
| CommandConnection.ClientClassify | src/protocol/al_CommandConnection.cpp:379-382 | the client answers iff the tag is PING, and hands on every other message |
| CommandConnection.ClassificationAsymmetry | src/protocol/al_CommandConnection.cpp:179-190 | with distinct tags, the server hands on PING and HANDSHAKE_ACK, the client hands on PONG, GOODBYE, HANDSHAKE and HANDSHAKE_ACK |
| CommandConnection.PongReply | src/protocol/al_CommandConnection.cpp:415-426 | the ping answer is two bytes led by PONG, which the server logs as a pong |
| CommandConnection.WriteAt | src/protocol/al_CommandConnection.cpp:175-176 | a `recv` at an offset overwrites exactly those bytes and keeps the rest |
| CommandConnection.MoveToFront | src/protocol/al_CommandConnection.cpp:203-206 | the `memcpy` of left-over bytes: the front holds the tail, the rest is unchanged |
| CommandConnection.ServerStep | src/protocol/al_CommandConnection.cpp:172-216 | one server receive: the tag is the first byte of the buffer after the write, a message is handed on exactly when the tag is not a control tag, it covers the first `bytes` bytes, and the pending bytes always leave room for a 1024-byte `recv` |
| CommandConnection.ServerStepCompaction | src/protocol/al_CommandConnection.cpp:196-210 | after a handled message the unconsumed bytes are at the front and `bufferSize` counts them; otherwise the buffer is the received one and `bufferSize` stays |
| CommandConnection.ServerStepWindow | src/protocol/al_CommandConnection.cpp:190 | the message handed on covers the old pending bytes and only the first `bytes - bufferSize` new bytes |
| CommandConnection.ClientStep | src/protocol/al_CommandConnection.cpp:376-399 | the client receive as written: it overruns the buffer iff the pending and new bytes exceed 2048; otherwise the tag is the buffer's first byte after the write, a non-PING message covering the first `bytes` bytes is handed on, and unless a message was handled the buffer is the received one with `bufferSize` grown by the bytes received |
| CommandConnection.ClientStepCompaction | src/protocol/al_CommandConnection.cpp:393-398 | after a handled message only its unconsumed tail stays, at the front, and `bufferSize` is its length |
| CommandConnection.ClientPingSticks | src/protocol/al_CommandConnection.cpp:376-381 | after a PING, an application message that follows is answered as another ping and never handed on |
| CommandConnection.ClientBufferOverrun | src/protocol/al_CommandConnection.cpp:376-378 | a PING and then one full 1024-byte receive make the next `recv` write past the 2048-byte buffer |
| CommandConnection.ClientStepCorrected | src/protocol/al_CommandConnection.cpp:376-399 | with the server's buffer discipline, the client never overruns and classifies a fresh buffer by its first received byte |
| CommandConnection.ClientCorrectedPingReleases | src/protocol/al_CommandConnection.cpp:379-381 | with that discipline, the message after a PING is handed on |
| CommandConnection.CompactFront | src/protocol/al_CommandConnection.cpp:204-205 | the in-place copy on the array equals `MoveToFront` |
| CommandConnection.ReceiveInto | src/protocol/al_CommandConnection.cpp:175-176 | writing received bytes into the array equals `WriteAt` |
| CommandConnection.ServerReader.Receive | src/protocol/al_CommandConnection.cpp:172-216 | the buffer and `bufferSize` after a receive are those of `ServerStep`, as are the action taken and the message handed on |
| CommandConnection.ClientReader.Receive | src/protocol/al_CommandConnection.cpp:368-404 | the receive follows `ClientStep`: it succeeds iff it does not overrun, leaves the state alone when it would, and replies `PongReply` exactly to a PING |
| CommandConnection.Recipients | src/protocol/al_CommandConnection.cpp:302-312 | never more recipients than registered connections |
| CommandConnection.RecipientsMembers | src/protocol/al_CommandConnection.cpp:303-305 | a connection receives a broadcast iff it is registered and does not match the source in both address and port |
| CommandConnection.RecipientsWithoutSource | src/protocol/al_CommandConnection.cpp:302-305 | with no source, every connection receives it, in registry order |
| CommandConnection.Broadcast | src/protocol/al_CommandConnection.cpp:302-312 | the loop sends to exactly `Recipients`, in order, and reports success iff every send wrote all bytes |
| CommandConnection.ServerSendMessage | src/protocol/al_CommandConnection.cpp:295-322 | length 0 fails and sends nothing; a destination gets the message alone; otherwise the broadcast |
| CommandConnection.ClientSendMessage | src/protocol/al_CommandConnection.cpp:428-454 | length 0 fails; a destination equal to the client's own socket is skipped yet reported as success; otherwise one send, filtered by the source |
| CommandConnection.PollResult | src/protocol/al_CommandConnection.cpp:272-288 | if any poll reaches the count, the result reaches it; if none does, the result is the last poll |
| CommandConnection.PollResultFirst | src/protocol/al_CommandConnection.cpp:272-288 | the result is exactly what the first poll reaching the count saw |
| CommandConnection.CommandServer.Start | src/protocol/al_CommandConnection.cpp:101-239 | start succeeds iff the socket listens, and then the server runs in the server role; the registry is untouched |
| CommandConnection.CommandServer.Accept | src/protocol/al_CommandConnection.cpp:136-168 | an accepted handshake appends the socket and its (version, revision) to the two registries together and replies with the ack; anything else changes nothing |
| CommandConnection.CommandServer.ConnectionCount | src/protocol/al_CommandConnection.cpp:94-99 | the number of registered connections |
| CommandConnection.CommandServer.Stop | src/protocol/al_CommandConnection.cpp:242-259 | the server stops and loses its role, but keeps its registry |
| CommandConnection.CommandServer.SendMessage | src/protocol/al_CommandConnection.cpp:295-322 | as `ServerSendMessage`, over the registered connections |
| CommandConnection.CommandServer.WaitForConnections | src/protocol/al_CommandConnection.cpp:261-293 | 0 outside the server role; otherwise the polled count truncated to 16 bits |
| CommandConnection.CommandClient.Start | src/protocol/al_CommandConnection.cpp:326-413 | a closed socket returns false; an unconnected one blocks; otherwise the client sends its handshake and returns true iff the reply is the 2-byte ack, blocking otherwise |
| CommandConnection.CommandClient.SendMessage | src/protocol/al_CommandConnection.cpp:428-454 | as `ClientSendMessage` through the client's socket |
| CommandConnection.CommandClient.Stop | src/protocol/al_CommandConnection.cpp:48-55 | the client stops and loses its role |
| TextEditing.FilterNumeric | src/glv/glv_textview.cpp:116-121 | a character is accepted iff it is a digit or one of `- + e .`, whatever the text and position |
| TextEditing.Erase | src/glv/glv_textview.cpp:271-272 | `std::string::erase(start, num)`: removes `num` characters or up to the end, and keeps the others in order |
| TextEditing.InsertAt | src/glv/glv_textview.cpp:186 | `insert(pos, 1, c)`: one character longer, `c` at `pos`, the others shifted |
| TextEditing.EraseInsert | src/glv/glv_textview.cpp:186-212 | erasing the character just inserted restores the text |
| TextEditing.WithoutSelection | src/glv/glv_textview.cpp:259-268 | the text without the selected span, whichever side of the cursor it lies on |
| TextEditing.TextView.constructor | src/glv/glv_textview.cpp:123-129 | empty text and value, cursor 0, no selection, no filter |
| TextEditing.TextView.SetValue | src/glv/glv_textview.cpp:144-150 | value and text both take the new string; cursor and selection stay |
| TextEditing.TextView.CursorPos | src/glv/glv_textview.cpp:291-297 | the cursor moves only to a position within the text; the selection is dropped and the blink reset |
| TextEditing.TextView.CursorEnd | src/glv/glv_textview.cpp:287 | the cursor goes to the end of the text |
| TextEditing.TextView.Select | src/glv/glv_textview.cpp:276-282 | the selection end is clamped to the text; an in-range request is taken as is |
| TextEditing.TextView.SelectAll | src/glv/glv_textview.cpp:284-289 | cursor at the end, selection back to the start |
| TextEditing.TextView.DeleteText | src/glv/glv_textview.cpp:271-274 | the text is `Erase` of the old one and the value follows it |
| TextEditing.TextView.DeleteSelected | src/glv/glv_textview.cpp:259-274 | `erase` of the selection's length from its lower end, which stops at the end of the text, and the cursor on that lower end, also for a cursor left beyond the text; within the text exactly the selection goes; value follows and blink resets; with no selection nothing changes |
| TextEditing.TextView.TypeChar | src/glv/glv_textview.cpp:173-198 | the selection goes first; the filter sees the value then; an accepted key is inserted at the selection start with the cursor after it; a rejected one restores text, cursor and selection; the blink resets after an insert or a deleted selection and stays otherwise; a rejected key bubbles |
| TextEditing.TextView.BackspaceKey | src/glv/glv_textview.cpp:201-207 | removes the selection, or else the character before the cursor, which moves back; the selection is then empty; after a removal the value is the new text and the blink resets, with nothing to remove value and blink stay |
| TextEditing.TextView.DeleteKey | src/glv/glv_textview.cpp:209-215 | removes the selection, or else the character at the cursor, which stays; the selection is then empty; after a removal the value is the new text and the blink resets, on an empty text value and blink stay |
| TextEditing.TextView.Arrow | src/glv/glv_textview.cpp:217-225 | with Shift the selection end moves one step, clamped, and the blink stays; without it the cursor moves one step if it stays within the text, the selection is dropped and the blink resets; text and value never change; also from a cursor beyond the text |
| TextEditing.TextView.KeyDown | src/glv/glv_textview.cpp:158-236 | per key: Ctrl+A selects all, other Ctrl, Alt and Meta keys bubble; a printable key is consumed when the filter accepts it and bubbles when it rejects it; Backspace, Delete, arrows, Up/Down and Enter act as above and are consumed; Enter alone raises the action; the value changes only through an edit; the blink resets exactly where `cursorPos` runs (an edit, Ctrl+A, an unshifted arrow, Up/Down) and stays otherwise |
| TextEditing.CString | src/glv/glv_textview.cpp:647 | `c_str()` as C sees it: the prefix up to the first NUL |
| TextEditing.CStringWithoutNul | src/glv/glv_textview.cpp:647 | a string without NUL is its own C string |
| TextEditing.StrnZeroIsPrefix | src/glv/glv_textview.cpp:647-648 | `strncmp(s, t, len t) == 0` iff `t` is a prefix of `s` (for NUL-free strings) |
| TextEditing.Matching | src/glv/glv_textview.cpp:671-681 | the filtered list is no longer than the items |
| TextEditing.MatchingMembers | src/glv/glv_textview.cpp:673-680 | an item is suggested iff it contains the typed text |
| TextEditing.MatchingAll | src/glv/glv_textview.cpp:673-680 | when every item matches, all are suggested, in order |
| TextEditing.MatchingSnoc | src/glv/glv_textview.cpp:673-680 | the filter keeps the items' order |
| TextEditing.Suggestions | src/glv/glv_textview.cpp:671-681 | the loop builds exactly `Matching` |
| TextEditing.FirstCompletionUnique | src/glv/glv_textview.cpp:645-651 | at most one item is the first with the typed prefix |
| TextEditing.FirstCompletion | src/glv/glv_textview.cpp:645-653 | the loop finds the first item with the typed text as prefix, and none iff no item has it |
| TextEditing.SearchBox.constructor | src/glv/glv_textview.cpp:607-609 | an empty box with no items, a hidden empty list and its first entry selected |
| TextEditing.SearchBox.AddItem | src/glv/glv_textview.cpp:613-616 | appends the item and changes nothing else; the list still holds only items |
| TextEditing.SearchBox.Complete | src/glv/glv_textview.cpp:642-655 | Tab on non-empty text makes the first item with that prefix the text and the value, with the cursor at its end, no selection and the blink reset; with empty text or no such item the view is entirely unchanged |
| TextEditing.SearchBox.AcceptSelection | src/glv/glv_textview.cpp:632-640 | a visible list's selected entry, always one of the items, becomes the text and the value, with the cursor at its end, no selection and the blink reset; with a hidden list the view is entirely unchanged; the list is hidden in any case |
| TextEditing.SearchBox.RefreshList | src/glv/glv_textview.cpp:667-704 | the list is shown iff the text is non-empty and the matches are not just the text itself; then it holds exactly the matches, and its selected entry is clipped into them |
| TextEditing.SearchBox.EnterKey | src/glv/glv_textview.cpp:632-640 | the view ends as `AcceptSelection` leaves it, since the TextView's Enter changes nothing in it, and the list is hidden with its data unchanged; the TextView then raises the action iff no Ctrl, Alt or Meta is held, and bubbles otherwise |
| TextEditing.SearchBox.EditKey | src/glv/glv_textview.cpp:665-704 | the TextView's edit and result, as `TextView.KeyDown` states them, then the list refreshed from the new value |
| TextEditing.SearchBox.KeyDown | src/glv/glv_textview.cpp:618-707 | Up/Down leave the whole view and the list alone; Tab completes as `Complete` states, without reaching the TextView; Enter and Return accept the list's selected entry as `EnterKey` states; every other key is edited by the TextView, with its result, and then refreshes the list |
| TextEditing.Lower | src/glv/glv_textview.cpp:505 | `tolower` on ASCII: capitals map to their small letters, other characters stay |
| TextEditing.FirstLetterMatch | src/glv/glv_textview.cpp:506-512 | the first item whose first letter matches the key ignoring case, and none iff no item matches |
| TextEditing.DropDown.constructor | src/glv/glv_textview.cpp:375-401 | the given items (standing for the none, two, three or four that the constructors add), the first entry selected and the list hidden |
| TextEditing.DropDown.KeyDownPrintable | src/glv/glv_textview.cpp:499-514 | with a modifier the key bubbles; otherwise the first matching item is selected and the list shown, and with no match nothing changes |
| TextEditing.ReplaceDigit | src/glv/glv_textview.cpp:851-856 | the new integer value after typing digit `k` at place `p` (its properties are `ReplaceDigitDigits` and `ReplaceDigitSame`) |
| TextEditing.ReplaceMagnitude | src/glv/glv_textview.cpp:856 | adding `(k - digit) * p` sets the digit at place `p` to `k` and keeps the digits above and below |
| TextEditing.ReplaceDigitDigits | src/glv/glv_textview.cpp:851-858 | on a signed value: the digit at `p` becomes `k`, the others stay, the sign is kept |
| TextEditing.ReplaceDigitSame | src/glv/glv_textview.cpp:851-858 | typing the digit already there leaves the value unchanged |
| Bundles.Decimal | src/util/ui/al_ParameterBundle.cpp:35 | `std::to_string` of a natural: non-empty decimal digits, no leading zero |
| Bundles.DecimalRoundTrip | src/util/ui/al_ParameterBundle.cpp:35 | reading the digits back gives the number |
| Bundles.DecimalInjective | src/util/ui/al_ParameterBundle.cpp:142 | different numbers give different ids |
| Bundles.BundleRegistry.constructor | src/util/ui/al_ParameterBundle.cpp:11 | the counter starts empty |
| Bundles.ConsecutiveIndices | src/util/ui/al_ParameterBundle.cpp:19-23 | bundles created by name get indices 0, 1, 2, ... per name, and the counter ends at each name's count |
| Bundles.RegisterAllCounts | src/util/ui/al_ParameterBundle.cpp:19-23 | the counter holds each name's count, and each index is the count of earlier bundles of that name |
| Bundles.PrefixExtendsParent | src/util/ui/al_ParameterBundle.cpp:31-40 | the prefix extends the parent's prefix with `/name/` and a non-empty index or id |
| Bundles.SiblingPrefixesDistinct | src/util/ui/al_ParameterBundle.cpp:31-40 | under one parent and name, two ids give the same prefix iff they are equal |
| Bundles.ParameterBundle.constructor | src/util/ui/al_ParameterBundle.cpp:13-24 | an empty name becomes `bundle`; the index is the counter of the name as given, which is then incremented |
| Bundles.ParameterBundle.AddParameter | src/util/ui/al_ParameterBundle.cpp:47-48 | appends the parameter, nothing else changes |
| Bundles.ParameterBundle.Push | src/util/ui/al_ParameterBundle.cpp:152-161 | `operator<<` appends the parameter and returns the same bundle |
| Bundles.ParameterBundle.AddBundle | src/util/ui/al_ParameterBundle.cpp:139-150 | an empty id becomes the decimal count of sub-bundles; the key replaces any earlier entry (reported); the child takes the id and this bundle's prefix as parent |
| Bundles.AddNotifier | src/util/ui/al_ParameterBundle.cpp:163-168 | the notifier is appended here and the sub-bundle keys stay |
| Bundles.AddNotifierReachesAll | src/util/ui/al_ParameterBundle.cpp:163-168 | every bundle of the tree ends with the new notifier |
| Bundles.AddNotifierOnlyAppends | src/util/ui/al_ParameterBundle.cpp:163-168 | removing that last notifier everywhere gives the old tree back |
| Calibration.ClassifyTagOf | include/al/sphere/al_Perprojection.hpp:94-101 | each of the eight value tags is recognised as its field |
| Calibration.Classify | include/al/sphere/al_Perprojection.hpp:90-102 | the tag tests of the loop: `id` ends the record exactly when the tag is `id`; each value tag names its field (`ClassifyTagOf`); anything else is unrecognised |
| Calibration.SetField | include/al/sphere/al_Perprojection.hpp:94-101 | storing a value never changes the viewport id |
| Calibration.TagLoop | include/al/sphere/al_Perprojection.hpp:88-103 | the inner loop consumes input, stops early only at an `id` keyword, and stamps the id once any tag was read |
| Calibration.Records | include/al/sphere/al_Perprojection.hpp:81-107 | the do/while pushes at least one viewport |
| Calibration.Parse | include/al/sphere/al_Perprojection.hpp:79-80 | an empty file gives no viewport, any other gives some |
| Calibration.ParseIgnoresHeader | include/al/sphere/al_Perprojection.hpp:79-88 | the first token never affects the result |
| Calibration.WarpBlendData.constructor | include/al/sphere/al_Perprojection.hpp:74 | no viewports |
| Calibration.WarpBlendData.LoadCalibration | include/al/sphere/al_Perprojection.hpp:76-108 | the loader appends exactly `Parse` of the token stream |
| Calibration.NextRecord | include/al/sphere/al_Perprojection.hpp:83-106 | one iteration of the do/while yields the first record and leaves the rest of the stream to the following ones |
| Calibration.ReadRecord | include/al/sphere/al_Perprojection.hpp:88-103 | the inner loop's result is `TagLoop` |
| Calibration.TagLoopIds | include/al/sphere/al_Perprojection.hpp:88-93 | a tag loop ending on an `id` keyword consumed one `id` token |
| Calibration.RecordsCount | include/al/sphere/al_Perprojection.hpp:81-107 | at most one viewport more than the `id` tokens in the stream |
| Calibration.ParseCount | include/al/sphere/al_Perprojection.hpp:79-107 | a non-empty file gives between 1 and 1 + (number of `id` tokens) viewports |
| Calibration.UnknownTagSkipped | include/al/sphere/al_Perprojection.hpp:102 | an unrecognised tag consumes no value |
| Calibration.RepeatedTagOverwrites | include/al/sphere/al_Perprojection.hpp:94-101 | a tag given twice keeps the later value |
| Calibration.IdNeedsATag | include/al/sphere/al_Perprojection.hpp:86-89 | a record whose id ends the file keeps an empty id |
| Calibration.RecordsRoundTrip | include/al/sphere/al_Perprojection.hpp:81-107 | the records of an encoded list of viewports are that list |
| Calibration.ParseEncode | include/al/sphere/al_Perprojection.hpp:76-107 | parsing the encoding of any non-empty viewport list gives it back, when the last one has a field or an empty id |
| Textures.UpdateParam | include/al/core/graphics/al_Texture.hpp:250-253 | the variable holds the new value; the flag is raised iff already raised or the value changed |
| Textures.UpdateParamIdempotent | include/al/core/graphics/al_Texture.hpp:250-253 | setting the same value twice is setting it once |
| Textures.UpdateParamUnchanged | include/al/core/graphics/al_Texture.hpp:250-253 | setting the current value changes nothing, flag included |
| Textures.UpdateParamTwice | include/al/core/graphics/al_Texture.hpp:250-253 | the last value wins; the flag records any change on the way |
| Textures.UpdateAllEffect | include/al/core/graphics/al_Texture.hpp:250-253 | after any sequence of updates the last value wins, and the flag is raised iff it was or some value differed from the start |
| Textures.CopyExtent | include/al/core/graphics/al_Texture.hpp:227-228 | the copied width or height: a negative request counts back from the texture size (its property is `CopyExtentFromEnd`) |
| Textures.CopyExtentFromEnd | include/al/core/graphics/al_Texture.hpp:227-228 | a negative region size counts back from the texture size; -1 is the whole size |
| Textures.Texture.constructor | include/al/core/graphics/al_Texture.hpp:255-267 | the defaults: 2D RGBA8 unsigned-byte, size 0, clamp to edge, nearest, no mipmap, every flag raised |
| Textures.Texture.SetFilterMin | include/al/core/graphics/al_Texture.hpp:191 | `update_param` on the min filter; the mag filter, the wrap modes, their flags, and storage and format unchanged |
| Textures.Texture.SetFilterMag | include/al/core/graphics/al_Texture.hpp:194 | `update_param` on the mag filter; the min filter, the wrap modes, their flags, and storage and format unchanged |
| Textures.Texture.SetFilter | include/al/core/graphics/al_Texture.hpp:188 | both filters take the value; the flag goes up iff either changed; wraps and storage unchanged |
| Textures.Texture.SetWrap3 | include/al/core/graphics/al_Texture.hpp:197 | all three wrap modes set; the wrap flag goes up iff one changed; filters and storage unchanged |
| Textures.Texture.SetWrap2 | include/al/core/graphics/al_Texture.hpp:200 | S and T set, R kept; the wrap flag goes up iff S or T changed; filters and storage unchanged |
| Textures.Texture.SetWrapAll | include/al/core/graphics/al_Texture.hpp:203 | S, T and R all take the value; the wrap flag goes up iff one changed; filters and storage unchanged |
| Textures.Texture.SetWrapS | include/al/core/graphics/al_Texture.hpp:205 | only S changes, with the wrap flag raised iff it did; filters and storage unchanged |
| Textures.Texture.SetWrapT | include/al/core/graphics/al_Texture.hpp:206 | only T changes, with the wrap flag raised iff it did; filters and storage unchanged |
| Textures.Texture.SetWrapR | include/al/core/graphics/al_Texture.hpp:207 | only R changes, with the wrap flag raised iff it did; filters and storage unchanged |

## Left out

### Command connection
- Sockets, threads, the connection mutex and condition variable, `ping()`, and the `al_steady_time`/`al_sleep` timing: all I/O or concurrency. Their effects are parameters, as described above.
- The `Message` class and `processIncomingMessage`: not part of this model. They are represented by the `handled` and `consumed` parameters.
- Verbose logging and error output: they do not change state.
- The integer promotion in `from_bytes` (`uint16_t(b) << 24` is computed in `int`): the model reads the intended byte weights.
- `CommandConnection.CommandClient.Start`: models a failed handshake as blocking forever (`Blocked`), since the source then waits on a condition variable that is never signalled; the blocking itself is not modelled.
- `CommandConnection.CompactFront`: when the unconsumed tail overlaps the front (`consumed < remainingBytes`), the source's `memcpy` has overlapping ranges, which is undefined behaviour in C. `CompactFront`, `ServerReader.Receive` and `ClientReader.Receive` give it the meaning of `memmove`, so the model does not capture what a particular C library does there.
- `CommandConnection.ClientStep`: `None` stands for a `recv` past the end of the buffer. The source does not check for this; it is undefined behaviour, not an error path.

### Text widgets
- Drawing, mouse events, the `onAnimate` blink timer, forwarding to the suggestion list (`ItemList`) and its positioning: display and input-device code.
- `DropDown`'s non-printable keys and list widget: these belong to `ListView`, which is outside this model.
- `TextEditing.DropDown.KeyDownPrintable`: covers only printable keys, as described above.
- `TextEditing.SearchBox.KeyDown`: Up and Down go to the suggestion list's `onEvent`. How that moves the list's selected entry is decided in `Widget::onEvent`, which is not part of this model, so for these keys the model keeps the selected entry as it is.
- `TextEditing.TextView.TypeChar`, `BackspaceKey`, `DeleteKey` and `KeyDown` require the cursor and the selection end to lie within the text; the whole stale-cursor state is out of scope for them. `SetValue` keeps the cursor, as `onAssignData` does, so after a shorter string is set the cursor can lie beyond the text. The source handles some such states without error: Backspace with no selection does nothing, and Left and Right go through `cursorPos` and `select`. In others it throws `std::out_of_range` from `insert` or `erase`, for instance a printable key or Delete with the cursor beyond the text. `Arrow` and `DeleteSelected` are modelled without this requirement.
- `TextEditing.TextView.DeleteSelected` and `DeleteText`: require only that the erase starts within the text, which is `std::string::erase`'s condition for not throwing `std::out_of_range`. The throw itself is not modelled.
- NUL handling: modelled only through `CString` and `StrnZero`. Elsewhere strings are NUL-free.
- `NumberDialers` model:
  - The 64-bit `long` overflow and the `LONG_MIN` case are not modelled: integers are unbounded.
  - `p` is taken as a parameter `p >= 1`. The source computes it with `pow` and rounding.
  - `setValue`'s scaling by `10^-mNF` and the `dig()` advance are not modelled (floating point and widget state).

### Parameter bundles
- The OSC callback registration in `addParameter` (al_ParameterBundle.cpp:49-131): it wires callbacks into foreign parameter classes that are not part of this model.
- `Bundles.AddNotifier`: works on a value tree of bundles, so sharing a sub-bundle between parents, object identity and cycles are not captured.
- `name()` and `bundleIndex()`: they return the `name` and `index` fields directly.
- The header's declarations differ from the `.cpp` in places; the `.cpp` is followed.

### Calibration loader
- Opening the file (`path/hostname.txt`) and loading the warp and blend files: I/O.
- Numeric fields are kept as their token strings. Stream-extraction failure on a malformed number, which stops the `>>` chain, is not modelled.
- `Calibration.ParseCount`: bounds the count by the `id` tokens in the stream rather than counting the `id` keywords met. A token `id` read as a value or as a record id is not a keyword.

### Texture
- All OpenGL calls: foreign code.
- The `.cpp` bodies of `filterMin`, `filterMag` and `wrap(S, T, R)` are not part of this model. They are modelled through `update_param`, as the comment at al_Texture.hpp:248-249 describes.

## Findings

| source | as written | input that shows it | evidently intended | confidence | as-written member | corrected member |
|---|---|---|---|---|---|---|
| src/protocol/al_CommandConnection.cpp:39-42 | the u32 `from_bytes` reads `bytes[4]` at weight 2^16 and never reads `bytes[2]` | `to_bytes(0x10000)` followed by one zero byte, `[0, 0, 1, 0, 0]`, decodes to 0 | bytes 0..3 little-endian, the inverse of `to_bytes` | not executed | Wire.DecodeU32AsWrittenBreaksRoundTrip | Wire.DecodeEncodeU32 |
| src/protocol/al_CommandConnection.cpp:376-381 | the client adds every `recv` to `bufferSize`, and the PING branch neither resets it nor clears the PING at the front | a PING `[PING, 0]` then a message `[app, 'A', 'B']`: the message is answered as a second ping and never handed on; a PING then one 1024-byte receive make the next `recv` write past the 2048-byte buffer | the server's discipline: after a handled message only the unconsumed bytes stay pending | not executed | CommandConnection.ClientPingSticks | CommandConnection.ClientCorrectedPingReleases |

`CommandConnection.ClientReader` follows the code as written. `ClientStepCorrected` is the corrected step, and its own contract proves that it never overruns.
