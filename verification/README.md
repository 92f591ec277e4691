# plexy-glass: verified models of its decision logic

plexy-glass is a terminal multiplexer: a daemon owns sessions of windows and panes, a client attaches a
terminal to one of them, and a session picker on the client moves between daemons. This project models the
parts of it where one component's promise rests on another's, and proves those promises for every input and
every run. It verifies with `dafny verify dfyconfig.toml`.

* **Declared sessions** (`Kdl`, `Templates`, `SessionDecoder`, `SessionMeaning`, `SessionErrors`, `SessionPrinter`,
  `ConfigParser`). The decoder from the KDL v2 tree to session templates, its printer, and the loop over the
  document's top-level nodes. A node decodes to a template if and only if it describes it, entry by entry and child
  by child, defaults included; every error names a defect the node has. Printing and decoding are inverse on exactly
  the valid templates, at any nesting. A document is accepted if and only if its nodes meet a condition that does not
  mention the order of sections; so sections may be permuted freely.
* **Terminal probe** (`Probe`, `KeyboardReply`, `OuterTerminal`). Finding the device-attributes reply in a
  stream read in arbitrary pieces, cutting off type-ahead, and switching terminal modes on and off on a terminal
  that interprets the bytes.
* **Terminal reports in the input** (`OuterEvents`). The in-place scanner refines a declarative tokenization,
  and works chunk by chunk exactly when no chunk ends inside an unfinished report.
* **Host roster** (`StableSort`, `Roster`, `RowAssembly`). The assembled list is the only list that meets its
  specification, and it agrees with the separate look-up of a host's binary.
* **Session picker** (`PickerRows`, `Streaming`, `Picker`, `PickerRuns`, `PickerKeys`, `PickerRender`, `AdHocSections`). Query
  answers in any order give the list a single pass would give; rows stay grouped; the cursor stays in range; a mode
  is open, and an outcome occurs, if and only if the keys pressed so far call for it; every row is drawn where it
  should be, with its own text, and the box exactly as wide as it should be.
* **Client pump** (`Pump`, `ClientPump`, `PumpEffects`). The event loop around the picker: what reaches the daemon
  and the screen, exactly and in order, who owns the screen, when the picker opens and closes, how the loop ends, and
  one repaint per closed picker.
* **Daemon connections** (`SwitchProtocol`, `SessionSwitch`). Any number of connections attach, switch and leave
  while sessions open, close and are renamed; every access to shared state is a separate step.
* **Running a command** (`Exec`). The wait for a command to finish races a dead child, a deadline and the client,
  with full screen resets in between.
* **Choose-tree and history** (`TreeNodes`, `History`). The flat lists behind the two overlays.

State that the program updates in place (the scanner's buffer, the ad-hoc host file, the picker, the pump, a
session's client list, a connection's context) is a class whose methods are proved equal to functions on values;
the properties are proved about those functions. The protocols are step relations with the environment's steps
(panes, other connections, the terminal, the daemon) among them.

## Where the code differs from its description

* *Divider of the picker* (`AdHocSections.DividerSeparatesIff`, `AdHocSections.DividerInsideAdHocReached`). The
  divider is meant to stand above the ad-hoc block. In every state the client reaches, ad-hoc rows come last; the
  loop draws the divider above the first ad-hoc row that has any row above it. So all rows above it are not ad-hoc
  and all below are if and only if the first visible row is not ad-hoc, that is, if any visible row is not. Filtering
  down to one ad-hoc host puts that host above the divider and its session below.
* *A finished command is never misreported* (`Exec.ReportedIff`, `Exec.ResetHidesCompletion`). True exactly if the
  pane's count passes the baseline: always without a full reset; after one, only if as many more commands finish.
* *Sixel from the device attributes* (`Probe.SixelFromOwnReplyIff`, `Probe.SixelFromForeignSequence`). The
  parameters are read from the last private introducer before the end of the reply, which need not be the reply's
  own. Sixel is reported exactly for replies that list it themselves if and only if the reply has the `ESC [ ?` form
  or the nearest introducer before it has no `4` field from there to the end of the reply.
* *Registrations* (`SwitchProtocol.OnlyLostRemain`, `SwitchProtocol.LostRegistrationReached`). A connection that
  breaks off while its attach is being answered keeps its registration, in a run that is given; these are the only
  ones ever left over.
* *An arrow key cut by a chunk boundary* (`PickerKeys.KeysInChunksIff`, `PickerKeys.CutArrowCancels`) closes the
  picker; the exact condition is on the last two bytes of the chunk and the first of the next.
* *The highlighted row* (`PickerRender.HighlightOnScreenIff`) is drawn if and only if the cursor, plus one each for a
  notice and for a header and a divider at or above the cursor's row, plus 3 is at most the terminal's rows: the list
  does not scroll.
* *A kill that changes no row* (`PumpEffects.ShownAsItStands`, `PumpEffects.QuietKillLeavesConfirmation`). The picker
  is drawn again after every event that may change it, but for a kill that is refused, fails or is of the session it
  was opened on: then the confirmation stays on the screen although the picker is navigating again.
* *Box width* (`PickerRender.ExactWidthIff`, `PickerRender.FitsIff`). Text rows are exactly as wide as the box from
  8 columns on and stay on the terminal from 6 on.

## Model

| member | source | states |
|---|---|---|
| `SessionPrinter.SessionRoundTrip` | crates/config/src/kdl_config.rs:495-730 | decoding the printed form of any valid template, however nested, gives back exactly that template |
| `SessionPrinter.DecodableIffValid` | crates/config/src/kdl_config.rs:495-730 | a template is what some node decodes to if and only if it is valid |
| `SessionPrinter.LayoutRoundTrip` | crates/config/src/kdl_config.rs:596-689 | the same for layouts, with `ratio=` read back exactly where a split child carries one |
| `SessionMeaning.SessionMeaningIff` | crates/config/src/kdl_config.rs:495-590 | any node decodes to a template if and only if it describes it: name, `cwd`, environment and windows as its entries and children give them, nothing unknown, at least one window and at most one active |
| `SessionMeaning.WindowMeaning` | crates/config/src/kdl_config.rs:540-590 | the same for a window: exactly one layout child, active exactly if its last `active` entry is true |
| `SessionMeaning.LayoutMeaning` | crates/config/src/kdl_config.rs:596-662 | the same for a layout at any depth: `ratio` only directly under a split, no other property than those known, two children or more in a split |
| `SessionMeaning.SplitWeights` | crates/config/src/kdl_config.rs:664-689 | a split has one child per child node, each with its own layout and the weight of its last `ratio` entry, 1 if it has none |
| `SessionErrors.ErrorsAreTrue` | crates/config/src/kdl_config.rs:495-730 | a session that is rejected has the very defect its error names, in itself or in a node below it |
| `SessionDecoder.SessionOfIsValid` | crates/config/src/kdl_config.rs:517-531 | whatever node decodes, the session has windows, at most one active one, and every window's layout is valid with at most one active leaf |
| `SessionDecoder.LayoutOfIsValid` | crates/config/src/kdl_config.rs:629-689 | every decoded split has two children or more; weights are positive by type |
| `SessionDecoder.DecodeSession` | crates/config/src/kdl_config.rs:495-538 | the loop over the node's children computes the recursive decoding, the error included |
| `SessionDecoder.DecodeWindow` | crates/config/src/kdl_config.rs:540-590 | likewise for one window: exactly one layout child beside the environment |
| `SessionDecoder.DecodeSplit` | crates/config/src/kdl_config.rs:629-662 | the loop over a split's children computes the recursive decoding, first error first; what that means is `SessionMeaning.SplitWeights` |
| `SessionDecoder.DecodePane` | crates/config/src/kdl_config.rs:612-627 | a pane's properties and environment, `ratio=` allowed only under a split |
| `SessionDecoder.DecodeLayoutNode` | crates/config/src/kdl_config.rs:596-610 | panes and splits, anything else an error |
| `SessionDecoder.DecodeEnvChild` | crates/config/src/kdl_config.rs:704-730 | at most one environment block, its pairs in declared order |
| `ConfigParser.ParseConfig` | crates/config/src/kdl_config.rs:25-115 | the loop over top-level nodes computes the fold, stopping at the first error |
| `ConfigParser.ParseCharacterised` | crates/config/src/kdl_config.rs:25-115 | a document is accepted if and only if every node is well formed, no section repeats and session names are unique; then the result is its sections over the defaults and its sessions in order |
| `ConfigParser.AcceptedConfigIsValid` | crates/config/src/kdl_config.rs:94-104 | every accepted configuration has unique session names and only valid sessions |
| `ConfigParser.AcceptedFile` | crates/config/src/kdl_config.rs:25-115 | every top-level node of an accepted file is a session or one of the eleven sections, none given twice |
| `ConfigParser.SectionOrderIndependence` | crates/config/src/kdl_config.rs:25-115 | if a document is accepted, so is every permutation that keeps the sessions' order, with the same result |
| `Probe.FindDa1End` | crates/client/src/negotiate.rs:56-72 | the index loop finds what the recursive search finds |
| `Probe.Da1EndIsFirst` | crates/client/src/negotiate.rs:56-72 | the search returns the end of the leftmost complete reply, or nothing when there is none |
| `Probe.Da1EndStable` | crates/client/src/negotiate.rs:56-72 | once found, the end stays the same whatever bytes follow |
| `Probe.Da1EndLocal` | crates/client/src/negotiate.rs:56-72 | the end is seen as soon as the bytes up to it have arrived |
| `Probe.ReadProbeReply` | crates/client/src/negotiate.rs:234-288 | the read loop takes whole chunks and stops right behind the first one that completes the reply, or at the end of input or time, and no earlier or later |
| `Probe.CaptureTypeAhead` | crates/client/src/negotiate.rs:88-93 | however the stream is cut into reads, type-ahead followed by what is unread is the stream behind its first reply |
| `Probe.SixelMeaning` | crates/client/src/negotiate.rs:137-149 | what is reported for the first reply, in either form: its own `4`, or one lent by the nearest introducer before it |
| `Probe.SixelFromOwnReplyIff` | crates/client/src/negotiate.rs:137-149 | Sixel is reported exactly for replies listing it themselves if and only if the reply has the `ESC [ ?` form or nothing before it lends it a `4` |
| `Probe.SixelFromForeignSequence` | crates/client/src/negotiate.rs:137-149 | a stream where the parameters come from another sequence, an instance of the condition |
| `KeyboardReply.HasKittyFlagsReport` | crates/client/src/negotiate.rs:152-168 | true if and only if a flags report stands anywhere in the reply |
| `KeyboardReply.HasXtversionReply` | crates/client/src/negotiate.rs:171-173 | true if and only if a version reply starts anywhere |
| `KeyboardReply.Classify` | crates/client/src/negotiate.rs:42-50 | Kitty with level 1 exactly if a flags report is there, modified keys exactly if only a version reply is, legacy exactly if neither |
| `KeyboardReply.MoreBytesNeverLower` | crates/client/src/negotiate.rs:42-50 | bytes before or after a reply never lower the protocol it shows |
| `OuterTerminal.EnableBytes` | crates/client/src/negotiate.rs:186-205 | the bytes appended for keyboard, focus and colour scheme, in that order; interpreted by any terminal they switch exactly these on |
| `OuterTerminal.TeardownBytes` | crates/client/src/negotiate.rs:209-223 | the reverse order; interpreted by any terminal they switch exactly these off |
| `OuterTerminal.TeardownInvertsEnable` | crates/client/src/negotiate.rs:186-223 | interpreted by a terminal, teardown after enable restores the state, for any keyboard stack, if and only if the modes it switches were off before |
| `OuterEvents.ParseColorScheme` | crates/client/src/pump.rs:72-92 | recognises a leading colour-scheme report, its digits unbounded |
| `OuterEvents.ChunkBuffer.ScanOuterEvents` | crates/client/src/pump.rs:40-69 | the in-place loop leaves the kept bytes in the buffer and returns the events of the leftmost scan |
| `OuterEvents.RecognisedIffSequence` | crates/client/src/pump.rs:40-92 | an event of length n is recognised if and only if the first n bytes are a report by the grammar |
| `OuterEvents.TokenizationExists` | crates/client/src/pump.rs:40-69 | every input has a leftmost tokenization |
| `OuterEvents.ScanRefinesTokenization` | crates/client/src/pump.rs:40-69 | the scan yields the kept bytes and events of any leftmost tokenization, whose tokens interleave back to the input |
| `OuterEvents.ScanRecoversItems` | crates/client/src/pump.rs:40-69 | text without escapes interleaved with reports is recovered exactly |
| `OuterEvents.ScanChunksIff` | crates/client/src/pump.rs:40-69 | scanning a chunk and then any rest equals scanning the whole if and only if the chunk has no unfinished report at its end |
| `OuterEvents.PartialTailMatters` | crates/client/src/pump.rs:40-69 | for every chunk with an unfinished report some continuation is scanned differently |
| `StableSort.SortStable` | crates/client/src/roster.rs:52-76 | tying elements keep their order |
| `StableSort.SortOrdered` | crates/client/src/roster.rs:52-76 | the sort orders |
| `Roster.Assemble` | crates/client/src/roster.rs:52-76 | configured hosts strictly increasing, then ad-hoc ones strictly increasing, disjoint, with exactly the input's hosts and each bin as the look-up finds it, duplicates included |
| `Roster.SortKeepsLookup` | crates/client/src/roster.rs:82-87 | sorting does not change which declaration the look-up finds |
| `Roster.LeqMeaning` | crates/client/src/roster.rs:52-76 | the order of hosts is lexicographic: a prefix, or smaller at the first difference |
| `Roster.BinMeaning` | crates/client/src/roster.rs:82-87 | the look-up gives the path of the first declaration of the host, none if it is not declared |
| `Roster.DedupKeepsLookup` | crates/client/src/roster.rs:82-87 | neither does dropping repeats of a sorted list |
| `Roster.RosterUnique` | crates/client/src/roster.rs:52-76 | only one list meets that specification |
| `Roster.RosterDistinct` | crates/client/src/roster.rs:52-76 | no host is listed twice |
| `Roster.RosterFile.AddAdhoc` | crates/client/src/roster.rs:187-203 | afterwards the host is stored or configured; it is added at the end, and only if it was neither |
| `Roster.RosterFile.ForgetAdhoc` | crates/client/src/roster.rs:205-210 | removes every occurrence of the host and nothing else |
| `Roster.AddForget` | crates/client/src/roster.rs:187-210 | what adding and forgetting do to the assembled list |
| `RowAssembly.BuildRosterRows` | crates/client/src/pump.rs:878-920 | pending anchors for every daemon but the attached one, with the ad-hoc names and queries that go with them |
| `RowAssembly.BuildPickerRows` | crates/client/src/pump.rs:796-821 | the current daemon and its sessions, then the others |
| `RowAssembly.ResolveStatus` | crates/client/src/pump.rs:924-938 | each kind of answer has its own status; its rows are the sessions it lists, in order, under the host that answered, and none unless live |
| `RowAssembly.RosterRowsCover` | crates/client/src/pump.rs:878-920 | every daemon but the attached one has its pending anchor and its query, the local one first and exactly if another is attached, then the roster's in order; the ad-hoc names are exactly those of the ad-hoc hosts among them |
| `RowAssembly.RosterRowsFresh` | crates/client/src/pump.rs:878-920 | the rows are grouped and leave out the attached daemon |
| `RowAssembly.PickerRowsGrouped` | crates/client/src/pump.rs:796-821 | the list the picker opens with is grouped |
| `PickerRows.GroupedMeaning` | crates/client/src/picker.rs:326-346 | grouped means: one anchor per host at most, every session in the unbroken run right behind its own anchor |
| `PickerRows.WithoutSessionGrouped` | crates/client/src/picker.rs:360-364 | removing a session keeps it |
| `PickerRows.OthersReplacedGrouped` | crates/client/src/picker.rs:389-399 | replacing the other daemons' rows keeps it |
| `PickerRows.EditsMeaning` | crates/client/src/picker.rs:360-399 | removing a session takes exactly its rows; replacing keeps the attached daemon's rows, first and in order, and takes the new ones for the others |
| `Streaming.ResolvedGrouped` | crates/client/src/picker.rs:332-346 | an answer, for a listed host or not, keeps it |
| `Streaming.ResolvedIsOnePass` | crates/client/src/picker.rs:332-346 | folding in one answer equals placing it in one pass over the list |
| `Streaming.StreamingIsOnePass` | crates/client/src/pump.rs:503-520 | any sequence of answers, repeats included, equals placing each host's last answer in one pass |
| `Streaming.ArrivalOrderIndependence` | crates/client/src/pump.rs:503-520 | one answer per host gives the same list in any order of arrival |
| `Picker.PickerState.constructor` | crates/client/src/picker.rs:269-287 | starts on row 0, on the local daemon |
| `Picker.PickerState.WithCurrent` | crates/client/src/picker.rs:294-324 | starts on the current session's row if listed |
| `Picker.PickerState.ResolveHost` | crates/client/src/picker.rs:332-346 | in place, what folding in the answer gives, then the cursor clamped |
| `Picker.PickerState.RemoveRow` | crates/client/src/picker.rs:360-364 | drops that session's rows only |
| `Picker.PickerState.ReplaceOtherRows` | crates/client/src/picker.rs:389-399 | keeps the attached daemon's rows, replaces the rest |
| `Picker.PickerState.Clamp` | crates/client/src/picker.rs:748-754 | the cursor is in range, and unmoved if it was |
| `Picker.PickerState.MoveCursor` | crates/client/src/picker.rs:743-746 | one modular step over rows and slot: down from the slot to the first row, up from the first row to the slot, in range always |
| `Picker.PickerState.PushFilter` | crates/client/src/picker.rs:728-738 | appends, and selects the first matching row, the slot only if none matches |
| `Picker.PickerState.Accept` | crates/client/src/picker.rs:700-722 | switch or cancel on the attached daemon, reconnect elsewhere |
| `Picker.PickerState.HandleNavigate` | crates/client/src/picker.rs:458-531 | whole new state and outcome of a key when navigating |
| `Picker.PickerState.HandleFiltering` | crates/client/src/picker.rs:561-601 | the same while the filter is edited |
| `Picker.PickerState.HandlePrompt` | crates/client/src/picker.rs:537-685 | the same in the two prompts and the kill confirmation |
| `Picker.PickerState.Handle` | crates/client/src/picker.rs:445-453 | the same for any mode |
| `PickerRuns.CursorInRange` | crates/client/src/picker.rs:405-426 | after any mix of keys and roster edits the cursor is at most the number of visible rows, and nothing is selected exactly on the slot |
| `PickerRuns.RowsStayGrouped` | crates/client/src/picker.rs:332-399 | rows stay grouped over every run |
| `PickerRuns.ModeIff` | crates/client/src/picker.rs:458-685 | the picker is in a mode if and only if one key on one row (or on the slot) opened it and no key has closed it since; a prompt names that row and holds exactly the text typed since |
| `PickerRuns.OutcomeIff` | crates/client/src/picker.rs:445-722 | an outcome occurs if and only if its history calls for it: `y` on a confirmation opened on that session; Enter on a prompt with exactly that text, not empty; Enter on a selected row by its host and kind; `x` on an ad-hoc anchor; Escape |
| `PickerRuns.KeyEffects` | crates/client/src/picker.rs:458-601 | what each key does to cursor, filter and install flag in each mode, rows untouched |
| `PickerRuns.EditsKeepCursor` | crates/client/src/picker.rs:332-399 | roster edits leave mode, filter and flag alone, and the cursor unless it would be beyond the slot |
| `PickerRuns.TypedMeaning` | crates/client/src/picker.rs:603-685 | printable keys type themselves, Backspace takes the last one back, nothing else types |
| `PickerRuns.VisibleIff` | crates/client/src/picker.rs:405-411 | a row is visible exactly if its label has the filter as a substring, letter case aside |
| `PickerRuns.StandaloneNeverSwitches` | crates/client/src/picker.rs:700-722 | attached to nothing, the picker never switches and only Escape cancels |
| `PickerRuns.DownWalks` | crates/client/src/picker.rs:743-746 | pressing down reaches every row and the slot and comes round |
| `PickerRuns.UpUndoesDown` | crates/client/src/picker.rs:743-746 | the arrows undo each other, wrap-around included |
| `PickerRuns.FindSelectsFirstMatch` | crates/client/src/picker.rs:561-601 | `/`, text, Enter selects the first matching row, never the slot if anything matches |
| `PickerRuns.BackspaceTakesBack` | crates/client/src/picker.rs:589-594 | Backspace takes back the last character of the filter |
| `PickerRuns.EscapeShowsAll` | crates/client/src/picker.rs:580-588 | Escape ends filtering with every row visible and the first selected |
| `PickerRuns.InstallFollowsToggles` | crates/client/src/picker.rs:488-491 | over any run the install flag an outcome carries is the initial one if and only if the number of `i` pressed while navigating is even |
| `PickerRuns.OpensOnCurrent` | crates/client/src/picker.rs:294-324 | the assembled picker opens on the current session, or on the daemon's anchor if that is not listed |
| `PickerKeys.FeedPickerBytes` | crates/client/src/pump.rs:1012-1035 | a chunk acts as its decoded keys up to the first outcome |
| `PickerKeys.KeysInChunksIff` | crates/client/src/pump.rs:1008-1035 | decoding is chunk by chunk if and only if no boundary cuts an arrow sequence |
| `PickerKeys.FeedChunks` | crates/client/src/pump.rs:1012-1035 | two such chunks act as one |
| `PickerKeys.ArrowsMove` | crates/client/src/pump.rs:1012-1035 | a whole arrow up or down moves that way; other bytes are keys of their own |
| `PickerKeys.CutArrowCancels` | crates/client/src/pump.rs:1008-1011 | a cut arrow cancels where a whole one moves |
| `PickerRender.ContentLines` | crates/client/src/picker.rs:777-833 | the loop with its three flags builds the content lines |
| `PickerRender.OneHighlight` | crates/client/src/picker.rs:777-833 | header and divider apart, one line per visible row in order and the slot last; exactly one is highlighted, the selected row's or the slot |
| `PickerRender.DividerPlacement` | crates/client/src/picker.rs:799-809 | one divider at most, right above the first ad-hoc row that has a row above it, and none exactly if there is no such row |
| `PickerRender.DividerInsideAdHoc` | crates/client/src/picker.rs:799-809 | two visible rows of one ad-hoc host have the divider between them |
| `AdHocSections.RosterRowsLast` | crates/client/src/pump.rs:792-795 | the rows built from an assembled roster have the ad-hoc ones last, and the attached daemon's are not among them |
| `AdHocSections.AfterSectioned` | crates/client/src/picker.rs:332-399 | every key and roster edit keeps ad-hoc rows last |
| `AdHocSections.RunSectioned` | crates/client/src/pump.rs:210-523 | they are last in every picker the client's loop ever runs |
| `AdHocSections.VisibleLast` | crates/client/src/picker.rs:405-411 | under every filter |
| `AdHocSections.DividerSeparatesIff` | crates/client/src/picker.rs:777-811 | in every such state the divider has exactly the ad-hoc rows below it if and only if the first visible row is not ad-hoc, if and only if any visible row is not |
| `AdHocSections.DividerInsideAdHocReached` | crates/client/src/picker.rs:799-809 | a run of the client's loop to a state where it does not |
| `PickerRender.DrawBox` | crates/client/src/picker.rs:859-933 | the drawing loop stays inside its lines and places every box row |
| `PickerRender.Render` | crates/client/src/picker.rs:765-933 | the same from the picker's state: interior, prompt and footer |
| `PickerRender.BoxRowWidth` | crates/client/src/picker.rs:963-1073 | how wide each kind of row is, whatever its text, given only that cutting respects its bound |
| `PickerRender.ExactWidthIff` | crates/client/src/picker.rs:765-994 | rows are exactly as wide as the box if and only if the terminal has 8 columns (6 for borders and dividers) |
| `PickerRender.FitsIff` | crates/client/src/picker.rs:765-933 | rows are consecutive and on the terminal; they end within it if and only if it has 6 columns (2 for borders and dividers) |
| `PickerRender.Centered` | crates/client/src/picker.rs:765-896 | two free columns on either side; margins above and below differ by one at most |
| `PickerRender.CursorLineSelected` | crates/client/src/picker.rs:777-876 | the highlighted line's number: the cursor, plus one each for a notice, a header and a divider before it |
| `PickerRender.HighlightOnScreenIff` | crates/client/src/picker.rs:893-933 | the highlight is drawn if and only if that number plus 3 is at most the terminal's rows, and then on that line's box row alone |
| `PickerRender.RowShown` | crates/client/src/picker.rs:859-994 | each visible row is on the screen if and only if its line and the borders fit; its box row then has one text, the status glyph with the session's label or the daemon's name and tag, whole if it fits, and is highlighted exactly if the cursor is on it |
| `PickerRender.GlyphTellsStatus` | crates/client/src/picker.rs:1085-1097 | two statuses have the same glyph only if they are the same, the version that does not match included |
| `PickerRender.FirstAndLastLines` | crates/client/src/picker.rs:852-892 | a notice leads, the slot ends the content, a blank line and the prompt follow |
| `PickerRender.TypedIsTold` | crates/client/src/picker.rs:837-857 | the prompt ends with the text typed, the footer of a confirmation names the session |
| `PickerRender.BordersShown` | crates/client/src/picker.rs:897-930 | title and footer on the borders, cut to the interior, with rules on either side that differ by one column at most |
| `Pump.ScreenDiscipline` | crates/client/src/pump.rs:210-523 | no session output while the picker is open nor after it closed until a repaint has been asked for; the picker's screen is up exactly while it is open; answers are awaited only then |
| `Pump.OneRepaintPerClosing` | crates/client/src/pump.rs:294-334 | one repaint request per closed picker, except behind a reconnect |
| `Pump.EveryClosingRepainted` | crates/daemon/src/connection.rs:584-608 | client and daemon together, from the start of both: when the connection has served the repaint messages the client sent, in order, its renderer has been told to repaint exactly once per closed picker |
| `Pump.PickersAreSound` | crates/client/src/pump.rs:210-523 | over every run each picker is in range, grouped and on the attached daemon, and no reconnect has an empty session name |
| `Pump.SwitchGoesElsewhere` | crates/client/src/pump.rs:300-328 | a switch is asked for only from an open picker, to a session listed on the attached daemon, never to the one the picker was opened on |
| `PumpEffects.OutputIsPainted` | crates/client/src/pump.rs:230-237 | over every run the output painted is exactly the frames the daemon sent while no picker was open and the loop had not ended, in order |
| `PumpEffects.InputIsSent` | crates/client/src/pump.rs:474-488 | the input sent is exactly the scanned remainder of what was typed while no picker was open, chunk by chunk |
| `PumpEffects.ReportsAreSent` | crates/client/src/pump.rs:474-484 | the notices sent are exactly the reports scanned from what was typed while no picker was open, in order |
| `PumpEffects.ResizesAreSent` | crates/client/src/pump.rs:491-499 | one resize message per new terminal size, with that size |
| `PumpEffects.RequestsAreSent` | crates/client/src/pump.rs:300-334 | each switch chosen to another session asks for exactly that session, each cancel and each switch to the picker's own session for a redraw, and nothing else asks |
| `PumpEffects.MarksAreMade` | crates/client/src/pump.rs:252-472 | the alternate screen is taken once per opening and given back once per decision to leave; a kill refused or failed is told |
| `PumpEffects.FramesAreDrawn` | crates/client/src/pump.rs:252-523 | the open picker is drawn after every event that may have changed it, as it then stands and at the size then in force, but for kills that change no row |
| `PumpEffects.ShownAsItStands` | crates/client/src/pump.rs:252-523 | the last drawing shows the open picker as it stands, unless a kill has changed no row |
| `PumpEffects.QuietKillLeavesConfirmation` | crates/client/src/pump.rs:419-466 | such a kill, in any state, leaves the confirmation on the screen although the picker is navigating again |
| `PumpEffects.OpenIff` | crates/client/src/pump.rs:294-472 | a picker is open if and only if one was opened and no decision has closed it since |
| `PumpEffects.OpensFresh` | crates/client/src/pump.rs:252-277 | it opens on the rows assembled for the sessions sent, unfiltered, on the current session if listed |
| `PumpEffects.PickerIsItsRun` | crates/client/src/pump.rs:294-523 | while open it is a run of the picker alone, over the keys typed, the answers awaited and the edits its decisions call for, in order; so every law of `PickerRuns` holds inside the loop |
| `PumpEffects.DecidesIff` | crates/client/src/pump.rs:1012-1035 | a chunk decides an outcome if and only if one of its keys emits it and none before it emits any |
| `PumpEffects.ExitIff` | crates/client/src/pump.rs:218-373 | the loop ends if and only if an event ends it, with exactly that event's result: for a reconnect the chosen host and install policy, and the chosen session, `main` only for an empty name |
| `PumpEffects.AwaitsIff` | crates/client/src/pump.rs:503-523 | answers are awaited exactly from an opening or a forgotten host until all have come or the picker is closed |
| `PumpEffects.ListensIff` | crates/client/src/pump.rs:284-293 | typing is read until its end, whatever else happens |
| `PumpEffects.SizeIsLastTold` | crates/client/src/pump.rs:491-499 | the size drawn for is the last one told |
| `PumpEffects.KilledRowGoes` | crates/client/src/pump.rs:421-441 | a session killed on request loses exactly its row |
| `PumpEffects.ForgottenHostGoes` | crates/client/src/pump.rs:374-398 | a forgotten host loses its anchor and sessions; the attached daemon's rows stay in place |
| `PumpEffects.FromTheStart` | crates/client/src/pump.rs:210-523 | the loop's promises together, for every run from its initial state |
| `ClientPump.ClientPump.OnOpenPicker` | crates/client/src/pump.rs:252-277 | opens a picker built from the roster |
| `ClientPump.ClientPump.OnOutcome` | crates/client/src/pump.rs:300-472 | each outcome's effect on screen, daemon and picker |
| `ClientPump.ClientPump.Forward` | crates/client/src/pump.rs:474-488 | notices first, then the rest as input, if any |
| `ClientPump.ClientPump.OnStdin` | crates/client/src/pump.rs:294-488 | what one chunk does, with or without a picker |
| `ClientPump.ClientPump.Handle` | crates/client/src/pump.rs:210-523 | one event of the loop is the step the properties are proved about |
| `ClientPump.RunPump` | crates/client/src/pump.rs:210-523 | the loop is the run |
| `SwitchProtocol.InvAfter` | crates/daemon/src/connection.rs:976-1036 | every step of every connection and of the environment keeps the accounts of the client tables |
| `SwitchProtocol.Ownership` | crates/daemon/src/connection.rs:976-1036 | in every reachable state a connection in its input loop is registered under its current session and number, and each registration is in the table once and held by exactly one connection |
| `SwitchProtocol.SwitchOutcome` | crates/daemon/src/connection.rs:976-1036 | over any run: if a connection ends on the registration it had, none of its steps touched a table; otherwise the former one is gone, nobody holds it, and the new one is on a session the connection found live, or created, under a name it had requested |
| `SwitchProtocol.SwitchAlone` | crates/daemon/src/connection.rs:976-1036 | without interference: refused if and only if the live target is called like the present session, else both client lists change as a direct move changes them and the renderer is pointed there |
| `SwitchProtocol.DeclaredAlone` | crates/daemon/src/connection.rs:976-1036 | a request for a name no live session has, without interference: a session of that name is built and listed and the connection is its first client, unless its own session has that name; if it cannot be built nothing moves |
| `SwitchProtocol.AttachAlone` | crates/daemon/src/connection.rs:331-358 | an attach without interference: turned away exactly if the session is closing, else registered under its next number |
| `SwitchProtocol.LeaveAndCleanUp` | crates/daemon/src/connection.rs:615-632 | leaving ends with the registration out of the table and the connection gone |
| `SwitchProtocol.RegistryNames` | crates/daemon/src/registry.rs:262-288 | in every reachable state the registry lists each session under its own name, and so under one only |
| `SwitchProtocol.OthersNeverClaim` | crates/daemon/src/session/mod.rs:504-545 | a number one connection has claimed is never claimed by another, over any run |
| `SwitchProtocol.CleanupRemovesOne` | crates/daemon/src/connection.rs:615-632 | cleanup removes exactly the connection's registration |
| `SwitchProtocol.OnlyLostRemain` | crates/daemon/src/connection.rs:331-358 | with nobody connected, what is left are exactly the registrations of connections lost while being answered |
| `SwitchProtocol.LostRegistrationReached` | crates/daemon/src/connection.rs:331-358 | a run from the empty daemon that leaves one |
| `SwitchProtocol.RequestsCounted` | crates/daemon/src/connection.rs:584-608 | over any run a connection has counted exactly the repaint messages it served |
| `SwitchProtocol.EveryRequestRepaintsOnce` | crates/daemon/src/connection.rs:584-608 | each switch or redraw message makes the renderer repaint once, and the renderer shows the session the connection is on |
| `SessionSwitch.Session.RegisterClient` | crates/daemon/src/session/mod.rs:504-545 | refused when closing; else the next number, entered once |
| `SessionSwitch.Session.DeregisterClient` | crates/daemon/src/session/mod.rs:546-560 | that number gone, the others kept in order |
| `SessionSwitch.Registry.Get` | crates/daemon/src/registry.rs:133-143 | the live session of that name; a closing one is dropped |
| `SessionSwitch.Registry.CreateDeclared` | crates/daemon/src/registry.rs:172-188 | the live one, else a new one, else nothing |
| `SessionSwitch.ClientCtx.MoveTo` | crates/daemon/src/connection.rs:1006-1035 | moves if and only if the names differ and the target is open; both client lists exactly |
| `SessionSwitch.ClientCtx.Lookup` | crates/daemon/src/connection.rs:977-1005 | the live session of that name, else a new one exactly if it is declared and builds; what it returns is listed under that name afterwards, every other name as before |
| `SessionSwitch.ClientCtx.SwitchSession` | crates/daemon/src/connection.rs:976-1036 | moves if and only if the live session of that name, or else the declared one just built and listed, is not called like the present one; otherwise every client list is as it was |
| `Exec.EveryRunSafe` | crates/daemon/src/connection.rs:1841-1994 | in every run: at most one reply, the text sent at most once and only to a ready pane, no reply to a client that left, and every reply true of the pane's history since the baseline |
| `Exec.OverIsOver` | crates/daemon/src/connection.rs:1958-1994 | nothing after the reply changes it |
| `Exec.CounterMeaning` | crates/emulator/src/screen.rs:2157-2176 | the count is the baseline plus the commands finished since, or those finished since the last reset |
| `Exec.ExitMeaning` | crates/emulator/src/screen.rs:2157-2176 | a count past the baseline makes the exit payload that of the last command finished since |
| `Exec.ReportedIff` | crates/daemon/src/connection.rs:1940-1993 | when a finished command is reported, exactly |
| `Exec.BeforeTheWait` | crates/daemon/src/connection.rs:1868-1957 | before the text is sent: which refusal each state of the pane gets, what the check records, and when the text is sent |
| `Exec.WhileWaiting` | crates/daemon/src/connection.rs:1958-1994 | the exact effect of every event on a wait: a dead child is answered with the finished command or its death, a deadline with the command or the timeout, a tick with a reset exactly if the count fell behind |
| `Exec.EveryWaitEnds` | crates/daemon/src/connection.rs:1958-1994 | after a dead child, a set deadline or an unexpected message there is exactly one reply whatever follows, after a lost client none |
| `Exec.ResetHidesCompletion` | crates/daemon/src/connection.rs:1940-1993 | a run with a reset where a finished command times out |
| `Exec.Wait` | crates/daemon/src/connection.rs:1958-1993 | the wait loop gives the run's reply |
| `TreeNodes.BuildTreeNodes` | crates/daemon/src/connection.rs:1064-1108 | the nested loops build the pre-order list |
| `TreeNodes.ParsesBack` | crates/daemon/src/connection.rs:1064-1108 | read back by depth alone, the list gives all sessions, windows and panes with their ids, 1-based numbers, names and labels, and nothing else |
| `TreeNodes.MarksThePath` | crates/daemon/src/connection.rs:1064-1108 | the marked nodes are exactly the paths of the sessions called the current name |
| `TreeNodes.ExactlyOnePath` | crates/daemon/src/connection.rs:1064-1108 | with unique names and ids and active entries that exist: one session, one window, one pane |
| `History.BuildHistoryEntries` | crates/daemon/src/connection.rs:1195-1242 | the first 2000 of: the current pane's entries, the other entries of its session, those of all other sessions, each a filter of all entries in snapshot order |
| `History.SnapshotOrder` | crates/daemon/src/connection.rs:1195-1229 | all entries are each session's blocks in order under its name, session after session |
| `History.SortedByRank` | crates/daemon/src/connection.rs:1230-1232 | sorting stably by rank alone is listing the three ranks one after another |
| `History.CapKeepsNearest` | crates/daemon/src/connection.rs:1233-1241 | kept and dropped entries together are all entries; if one of the current session is dropped only its entries are kept, if one of the current pane only its own |

## Left out

* Sockets, ssh, processes, signals, terminal modes of the client's own tty, files and task scheduling. They appear
  as environment steps, chunks or parameters; an I/O error that ends a loop is not modelled.
* The wire codec, the emulator's screen, the renderer's drawing and the keymap. Used through small assumptions
  only: a fresh number per registration, a counter that counts completions and restarts at a reset, cutting that
  respects its width.
* KDL text parsing, the text and position of error messages, and the other sections' decoders: a section decoder
  is a parameter of `ConfigParser`, so its result is carried but not examined.
* A node without a children block is not told apart from one with an empty block.
* Colours and style sequences of the picker's box; the exact widths of strings (any measure with sound cutting).
* The lower-casing of labels and filter is a parameter; only that it leaves the empty string empty is used, and
  only where stated.
* The 256-byte bound on one read of the probe, its time budget as a clock, and the graphics part of the reply
  other than Sixel.
* The balance of keyboard push and pop across several enable/teardown pairs.
* A failed write of the ad-hoc host file.
* The picker's query for one host is an event with its answer; a kill request's reply is part of the event. The picker
  opened right after attaching is an opening before any other event.
* The target a reconnect resolves to beyond host, session name and install policy, and the notice of a standalone
  picker.
* The output text a finished command's reply carries.
* Client sizes and input focus in a session's client list, and what follows a switch from an overlay (focusing a
  window or pane).
