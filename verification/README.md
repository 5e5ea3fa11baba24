# G15 daemon and clients: a verified model

The G15 daemon shares one small keyboard display (160 by 43 pixels) among client programs. This project
models the parts of the daemon and of its clients in which something can go subtly wrong, and proves what
they promise. It is written for Dafny 4.11; `dafny verify dfyconfig.toml` checks all of it.

| file | what it models |
|---|---|
| `Screens.dfy`, `ScreenList.dfy` | which client's screen is shown: the linked list of screens, connecting, disconnecting, the user's cycle key, priority requests |
| `ConfigModel.dfy`, `ConfigList.dfy`, `ConfigText.dfy`, `ConfigRoundTrip.dfy`, `ConfigByHand.dfy`, `ConfigTyped.dfy` | the configuration store: chains of sections and items, the file printer and parser and how they undo each other, files written by hand, typed values with defaults |
| `Pixels.dfy`, `Drawing.dfy`, `Clock.dfy` | the packed frame buffer, lines, filled boxes, large digits and the clock face |
| `Transfer.dfy`, `Sockets.dfy`, `Display.dfy`, `Wbmp.dfy`, `Framing.dfy`, `Misaligned.dfy` | screens sent over a stream that may be cut anywhere, with commands in between, and what becomes of them when a client goes on after a failure |
| `Keys.dfy` | key presses: the cycle-key filter, routing and takeover, and the edge detector of the virtual keyboard |
| `Scan.dfy`, `Macros.dfy` | the macro recorder's file, written and read back |
| `Sensors.dfy` | the statistics client's search for a sensor that answers |
| `Tail.dfy` | the file tail client's ring of lines |
| `Text.dfy`, `Sequences.dfy` | notions that several of these share |

Where the source updates linked structures, buffers or fields in place, the model is a class or a method over
arrays, and each method is proved to do exactly what a function on values says. What the source promises is
then proved about those functions, over whole runs where that is the point.

Choices a reader should know:

- List operations are atomic steps, as they run under the list mutex. The one assignment that the source makes
  after releasing the mutex (`usr_foreground=1` in the cycle function) belongs to the same step here.
- A screen's flags live in the list node that owns the screen.
- Everything outside the program is a parameter: a script of poll and read results for a socket, a reading
  function for the sensors, the display server's names for key codes, the time of a key press.
- Key masks are sets of key numbers, because the bit values come from libg15's header, which is not part of
  this model. The order of the keys is the order in which the plugin handles them.
- The texts of configuration, macro and tail files hold no NUL characters, at which the source's strings would end.
- Undefined behaviour of the source (a buffer overrun, a double free) is an explicit `Fault` result rather than
  a precondition, except where a method says what it requires.
- The comment at `g15_plugin_net.c:276` says that clients send 6880 bytes for each screen. The code also takes
  packed screens of 1048 bytes, and the model follows the code.

Properties that do not hold of the code as it stands are stated with the exact condition under which they do;
most come with concrete counterexamples:

- A priority request can show a screen that has gone (`Screens.RunOkIff`, `Screens.DanglingRequest`).
- Cycling finds no place to stop if every client excludes itself (`Screens.CycleStopsIff`,
  `Screens.CycleNeedNotStop`).
- A saved configuration is not always what is loaded (`ConfigRoundTrip.RoundTrip`,
  `ConfigRoundTrip.RemarksAreLost`).
- Removing a key may leave the cached last item wrong, or free it twice (`ConfigList.ConfigSection.Remove`).
- A client that goes on after a send was cut short can be shown screens it never sent
  (`Misaligned.ClientShownIff`, `Misaligned.SendingOnMisaligns`, `Misaligned.LostTagMisaligns`).
- The operating system does not always hold the keys that are down (`Keys.InStepIff`,
  `Keys.HeldThroughTakeOver`, `Keys.HeldUnderTheClock`, `Keys.HeldUnderTheCycleKey`).
- Restored macros are laid over what was there (`Macros.RestoreIntoClean`).
- The tail client drops the last character of a line without an end (`Tail.NothingLostIff`).

## Model

| member | source | states |
|---|---|---|
| Screens.CycleTarget | g15daemon-wip/g15daemon/linked_lists.c:123-146 | where cycling ends is a screen that allows it, and not the clock while clients are connected |
| Screens.Landing | g15daemon-wip/g15daemon/linked_lists.c:138-146 | it is the first such screen met going back from the one on display |
| Screens.DisconnectKeeps | g15daemon-wip/g15daemon/linked_lists.c:156-198 | a disconnect keeps the list invariant, and leaves no screen remembering a missing one exactly if nobody remembered the screen that goes |
| Screens.DisconnectShows | g15daemon-wip/g15daemon/linked_lists.c:169-193 | the other screens keep their order, and the display keeps its place in the list: the screen that moves up into it is shown, or the new head if the head went |
| Screens.DeparturesEndAtClock | g15daemon-wip/g15daemon/linked_lists.c:156-198 | if the displayed screen goes away again and again, those above it are shown in order, then those below it from the top down, and the clock last |
| Screens.RequestKeeps | g15daemon-wip/g15daemon/main.c:151-172 | a priority request shows a listed screen, except exactly when the displayed screen hands back to a remembered one that is gone |
| Screens.RequestStepsDown | g15daemon-wip/g15daemon/main.c:160-170 | a displayed screen that remembers nobody, or itself, hands over to the one below it in the list; the clock stays, and nothing else changes |
| Screens.YieldsWalkDown | g15daemon-wip/g15daemon/main.c:151-172 | any number of such requests by whichever screen is shown walk down the list one at a time and end at the clock |
| Screens.RequestAfterCycle | g15daemon-wip/g15daemon/linked_lists.c:148-152 | a screen the user has cycled to hands over to the one below it when it asks itself, and comes back when a screen that displaced it asks again |
| Screens.StepOkIff | g15daemon-wip/g15daemon/linked_lists.c:61-198 | a step from a sound state (distinct screens, the displayed one listed, at most one chosen by the user, the clock selectable) leads to a sound one if and only if it does not hand the display back to a screen that has gone |
| Screens.RunOkIff | g15daemon-wip/g15daemon/linked_lists.c:61-198 | over any run that can happen, from any sound state, every state is sound if and only if no request ever hands back to a screen that has gone; the clock stays the tail |
| Screens.StepKeeps | g15daemon-wip/g15daemon/linked_lists.c:61-198 | a step that takes away no remembered screen keeps every memory current |
| Screens.RunKeeps | g15daemon-wip/g15daemon/linked_lists.c:61-198 | so a run in which no remembered screen goes never meets the failing case |
| Screens.RunsFromInit | g15daemon-wip/g15daemon/linked_lists.c:61-89 | the same for every run of a freshly started daemon |
| Screens.DanglingRequest | g15daemon-wip/g15daemon/main.c:162-164 | the failing case can be reached: a run that ends showing a screen that was removed |
| Screens.CycleStopsIff | g15daemon-wip/g15daemon/linked_lists.c:123-146 | from any screen, cycling meets a place to stop if and only if some client allows selection or no client is connected |
| Screens.CycleNeedNotStop | g15daemon-wip/g15daemon/linked_lists.c:144-146 | one client that excludes itself leaves cycling no place to stop |
| Screens.CycleToNextStop | g15daemon-wip/g15daemon/linked_lists.c:117-154 | from a selectable screen, cycling goes to the next selectable one down the list, wrapping round |
| Screens.VisitsWalk | g15daemon-wip/g15daemon/linked_lists.c:117-154 | any number of cycles walks the ring of selectable screens |
| Screens.RoundRobin | g15daemon-wip/g15daemon/linked_lists.c:117-154 | with m selectable screens, m cycles show each exactly once and end where they began |
| Screens.RequestsUnwind | g15daemon-wip/g15daemon/main.c:151-172 | screens that request the display in turn and again in reverse order bring every earlier screen back, down to the first, for any number of them |
| ScreenList.ScreenList.ViewOk | g15daemon-wip/g15daemon/linked_lists.c:61-213 | a list whose links are sound shows a sound state of screens, so the results about runs apply to it |
| ScreenList.ScreenList.constructor | g15daemon-wip/g15daemon/linked_lists.c:61-89 | a fresh list is the clock alone, linked to itself both ways |
| ScreenList.ScreenList.Add | g15daemon-wip/g15daemon/linked_lists.c:91-114 | the new screen is linked in as the head and is displayed; every link, count and flag of the rest is kept |
| ScreenList.ScreenList.Cycle | g15daemon-wip/g15daemon/linked_lists.c:117-154 | it terminates, lands on the first selectable screen back from the one displayed, and leaves that one alone marked as the user's |
| ScreenList.ScreenList.Seek | g15daemon-wip/g15daemon/linked_lists.c:123-146 | the loop stops at the nearest selectable screen and has cleared every user flag |
| ScreenList.ScreenList.RequestPriority | g15daemon-wip/g15daemon/main.c:151-172 | the pointer operations perform exactly the request step: the screen asking, the one before it or the one it remembers is shown |
| ScreenList.ScreenList.MarkNeverSelect | g15daemon-wip/plugins/g15_plugin_net.c:71-76 | the client is excluded from cycling, nothing else changes |
| ScreenList.ScreenList.Remove | g15daemon-wip/g15daemon/linked_lists.c:156-198 | ring and chain close over the removed node, the display passes to its `next`, or its `prev` if it was the head, the clock cannot be removed |
| ScreenList.ScreenList.Destroy | g15daemon-wip/g15daemon/linked_lists.c:200-213 | exactly as many removals as there are clients leave the tail alone |
| ConfigModel.FindItem | g15daemon-wip/g15daemon/utility_funcs.c:404-417 | a search finds the first item with the key, or none if no item has it |
| ConfigModel.FindSection | g15daemon-wip/g15daemon/utility_funcs.c:392-401 | a search finds the first section with the name, or none |
| ConfigModel.LoadSection | g15daemon-wip/g15daemon/utility_funcs.c:421-438 | a loaded section is found afterwards |
| ConfigModel.WriteItemEffect | g15daemon-wip/g15daemon/utility_funcs.c:452-481 | a write is seen by the next search of its key and by no other; no key moves or doubles |
| ConfigModel.WritesAreOrderedMap | g15daemon-wip/g15daemon/utility_funcs.c:452-481 | any run of writes is a map ordered by first write and valued by last write |
| ConfigModel.RunKeepsSectionsApart | g15daemon-wip/g15daemon/utility_funcs.c:421-481 | over any run names and keys stay unique, and each section holds what its own writes alone would leave |
| ConfigModel.RunFindsLastWrite | g15daemon-wip/g15daemon/utility_funcs.c:392-481 | from an empty store, any run leaves every key of every section with its last value, in order of first writes |
| ConfigList.ConfigSection.Search | g15daemon-wip/g15daemon/utility_funcs.c:404-417 | walking the chain finds the item the value-level search finds |
| ConfigList.ConfigSection.Link | g15daemon-wip/g15daemon/utility_funcs.c:464-478 | a new item goes behind the cached last one; `next`, `prev` and the cache stay in step |
| ConfigList.ConfigSection.Remove | g15daemon-wip/g15daemon/utility_funcs.c:484-530 | the item leaves the chain; the cached last item stays right if and only if the last item or the first of two went; a sole item is freed twice |
| ConfigList.WriteString | g15daemon-wip/g15daemon/utility_funcs.c:452-481 | the chain of items goes through exactly one write of the map; -1 for no section |
| ConfigList.ConfigFile.Search | g15daemon-wip/g15daemon/utility_funcs.c:392-401 | walking the chain of sections finds the section the value-level search finds |
| ConfigList.ConfigFile.Load | g15daemon-wip/g15daemon/utility_funcs.c:421-438 | the section is found or appended; every other section is untouched |
| ConfigList.ConfigFile.Write | g15daemon-wip/g15daemon/utility_funcs.c:452-481 | a write through a section pointer changes that section of the store only |
| ConfigList.WriteInt | g15daemon-wip/g15daemon/utility_funcs.c:532-536 | the decimal text of the number is written to the key |
| ConfigList.WriteBool | g15daemon-wip/g15daemon/utility_funcs.c:545-549 | On or Off is written to the key |
| ConfigList.ReadInt | g15daemon-wip/g15daemon/utility_funcs.c:567-575 | the stored number is returned, or the default, which is then stored |
| ConfigList.ReadBool | g15daemon-wip/g15daemon/utility_funcs.c:554-564 | the stored switch is returned, or the default, which is then stored |
| ConfigList.ReadString | g15daemon-wip/g15daemon/utility_funcs.c:589-597 | the stored text is returned, or the default, which is then stored |
| ConfigList.RemoveWhitespace | g15daemon-wip/g15daemon/utility_funcs.c:441-449 | leading blanks go, a null pointer counts as blank |
| ConfigList.ReadLine | g15daemon-wip/g15daemon/utility_funcs.c:632-661 | one line has the effect on the chains that the parser's line rule gives, and is refused exactly if it overruns a buffer |
| ConfigList.Open | g15daemon-wip/g15daemon/utility_funcs.c:600-668 | the tokenising loop builds exactly the parsed store, for every text |
| ConfigList.Save | g15daemon-wip/g15daemon/utility_funcs.c:352-389 | the nested loops write exactly the printed store |
| ConfigText.ParsedIsClean | g15daemon-wip/g15daemon/utility_funcs.c:629-664 | whatever the text, parsed keys and values hold no separator, bracket, line end or leading blank, and no name or key stands twice |
| ConfigByHand.FileIsRead | g15daemon-wip/g15daemon/utility_funcs.c:628-664 | a file written by hand, with blanks, either separator, remarks and text behind a value, is read as the run of writes its lines ask for, in order; entries before the first title go to Global |
| ConfigByHand.EntryIsRead | g15daemon-wip/g15daemon/utility_funcs.c:648-660 | an entry is its key up to the first separator and its value up to the next, without leading blanks |
| ConfigByHand.TitleIsRead | g15daemon-wip/g15daemon/utility_funcs.c:643-647 | a title names its section by what is between the first and the last character |
| ConfigByHand.TitleFaultsIff | g15daemon-wip/g15daemon/utility_funcs.c:643-647 | a title overruns its buffer if and only if it has 1024 characters or more, or is only a bracket |
| ConfigRoundTrip.TokensOfPieces | g15daemon-wip/g15daemon/utility_funcs.c:363-382 | the lines of a printed file are its pieces, run into each other wherever the line buffer cut an end off |
| ConfigRoundTrip.RereadIsSame | g15daemon-wip/g15daemon/utility_funcs.c:632-661 | a printed item is parsed as itself if and only if it survives and fits: comments, remarks, empty keys and cut lines included |
| ConfigRoundTrip.ParsePrint | g15daemon-wip/g15daemon/utility_funcs.c:352-389 | for every clean store whose titles and line ends fit, parsing the print gives each section with its reread items |
| ConfigRoundTrip.SectionRoundTrip | g15daemon-wip/g15daemon/utility_funcs.c:369-378 | a section comes back as it was if and only if each of its items does |
| ConfigRoundTrip.LinesGrow | g15daemon-wip/g15daemon/utility_funcs.c:631-664 | whatever the lines, each adds at most one section or item, only titles add sections, and sections are named by the titles |
| ConfigRoundTrip.MergeCount | g15daemon-wip/g15daemon/utility_funcs.c:357-376 | a line end that was cut off costs a line |
| ConfigRoundTrip.MustFit | g15daemon-wip/g15daemon/utility_funcs.c:357-376 | hence a store that comes back had every title and every needed line end in the buffer |
| ConfigRoundTrip.RoundTrip | g15daemon-wip/g15daemon/utility_funcs.c:352-389 | for every store: loading what was saved gives the same sections and items in the same order if and only if nothing stands twice, every name and item survives, and what matters of each line fits the buffer |
| ConfigRoundTrip.RemarksAreLost | g15daemon-wip/g15daemon/utility_funcs.c:639-644 | a key that begins with '#' does not come back |
| ConfigRoundTrip.LongKeysAreCut | g15daemon-wip/g15daemon/utility_funcs.c:373-376 | a lone key comes back if and only if it is shorter than the line buffer |
| ConfigTyped.ReadPrinted | g15daemon-wip/g15daemon/utility_funcs.c:532-575 | a printed integer is read back, whatever its sign and size |
| ConfigTyped.ReadsNumber | g15daemon-wip/g15daemon/utility_funcs.c:567-575 | whatever its blanks, sign, leading zeros and the text behind it, a number is read as what it spells, and as zero without digits |
| ConfigTyped.EveryTextIsRead | g15daemon-wip/g15daemon/utility_funcs.c:567-575 | every text is of that form |
| ConfigTyped.PrintedPlainly | g15daemon-wip/g15daemon/utility_funcs.c:532-536 | a number is printed with a sign if and only if it is negative, and without leading zeros |
| ConfigTyped.ReadsSwitch | g15daemon-wip/g15daemon/utility_funcs.c:554-564 | a text is on if and only if it begins with On |
| ConfigTyped.PrintedSurvives | g15daemon-wip/g15daemon/utility_funcs.c:532-549 | printed numbers and switches survive being saved and loaded |
| ConfigTyped.WriteThenRead | g15daemon-wip/g15daemon/utility_funcs.c:532-575 | a typed write is what the next typed read answers, whatever the default |
| ConfigTyped.ReadsAreSticky | g15daemon-wip/g15daemon/utility_funcs.c:551-575 | once read, a key answers the same to every later read, and no other key is affected |
| ConfigTyped.StringsAreSticky | g15daemon-wip/g15daemon/utility_funcs.c:589-597 | the same for text, which comes back as written |
| Pixels.OnePixel | g15daemon/g15daemon/gfx_primitives.c:33-46 | setting or clearing the bit changes exactly one pixel |
| Pixels.SetPixel | g15daemon/g15daemon/gfx_primitives.c:33-46 | exactly the pixel at the coordinates changes |
| Pixels.PaintedUnique | g15daemon/g15daemon/gfx_primitives.c:33-46 | a picture determines the packed bytes: the buffer is a faithful image of the pixel map |
| Pixels.ConvertBuf | g15daemon-wip/g15daemon/utility_funcs.c:209-226 | pixel (x, y) is on if and only if byte x + 160 y is not zero; the bytes behind the screen stay |
| Drawing.LineShape | g15daemon/g15daemon/gfx_primitives.c:49-106 | the line stays in the box of its end points and within half a pixel of the ideal line |
| Drawing.LineEnds | g15daemon/g15daemon/gfx_primitives.c:73-105 | it contains both end points exactly |
| Drawing.LineOncePerStep | g15daemon/g15daemon/gfx_primitives.c:76-105 | it has one pixel at most for each step along the longer axis |
| Drawing.LineHasEveryStep | g15daemon/g15daemon/gfx_primitives.c:76-105 | and with one at least |
| Drawing.TracksStep | g15daemon/g15daemon/gfx_primitives.c:81-87 | one step of the error term keeps the drawn offset the nearest to the ideal line |
| Drawing.LineAlongX | g15daemon/g15daemon/gfx_primitives.c:76-90 | the loop for wide lines terminates and paints exactly the line |
| Drawing.LineAlongY | g15daemon/g15daemon/gfx_primitives.c:91-105 | the loop for high lines terminates and paints exactly the line |
| Drawing.Line | g15daemon/g15daemon/gfx_primitives.c:49-106 | for any two points on the screen exactly the pixels nearest to the ideal line are set, and no other pixel changes |
| Drawing.HorizontalLine | g15daemon/g15daemon/gfx_primitives.c:124-127 | a horizontal line is the interval between its ends |
| Drawing.FilledRectangle | g15daemon/g15daemon/gfx_primitives.c:109-130 | exactly the pixels of the box change |
| Clock.StrokesInside | g15daemon/g15daemon/gfx_primitives.c:133-197 | every rectangle of a digit lies in its padded cell |
| Clock.DrawBignum | g15daemon/g15daemon/gfx_primitives.c:133-197 | wherever its rectangles stay on the screen, a pixel shows the last rectangle that covers it, or what it was |
| Clock.CellFrame | g15daemon/g15daemon/gfx_primitives.c:133-197 | no pixel outside the padded cell changes |
| Clock.ShowsSegments | g15daemon/g15daemon/gfx_primitives.c:144-194 | in any cell, looked at in seven places, one in each segment, each digit shows its seven-segment pattern |
| Clock.GlyphLooks | g15daemon/g15daemon/gfx_primitives.c:133-197 | in any cell, for every character: a pixel is lit if and only if it is in one of the character's bars or dots |
| Clock.DrawClock | g15daemon/g15daemon/utility_funcs.c:316-334 | each column of the face depends on its own character only; all other pixels are dark |
| Clock.PictureIsTheTime | g15daemon/g15daemon/utility_funcs.c:316-334 | a pixel of the finished face is lit if and only if it is in a column of 20 pixels whose character is lit there |
| Clock.Centred | g15daemon/g15daemon/utility_funcs.c:316-334 | the face is in the middle, a leading one counting for 15 pixels more |
| Clock.PictureTells | g15daemon/g15daemon/utility_funcs.c:323-334 | every column of the finished face shows, in those places, the segments of its character |
| Clock.FaceReadable | g15daemon/g15daemon/utility_funcs.c:316-334 | two times of the same length that light the same pixels are the same time, although a leading one shifts the columns |
| Transfer.MoveCount | g15daemon-wip/plugins/g15_plugin_net.c:215-271 | a loop moves exactly what its turns offer, up to what was asked for and what is there |
| Transfer.MoveEnds | g15daemon-wip/plugins/g15_plugin_net.c:215-271 | it is cut short if and only if its last turn was an error, and no turn before was |
| Transfer.MovePrompt | g15daemon-wip/plugins/g15_plugin_net.c:215-271 | it takes no turn more than it needs |
| Transfer.MoveReads | g15daemon-wip/plugins/g15_plugin_net.c:177-195 | every turn that can move something moves a byte, while there is one |
| Transfer.DrainReads | g15daemon-wip/plugins/g15_plugin_net.c:316-320 | a serving loop that nothing stops reads a byte a turn, until everything is read |
| Transfer.DrainStops | g15daemon-wip/plugins/g15_plugin_net.c:316-320 | after the first failure nothing more is read, whatever might follow |
| Sockets.Connection.Recv | g15daemon-wip/plugins/g15_plugin_net.c:200-273 | the bytes read, the rounds used and the end of the connection are those of the loop above; the buffer holds the bytes, nothing else is overwritten, and every command is handled once, in order |
| Sockets.ReceiveOutcome | g15daemon-wip/plugins/g15_plugin_net.c:200-273 | a receive gets what its rounds offer, and gives up at the first failed read, shut stream, lost command or error condition without a try-again, and at nothing else |
| Sockets.CommandAt | g15daemon-wip/plugins/g15_plugin_net.c:218-238 | wherever a command is read among the rounds, it is handled between those before and those behind it; nothing else is handled |
| Sockets.Connection.RecvNowhere | g15daemon-wip/plugins/g15_plugin_net.c:345-349 | asking for more without a buffer takes nothing from the stream: it ends at the first round that finds something to read, or at an error; commands are still handled |
| Sockets.NowhereOutcome | g15daemon-wip/plugins/g15_plugin_net.c:345-349 | just so, or as soon as there is something to read |
| Sockets.Wire.Send | g15daemon-wip/plugins/g15_plugin_net.c:170-197 | exactly the part of the buffer that the rounds take goes out; -1 if and only if a round failed |
| Sockets.SendOutcome | g15daemon-wip/plugins/g15_plugin_net.c:170-197 | a send gets out what its rounds accept, and fails at the first write that is refused or lost, and at nothing else |
| Framing.ChunksOfPrefix | g15daemon-wip/plugins/g15_plugin_net.c:315-326 | a stream of frames cut anywhere holds exactly the frames that arrived whole |
| Framing.ServePacked | g15daemon-wip/plugins/g15_plugin_net.c:315-326 | it reads until the connection or the program ends, and puts on display, one by one, the consecutive 1048-byte frames of all that could be read |
| Framing.ServeUnpacked | g15daemon-wip/plugins/g15_plugin_net.c:302-314 | the same for images of 6880 bytes, each of which the displayed screen shows |
| Wbmp.Serve | g15daemon-wip/plugins/g15_plugin_net.c:327-358 | each read of up to 865 bytes that is not empty is taken for the front of a file; as long as the width in the buffer is 160 a screen is shown, however little the read brought; what is displayed, what is read and when it ends are determined |
| Wbmp.FilesAreShown | g15daemon-wip/plugins/g15_plugin_net.c:328-358 | if each read brings one file of an image 160 pixels wide, with its width in one byte or in two, each screen shown begins with that file's image, up to 43 rows of it |
| Wbmp.FilesAreRead | g15daemon-wip/plugins/g15_plugin_net.c:328-349 | if nothing stops the reads and there are rounds enough, each read brings one file |
| Wbmp.TooHigh | g15daemon-wip/plugins/g15_plugin_net.c:345-350 | the remainder of an image that is too high is asked for, at the cost of the rounds up to the one that finds something to read, or an error |
| Wbmp.OtherWidthEnds | g15daemon-wip/plugins/g15_plugin_net.c:332-353 | an image of another width is not shown, and nothing is after it |
| Wbmp.OtherWidthIsLast | g15daemon-wip/plugins/g15_plugin_net.c:332-353 | and nothing is read after it |
| Wbmp.AnyReadShows | g15daemon-wip/plugins/g15_plugin_net.c:329-357 | one byte is enough to put a screen on display, if the buffer holds a width of 160 |
| Framing.ClientThread | g15daemon-wip/plugins/g15_plugin_net.c:283-358 | the greeting goes out; unless that failed, the tag and what follows it are read to the end, and for each of the four kinds of tag (packed, one byte a pixel, bitmap files, anything else) what is displayed is determined by what the reads bring, for every cut and every command in between |
| Sockets.Inlet.Recv | g15daemon-wip/libg15daemon_client/g15daemon_net.c:182-205 | the client receives exactly what its rounds read; nothing to read ends the loop |
| Sockets.InletOutcome | g15daemon-wip/libg15daemon_client/g15daemon_net.c:182-205 | the client's receive gets what its rounds offer, and ends early at the end of the stream, an error, or a read that finds nothing |
| Framing.NewScreen | g15daemon-wip/libg15daemon_client/g15daemon_net.c:129-145 | the screen opens if and only if the whole greeting came, and only then is anything sent, namely the tag as far as the rounds take it |
| Framing.RunClient | g15daemon-wip/libg15daemon_client/g15daemon_net.c:93-180 | exactly what a client sends: the tag of its kind of screen and its frames, each as far as the rounds take it, by a client that stops at a failure or by one that goes on |
| Framing.StoppingSendsPrefix | g15daemon-wip/libg15daemon_client/g15daemon_net.c:153-180 | a client that stops at a failure sends a front part of its frames |
| Framing.AllSent | g15daemon-wip/libg15daemon_client/g15daemon_net.c:153-180 | if no send fails and there are rounds enough, all frames go out |
| Framing.PackedEndToEnd | g15daemon-wip/plugins/g15_plugin_net.c:297-326 | of a session, whatever part has arrived, the screens displayed are exactly the frames that arrived whole, in order |
| Framing.UnpackedEndToEnd | g15daemon-wip/plugins/g15_plugin_net.c:297-314 | the same for images of one byte a pixel |
| Framing.PackedAllArrived | g15daemon-wip/plugins/g15_plugin_net.c:297-326 | once the whole session has arrived, the screens displayed are the frames |
| Framing.UnpackedAllArrived | g15daemon-wip/plugins/g15_plugin_net.c:297-314 | the same for images |
| Framing.ReadsEverything | g15daemon-wip/plugins/g15_plugin_net.c:283-326 | for both kinds of screens, a server that nothing stops reads the whole stream, given rounds enough |
| Framing.PackedSessionComplete | g15daemon-wip/plugins/g15_plugin_net.c:297-326 | both ends undisturbed: the screens displayed are the frames the client sent, all of them, whatever the cuts |
| Framing.UnpackedSessionComplete | g15daemon-wip/plugins/g15_plugin_net.c:297-314 | the same for images: each is shown, in order |
| Framing.BitmapSessionComplete | g15daemon-wip/plugins/g15_plugin_net.c:327-358 | the same for bitmap files that fill a read: each screen displayed is the image of a file that the client sent |
| Framing.TextShowsNothing | g15daemon-wip/plugins/g15_plugin_net.c:300-359 | nothing is read behind the tag of a text screen, and nothing displayed |
| Misaligned.SeenIff | g15daemon-wip/libg15daemon_client/g15daemon_net.c:153-180 | for any cuts of any number of frames, and any number of bytes the server takes off the front: exactly the frames sent whole are seen, whatever they contain, if and only if the cuts carry them |
| Misaligned.CarriedFromStart | g15daemon-wip/libg15daemon_client/g15daemon_net.c:153-180 | behind a whole tag the cuts carry the frames if and only if fewer bytes than make a screen follow from the first partly sent frame on |
| Misaligned.ShowsWholesIff | g15daemon-wip/libg15daemon_client/g15daemon_net.c:136-145 | the same, for both kinds of screens, if and only if with the tag cut short as well; with the tag lost, if and only if at most four bytes go out after it, because a fifth may already put a screen on display |
| Misaligned.ClientShownIff | g15daemon-wip/libg15daemon_client/g15daemon_net.c:93-180 | for every course a client's sends can take, and for both kinds of screens: the server displays exactly the frames sent whole, whatever they contain, if and only if tag and cuts carry them |
| Misaligned.ImpostorServed | g15daemon-wip/plugins/g15_plugin_net.c:327-357 | the failing case happens: bytes that spell a W and a width of 160 are shown as a screen by every server that reads anything behind the first four |
| Misaligned.StoppingIsCarried | g15daemon-wip/libg15daemon_client/g15daemon_net.c:153-180 | a client that stops at its first failure is always safe behind a whole tag |
| Misaligned.EveryCutHappens | g15daemon-wip/libg15daemon_client/g15daemon_net.c:166-169 | every way of cutting frames is the course of some sends |
| Misaligned.SendingOnMisaligns | g15daemon-wip/libg15daemon_client/g15daemon_net.c:166-169 | for both kinds of screens, a frame with a whole one behind it comes through, for all contents, if and only if it went out whole or not at all |
| Misaligned.ScrapsAreHarmless | g15daemon-wip/libg15daemon_client/g15daemon_net.c:166-169 | behind a whole tag two frames of which a single byte went out make no screen |
| Misaligned.ScrapsBehindLostTag | g15daemon-wip/libg15daemon_client/g15daemon_net.c:136-145 | behind a lost tag five bytes of one frame can make one |
| Misaligned.LostTagMisaligns | g15daemon-wip/libg15daemon_client/g15daemon_net.c:136-145 | for both kinds of screens, whole frames behind a tag come through, for all contents, if and only if the tag is whole or there are none; the client library does not report a failed tag |
| Keys.PassApplies | g15daemon-wip/plugins/g15_plugin_uinput.c:165-307 | one pass over the keys turns the codes held for the old mask into those of the new one, by legal presses and releases |
| Keys.EventsFollowMasks | g15daemon-wip/plugins/g15_plugin_uinput.c:165-316 | for every sequence of masks each code's events alternate, starting with a press, and the codes held are exactly those of the last mask |
| Keys.HeldByCode | g15daemon-wip/plugins/g15_plugin_uinput.c:165-307 | the codes held are those from 167 on of the keys that are down, in the order of the keys; the L keys count only if they are mapped |
| Keys.UInput.KeyPress | g15daemon-wip/plugins/g15_plugin_uinput.c:310-318 | the plugin with its memory of the last mask emits those events |
| Keys.HandlerIsConnected | g15daemon-wip/plugins/g15_plugin_net.c:108-114 | over every run the remote key handler is nobody or a connected client |
| Keys.ConnectedIff | g15daemon-wip/plugins/g15_plugin_net.c:359-366 | over every run a client is connected if and only if it has connected and not gone since |
| Keys.GoneGetsNothing | g15daemon-wip/plugins/g15_plugin_net.c:359-366 | over every run nothing is sent to a client that has gone, until one connects by the same socket |
| Keys.HandlerStays | g15daemon-wip/plugins/g15_plugin_net.c:108-114 | a client that takes over is the remote handler until it goes or another takes over; when it goes there is none |
| Keys.OrdinaryKeyOnce | g15daemon-wip/g15daemon/main.c:71-95 | an ordinary key reaches the remote handler once, even when it is on display, the client on display once, no other client, and the keyboard plugin exactly if nobody has taken over |
| Keys.CycleKeyFiltered | g15daemon-wip/g15daemon/main.c:71-139 | neither the keyboard plugin nor the remote handler is sent the cycle key |
| Keys.CycleKeyClick | g15daemon-wip/g15daemon/main.c:111-139 | the cycle key goes down and comes up, whatever happens in between: within half a second of the last key event, on a counter that wraps, the screens are cycled and nothing is sent; later, the client on display gets the keys with the cycle key and then without |
| Keys.OrdinaryIff | g15daemon-wip/g15daemon/main.c:74-143 | over every run, a key event is an ordinary one if and only if the cycle key is down neither in it nor in the one before |
| Keys.RunNeverHoldsCycleKey | g15daemon-wip/g15daemon/main.c:71-143 | over every run no mask delivered to the keyboard plugin contains the cycle key |
| Keys.OsKeyboard | g15daemon-wip/plugins/g15_plugin_uinput.c:165-318 | filter and edge detector together: over every run presses and releases alternate and the cycle key is never held |
| Keys.InStepNext | g15daemon-wip/g15daemon/main.c:71-95 | from a state in which the operating system holds the keys that are down, an event keeps it so if and only if it is delivered or changes no mapped key |
| Keys.InStepIff | g15daemon-wip/g15daemon/main.c:71-95 | over every run the operating system holds exactly the keys that are down, the cycle key apart, if and only if each press event that changes a mapped key is ordinary, with a plugin on display, a keyboard plugin loaded and no remote handler |
| Keys.HeldThroughTakeOver | g15daemon-wip/g15daemon/main.c:87-90 | it fails for a key released after a client has taken over: the key stays held |
| Keys.HeldUnderTheClock | g15daemon-wip/g15daemon/main.c:76-77 | it fails for a key released while the bare clock is on display |
| Keys.HeldUnderTheCycleKey | g15daemon-wip/g15daemon/main.c:114-137 | it fails for a key released while the cycle key is used |
| Scan.PiecesOfLines | g15daemon-clients/g15macro/g15macro.c:748-779 | a text of lines that fit the buffer is read back as those lines |
| Scan.ScanPrinted | g15daemon-clients/g15macro/g15macro.c:759-772 | a printed number is scanned as itself in spite of the base prefixes |
| Scan.ScanHex | g15daemon-clients/g15macro/g15macro.c:759-777 | a number behind 0x is scanned as hexadecimal, in small or capital letters |
| Scan.ScanOctal | g15daemon-clients/g15macro/g15macro.c:759-777 | a number behind a zero is scanned as octal |
| Scan.ScanSigned | g15daemon-clients/g15macro/g15macro.c:759-777 | a sign in front counts |
| Scan.MatchPrinted | g15daemon-clients/g15macro/g15macro.c:759-764 | a format printed literally is matched |
| Scan.MatchBlanks | g15daemon-clients/g15macro/g15macro.c:759-764 | a blank of a format stands for any blanks, or none |
| Scan.ScanNoNumber | g15daemon-clients/g15macro/g15macro.c:759-772 | what begins with no digit or sign is no number |
| Macros.StepLineScans | g15daemon-clients/g15macro/g15macro.c:768-777 | a printed key step is scanned as the same key code, direction and modifiers |
| Macros.StateLineScans | g15daemon-clients/g15macro/g15macro.c:758-762 | an M-state title is scanned as its index, whatever the variable held |
| Macros.KeyLineScans | g15daemon-clients/g15macro/g15macro.c:763-767 | a key title is scanned as its index |
| Macros.RestoreKey | g15daemon-clients/g15macro/g15macro.c:763-778 | the lines of one key set that key if it has a macro, and nothing else |
| Macros.RestoreDump | g15daemon-clients/g15macro/g15macro.c:854-871 | restoring a dump over any tables gives every dumped macro back step by step, keeps the keys without one, and takes the file for the first version |
| Macros.RestoreIntoClean | g15daemon-clients/g15macro/g15macro.c:854-871 | restoring is the inverse of dumping if and only if the keys without a macro were clean |
| Macros.Recorder.CleanMstates | g15daemon-clients/g15macro/g15macro.c:495-509 | every key of every M-state is left without a macro |
| Macros.Recorder.DumpConfig | g15daemon-clients/g15macro/fileHandling.c:151-179 | the nested loops write exactly the dump |
| Macros.Recorder.RestoreV1Config | g15daemon-clients/g15macro/g15macro.c:735-782 | the reading loop does what the line rules give, for every text, and fails exactly if it would leave its arrays |
| Macros.StepByHand | g15daemon-clients/g15macro/g15macro.c:768-777 | a step written with any blanks is scanned as its key code, its direction (a release exactly if it begins with Up) and modifiers; words too long for their arrays are refused |
| Macros.ModifiersByHand | g15daemon-clients/g15macro/g15macro.c:768-777 | the modifiers are the number behind the direction, or zero |
| Macros.StepNeedsTwoWords | g15daemon-clients/g15macro/g15macro.c:768-777 | a step without a key or without a direction is refused |
| Macros.TitleWithoutNumber | g15daemon-clients/g15macro/g15macro.c:758-767 | a title without a number counts down from the last one, on a counter that wraps |
| Macros.RemarksAreIgnored | g15daemon-clients/g15macro/g15macro.c:751-754 | remarks, and lines that are neither titles nor steps, make no difference wherever they stand |
| Macros.StepsWithoutTitle | g15daemon-clients/g15macro/g15macro.c:735-782 | steps before any title belong to the first key of the first M-state |
| Macros.RestoredFits | g15daemon-clients/g15macro/g15macro.c:735-782 | whatever the file, the restored tables have 54 keys of at most 1024 steps |
| Macros.StrayStepFaults | g15daemon-clients/g15macro/g15macro.c:768-777 | a step for a key that does not exist, or one too many, is refused |
| Macros.VersionIsFirstDeclared | g15daemon-clients/g15macro/g15macro.c:702-732 | a file has the version of its first line that declares one, and version zero if and only if no line does |
| Macros.DeclaresPrinted | g15daemon-clients/g15macro/g15macro.c:712-714 | a version line declares the number it spells |
| Macros.OthersDeclareNothing | g15daemon-clients/g15macro/g15macro.c:712-714 | a line that begins otherwise declares none |
| Macros.DeclaresNoNumber | g15daemon-clients/g15macro/g15macro.c:712-714 | a version line without a number declares none |
| Macros.VersionDecides | g15daemon-clients/g15macro/g15macro.c:854-871 | without a version line the file is read as the first version was written; of version 1 nothing is read, version 2 goes to another reader, any later one is refused |
| Macros.Recorder.IdentifyConfigVer | g15daemon-clients/g15macro/g15macro.c:693-733 | the reading loop finds that version |
| Macros.Recorder.RestoreConfig | g15daemon-clients/g15macro/g15macro.c:854-871 | the version decides which reader is used |
| Macros.Recorder.SaveAndReload | g15daemon-clients/g15macro/fileHandling.c:151-179 | saving, cleaning and loading is the identity |
| Sensors.FirstLeft | g15daemon-clients/g15stats/g15stats.c:402-415 | the next sensor is the first in turn with failures left, itself last; none exactly if all are exhausted |
| Sensors.InTurn | g15daemon-clients/g15stats/g15stats.c:402-415 | in turn means: the next higher sensor with failures left, else the lowest such one, up to the sensor itself |
| Sensors.Leading | g15daemon-clients/g15stats/g15stats.c:429-432 | the probes counted answer and the next one does not |
| Sensors.FailKeeps | g15daemon-clients/g15stats/g15stats.c:454-484 | every failure either ends the search or leaves less to do |
| Sensors.SettleOutcome | g15daemon-clients/g15stats/g15stats.c:417-492 | for any sensor behaviour: 0 is returned exactly if the screen is given up, every sensor then being exhausted; otherwise the number of leading good probes |
| Sensors.SettleCost | g15daemon-clients/g15stats/g15stats.c:454-484 | the exact number of searches, as failures charged and places switched |
| Sensors.GivesUpOnlyAfterAll | g15daemon-clients/g15stats/g15stats.c:454-484 | giving up means that every candidate failed in both places |
| Sensors.FindsACandidate | g15daemon-clients/g15stats/g15stats.c:454-492 | what is found was a candidate in a place still to be tried |
| Sensors.GivesUpIff | g15daemon-clients/g15stats/g15stats.c:417-492 | with sensors that do not come and go, the screen is given up if and only if no candidate answers anywhere |
| Sensors.Monitor.NextSensor | g15daemon-clients/g15stats/g15stats.c:402-415 | the do loop stops and finds that sensor |
| Sensors.Monitor.Search | g15daemon-clients/g15stats/g15stats.c:417-492 | the recursion that changes the tables in place terminates and does exactly this search |
| Tail.RingStep | g15daemon-clients/g15-utils/g15tailf.c:113-118 | writing one more chunk keeps the ring equal to the last chunks, wrapped or not |
| Tail.Fill | g15daemon-clients/g15-utils/g15tailf.c:110-118 | after reading, the ring holds the last chunks of the file |
| Tail.Tail | g15daemon-clients/g15-utils/g15tailf.c:110-136 | the rows are the last chunks in file order, for every text and every ring size |
| Tail.ShowsLastLines | g15daemon-clients/g15-utils/g15tailf.c:110-136 | a file of lines is shown by its last lines, on successive rows, ending at the bottom or, if there are too few, beginning on the second row |
| Tail.NothingLostIff | g15daemon-clients/g15-utils/g15tailf.c:119-121 | only line ends are dropped if and only if every chunk shown ends a line |

## Left out

- ScreenList.ScreenList.Cycle: requires that some screen can be selected; without one the source loops forever with the mutex held, and `Screens.CycleStopsIff` says exactly when that is.
- Screens.RunOkIff: says nothing about what follows a state that is not sound; the daemon then works on a freed node.
- ScreenList.ScreenList.RequestPriority: a request that hands back to a removed screen leaves it on display; what reading a freed node then does is not modelled.
- ConfigList.ConfigSection.Remove: the double free of a sole item is a `Fault` after which nothing is claimed.
- ConfigList.WriteInt: numbers are unbounded here, so every 32-bit number is covered; `atoi` outside that range is not modelled.
- ConfigTyped.ReadsAreSticky: floating-point values are not modelled.
- Wbmp.Serve: reading into a null pointer is taken to fail without losing anything, as soon as there is something to read.
- Wbmp.FilesAreShown: the rows below an image that is less than 43 pixels high, which keep what they showed before, are part of `Wbmp.Serve` but not spelt out pixel by pixel.
- Sockets.Connection.Recv: out-of-band commands are handed on in order; of what they do, never-select, priority requests and takeover are modelled in `ScreenList` and `Keys`, the lights and contrast are not.
- Framing.RunClient: the caller is a program that sends its frames one after the other, and after a failure either stops or goes on.
- Keys.OrdinaryKeyOnce: the screen on display has a plugin; with the bare clock on display the source drops the key, and the model does too. Failing sends are not modelled.
- Keys.CycleKeyFiltered: a long press with the bare clock on display calls through a null pointer in the source; the model marks it as `NoListener`. The light key's and screen dump's side effects are left out.
- Macros.RestoreDump: the reader of version 2 files is not modelled (`Newer`); macros that start a program are not dumped in this format.
- Macros.Recorder.RestoreConfig: a version 2 file is only reported as one; its reader is not modelled, because nothing modelled here writes that layout.
- Sensors.Monitor.Search: the running totals and maxima of the readings are not modelled.
- Tail.Tail: the horizontal offset is left to the renderer; buffers that were never filled, of which the source reads the length, are only required to be there.
- Unfilled rectangles: the source passes a wrong coordinate and nothing calls it that way.
- Clock.DrawBignum: the cases of the source's switch are a table of rectangles drawn in order; a rectangle that would leave the buffer is excluded.
- The refresh counter and condition variable: the counter is unprotected, so no claim about lost refreshes holds as written.
- The legacy key handler variables of the list file: nothing sets them.
- Rendering text, message boxes, the network history, multimedia keys, and everything that talks to USB, X11, sockets or the file system.
